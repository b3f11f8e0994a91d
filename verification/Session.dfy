/** A download session: the PIECE, CHOKE and REJECT handlers, the block picker, endgame and peer removal, run in any
    order, over the request books, the verified flags and the stored data. */
module Session {
  import opened Sequences
  import opened Options
  import opened Bytes
  import opened Storage
  import opened Torrents
  import opened Downloads
  import Sha1Standard

  const BLOCK: nat := 16384

  /** What the scheduler looks at in a peer. */
  datatype Peer = Peer(bitfield: Option<set<nat>>, choked: bool, fast: bool)

  /** A PIECE message whose data was stored. */
  datatype Accepted = Accepted(idx: nat, off: nat, data: seq<Byte>)

  /** `peerList` is the session's peer queue, `ok` the CKSUMOK flags; `log` records the accepted PIECE messages. */
  datatype State = State(books: Books, peers: map<PeerId, Peer>, peerList: seq<PeerId>, ok: seq<bool>, good: nat,
                         left: int, files: Files, log: seq<Accepted>)

  // ---------- Blocks ----------

  /** The length of the block at `off` in a piece of `len` octets. */
  function BlockLen(len: nat, off: nat): nat
    requires off <= len
  {
    if BLOCK > len - off then len - off else BLOCK
  }

  /** An offset that the block loops visit. */
  predicate IsBlock(len: nat, off: nat) { off < len && off % BLOCK == 0 }

  /** The block that contains octet `x`. */
  function BlockOf(x: nat): nat { x / BLOCK * BLOCK }

  /** The blocks of a piece tile it: octet `x` lies in exactly the block `BlockOf(x)`. */
  lemma BlocksTile(len: nat, off: nat, x: nat)
    requires x < len && IsBlock(len, off)
    ensures IsBlock(len, BlockOf(x))
    ensures off <= x < off + BlockLen(len, off) <==> off == BlockOf(x)
  {
    var q := x / BLOCK;
    assert BLOCK * q <= x < BLOCK * q + BLOCK;
    assert off == BLOCK * (off / BLOCK);
    assert BlockOf(x) % BLOCK == 0;
  }

  // ---------- Invariant ----------

  /** Every request is for a block of a piece, with that block's length. */
  ghost predicate Aligned(t: Torrent, b: Books) {
    forall d :: d in b.dls ==>
      var dl := b.dls[d];
      && dl.key.idx < t.numPieces && IsBlock(Length(t, dl.key.idx), dl.key.off)
      && dl.len == BlockLen(Length(t, dl.key.idx), dl.key.off)
  }

  /** An entry with octets to its credit had a PIECE message accepted for its whole block. */
  ghost predicate Credited(b: Books, log: seq<Accepted>) {
    forall d :: d in b.dls && b.dls[d].bytes != 0 ==>
      BlockCame(log, b.dls[d].key, b.dls[d].len)
  }

  /** A PIECE message with `len` octets for block `k` was accepted. */
  ghost predicate BlockCame(log: seq<Accepted>, k: Key, len: nat) {
    exists m :: m in log && m.idx == k.idx && m.off == k.off && |m.data| == len
  }

  function Count(ok: seq<bool>): nat {
    if ok == [] then 0 else (if ok[0] then 1 else 0) + Count(ok[1..])
  }

  ghost predicate PeersMatch(s: State) {
    && s.books.lists.Keys == s.peers.Keys
    && NoDup(s.peerList) && forall p :: p in s.peerList <==> p in s.peers
  }

  ghost predicate Inv(t: Torrent, s: State) {
    && Agree(s.books) && Aligned(t, s.books) && Credited(s.books, s.log)
    && PeersMatch(s)
    && |s.ok| == t.numPieces && s.good == Count(s.ok)
    && HasShape(t, s.files)
  }

  // ---------- Books that only lose entries, or gain a given one ----------

  ghost predicate Shrinks(b: Books, r: Books) {
    && r.lists.Keys == b.lists.Keys
    && forall d :: d in r.dls ==> d in b.dls && r.dls[d] == b.dls[d]
  }

  /** Entries keep their block, length and count of octets; owners may change. */
  ghost predicate KeepsBlocks(b: Books, r: Books) {
    forall d :: d in r.dls ==> d in b.dls && r.dls[d].key == b.dls[d].key && r.dls[d].len == b.dls[d].len
                               && r.dls[d].bytes == b.dls[d].bytes
  }

  lemma KeepsInvariants(t: Torrent, b: Books, r: Books, log: seq<Accepted>)
    requires Aligned(t, b) && Credited(b, log) && KeepsBlocks(b, r)
    ensures Aligned(t, r) && Credited(r, log)
  {
    hide Length, BlockLen, IsBlock;
    assert forall d :: d in r.dls ==> d in b.dls;
  }

  // ---------- PIECE ----------

  /** The completeness loop of the PIECE handler, from offset `off` on, as peer `p` sees the requests. */
  predicate AllComplete(b: Books, p: PeerId, idx: nat, len: nat, off: nat)
    decreases len + BLOCK - off
  {
    if off >= len then true
    else
      var d := Find(b, Some(p), Key(idx, off));
      d.Some? && d.value in b.dls && Complete(b.dls[d.value]) && AllComplete(b, p, idx, len, off + BLOCK)
  }

  /** The clean-up loop: the first entry of each block of the piece is freed. */
  function FreeBlocks(b: Books, idx: nat, len: nat, off: nat): (r: Books)
    requires Agree(b)
    ensures Agree(r) && Shrinks(b, r)
    decreases len + BLOCK - off
  {
    if off >= len then b
    else
      FindFacts(b, None, Key(idx, off));
      var d := Find(b, None, Key(idx, off));
      if d.None? then FreeBlocks(b, idx, len, off + BLOCK)
      else
        FreeAgrees(b, d.value);
        FreeBlocks(Free(b, d.value), idx, len, off + BLOCK)
  }

  /** The hash check that follows a stored block which seems to complete its piece. */
  function Checked(t: Torrent, s: State, idx: nat): State
    requires idx < t.numPieces == |s.ok| == |t.hashes| && Agree(s.books)
    requires AllFit(s.files, SegmentsOf(t, idx))
  {
    var books := FreeBlocks(s.books, idx, Length(t, idx), 0);
    if Sha1Standard.Hash(PieceData(t, s.files, idx)) == t.hashes[idx]
    then s.(books := books, ok := s.ok[idx := true], good := s.good + 1, left := s.left - Length(t, idx))
    else s.(books := books)
  }

  /** Storing the block and counting its octets on the entry `d`. */
  function Stored(t: Torrent, s: State, idx: nat, off: nat, data: seq<Byte>, d: DlId): State
    requires idx < t.numPieces && d in s.books.dls && AllFit(s.files, SegmentsOf(t, idx))
  {
    s.(files := WriteSegs(s.files, SegmentsOf(t, idx), off, data),
       books := Credit(s.books, d, |data|),
       log := s.log + [Accepted(idx, off, data)])
  }

  /** A killed peer's state word is cleared but for the dead bit. */
  function Kill(s: State, p: PeerId): State {
    if p in s.peers then s.(peers := s.peers[p := s.peers[p].(choked := false, fast := false)]) else s
  }

  /** The PIECE handler. */
  function OnPiece(t: Torrent, s: State, p: PeerId, idx: nat, off: nat, data: seq<Byte>): State
    requires ValidTorrent(t) && Inv(t, s)
  {
    if idx >= t.numPieces || off > Length(t, idx) then s
    else
      FindFacts(s.books, Some(p), Key(idx, off));
      var d := Find(s.books, Some(p), Key(idx, off));
      if d.None? then Kill(s, p)
      else if |data| != s.books.dls[d.value].len then s
      else if s.ok[idx] then s
      else
        PieceSegments(t, s.files, idx);
        var s1 := Stored(t, s, idx, off, data, d.value);
        if AllComplete(s1.books, p, idx, Length(t, idx), 0)
        then
          CreditAgrees(s.books, d.value, |data|);
          Checked(t, s1, idx)
        else s1
  }

  /** Every octet of the piece was brought by some accepted PIECE message. */
  ghost predicate FullyReceived(t: Torrent, log: seq<Accepted>, idx: nat)
    requires idx < t.numPieces
  {
    forall x :: 0 <= x < Length(t, idx) ==> Received(log, idx, x)
  }

  ghost predicate Received(log: seq<Accepted>, idx: nat, x: nat) {
    exists m :: m in log && m.idx == idx && m.off <= x < m.off + |m.data|
  }

  lemma {:induction false} CompleteBlocks(t: Torrent, b: Books, log: seq<Accepted>, p: PeerId, idx: nat, off: nat, blk: nat)
    requires Agree(b) && Aligned(t, b) && Credited(b, log) && idx < t.numPieces
    requires off % BLOCK == 0 && AllComplete(b, p, idx, Length(t, idx), off)
    requires off <= blk && IsBlock(Length(t, idx), blk)
    ensures BlockCame(log, Key(idx, blk), BlockLen(Length(t, idx), blk))
    decreases blk - off
  {
    if off == blk {
      FindFacts(b, Some(p), Key(idx, off));
    } else {
      BlockSteps(off, blk);
      CompleteBlocks(t, b, log, p, idx, off + BLOCK, blk);
    }
  }

  lemma BlockSteps(off: nat, blk: nat)
    requires off % BLOCK == 0 && blk % BLOCK == 0 && off < blk
    ensures off + BLOCK <= blk && (off + BLOCK) % BLOCK == 0
  {}

  /** The hash check is only reached when the whole piece has been received. */
  lemma CheckMeansReceived(t: Torrent, b: Books, log: seq<Accepted>, p: PeerId, idx: nat)
    requires Agree(b) && Aligned(t, b) && Credited(b, log) && idx < t.numPieces
    requires AllComplete(b, p, idx, Length(t, idx), 0)
    ensures FullyReceived(t, log, idx)
  {
    hide AllComplete, Length, Aligned, Credited, Agree, IsBlock, BlockLen;
    var len := Length(t, idx);
    forall x | 0 <= x < len
      ensures Received(log, idx, x)
    {
      TileOf(len, x);
      var blk := BlockOf(x);
      CompleteBlocks(t, b, log, p, idx, 0, blk);
      var m :| m in log && m.idx == idx && m.off == blk && |m.data| == BlockLen(len, blk);
      assert m.off <= x < m.off + |m.data|;
    }
  }

  lemma TileOf(len: nat, x: nat)
    requires x < len
    ensures IsBlock(len, BlockOf(x)) && BlockOf(x) <= x < BlockOf(x) + BlockLen(len, BlockOf(x))
  {
    assert BlockOf(x) % BLOCK == 0;
    BlocksTile(len, BlockOf(x), x);
  }

  /** Storing a block keeps the invariant. */
  lemma StoredKeeps(t: Torrent, s: State, p: PeerId, idx: nat, off: nat, data: seq<Byte>, d: DlId)
    requires ValidTorrent(t) && Inv(t, s) && idx < t.numPieces
    requires d in s.books.dls && s.books.dls[d].key == Key(idx, off) && |data| == s.books.dls[d].len
    requires AllFit(s.files, SegmentsOf(t, idx))
    ensures Inv(t, Stored(t, s, idx, off, data, d))
  {
    hide Length, BlockLen, IsBlock, Agree, SegmentsOf, Count;
    CreditAgrees(s.books, d, |data|);
  }

  lemma {:induction false} CountSet(ok: seq<bool>, i: nat)
    requires i < |ok| && !ok[i]
    ensures Count(ok[i := true]) == Count(ok) + 1
    decreases |ok|
  {
    if i > 0 {
      assert ok[i := true][1..] == ok[1..][i - 1 := true];
      CountSet(ok[1..], i - 1);
    } else {
      assert ok[i := true][1..] == ok[1..];
    }
  }

  lemma CheckedKeeps(t: Torrent, s: State, idx: nat)
    requires ValidTorrent(t) && Inv(t, s) && idx < t.numPieces && !s.ok[idx] && AllFit(s.files, SegmentsOf(t, idx))
    ensures Inv(t, Checked(t, s, idx))
  {
    hide Length, SegmentsOf, Agree, FreeBlocks, Count, Sha1Standard.Hash, PieceData;
    KeepsInvariants(t, s.books, FreeBlocks(s.books, idx, Length(t, idx), 0), s.log);
    CountSet(s.ok, idx);
  }

  lemma OnPieceKeeps(t: Torrent, s: State, p: PeerId, idx: nat, off: nat, data: seq<Byte>)
    requires ValidTorrent(t) && Inv(t, s)
    ensures Inv(t, OnPiece(t, s, p, idx, off, data))
  {
    hide Length, SegmentsOf, Agree, Stored, Checked, AllComplete, Count;
    if idx < t.numPieces && off <= Length(t, idx) {
      FindFacts(s.books, Some(p), Key(idx, off));
      var d := Find(s.books, Some(p), Key(idx, off));
      if d.Some? && |data| == s.books.dls[d.value].len && !s.ok[idx] {
        PieceSegments(t, s.files, idx);
        StoredKeeps(t, s, p, idx, off, data, d.value);
        var s1 := Stored(t, s, idx, off, data, d.value);
        StoredFrame(t, s, idx, off, data, d.value);
        if AllComplete(s1.books, p, idx, Length(t, idx), 0) {
          CheckedKeeps(t, s1, idx);
        }
      }
    }
  }

  lemma StoredFrame(t: Torrent, s: State, idx: nat, off: nat, data: seq<Byte>, d: DlId)
    requires ValidTorrent(t) && HasShape(t, s.files) && idx < t.numPieces && d in s.books.dls
    requires AllFit(s.files, SegmentsOf(t, idx))
    ensures var s1 := Stored(t, s, idx, off, data, d);
      s1.ok == s.ok && s1.books == Credit(s.books, d, |data|) && AllFit(s1.files, SegmentsOf(t, idx))
      && HasShape(t, s1.files) && s1.good == s.good && s1.left == s.left
  {}

  // ---------- What the hash check guarantees ----------

  /** Storing a block of one piece does not touch the data of another. */
  lemma StoreElsewhere(t: Torrent, files: Files, idx: nat, off: nat, data: seq<Byte>, i: nat)
    requires ValidTorrent(t) && HasShape(t, files) && idx < t.numPieces && i < t.numPieces && i != idx
    ensures AllFit(files, SegmentsOf(t, idx)) && AllFit(files, SegmentsOf(t, i))
    ensures var files' := WriteSegs(files, SegmentsOf(t, idx), off, data);
      AllFit(files', SegmentsOf(t, i)) && PieceData(t, files', i) == PieceData(t, files, i)
  {
    hide SegmentsOf, WriteSegs;
    PieceSegments(t, files, idx);
    PieceSegments(t, files, i);
    PiecesApart(t, i, idx);
    WriteConfined(files, SegmentsOf(t, idx), off, data, SegmentsOf(t, i));
  }

  /** The octets of piece `i` are the same in both states, and it is verified in both. */
  ghost predicate StaysVerified(t: Torrent, s: State, s': State, i: nat) {
    && i < t.numPieces == |s.ok| == |s'.ok| && s.ok[i] && s'.ok[i]
    && AllFit(s.files, SegmentsOf(t, i)) && AllFit(s'.files, SegmentsOf(t, i))
    && PieceData(t, s'.files, i) == PieceData(t, s.files, i)
  }

  /** A PIECE message cannot change a verified piece. */
  lemma OnPieceSafe(t: Torrent, s: State, p: PeerId, idx: nat, off: nat, data: seq<Byte>, i: nat)
    requires ValidTorrent(t) && Inv(t, s) && i < t.numPieces && s.ok[i]
    ensures StaysVerified(t, s, OnPiece(t, s, p, idx, off, data), i)
  {
    hide SegmentsOf, Length, Agree, AllComplete, PieceData, FreeBlocks, Count, Sha1Standard.Hash, WriteSegs;
    PieceSegments(t, s.files, i);
    if idx < t.numPieces && idx != i {
      StoreElsewhere(t, s.files, idx, off, data, i);
    }
  }

  /** A piece becomes verified only when all of it was received and its stored octets have the expected hash. */
  lemma OnPieceVerifies(t: Torrent, s: State, p: PeerId, idx: nat, off: nat, data: seq<Byte>, i: nat)
    requires ValidTorrent(t) && Inv(t, s) && i < t.numPieces && !s.ok[i]
    ensures var s' := OnPiece(t, s, p, idx, off, data);
      |s'.ok| == t.numPieces && s'.ok[i] ==>
      && i == idx && AllFit(s'.files, SegmentsOf(t, i))
      && Sha1Standard.Hash(PieceData(t, s'.files, i)) == t.hashes[i]
      && FullyReceived(t, s'.log, i)
      && s'.left == s.left - Length(t, i)
  {
    hide SegmentsOf, Length, Agree, AllComplete, PieceData, FreeBlocks, Count, Sha1Standard.Hash, WriteSegs, FullyReceived, Aligned, Credited;
    var s' := OnPiece(t, s, p, idx, off, data);
    if !(|s'.ok| == t.numPieces && s'.ok[i]) { return; }
    assert idx < t.numPieces && off <= Length(t, idx);
    FindFacts(s.books, Some(p), Key(idx, off));
    var d := Find(s.books, Some(p), Key(idx, off)).value;
    PieceSegments(t, s.files, idx);
    StoredKeeps(t, s, p, idx, off, data, d);
    var s1 := Stored(t, s, idx, off, data, d);
    PieceSegments(t, s1.files, idx);
    CheckMeansReceived(t, s1.books, s1.log, p, idx);
  }

  // ---------- The block picker ----------

  /** A block that nobody is fetching: no request for it, or an orphaned one that is not complete. */
  predicate Unassigned(b: Books, k: Key) {
    var d := Find(b, None, k);
    d.None? || d.value !in b.dls || (b.dls[d.value].owner.None? && !Complete(b.dls[d.value]))
  }

  /** scheduler_piece_assigned, from offset `off` on. */
  predicate AssignedFrom(b: Books, idx: nat, len: nat, off: nat)
    decreases len + BLOCK - off
  {
    off >= len || (!Unassigned(b, Key(idx, off)) && AssignedFrom(b, idx, len, off + BLOCK))
  }

  predicate Assigned(t: Torrent, b: Books, idx: nat)
    requires idx < t.numPieces
  {
    AssignedFrom(b, idx, Length(t, idx), 0)
  }

  lemma {:induction false} AssignedFacts(b: Books, idx: nat, len: nat, off: nat)
    requires off % BLOCK == 0
    ensures AssignedFrom(b, idx, len, off)
      <==> forall x :: off <= x && IsBlock(len, x) ==> !Unassigned(b, Key(idx, x))
    decreases len + BLOCK - off
  {
    if off < len {
      assert (off + BLOCK) % BLOCK == 0;
      AssignedFacts(b, idx, len, off + BLOCK);
      forall x | off < x && IsBlock(len, x)
        ensures off + BLOCK <= x
      {
        BlockSteps(off, x);
      }
      assert IsBlock(len, off);
    }
  }

  /** What the picker takes from outside: the index nodes in tree order, a random number, the rarity array. */
  datatype Chance = Chance(nodes: seq<Key>, random: nat, rarity: seq<nat>)

  predicate HasPiece(peer: Peer, i: nat) { peer.bitfield.Some? && i in peer.bitfield.value }

  /** A piece worth asking for: not verified, and with a block that nobody is fetching. */
  predicate Wanted(t: Torrent, s: State, i: nat)
    requires i < t.numPieces == |s.ok|
  {
    !s.ok[i] && !Assigned(t, s.books, i)
  }

  /** First choice: a piece that already has requests and that the peer has. */
  function Started(t: Torrent, s: State, peer: Peer, nodes: seq<Key>): Option<nat>
    requires |s.ok| == t.numPieces
  {
    if nodes == [] then None
    else if nodes[0].idx < t.numPieces && Wanted(t, s, nodes[0].idx) && HasPiece(peer, nodes[0].idx) then Some(nodes[0].idx)
    else Started(t, s, peer, nodes[1..])
  }

  /** The wanted pieces below `n` that the peer has. */
  function Useful(t: Torrent, s: State, peer: Peer, n: nat): seq<nat>
    requires n <= t.numPieces == |s.ok|
  {
    if n == 0 then []
    else Useful(t, s, peer, n - 1) + (if HasPiece(peer, n - 1) && Wanted(t, s, n - 1) then [n - 1] else [])
  }

  /** scheduler_piece_find_rarest from place `i` of the rarity array on; the peer's bitfield is tested for the place. */
  function Rarest(t: Torrent, s: State, peer: Peer, rarity: seq<nat>, i: nat): Option<nat>
    requires |s.ok| == t.numPieces
    decreases t.numPieces - i
  {
    if i >= t.numPieces || i >= |rarity| then None
    else if peer.bitfield.Some? && i !in peer.bitfield.value then Rarest(t, s, peer, rarity, i + 1)
    else if rarity[i] < t.numPieces && Wanted(t, s, rarity[i]) then Some(rarity[i])
    else Rarest(t, s, peer, rarity, i + 1)
  }

  /** The piece that scheduler_piece_gimme settles on. */
  function ChoosePiece(t: Torrent, s: State, peer: Peer, c: Chance): Option<nat>
    requires |s.ok| == t.numPieces
  {
    var started := Started(t, s, peer, c.nodes);
    if started.Some? then started
    else if s.good < 4 && t.numPieces > 4 then
      var useful := Useful(t, s, peer, t.numPieces);
      if useful == [] then None else Some(useful[c.random % |useful|])
    else Rarest(t, s, peer, c.rarity, 0)
  }

  lemma {:induction false} StartedWanted(t: Torrent, s: State, peer: Peer, nodes: seq<Key>)
    requires |s.ok| == t.numPieces
    ensures var r := Started(t, s, peer, nodes); r.Some? ==> r.value < t.numPieces && Wanted(t, s, r.value)
    decreases |nodes|
  {
    if nodes != [] { StartedWanted(t, s, peer, nodes[1..]); }
  }

  lemma {:induction false} UsefulWanted(t: Torrent, s: State, peer: Peer, n: nat)
    requires n <= t.numPieces == |s.ok|
    ensures forall i :: i in Useful(t, s, peer, n) ==> i < t.numPieces && Wanted(t, s, i)
    decreases n
  {
    if n > 0 { UsefulWanted(t, s, peer, n - 1); }
  }

  lemma {:induction false} RarestWanted(t: Torrent, s: State, peer: Peer, rarity: seq<nat>, i: nat)
    requires |s.ok| == t.numPieces
    ensures var r := Rarest(t, s, peer, rarity, i); r.Some? ==> r.value < t.numPieces && Wanted(t, s, r.value)
    decreases t.numPieces - i
  {
    if i < t.numPieces && i < |rarity| { RarestWanted(t, s, peer, rarity, i + 1); }
  }

  /** Whichever route chose it, the piece is unverified and has an unassigned block. */
  lemma ChosenIsWanted(t: Torrent, s: State, peer: Peer, c: Chance)
    requires |s.ok| == t.numPieces
    ensures var r := ChoosePiece(t, s, peer, c); r.Some? ==> r.value < t.numPieces && Wanted(t, s, r.value)
  {
    hide Wanted;
    StartedWanted(t, s, peer, c.nodes);
    RarestWanted(t, s, peer, c.rarity, 0);
    var useful := Useful(t, s, peer, t.numPieces);
    UsefulWanted(t, s, peer, t.numPieces);
    assert useful != [] ==> useful[c.random % |useful|] in useful;
  }

  /** The offset at which the picker's last loop stops; None is its bad-offset abort. */
  function FirstUnassigned(b: Books, idx: nat, len: nat, off: nat): Option<nat>
    decreases len + BLOCK - off
  {
    if off >= len then None
    else if Unassigned(b, Key(idx, off)) then Some(off)
    else FirstUnassigned(b, idx, len, off + BLOCK)
  }

  /** The abort is reached only from a piece whose blocks are all assigned, which the picker never chooses. */
  lemma {:induction false} NoBadOffset(b: Books, idx: nat, len: nat, off: nat)
    requires off % BLOCK == 0 && !AssignedFrom(b, idx, len, off)
    ensures var r := FirstUnassigned(b, idx, len, off);
      r.Some? && IsBlock(len, r.value) && Unassigned(b, Key(idx, r.value))
    decreases len + BLOCK - off
  {
    if !Unassigned(b, Key(idx, off)) {
      assert (off + BLOCK) % BLOCK == 0;
      NoBadOffset(b, idx, len, off + BLOCK);
    }
  }

  /** Request block `k` from peer `p`: a new entry, or the orphaned one recycled. */
  function Take(t: Torrent, b: Books, p: PeerId, k: Key): Books
    requires k.idx < t.numPieces && k.off <= Length(t, k.idx)
  {
    var d := Find(b, None, k);
    if d.Some? && d.value in b.dls then Recycle(b, d.value, p)
    else Create(b, p, k, BlockLen(Length(t, k.idx), k.off))
  }

  /** scheduler_piece_gimme, without the no-create flag: the block requested, if any, and the new books. */
  function Gimme(t: Torrent, s: State, p: PeerId, c: Chance): (r: (Option<Key>, Books))
    requires |s.ok| == t.numPieces && p in s.peers
  {
    var chosen := ChoosePiece(t, s, s.peers[p], c);
    if chosen.None? then (None, s.books)
    else
      ChosenIsWanted(t, s, s.peers[p], c);
      NoBadOffset(s.books, chosen.value, Length(t, chosen.value), 0);
      var k := Key(chosen.value, FirstUnassigned(s.books, chosen.value, Length(t, chosen.value), 0).value);
      (Some(k), Take(t, s.books, p, k))
  }

  /** The blocks of unverified pieces that nobody is fetching. */
  ghost function OpenBlocks(t: Torrent, s: State): set<Key>
    requires |s.ok| == t.numPieces
  {
    set i, x | 0 <= i < t.numPieces && !s.ok[i] && 0 <= x < Length(t, i) && IsBlock(Length(t, i), x)
               && Unassigned(s.books, Key(i, x)) :: Key(i, x)
  }

  /** Taking a block assigns it and leaves the status of every other block alone. */
  lemma TakeAssigns(t: Torrent, b: Books, p: PeerId, k: Key, other: Key)
    requires Agree(b) && p in b.lists && k.idx < t.numPieces && k.off <= Length(t, k.idx) && Unassigned(b, k)
    ensures !Unassigned(Take(t, b, p, k), k)
    ensures other != k ==> Unassigned(Take(t, b, p, k), other) == Unassigned(b, other)
  {
    hide Length, BlockLen;
    FindFacts(b, None, k);
    FindFacts(b, None, other);
    var d := Find(b, None, k);
    if NodeOf(b, other) != [] { assert NodeOf(b, other)[0] in b.index[other]; }
    if NodeOf(b, k) != [] { assert NodeOf(b, k)[0] in b.index[k]; }
  }

  /** Each call of the picker that returns a request closes exactly one open block. */
  lemma GimmeClosesOne(t: Torrent, s: State, p: PeerId, c: Chance)
    requires ValidTorrent(t) && Inv(t, s) && p in s.peers
    ensures var (k, books) := Gimme(t, s, p, c);
      && (k.None? ==> books == s.books)
      && (k.Some? ==>
            && k.value in OpenBlocks(t, s)
            && OpenBlocks(t, s.(books := books)) == OpenBlocks(t, s) - {k.value}
            && |OpenBlocks(t, s.(books := books))| == |OpenBlocks(t, s)| - 1)
  {
    hide Length, Unassigned, Take, IsBlock, Agree;
    var (k, books) := Gimme(t, s, p, c);
    if k.None? { return; }
    var key := k.value;
    ChosenIsWanted(t, s, s.peers[p], c);
    NoBadOffset(s.books, key.idx, Length(t, key.idx), 0);
    BlockInside(Length(t, key.idx), key.off);
    var open, open' := OpenBlocks(t, s), OpenBlocks(t, s.(books := books));
    assert key in open;
    forall o: Key
      ensures o in open' <==> o in open && o != key
    {
      TakeAssigns(t, s.books, p, key, o);
    }
    assert open' == open - {key};
  }

  lemma BlockInside(len: nat, off: nat)
    requires IsBlock(len, off)
    ensures off < len
  {}

  /** scheduler_is_endgame. */
  predicate Endgame(t: Torrent, s: State)
    requires |s.ok| == t.numPieces
  {
    forall i :: 0 <= i < t.numPieces && !s.ok[i] ==> Assigned(t, s.books, i)
  }

  /** The endgame has begun exactly when no unverified piece has an open block. */
  lemma EndgameIffNothingOpen(t: Torrent, s: State)
    requires |s.ok| == t.numPieces
    ensures Endgame(t, s) <==> OpenBlocks(t, s) == {}
  {
    hide Length, Unassigned, AssignedFrom, IsBlock;
    forall i | 0 <= i < t.numPieces
      ensures Assigned(t, s.books, i)
        <==> forall x :: 0 <= x && IsBlock(Length(t, i), x) ==> !Unassigned(s.books, Key(i, x))
    {
      AssignedFacts(s.books, i, Length(t, i), 0);
    }
    if Endgame(t, s) {
      assert forall k :: k !in OpenBlocks(t, s);
    } else {
      var i :| 0 <= i < t.numPieces && !s.ok[i] && !Assigned(t, s.books, i);
      var x :| 0 <= x && IsBlock(Length(t, i), x) && Unassigned(s.books, Key(i, x));
      BlockInside(Length(t, i), x);
      assert Key(i, x) in OpenBlocks(t, s);
    }
  }

  lemma TakeKeeps(t: Torrent, b: Books, p: PeerId, k: Key, log: seq<Accepted>)
    requires Agree(b) && Aligned(t, b) && Credited(b, log) && p in b.lists
    requires k.idx < t.numPieces && IsBlock(Length(t, k.idx), k.off) && Unassigned(b, k)
    ensures var r := Take(t, b, p, k);
      Agree(r) && Aligned(t, r) && Credited(r, log) && r.lists.Keys == b.lists.Keys
  {
    hide Length, BlockLen;
    FindFacts(b, None, k);
    var d := Find(b, None, k);
    if d.Some? {
      RecycleAgrees(b, d.value, p);
    } else {
      CreateAgrees(b, p, k, BlockLen(Length(t, k.idx), k.off));
    }
  }

  // ---------- Endgame ----------

  /** The offset loop of scheduler_endgame_algorithm: peer `p` is asked for every block it is not asked for yet. */
  function AskBlocks(t: Torrent, b: Books, p: PeerId, idx: nat, off: nat): Books
    requires idx < t.numPieces
    decreases Length(t, idx) + BLOCK - off
  {
    var len := Length(t, idx);
    if off >= len then b
    else if FirstFor(b.dls, ListOf(b, p), Key(idx, off)).Some? then AskBlocks(t, b, p, idx, off + BLOCK)
    else AskBlocks(t, Create(b, p, Key(idx, off), BlockLen(len, off)), p, idx, off + BLOCK)
  }

  /** The peers that the endgame asks for a piece: unchoked ones whose bitfield is known and lacks the piece. */
  predicate EndgameAsks(peers: map<PeerId, Peer>, p: PeerId, idx: nat) {
    p in peers && peers[p].bitfield.Some? && idx !in peers[p].bitfield.value && !peers[p].choked
  }

  function AskPeers(t: Torrent, b: Books, peers: map<PeerId, Peer>, list: seq<PeerId>, idx: nat): Books
    requires idx < t.numPieces
    decreases |list|
  {
    if list == [] then b
    else AskPeers(t, if EndgameAsks(peers, list[0], idx) then AskBlocks(t, b, list[0], idx, 0) else b, peers, list[1..], idx)
  }

  function AskPieces(t: Torrent, s: State, b: Books, i: nat): Books
    requires |s.ok| == t.numPieces
    decreases t.numPieces - i
  {
    if i >= t.numPieces then b
    else AskPieces(t, s, if s.ok[i] then b else AskPeers(t, b, s.peers, s.peerList, i), i + 1)
  }

  /** What the endgame loops keep of the books: entries are only added. */
  ghost predicate Grows(b: Books, r: Books) {
    && r.lists.Keys == b.lists.Keys
    && (forall d :: d in b.dls ==> d in r.dls && r.dls[d] == b.dls[d])
    && (forall p :: p in b.lists ==> b.lists[p] <= r.lists[p])
  }

  ghost predicate GoodBooks(t: Torrent, b: Books, log: seq<Accepted>) {
    Agree(b) && Aligned(t, b) && Credited(b, log)
  }

  lemma CreateGood(t: Torrent, b: Books, log: seq<Accepted>, p: PeerId, k: Key)
    requires GoodBooks(t, b, log) && p in b.lists && k.idx < t.numPieces && IsBlock(Length(t, k.idx), k.off)
    ensures var r := Create(b, p, k, BlockLen(Length(t, k.idx), k.off));
      GoodBooks(t, r, log) && Grows(b, r) && FirstFor(r.dls, ListOf(r, p), k).Some?
  {
    hide Agree, Length, BlockLen, FirstFor;
    BlockInside(Length(t, k.idx), k.off);
    var len := BlockLen(Length(t, k.idx), k.off);
    CreateAgrees(b, p, k, len);
    CreateGrows(b, p, k, len);
  }

  lemma CreateGrows(b: Books, p: PeerId, k: Key, len: nat)
    requires Agree(b) && p in b.lists
    ensures var r := Create(b, p, k, len); Grows(b, r) && FirstFor(r.dls, ListOf(r, p), k).Some?
  {
    hide NodesSound, NodesComplete, ListsSound, ListsComplete, FirstFor;
    var r := Create(b, p, k, len);
    FirstForFacts(r.dls, ListOf(r, p), k);
    assert ListOf(r, p)[|ListOf(b, p)|] == b.next;
    assert b.next in ListOf(r, p);
  }

  /** Peer `p` has a request for every block of the piece from `off` on. */
  ghost predicate AskedAll(t: Torrent, b: Books, p: PeerId, idx: nat, off: nat)
    requires idx < t.numPieces
  {
    forall x :: off <= x && IsBlock(Length(t, idx), x) ==> FirstFor(b.dls, ListOf(b, p), Key(idx, x)).Some?
  }

  lemma StillAsked(b: Books, r: Books, p: PeerId, k: Key)
    requires p in b.lists && Grows(b, r) && FirstFor(b.dls, ListOf(b, p), k).Some?
    ensures FirstFor(r.dls, ListOf(r, p), k).Some?
  {
    FirstForFacts(b.dls, ListOf(b, p), k);
    FirstForFacts(r.dls, ListOf(r, p), k);
    var d := FirstFor(b.dls, ListOf(b, p), k).value;
    assert d in b.lists[p] && b.lists[p] <= r.lists[p];
  }

  lemma {:induction false} AskBlocksGood(t: Torrent, b: Books, log: seq<Accepted>, p: PeerId, idx: nat, off: nat)
    requires GoodBooks(t, b, log) && p in b.lists && idx < t.numPieces && off % BLOCK == 0
    ensures var r := AskBlocks(t, b, p, idx, off);
      GoodBooks(t, r, log) && Grows(b, r) && AskedAll(t, r, p, idx, off)
    decreases Length(t, idx) + BLOCK - off
  {
    hide Length, GoodBooks, BlockLen;
    var len := Length(t, idx);
    if off < len {
      var b' := b;
      if FirstFor(b.dls, ListOf(b, p), Key(idx, off)).None? {
        CreateGood(t, b, log, p, Key(idx, off));
        b' := Create(b, p, Key(idx, off), BlockLen(len, off));
      }
      assert (off + BLOCK) % BLOCK == 0;
      AskBlocksGood(t, b', log, p, idx, off + BLOCK);
      var r := AskBlocks(t, b, p, idx, off);
      StillAsked(b', r, p, Key(idx, off));
      forall x | off < x && IsBlock(len, x)
        ensures off + BLOCK <= x
      {
        BlockSteps(off, x);
      }
    }
  }

  lemma {:induction false} AskPeersGood(t: Torrent, b: Books, log: seq<Accepted>, peers: map<PeerId, Peer>, list: seq<PeerId>, idx: nat)
    requires GoodBooks(t, b, log) && idx < t.numPieces && forall p :: p in list ==> p in b.lists
    ensures var r := AskPeers(t, b, peers, list, idx);
      && GoodBooks(t, r, log) && Grows(b, r)
      && forall p :: p in list && EndgameAsks(peers, p, idx) ==> AskedAll(t, r, p, idx, 0)
    decreases |list|
  {
    hide Length, GoodBooks;
    if list != [] {
      var b' := b;
      if EndgameAsks(peers, list[0], idx) {
        AskBlocksGood(t, b, log, list[0], idx, 0);
        b' := AskBlocks(t, b, list[0], idx, 0);
      }
      AskPeersGood(t, b', log, peers, list[1..], idx);
      var r := AskPeers(t, b, peers, list, idx);
      if EndgameAsks(peers, list[0], idx) { AskedStays(t, b', r, list[0], idx); }
      assert forall p :: p in list <==> p == list[0] || p in list[1..];
    }
  }

  lemma AskedStays(t: Torrent, b: Books, r: Books, p: PeerId, idx: nat)
    requires idx < t.numPieces && p in b.lists && Grows(b, r) && AskedAll(t, b, p, idx, 0)
    ensures AskedAll(t, r, p, idx, 0)
  {
    hide Length, IsBlock;
    forall x | 0 <= x && IsBlock(Length(t, idx), x)
      ensures FirstFor(r.dls, ListOf(r, p), Key(idx, x)).Some?
    {
      StillAsked(b, r, p, Key(idx, x));
    }
  }

  lemma GrowsTransitive(a: Books, b: Books, c: Books)
    requires Grows(a, b) && Grows(b, c)
    ensures Grows(a, c)
  {
    assert forall p :: p in a.lists ==> p in b.lists;
  }

  /** Every peer that the endgame asks for piece `j` holds a request for each of its blocks. */
  ghost predicate PieceAsked(t: Torrent, s: State, b: Books, j: nat)
    requires j < t.numPieces
  {
    forall p :: EndgameAsks(s.peers, p, j) ==> AskedAll(t, b, p, j, 0)
  }

  lemma PieceAskedStays(t: Torrent, s: State, b: Books, r: Books, j: nat)
    requires j < t.numPieces && PieceAsked(t, s, b, j) && Grows(b, r) && b.lists.Keys == s.peers.Keys
    ensures PieceAsked(t, s, r, j)
  {
    hide AskedAll, Grows, Length;
    forall p | EndgameAsks(s.peers, p, j)
      ensures AskedAll(t, r, p, j, 0)
    {
      AskedStays(t, b, r, p, j);
    }
  }

  /** After an endgame pass, every peer that it asks holds a request for every block of every unverified piece. */
  lemma {:induction false} AskPiecesGood(t: Torrent, s: State, b: Books, i: nat)
    requires |s.ok| == t.numPieces && GoodBooks(t, b, s.log) && PeersMatch(s) && b.lists.Keys == s.peers.Keys
    ensures var r := AskPieces(t, s, b, i);
      && GoodBooks(t, r, s.log) && Grows(b, r)
      && forall j :: i <= j < t.numPieces && !s.ok[j] ==> PieceAsked(t, s, r, j)
    decreases t.numPieces - i
  {
    hide Length, GoodBooks, AskedAll, PieceAsked;
    if i < t.numPieces {
      var b' := b;
      if !s.ok[i] {
        AskPieceGood(t, s, b, i);
        b' := AskPeers(t, b, s.peers, s.peerList, i);
      }
      AskPiecesGood(t, s, b', i + 1);
      var r := AskPieces(t, s, b, i);
      hide Grows;
      GrowsTransitive(b, b', r);
      if !s.ok[i] { PieceAskedStays(t, s, b', r, i); }
    }
  }

  lemma AskPieceGood(t: Torrent, s: State, b: Books, i: nat)
    requires GoodBooks(t, b, s.log) && PeersMatch(s) && b.lists.Keys == s.peers.Keys && i < t.numPieces
    ensures var r := AskPeers(t, b, s.peers, s.peerList, i);
      GoodBooks(t, r, s.log) && Grows(b, r) && PieceAsked(t, s, r, i)
  {
    hide Length, GoodBooks, AskedAll, Grows;
    AskPeersGood(t, b, s.log, s.peers, s.peerList, i);
  }

  // ---------- Runs ----------

  /** Everything that happens to a session, in whatever order the network and the clock bring it. */
  datatype Event =
    | Connect(p: PeerId, fast: bool)
    | Gone(p: PeerId)
    | Killed(p: PeerId)
    | Claims(p: PeerId, pieces: set<nat>)
    | UnchokedBy(p: PeerId)
    | ChokedBy(p: PeerId)
    | RejectedBy(p: PeerId, k: Key)
    | Piece(p: PeerId, idx: nat, off: nat, data: seq<Byte>)
    | Ask(p: PeerId, chance: Chance)
    | EndgameTick

  /** The REJECT handler: the entry freed may be another peer's, since the lookup falls back on the index. */
  function OnReject(t: Torrent, s: State, p: PeerId, k: Key): State
    requires Agree(s.books) && p in s.peers
  {
    if !s.peers[p].fast then Kill(s, p)
    else if k.idx >= t.numPieces then s
    else
      FindFacts(s.books, Some(p), k);
      var d := Find(s.books, Some(p), k);
      if d.None? then s else s.(books := Free(s.books, d.value))
  }

  function Step(t: Torrent, s: State, e: Event): State
    requires ValidTorrent(t) && Inv(t, s)
  {
    match e
    case Connect(p, fast) =>
      if p in s.peers then s
      else s.(books := AddPeer(s.books, p), peers := s.peers[p := Peer(None, true, fast)], peerList := s.peerList + [p])
    case Gone(p) =>
      s.(books := RemovePeer(s.books, p), peers := s.peers - {p}, peerList := Without(s.peerList, p))
    case Killed(p) => Kill(s, p)
    case Claims(p, pieces) =>
      if p in s.peers then s.(peers := s.peers[p := s.peers[p].(bitfield := Some(pieces))]) else s
    case UnchokedBy(p) =>
      if p in s.peers then s.(peers := s.peers[p := s.peers[p].(choked := false)]) else s
    case ChokedBy(p) =>
      if p !in s.peers then s
      else
        var s1 := s.(peers := s.peers[p := s.peers[p].(choked := true)]);
        if s.peers[p].fast then s1 else s1.(books := OrphanAll(s.books, p))
    case RejectedBy(p, k) => if p in s.peers then OnReject(t, s, p, k) else s
    case Piece(p, idx, off, data) => OnPiece(t, s, p, idx, off, data)
    case Ask(p, c) =>
      if p in s.peers && !s.peers[p].choked && s.good < t.numPieces then s.(books := Gimme(t, s, p, c).1) else s
    case EndgameTick =>
      if Endgame(t, s) then s.(books := AskPieces(t, s, s.books, 0)) else s
  }

  lemma GoneKeeps(t: Torrent, s: State, p: PeerId)
    requires ValidTorrent(t) && Inv(t, s)
    ensures Inv(t, Step(t, s, Gone(p)))
  {
    hide NodesSound, NodesComplete, ListsSound, ListsComplete, IdsUsed, Length, IsBlock, BlockLen, Count;
    ReleaseAllEffect(s.books, p);
    var b := ReleaseAll(s.books, p);
    assert KeepsBlocks(s.books, DropPeer(b, p));
    KeepsInvariants(t, s.books, DropPeer(b, p), s.log);
    WithoutFacts(s.peerList, p);
    ReleaseLists(s.books, p);
  }

  lemma {:induction false} ReleaseLists(b: Books, p: PeerId)
    requires Agree(b)
    ensures ReleaseAll(b, p).lists.Keys == b.lists.Keys
    decreases |ListOf(b, p)|
  {
    if ListOf(b, p) != [] {
      ReleaseFirstAgrees(b, p);
      ReleaseLists(ReleaseFirst(b, p), p);
    }
  }

  lemma ChokedKeeps(t: Torrent, s: State, p: PeerId)
    requires ValidTorrent(t) && Inv(t, s)
    ensures Inv(t, Step(t, s, ChokedBy(p)))
  {
    hide NodesSound, NodesComplete, ListsSound, ListsComplete, IdsUsed, Length, IsBlock, BlockLen, Count;
    if p in s.peers && !s.peers[p].fast {
      OrphanAllEffect(s.books, p);
      assert KeepsBlocks(s.books, OrphanAll(s.books, p));
      KeepsInvariants(t, s.books, OrphanAll(s.books, p), s.log);
    }
  }

  lemma RejectKeeps(t: Torrent, s: State, p: PeerId, k: Key)
    requires ValidTorrent(t) && Inv(t, s) && p in s.peers
    ensures Inv(t, OnReject(t, s, p, k))
  {
    hide NodesSound, NodesComplete, ListsSound, ListsComplete, IdsUsed, Length, IsBlock, BlockLen, Count, Find;
    FindFacts(s.books, Some(p), k);
    var d := Find(s.books, Some(p), k);
    if s.peers[p].fast && k.idx < t.numPieces && d.Some? {
      FreeAgrees(s.books, d.value);
      KeepsInvariants(t, s.books, Free(s.books, d.value), s.log);
    }
  }

  lemma AskKeeps(t: Torrent, s: State, p: PeerId, c: Chance)
    requires ValidTorrent(t) && Inv(t, s)
    ensures Inv(t, Step(t, s, Ask(p, c)))
  {
    hide NodesSound, NodesComplete, ListsSound, ListsComplete, IdsUsed, Length, IsBlock, BlockLen, Count, Take, Unassigned, Aligned, Credited;
    if p in s.peers && !s.peers[p].choked && s.good < t.numPieces && Gimme(t, s, p, c).0.Some? {
      ChosenIsWanted(t, s, s.peers[p], c);
      var k := Gimme(t, s, p, c).0.value;
      NoBadOffset(s.books, k.idx, Length(t, k.idx), 0);
      BlockInside(Length(t, k.idx), k.off);
      TakeKeeps(t, s.books, p, k, s.log);
    }
  }

  lemma ConnectKeeps(t: Torrent, s: State, p: PeerId, fast: bool)
    requires ValidTorrent(t) && Inv(t, s)
    ensures Inv(t, Step(t, s, Connect(p, fast)))
  {
    hide NodesSound, NodesComplete, ListsSound, ListsComplete, IdsUsed, Length, IsBlock, BlockLen, Count;
    if p !in s.peers {
      AddPeerAgrees(s.books, p);
      NoDupSnoc(s.peerList, p);
    }
  }

  /** Every event keeps the invariant. */
  lemma StepKeeps(t: Torrent, s: State, e: Event)
    requires ValidTorrent(t) && Inv(t, s)
    ensures Inv(t, Step(t, s, e))
  {
    hide Agree, Aligned, Credited, Length, Count;
    match e {
      case Connect(p, fast) => ConnectKeeps(t, s, p, fast);
      case Gone(p) => GoneKeeps(t, s, p);
      case ChokedBy(p) => ChokedKeeps(t, s, p);
      case RejectedBy(p, k) => if p in s.peers { RejectKeeps(t, s, p, k); }
      case Piece(p, idx, off, data) => OnPieceKeeps(t, s, p, idx, off, data);
      case Ask(p, c) => AskKeeps(t, s, p, c);
      case EndgameTick => AskPiecesGood(t, s, s.books, 0);
      case _ =>
    }
  }

  /** The state after a sequence of events. */
  function Run(t: Torrent, s: State, es: seq<Event>): (r: State)
    requires ValidTorrent(t) && Inv(t, s)
    ensures Inv(t, r)
    decreases |es|
  {
    if es == [] then s
    else
      StepKeeps(t, s, es[0]);
      Run(t, Step(t, s, es[0]), es[1..])
  }

  /** A fresh session over files and flags left by an earlier one. */
  function Begin(ok: seq<bool>, left: int, files: Files): State {
    State(EMPTY, map[], [], ok, Count(ok), left, files, [])
  }

  lemma BeginInv(t: Torrent, ok: seq<bool>, left: int, files: Files)
    requires ValidTorrent(t) && HasShape(t, files) && |ok| == t.numPieces
    ensures Inv(t, Begin(ok, left, files))
  {}

  // ---------- Main results ----------

  /** In every reachable state the index and the peer lists agree, and lookups find a block exactly when some request
      for it exists. */
  lemma IndexAndListsAgree(t: Torrent, ok: seq<bool>, left: int, files: Files, es: seq<Event>, k: Key)
    requires ValidTorrent(t) && HasShape(t, files) && |ok| == t.numPieces
    ensures Inv(t, Begin(ok, left, files))
    ensures var b := Run(t, Begin(ok, left, files), es).books;
      && Agree(b)
      && (Find(b, None, k).Some? <==> exists d :: d in b.dls && b.dls[d].key == k)
  {
    BeginInv(t, ok, left, files);
    FindFacts(Run(t, Begin(ok, left, files), es).books, None, k);
  }

  lemma StepSafe(t: Torrent, s: State, e: Event, i: nat)
    requires ValidTorrent(t) && Inv(t, s) && i < t.numPieces && s.ok[i]
    ensures StaysVerified(t, s, Step(t, s, e), i)
  {
    hide Agree, Aligned, Credited, Length, Count, SegmentsOf, OnPiece, OrphanAll, RemovePeer, Gimme, AskPieces, Endgame;
    PieceSegments(t, s.files, i);
    if e.Piece? {
      OnPieceSafe(t, s, e.p, e.idx, e.off, e.data, i);
    }
  }

  /** Safety over whole runs: once a piece is verified, no sequence of events changes its flag or its stored octets. */
  lemma {:induction false} VerifiedDataNeverChanges(t: Torrent, s: State, es: seq<Event>, i: nat)
    requires ValidTorrent(t) && Inv(t, s) && i < t.numPieces && s.ok[i]
    ensures StaysVerified(t, s, Run(t, s, es), i)
    decreases |es|
  {
    hide Inv, SegmentsOf, Step;
    if es == [] {
      StillVerified(t, s, i);
    } else {
      StepKeeps(t, s, es[0]);
      StepSafe(t, s, es[0], i);
      VerifiedDataNeverChanges(t, Step(t, s, es[0]), es[1..], i);
    }
  }

  lemma StillVerified(t: Torrent, s: State, i: nat)
    requires ValidTorrent(t) && Inv(t, s) && i < t.numPieces && s.ok[i]
    ensures StaysVerified(t, s, s, i)
  {
    PieceSegments(t, s.files, i);
  }

  /** What a piece that became verified during the run satisfies. */
  ghost predicate Proven(t: Torrent, s: State, i: nat)
    requires ValidTorrent(t) && i < t.numPieces
  {
    && AllFit(s.files, SegmentsOf(t, i))
    && Sha1Standard.Hash(PieceData(t, s.files, i)) == t.hashes[i]
    && FullyReceived(t, s.log, i)
  }

  lemma StepLogs(t: Torrent, s: State, e: Event)
    requires ValidTorrent(t) && Inv(t, s)
    ensures s.log <= Step(t, s, e).log
  {
    hide Inv, Length, Agree, Gimme, AskPieces, OrphanAll, RemovePeer, FreeBlocks, AllComplete, WriteSegs, Sha1Standard.Hash;
  }

  lemma {:induction false} LogGrows(t: Torrent, s: State, es: seq<Event>)
    requires ValidTorrent(t) && Inv(t, s)
    ensures s.log <= Run(t, s, es).log
    decreases |es|
  {
    hide Inv, Length, Agree, Step;
    if es != [] {
      StepKeeps(t, s, es[0]);
      StepLogs(t, s, es[0]);
      LogGrows(t, Step(t, s, es[0]), es[1..]);
    }
  }

  lemma StepVerifies(t: Torrent, s: State, e: Event, i: nat)
    requires ValidTorrent(t) && Inv(t, s) && i < t.numPieces && !s.ok[i]
    ensures var s' := Step(t, s, e); |s'.ok| == t.numPieces && s'.ok[i] ==> Proven(t, s', i)
  {
    hide Agree, Aligned, Credited, Length, Count, SegmentsOf, OnPiece, OrphanAll, RemovePeer, Gimme, AskPieces, Endgame, FullyReceived;
    if e.Piece? {
      OnPieceVerifies(t, s, e.p, e.idx, e.off, e.data, i);
    }
  }

  lemma ReceivedStays(t: Torrent, log: seq<Accepted>, log': seq<Accepted>, i: nat)
    requires i < t.numPieces && log <= log' && FullyReceived(t, log, i)
    ensures FullyReceived(t, log', i)
  {
    hide Length;
    forall x | 0 <= x < Length(t, i)
      ensures Received(log', i, x)
    {
      assert Received(log, i, x);
      var m :| m in log && m.idx == i && m.off <= x < m.off + |m.data|;
      assert m in log';
    }
  }

  /** A piece that the run verified holds, at its end, octets with the expected hash, all of them received from peers. */
  lemma {:induction false} VerifiedMeansReceivedAndHashed(t: Torrent, s: State, es: seq<Event>, i: nat)
    requires ValidTorrent(t) && Inv(t, s) && i < t.numPieces && !s.ok[i] && Run(t, s, es).ok[i]
    ensures Proven(t, Run(t, s, es), i)
    decreases |es|
  {
    hide Step, SegmentsOf, Agree, Aligned, Credited, Length, FullyReceived, Sha1Standard.Hash, PieceData, Count;
    if es != [] {
      StepKeeps(t, s, es[0]);
      var s1 := Step(t, s, es[0]);
      if s1.ok[i] {
        StepVerifies(t, s, es[0], i);
        VerifiedDataNeverChanges(t, s1, es[1..], i);
        LogGrows(t, s1, es[1..]);
        ReceivedStays(t, s1.log, Run(t, s1, es[1..]).log, i);
      } else {
        VerifiedMeansReceivedAndHashed(t, s1, es[1..], i);
      }
    }
  }

  /** The total length of the verified pieces among the first `n`. */
  function VerifiedLength(t: Torrent, ok: seq<bool>, n: nat): nat
    requires n <= t.numPieces == |ok|
  {
    if n == 0 then 0 else VerifiedLength(t, ok, n - 1) + (if ok[n - 1] then Length(t, n - 1) else 0)
  }

  lemma {:induction false} VerifyAddsLength(t: Torrent, ok: seq<bool>, i: nat, n: nat)
    requires n <= t.numPieces == |ok| && i < |ok| && !ok[i]
    ensures VerifiedLength(t, ok[i := true], n) == VerifiedLength(t, ok, n) + (if i < n then Length(t, i) else 0)
    decreases n
  {
    hide Length;
    if n > 0 { VerifyAddsLength(t, ok, i, n - 1); }
  }

  lemma StepConserves(t: Torrent, s: State, e: Event)
    requires ValidTorrent(t) && Inv(t, s)
    ensures var s' := Step(t, s, e);
      |s'.ok| == t.numPieces
      && s'.left + VerifiedLength(t, s'.ok, t.numPieces) == s.left + VerifiedLength(t, s.ok, t.numPieces)
  {
    hide Agree, Aligned, Credited, Length, Count, SegmentsOf, OrphanAll, RemovePeer, Gimme, AskPieces, Endgame,
         AllComplete, FreeBlocks, VerifiedLength, Sha1Standard.Hash;
    if e.Piece? && e.idx < t.numPieces && !s.ok[e.idx] {
      VerifyAddsLength(t, s.ok, e.idx, t.numPieces);
    }
  }

  /** Conservation over whole runs: what is left plus what is verified stays the same, and the count of good pieces is
      the number of flags. */
  lemma {:induction false} LeftIsConserved(t: Torrent, s: State, es: seq<Event>)
    requires ValidTorrent(t) && Inv(t, s)
    ensures var r := Run(t, s, es);
      && r.left + VerifiedLength(t, r.ok, t.numPieces) == s.left + VerifiedLength(t, s.ok, t.numPieces)
      && r.good == Count(r.ok)
    decreases |es|
  {
    hide Step, Agree, Aligned, Credited, Length, Count, VerifiedLength;
    if es != [] {
      StepKeeps(t, s, es[0]);
      StepConserves(t, s, es[0]);
      LeftIsConserved(t, Step(t, s, es[0]), es[1..]);
    }
  }
}
