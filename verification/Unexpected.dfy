/** Three promises that the session does not keep, each with the exact condition under which it does, and a run that
    breaks it: a REJECT concerns the rejecting peer's request, the endgame asks peers that have the piece, and so does the
    rarest-first route. */
module Unexpected {
  import opened Options
  import opened Bytes
  import opened Sequences
  import opened Layout
  import opened Storage
  import opened Torrents
  import opened Downloads
  import opened Session

  // ---------- REJECT ----------

  /** A REJECT frees at most one entry, one for the named block; it is the rejecting peer's own exactly when that peer was
      asked for the block. */
  lemma RejectFreesOwnIff(t: Torrent, s: State, p: PeerId, k: Key)
    requires ValidTorrent(t) && Inv(t, s) && p in s.peers && s.peers[p].fast && k.idx < t.numPieces
    ensures var b, r, d := s.books, OnReject(t, s, p, k).books, Find(s.books, Some(p), k);
      && (d.None? ==> r == b)
      && (d.Some? ==>
            && d.value in b.dls && b.dls[d.value].key == k && r.dls == b.dls - {d.value}
            && (b.dls[d.value].owner == Some(p) <==> Asks(b, p, k)))
  {
    FindFacts(s.books, Some(p), k);
  }

  /** Nobody else loses a request to a REJECT exactly when the rejecting peer was asked for the block, or there is no
      request for it that the lookup could fall back on. */
  lemma RejectSparesOthersIff(t: Torrent, s: State, p: PeerId, k: Key)
    requires ValidTorrent(t) && Inv(t, s) && p in s.peers && s.peers[p].fast && k.idx < t.numPieces
    ensures var b, r := s.books, OnReject(t, s, p, k).books;
      (forall d :: d in b.dls && b.dls[d].owner != Some(p) ==> d in r.dls) <==> Asks(b, p, k) || k !in b.index
  {
    hide OnReject, Find;
    var b := s.books;
    RejectFreesOwnIff(t, s, p, k);
    FindFacts(b, Some(p), k);
    if k in b.index {
      assert b.index[k][0] in b.index[k];
    } else {
      assert forall d :: d in b.dls ==> b.dls[d].key != k;
    }
  }

  // ---------- Endgame ----------

  /** Every entry of `r` that `b` does not have is for an unverified piece, asked of a peer whose bitfield lacks that piece. */
  ghost predicate AddsLacking(peers: map<PeerId, Peer>, ok: seq<bool>, b: Books, r: Books) {
    forall d :: d in r.dls && d !in b.dls ==>
      && r.dls[d].key.idx < |ok| && !ok[r.dls[d].key.idx]
      && r.dls[d].owner.Some? && EndgameAsks(peers, r.dls[d].owner.value, r.dls[d].key.idx)
  }

  lemma AddsTransitive(peers: map<PeerId, Peer>, ok: seq<bool>, a: Books, b: Books, c: Books)
    requires Grows(b, c) && AddsLacking(peers, ok, a, b) && AddsLacking(peers, ok, b, c)
    ensures AddsLacking(peers, ok, a, c)
  {}

  lemma {:induction false} AskBlocksAdds(t: Torrent, s: State, b: Books, p: PeerId, idx: nat, off: nat)
    requires GoodBooks(t, b, s.log) && p in b.lists && idx < t.numPieces == |s.ok| && !s.ok[idx] && off % BLOCK == 0
    requires EndgameAsks(s.peers, p, idx)
    ensures AddsLacking(s.peers, s.ok, b, AskBlocks(t, b, p, idx, off))
    decreases Length(t, idx) + BLOCK - off
  {
    hide Length, GoodBooks, BlockLen, EndgameAsks, FirstFor;
    var len := Length(t, idx);
    if off < len {
      var b' := b;
      if FirstFor(b.dls, ListOf(b, p), Key(idx, off)).None? {
        CreateGood(t, b, s.log, p, Key(idx, off));
        b' := Create(b, p, Key(idx, off), BlockLen(len, off));
      }
      assert (off + BLOCK) % BLOCK == 0;
      AskBlocksGood(t, b', s.log, p, idx, off + BLOCK);
      AskBlocksAdds(t, s, b', p, idx, off + BLOCK);
      AddsTransitive(s.peers, s.ok, b, b', AskBlocks(t, b, p, idx, off));
    }
  }

  lemma {:induction false} AskPeersAdds(t: Torrent, s: State, b: Books, list: seq<PeerId>, idx: nat)
    requires GoodBooks(t, b, s.log) && idx < t.numPieces == |s.ok| && !s.ok[idx] && forall p :: p in list ==> p in b.lists
    ensures AddsLacking(s.peers, s.ok, b, AskPeers(t, b, s.peers, list, idx))
    decreases |list|
  {
    hide Length, GoodBooks, EndgameAsks, AskBlocks;
    if list != [] {
      var b' := b;
      if EndgameAsks(s.peers, list[0], idx) {
        AskBlocksGood(t, b, s.log, list[0], idx, 0);
        AskBlocksAdds(t, s, b, list[0], idx, 0);
        b' := AskBlocks(t, b, list[0], idx, 0);
      }
      AskPeersGood(t, b', s.log, s.peers, list[1..], idx);
      AskPeersAdds(t, s, b', list[1..], idx);
      AddsTransitive(s.peers, s.ok, b, b', AskPeers(t, b, s.peers, list, idx));
    }
  }

  /** Over a whole endgame pass, every request it makes is for an unverified piece, from an unchoked peer whose bitfield
      does not have that piece. */
  lemma {:induction false} AskPiecesAdds(t: Torrent, s: State, b: Books, i: nat)
    requires |s.ok| == t.numPieces && GoodBooks(t, b, s.log) && PeersMatch(s) && b.lists.Keys == s.peers.Keys
    ensures AddsLacking(s.peers, s.ok, b, AskPieces(t, s, b, i))
    decreases t.numPieces - i
  {
    hide Length, GoodBooks, EndgameAsks, AskPeers;
    if i < t.numPieces {
      var b' := b;
      if !s.ok[i] {
        AskPieceGood(t, s, b, i);
        AskPeersAdds(t, s, b, s.peerList, i);
        b' := AskPeers(t, b, s.peers, s.peerList, i);
      }
      AskPiecesGood(t, s, b', i + 1);
      AskPiecesAdds(t, s, b', i + 1);
      AddsTransitive(s.peers, s.ok, b, b', AskPieces(t, s, b, i));
    }
  }

  /** Every peer that the endgame would ask already holds a request for every block of every unverified piece. */
  ghost predicate NothingToAsk(t: Torrent, s: State)
    requires |s.ok| == t.numPieces
  {
    forall j :: 0 <= j < t.numPieces && !s.ok[j] ==> PieceAsked(t, s, s.books, j)
  }

  lemma {:induction false} AskedBlocksStay(t: Torrent, b: Books, p: PeerId, idx: nat, off: nat)
    requires idx < t.numPieces && off % BLOCK == 0 && AskedAll(t, b, p, idx, off)
    ensures AskBlocks(t, b, p, idx, off) == b
    decreases Length(t, idx) + BLOCK - off
  {
    hide Length, FirstFor;
    if off < Length(t, idx) {
      assert IsBlock(Length(t, idx), off) && (off + BLOCK) % BLOCK == 0;
      AskedBlocksStay(t, b, p, idx, off + BLOCK);
    }
  }

  lemma {:induction false} AskedPeersStay(t: Torrent, s: State, list: seq<PeerId>, idx: nat)
    requires idx < t.numPieces && PieceAsked(t, s, s.books, idx)
    ensures AskPeers(t, s.books, s.peers, list, idx) == s.books
    decreases |list|
  {
    hide Length, AskedAll, AskBlocks;
    if list != [] {
      if EndgameAsks(s.peers, list[0], idx) { AskedBlocksStay(t, s.books, list[0], idx, 0); }
      AskedPeersStay(t, s, list[1..], idx);
    }
  }

  lemma {:induction false} AskedPiecesStay(t: Torrent, s: State, i: nat)
    requires |s.ok| == t.numPieces && NothingToAsk(t, s)
    ensures AskPieces(t, s, s.books, i) == s.books
    decreases t.numPieces - i
  {
    hide Length, PieceAsked, AskPeers;
    if i < t.numPieces {
      if !s.ok[i] { AskedPeersStay(t, s, s.peerList, i); }
      AskedPiecesStay(t, s, i + 1);
    }
  }

  /** If nothing was added, whoever is asked now was asked before. */
  lemma AskedBefore(t: Torrent, s: State, r: Books, j: nat)
    requires j < t.numPieces && Agree(s.books) && Agree(r) && r.dls == s.books.dls && r.lists.Keys == s.books.lists.Keys
    requires s.books.lists.Keys == s.peers.Keys && PieceAsked(t, s, r, j)
    ensures PieceAsked(t, s, s.books, j)
  {
    hide Length, IsBlock, NodesSound, NodesComplete, IdsUsed, FirstFor;
    var b := s.books;
    forall p, x | EndgameAsks(s.peers, p, j) && 0 <= x && IsBlock(Length(t, j), x)
      ensures FirstFor(b.dls, ListOf(b, p), Key(j, x)).Some?
    {
      FirstForFacts(r.dls, ListOf(r, p), Key(j, x));
      FirstForFacts(b.dls, ListOf(b, p), Key(j, x));
      assert AskedAll(t, r, p, j, 0);
      var d := FirstFor(r.dls, ListOf(r, p), Key(j, x)).value;
      assert d in r.lists[p];
      assert d in b.lists[p];
    }
  }

  /** The peers that an endgame pass asks have the pieces it asks them for exactly when it asks for nothing at all, which is
      when the peers it considers are already asked for everything. */
  lemma EndgameAsksHoldersIff(t: Torrent, s: State)
    requires ValidTorrent(t) && Inv(t, s)
    ensures var b, r := s.books, AskPieces(t, s, s.books, 0);
      && ((forall d :: d in r.dls && d !in b.dls ==>
             r.dls[d].owner.Some? && r.dls[d].owner.value in s.peers && HasPiece(s.peers[r.dls[d].owner.value], r.dls[d].key.idx))
          <==> NothingToAsk(t, s))
      && (NothingToAsk(t, s) <==> r == b)
  {
    hide Length, AskPieces, PieceAsked;
    var b, r := s.books, AskPieces(t, s, s.books, 0);
    AskPiecesGood(t, s, b, 0);
    AskPiecesAdds(t, s, b, 0);
    if NothingToAsk(t, s) { AskedPiecesStay(t, s, 0); }
    if forall d :: d in r.dls && d !in b.dls ==>
         r.dls[d].owner.Some? && r.dls[d].owner.value in s.peers && HasPiece(s.peers[r.dls[d].owner.value], r.dls[d].key.idx) {
      assert forall d :: d in r.dls ==> d in b.dls;
      assert r.dls == b.dls;
      forall j | 0 <= j < t.numPieces && !s.ok[j] ensures PieceAsked(t, s, b, j) {
        AskedBefore(t, s, r, j);
      }
    }
  }

  // ---------- The routes of the picker ----------

  lemma {:induction false} StartedHas(t: Torrent, s: State, peer: Peer, nodes: seq<Key>)
    requires |s.ok| == t.numPieces
    ensures var r := Started(t, s, peer, nodes); r.Some? ==> HasPiece(peer, r.value)
    decreases |nodes|
  {
    if nodes != [] { StartedHas(t, s, peer, nodes[1..]); }
  }

  lemma {:induction false} UsefulHas(t: Torrent, s: State, peer: Peer, n: nat)
    requires n <= t.numPieces == |s.ok|
    ensures forall i :: i in Useful(t, s, peer, n) ==> HasPiece(peer, i)
    decreases n
  {
    if n > 0 { UsefulHas(t, s, peer, n - 1); }
  }

  /** The route through the rarity array is the one taken. */
  predicate ByRarity(t: Torrent, s: State, peer: Peer, c: Chance)
    requires |s.ok| == t.numPieces
  {
    Started(t, s, peer, c.nodes).None? && !(s.good < 4 && t.numPieces > 4)
  }

  /** The bitfield test of the rarest-first loop, which an absent bitfield passes. */
  predicate Passes(peer: Peer, j: nat) { peer.bitfield.None? || j in peer.bitfield.value }

  /** A place of the rarity array at which the rarest-first loop would stop: it looks up the place, not the piece, in the
      bitfield. */
  predicate Stops(t: Torrent, s: State, peer: Peer, rarity: seq<nat>, j: nat)
    requires |s.ok| == t.numPieces && j < |rarity|
  {
    j < t.numPieces && Passes(peer, j) && rarity[j] < t.numPieces && Wanted(t, s, rarity[j])
  }

  /** `j` is the first place at which it would stop. */
  ghost predicate StopsFirst(t: Torrent, s: State, peer: Peer, rarity: seq<nat>, j: nat)
    requires |s.ok| == t.numPieces
  {
    j < |rarity| && Stops(t, s, peer, rarity, j) && forall k :: 0 <= k < j ==> !Stops(t, s, peer, rarity, k)
  }

  /** The rarest-first route returns the piece at the first place where it stops, and nothing if there is none. */
  lemma {:induction false} RarestPlace(t: Torrent, s: State, peer: Peer, rarity: seq<nat>, i: nat)
    requires |s.ok| == t.numPieces
    requires forall k :: 0 <= k < i && k < |rarity| ==> !Stops(t, s, peer, rarity, k)
    ensures var r := Rarest(t, s, peer, rarity, i);
      && (r.Some? ==> exists j: nat :: StopsFirst(t, s, peer, rarity, j) && rarity[j] == r.value)
      && (r.None? ==> forall k :: 0 <= k < |rarity| ==> !Stops(t, s, peer, rarity, k))
    decreases t.numPieces - i
  {
    hide Wanted;
    if i < t.numPieces && i < |rarity| {
      if Stops(t, s, peer, rarity, i) {
        assert StopsFirst(t, s, peer, rarity, i);
      } else {
        RarestPlace(t, s, peer, rarity, i + 1);
      }
    }
  }

  /** The peer has the piece that the picker settles on, unless that came from the rarity array, and then exactly when the
      piece at the place where the loop stopped is in its bitfield. */
  lemma ChosenHasIff(t: Torrent, s: State, peer: Peer, c: Chance)
    requires |s.ok| == t.numPieces
    ensures var r := ChoosePiece(t, s, peer, c);
      && (r.Some? && !ByRarity(t, s, peer, c) ==> HasPiece(peer, r.value))
      && (r.Some? && ByRarity(t, s, peer, c) ==>
            exists j: nat :: StopsFirst(t, s, peer, c.rarity, j) && c.rarity[j] == r.value
                     && (HasPiece(peer, r.value) <==> peer.bitfield.Some? && c.rarity[j] in peer.bitfield.value))
  {
    hide Wanted, Stops;
    StartedHas(t, s, peer, c.nodes);
    UsefulHas(t, s, peer, t.numPieces);
    var useful := Useful(t, s, peer, t.numPieces);
    assert useful != [] ==> useful[c.random % |useful|] in useful;
    RarestPlace(t, s, peer, c.rarity, 0);
  }

  /** The array leads from places the peer's bitfield has to pieces that it has. */
  predicate RarityFits(t: Torrent, peer: Peer, rarity: seq<nat>) {
    forall j :: 0 <= j < |rarity| && j < t.numPieces && Passes(peer, j) && rarity[j] < t.numPieces ==> HasPiece(peer, rarity[j])
  }

  /** A session in which only piece `i` is missing and nothing is requested. */
  function OnlyMissing(t: Torrent, i: nat): State {
    State(EMPTY, map[], [], seq(t.numPieces, k => k != i), 0, 0, [], [])
  }

  lemma OnlyMissingWanted(t: Torrent, i: nat, k: nat)
    requires ValidTorrent(t) && i < t.numPieces && k < t.numPieces
    ensures Wanted(t, OnlyMissing(t, i), k) <==> k == i
  {
    PieceEnds(t, i);
    assert Unassigned(EMPTY, Key(i, 0));
  }

  /** In every session the rarest-first route chooses pieces that the peer has exactly when the rarity array fits the
      peer's bitfield. */
  lemma RarestAlwaysHasIff(t: Torrent, peer: Peer, rarity: seq<nat>)
    requires ValidTorrent(t)
    ensures (forall s: State :: |s.ok| == t.numPieces && Rarest(t, s, peer, rarity, 0).Some? ==>
               HasPiece(peer, Rarest(t, s, peer, rarity, 0).value))
      <==> RarityFits(t, peer, rarity)
  {
    hide ValidTorrent, Wanted, Rarest;
    if RarityFits(t, peer, rarity) {
      forall s: State | |s.ok| == t.numPieces && Rarest(t, s, peer, rarity, 0).Some?
        ensures HasPiece(peer, Rarest(t, s, peer, rarity, 0).value)
      {
        RarestPlace(t, s, peer, rarity, 0);
        var j: nat :| StopsFirst(t, s, peer, rarity, j) && rarity[j] == Rarest(t, s, peer, rarity, 0).value;
      }
    } else {
      var j :| 0 <= j < |rarity| && j < t.numPieces && Passes(peer, j) && rarity[j] < t.numPieces && !HasPiece(peer, rarity[j]);
      var s := OnlyMissing(t, rarity[j]);
      OnlyMissingWanted(t, rarity[j], rarity[j]);
      assert Stops(t, s, peer, rarity, j);
      RarestPlace(t, s, peer, rarity, 0);
      var j': nat :| StopsFirst(t, s, peer, rarity, j') && rarity[j'] == Rarest(t, s, peer, rarity, 0).value;
      OnlyMissingWanted(t, rarity[j], rarity[j']);
      assert !HasPiece(peer, Rarest(t, s, peer, rarity, 0).value);
    }
  }

  // ---------- Runs that break the promises ----------

  /** A torrent of one file, cut into `n` pieces of one octet. */
  function Tiny(n: nat): Torrent { Torrent(false, [n], 1, n, seq(n, _ => [])) }

  function Empty(n: nat): State { Begin(seq(n, _ => false), n, [seq(n, _ => 0)]) }

  lemma TinyValid(n: nat)
    requires 0 < n <= 4
    ensures ValidTorrent(Tiny(n)) && Inv(Tiny(n), Empty(n))
    ensures forall i :: 0 <= i < n ==> Length(Tiny(n), i) == 1
  {
    assert Start([n], 0) == 0 && Start([n], 1) == n;
    BeginInv(Tiny(n), seq(n, _ => false), n, [seq(n, _ => 0)]);
  }

  lemma {:induction false} RunSnoc(t: Torrent, s: State, es: seq<Event>, e: Event)
    requires ValidTorrent(t) && Inv(t, s)
    ensures Run(t, s, es + [e]) == Step(t, Run(t, s, es), e)
    decreases |es|
  {
    hide Step, ValidTorrent, Inv;
    StepKeeps(t, s, (es + [e])[0]);
    if es == [] {
      assert (es + [e])[1..] == [];
    } else {
      assert (es + [e])[1..] == es[1..] + [e];
      RunSnoc(t, Step(t, s, es[0]), es[1..], e);
    }
  }

  /** A picker call for a peer, in a session whose only request book is empty, makes a request for the first block of the
      first piece in the rarity array that passes. */
  lemma AskEmpty(n: nat, s: State, p: PeerId, rarity: seq<nat>)
    requires 0 < n <= 4 && ValidTorrent(Tiny(n)) && Inv(Tiny(n), s) && p in s.peers && !s.peers[p].choked
    requires s.ok == seq(n, _ => false) && s.good < n
    requires s.books.dls == map[] && s.books.index == map[] && ListOf(s.books, p) == []
    requires |rarity| > 0 && rarity[0] < n && Passes(s.peers[p], 0)
    requires forall i :: 0 <= i < n ==> Length(Tiny(n), i) == 1
    ensures var k, r := Key(rarity[0], 0), Step(Tiny(n), s, Ask(p, Chance([], 0, rarity)));
      && r == s.(books := Create(s.books, p, k, 1))
      && r.books.dls == map[s.books.next := Dl(Some(p), k, 1, 0)] && r.books.index == map[k := [s.books.next]]
      && Asks(r.books, p, k)
  {
    hide Agree, Aligned, Credited, Length, ValidTorrent;
    var t, k := Tiny(n), Key(rarity[0], 0);
    assert Unassigned(s.books, k);
    assert Wanted(t, s, rarity[0]);
    assert Rarest(t, s, s.peers[p], rarity, 0) == Some(rarity[0]);
    assert Create(s.books, p, k, 1).dls[s.books.next].key == k;
    assert NodeOf(s.books, k) + [s.books.next] == [s.books.next];
  }

  lemma RunThree(t: Torrent, s: State, e0: Event, e1: Event, e2: Event)
    requires ValidTorrent(t) && Inv(t, s)
    ensures Inv(t, Step(t, s, e0)) && Inv(t, Step(t, Step(t, s, e0), e1))
    ensures Run(t, s, [e0, e1, e2]) == Step(t, Step(t, Step(t, s, e0), e1), e2)
  {
    hide Step, ValidTorrent, Inv;
    StepKeeps(t, s, e0);
    StepKeeps(t, Step(t, s, e0), e1);
    RunSnoc(t, s, [], e0);
    RunSnoc(t, s, [e0], e1);
    RunSnoc(t, s, [e0, e1], e2);
    assert [] + [e0] == [e0] && [e0] + [e1] == [e0, e1] && [e0, e1] + [e2] == [e0, e1, e2];
  }

  /** Peer 1 is asked for a block; peer 2, which was asked for nothing, rejects it; peer 1's request is gone. */
  lemma RejectTakesAnothers()
    ensures ValidTorrent(Tiny(1)) && Inv(Tiny(1), Empty(1))
    ensures var t, s, asked := Tiny(1), Empty(1), [Connect(1, false), Connect(2, true), UnchokedBy(1), Ask(1, Chance([], 0, [0]))];
      && Asks(Run(t, s, asked).books, 1, Key(0, 0))
      && Run(t, s, asked + [RejectedBy(2, Key(0, 0))]).books.dls == map[]
  {
    hide Agree, Aligned, Credited, Length, ValidTorrent, Inv, Gimme, Run;
    TinyValid(1);
    var t, s, es := Tiny(1), Empty(1), [Connect(1, false), Connect(2, true), UnchokedBy(1)];
    var ask, reject := Ask(1, Chance([], 0, [0])), RejectedBy(2, Key(0, 0));
    RunThree(t, s, es[0], es[1], es[2]);
    AskEmpty(1, Run(t, s, es), 1, [0]);
    RunSnoc(t, s, es, ask);
    RunSnoc(t, s, es + [ask], reject);
    assert es + [ask] == [es[0], es[1], es[2], ask];
    assert Find(Run(t, s, es + [ask]).books, Some(2), Key(0, 0)) == Some(0);
  }

  /** A peer that has piece 0 only is asked for piece 1, because the rarity array has piece 1 in place 0. */
  lemma RarestAsksNonHolder()
    ensures ValidTorrent(Tiny(2)) && Inv(Tiny(2), Empty(2))
    ensures var es := [Connect(1, false), Claims(1, {0}), UnchokedBy(1), Ask(1, Chance([], 0, [1, 0]))];
      var r := Run(Tiny(2), Empty(2), es);
      1 in r.peers && HasPiece(r.peers[1], 0) && !HasPiece(r.peers[1], 1) && Asks(r.books, 1, Key(1, 0))
  {
    hide Agree, Aligned, Credited, Length, ValidTorrent, Inv, Gimme, Run;
    TinyValid(2);
    var t, s, es := Tiny(2), Empty(2), [Connect(1, false), Claims(1, {0}), UnchokedBy(1)];
    var ask := Ask(1, Chance([], 0, [1, 0]));
    RunThree(t, s, es[0], es[1], es[2]);
    AskEmpty(2, Run(t, s, es), 1, [1, 0]);
    RunSnoc(t, s, es, ask);
    assert es + [ask] == [es[0], es[1], es[2], ask];
  }

  /** Peer 1 has the only piece and is asked for it; the endgame then asks peer 2, which has nothing. */
  lemma EndgameAsksNonHolder()
    ensures ValidTorrent(Tiny(1)) && Inv(Tiny(1), Empty(1))
    ensures var es := [Connect(1, false), Claims(1, {0}), UnchokedBy(1), Ask(1, Chance([], 0, [0])),
                       Connect(2, false), Claims(2, {}), UnchokedBy(2), EndgameTick];
      var r := Run(Tiny(1), Empty(1), es);
      2 in r.peers && !HasPiece(r.peers[2], 0) && Asks(r.books, 2, Key(0, 0))
  {
    hide Agree, Aligned, Credited, Length, ValidTorrent, Inv, Gimme, Run;
    TinyValid(1);
    var t, s, es := Tiny(1), Empty(1), [Connect(1, false), Claims(1, {0}), UnchokedBy(1)];
    var ask, c, l, u := Ask(1, Chance([], 0, [0])), Connect(2, false), Claims(2, {}), UnchokedBy(2);
    RunThree(t, s, es[0], es[1], es[2]);
    AskEmpty(1, Run(t, s, es), 1, [0]);
    RunSnoc(t, s, es, ask);
    RunSnoc(t, s, es + [ask], c);
    RunSnoc(t, s, es + [ask] + [c], l);
    RunSnoc(t, s, es + [ask] + [c] + [l], u);
    RunSnoc(t, s, es + [ask] + [c] + [l] + [u], EndgameTick);
    var s7 := Run(t, s, es + [ask] + [c] + [l] + [u]);
    assert es + [ask] + [c] + [l] + [u] + [EndgameTick] == [es[0], es[1], es[2], ask, c, l, u, EndgameTick];
    LastTick(s7);
  }

  lemma LastTick(s: State)
    requires ValidTorrent(Tiny(1)) && Inv(Tiny(1), s) && s.ok == [false] && Length(Tiny(1), 0) == 1
    requires s.books.dls == map[0 := Dl(Some(1), Key(0, 0), 1, 0)] && s.books.index == map[Key(0, 0) := [0]]
    requires 2 in s.peers && s.peers[2] == Peer(Some({}), false, false)
    ensures var r := Step(Tiny(1), s, EndgameTick); r.peers == s.peers && Asks(r.books, 2, Key(0, 0))
  {
    hide Length, AskPieces, ValidTorrent, NodesSound, NodesComplete, IdsUsed, FirstFor, Count;
    var t := Tiny(1);
    assert !Unassigned(s.books, Key(0, 0));
    assert Endgame(t, s);
    AskPiecesGood(t, s, s.books, 0);
    var r := AskPieces(t, s, s.books, 0);
    assert EndgameAsks(s.peers, 2, 0) && IsBlock(1, 0);
    assert PieceAsked(t, s, r, 0);
    assert AskedAll(t, r, 2, 0, 0);
    FirstForFacts(r.dls, ListOf(r, 2), Key(0, 0));
  }
}
