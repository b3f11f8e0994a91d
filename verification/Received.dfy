/** What a PIECE message does, exactly, and what is stored after any run: every octet is that of the last accepted message
    that covers it. */
module Received {
  import opened Options
  import opened Bytes
  import opened Sequences
  import opened Storage
  import opened Torrents
  import opened Downloads
  import opened Session
  import Sha1Standard

  // ---------- One message ----------

  /** A message that is stored: the piece is not verified yet, and the request that the lookup finds has its length. */
  ghost predicate Takes(t: Torrent, s: State, p: PeerId, idx: nat, off: nat, data: seq<Byte>)
    requires |s.ok| == t.numPieces
  {
    && idx < t.numPieces && off <= Length(t, idx) && !s.ok[idx]
    && var d := Find(s.books, Some(p), Key(idx, off));
       d.Some? && d.value in s.books.dls && s.books.dls[d.value].len == |data|
  }

  /** The octets of every piece, in files of the right shape. */
  lemma AllShaped(t: Torrent, files: Files)
    requires ValidTorrent(t) && HasShape(t, files)
    ensures forall j :: 0 <= j < t.numPieces ==> AllFit(files, SegmentsOf(t, j))
  {
    hide SegmentsOf, ValidTorrent;
    forall j | 0 <= j < t.numPieces ensures AllFit(files, SegmentsOf(t, j)) {
      PieceSegments(t, files, j);
    }
  }

  /** Storing a block overwrites exactly its octets in the piece, and nothing in any other piece. */
  lemma StoredData(t: Torrent, files: Files, idx: nat, off: nat, data: seq<Byte>)
    requires ValidTorrent(t) && HasShape(t, files) && idx < t.numPieces && AllFit(files, SegmentsOf(t, idx))
    ensures var files' := WriteSegs(files, SegmentsOf(t, idx), off, data);
      && HasShape(t, files')
      && forall j :: 0 <= j < t.numPieces ==>
           && AllFit(files, SegmentsOf(t, j)) && AllFit(files', SegmentsOf(t, j))
           && PieceData(t, files', j)
              == if j == idx then Overwrite(PieceData(t, files, idx), off, data) else PieceData(t, files, j)
  {
    hide SegmentsOf, ValidTorrent, Overwrite, WriteSegs;
    var files' := WriteSegs(files, SegmentsOf(t, idx), off, data);
    AllShaped(t, files);
    AllShaped(t, files');
    PieceSegments(t, files, idx);
    WriteFlat(files, SegmentsOf(t, idx), off, data);
    forall j | 0 <= j < t.numPieces && j != idx ensures PieceData(t, files', j) == PieceData(t, files, j) {
      PiecesApart(t, j, idx);
      WriteConfined(files, SegmentsOf(t, idx), off, data, SegmentsOf(t, j));
    }
  }

  /** A PIECE message that is taken is logged and overwrites exactly its block of its piece; any other leaves log, data,
      flags and requests alone. */
  lemma PieceStores(t: Torrent, s: State, p: PeerId, idx: nat, off: nat, data: seq<Byte>)
    requires ValidTorrent(t) && Inv(t, s)
    ensures var s' := OnPiece(t, s, p, idx, off, data);
      && (Takes(t, s, p, idx, off, data) ==>
            && s'.log == s.log + [Accepted(idx, off, data)]
            && HasShape(t, s'.files)
            && forall j :: 0 <= j < t.numPieces ==>
                 && AllFit(s.files, SegmentsOf(t, j)) && AllFit(s'.files, SegmentsOf(t, j))
                 && PieceData(t, s'.files, j)
                    == if j == idx then Overwrite(PieceData(t, s.files, idx), off, data) else PieceData(t, s.files, j))
      && (!Takes(t, s, p, idx, off, data) ==>
            s'.log == s.log && s'.files == s.files && s'.ok == s.ok && s'.books == s.books && s'.left == s.left)
  {
    hide SegmentsOf, Length, Agree, Aligned, Credited, AllComplete, FreeBlocks, Count, Sha1Standard.Hash, WriteSegs, Overwrite;
    if idx < t.numPieces {
      PieceSegments(t, s.files, idx);
      StoredData(t, s.files, idx, off, data);
      FindFacts(s.books, Some(p), Key(idx, off));
    }
  }

  // ---------- Runs ----------

  /** The octets of piece `idx` after the messages of `log`, in order. */
  function Replay(data: seq<Byte>, idx: nat, log: seq<Accepted>): seq<Byte>
    decreases |log|
  {
    if log == [] then data
    else
      var m, before := log[|log| - 1], Replay(data, idx, log[..|log| - 1]);
      if m.idx == idx then Overwrite(before, m.off, m.data) else before
  }

  lemma ReplaySnoc(data: seq<Byte>, idx: nat, log: seq<Accepted>, m: Accepted)
    ensures Replay(data, idx, log + [m])
      == if m.idx == idx then Overwrite(Replay(data, idx, log), m.off, m.data) else Replay(data, idx, log)
  {
    assert (log + [m])[..|log|] == log;
  }

  lemma {:induction false} ReplayConcat(data: seq<Byte>, idx: nat, a: seq<Accepted>, b: seq<Accepted>)
    ensures Replay(data, idx, a + b) == Replay(Replay(data, idx, a), idx, b)
    decreases |b|
  {
    if b == [] {
      assert a + b == a;
    } else {
      var n := |b| - 1;
      assert a + b == (a + b[..n]) + [b[n]];
      ReplaySnoc(data, idx, a + b[..n], b[n]);
      ReplayConcat(data, idx, a, b[..n]);
    }
  }

  /** One event: the log grows by some messages, and the octets of every piece are those messages replayed. */
  lemma StepReplays(t: Torrent, s: State, e: Event, idx: nat)
    requires ValidTorrent(t) && Inv(t, s) && idx < t.numPieces
    ensures var s' := Step(t, s, e);
      && HasShape(t, s.files) && HasShape(t, s'.files) && s.log <= s'.log
      && AllFit(s.files, SegmentsOf(t, idx)) && AllFit(s'.files, SegmentsOf(t, idx))
      && PieceData(t, s'.files, idx) == Replay(PieceData(t, s.files, idx), idx, s'.log[|s.log|..])
  {
    hide Agree, Aligned, Credited, Length, Count, SegmentsOf, PieceData, ValidTorrent, Step, OnPiece, Takes, Overwrite, Replay;
    var s' := Step(t, s, e);
    AllShaped(t, s.files);
    ReplayNothing(PieceData(t, s.files, idx), idx);
    OnlyPieceStores(t, s, e);
    if e.Piece? {
      PieceStores(t, s, e.p, e.idx, e.off, e.data);
      var m := Accepted(e.idx, e.off, e.data);
      if Takes(t, s, e.p, e.idx, e.off, e.data) {
        assert s'.log[|s.log|..] == [] + [m];
        ReplaySnoc(PieceData(t, s.files, idx), idx, [], m);
      } else {
        assert s'.log[|s.log|..] == [];
      }
    } else {
      assert s'.log[|s.log|..] == [];
    }
  }

  lemma ReplayNothing(data: seq<Byte>, idx: nat)
    ensures Replay(data, idx, []) == data
  {}

  /** Only PIECE messages touch data and log. */
  lemma OnlyPieceStores(t: Torrent, s: State, e: Event)
    requires ValidTorrent(t) && Inv(t, s)
    ensures e.Piece? ==> Step(t, s, e) == OnPiece(t, s, e.p, e.idx, e.off, e.data)
    ensures !e.Piece? ==> Step(t, s, e).log == s.log && Step(t, s, e).files == s.files
  {
    hide Agree, Aligned, Credited, Length, Count, OnPiece, OrphanAll, RemovePeer, Gimme, AskPieces, Endgame, ValidTorrent;
  }

  /** Over every run, the octets of a piece are those at its start with the accepted messages replayed. */
  lemma {:induction false} RunReplays(t: Torrent, s: State, es: seq<Event>, idx: nat)
    requires ValidTorrent(t) && Inv(t, s) && idx < t.numPieces
    ensures var r := Run(t, s, es);
      && s.log <= r.log && AllFit(s.files, SegmentsOf(t, idx)) && AllFit(r.files, SegmentsOf(t, idx))
      && PieceData(t, r.files, idx) == Replay(PieceData(t, s.files, idx), idx, r.log[|s.log|..])
    decreases |es|
  {
    hide Step, Agree, Aligned, Credited, Length, Count, SegmentsOf, PieceData, ValidTorrent;
    AllShaped(t, s.files);
    if es == [] {
      assert s.log[|s.log|..] == [];
    } else {
      var s1, r := Step(t, s, es[0]), Run(t, s, es);
      StepKeeps(t, s, es[0]);
      StepReplays(t, s, es[0], idx);
      RunReplays(t, s1, es[1..], idx);
      ReplayConcat(PieceData(t, s.files, idx), idx, s1.log[|s.log|..], r.log[|s1.log|..]);
      assert r.log[|s.log|..] == s1.log[|s.log|..] + r.log[|s1.log|..];
    }
  }

  predicate Covering(m: Accepted, idx: nat, x: nat) { m.idx == idx && m.off <= x < m.off + |m.data| }

  /** The last message that covers an octet decides it; an octet that no message covers stays. */
  lemma {:induction false} ReplayAt(data: seq<Byte>, idx: nat, log: seq<Accepted>, x: nat)
    requires x < |data|
    ensures var r := Replay(data, idx, log);
      && |r| == |data|
      && (forall j :: 0 <= j < |log| && Covering(log[j], idx, x) && (forall k :: j < k < |log| ==> !Covering(log[k], idx, x)) ==>
            r[x] == log[j].data[x - log[j].off])
      && ((forall j :: 0 <= j < |log| ==> !Covering(log[j], idx, x)) ==> r[x] == data[x])
    decreases |log|
  {
    if log != [] {
      var n := |log| - 1;
      var front, m := log[..n], log[n];
      ReplayAt(data, idx, front, x);
      OverwriteAt(Replay(data, idx, front), m.off, m.data, x);
      if !Covering(m, idx, x) {
        forall j | 0 <= j < |log| && Covering(log[j], idx, x) && (forall k :: j < k < |log| ==> !Covering(log[k], idx, x))
          ensures Replay(data, idx, log)[x] == log[j].data[x - log[j].off]
        {
          assert j < n && front[j] == log[j];
          assert forall k :: j < k < |front| ==> front[k] == log[k];
        }
      }
    }
  }

  /** Over every run: a stored octet is that of the last message accepted during the run that covers it. */
  lemma LastMessageIsStored(t: Torrent, s: State, es: seq<Event>, idx: nat, x: nat, j: nat)
    requires ValidTorrent(t) && Inv(t, s) && idx < t.numPieces && x < Length(t, idx)
    requires var r := Run(t, s, es);
      && |s.log| <= j < |r.log| && Covering(r.log[j], idx, x)
      && forall k :: j < k < |r.log| ==> !Covering(r.log[k], idx, x)
    ensures var r := Run(t, s, es);
      && AllFit(r.files, SegmentsOf(t, idx)) && |PieceData(t, r.files, idx)| == Length(t, idx)
      && PieceData(t, r.files, idx)[x] == r.log[j].data[x - r.log[j].off]
  {
    hide Run, Length, SegmentsOf, ValidTorrent, Agree, Aligned, Credited;
    var r := Run(t, s, es);
    RunReplays(t, s, es, idx);
    PieceSegments(t, s.files, idx);
    FlatLength(s.files, SegmentsOf(t, idx));
    var log := r.log[|s.log|..];
    ReplayAt(PieceData(t, s.files, idx), idx, log, x);
    assert log[j - |s.log|] == r.log[j];
    assert forall k :: j - |s.log| < k < |log| ==> log[k] == r.log[k + |s.log|];
  }

  /** Over every run: an octet that no accepted message covers is what it was. */
  lemma UncoveredStays(t: Torrent, s: State, es: seq<Event>, idx: nat, x: nat)
    requires ValidTorrent(t) && Inv(t, s) && idx < t.numPieces && x < Length(t, idx)
    requires var r := Run(t, s, es); forall k :: |s.log| <= k < |r.log| ==> !Covering(r.log[k], idx, x)
    ensures var r := Run(t, s, es);
      && AllFit(s.files, SegmentsOf(t, idx)) && AllFit(r.files, SegmentsOf(t, idx))
      && |PieceData(t, s.files, idx)| == |PieceData(t, r.files, idx)| == Length(t, idx)
      && PieceData(t, r.files, idx)[x] == PieceData(t, s.files, idx)[x]
  {
    hide Run, Length, SegmentsOf, ValidTorrent, Agree, Aligned, Credited;
    var r := Run(t, s, es);
    RunReplays(t, s, es, idx);
    PieceSegments(t, s.files, idx);
    FlatLength(s.files, SegmentsOf(t, idx));
    var log := r.log[|s.log|..];
    ReplayAt(PieceData(t, s.files, idx), idx, log, x);
    assert forall k :: 0 <= k < |log| ==> log[k] == r.log[k + |s.log|];
  }

  // ---------- The request books ----------

  /** The block's request, as peer `p` looks it up, has all its octets. */
  ghost predicate BlockDone(b: Books, p: PeerId, k: Key) {
    var d := Find(b, Some(p), k); d.Some? && d.value in b.dls && b.dls[d.value].bytes == b.dls[d.value].len
  }

  /** The completeness loop looks at every block of the piece. */
  lemma {:induction false} AllCompleteIff(b: Books, p: PeerId, idx: nat, len: nat, off: nat)
    requires off % BLOCK == 0
    ensures AllComplete(b, p, idx, len, off) <==> forall x :: off <= x && IsBlock(len, x) ==> BlockDone(b, p, Key(idx, x))
    decreases len + BLOCK - off
  {
    hide Find;
    if off < len {
      assert (off + BLOCK) % BLOCK == 0;
      AllCompleteIff(b, p, idx, len, off + BLOCK);
      forall x | off < x && IsBlock(len, x) ensures off + BLOCK <= x { BlockSteps(off, x); }
      assert IsBlock(len, off);
    }
  }

  /** Entry `d` is the first one in the index for a block of piece `idx` at or after `off`. */
  ghost predicate HeadOfBlock(b: Books, idx: nat, len: nat, off: nat, d: DlId) {
    d in b.dls && var k := b.dls[d].key;
    k.idx == idx && off <= k.off && IsBlock(len, k.off) && NodeOf(b, k) != [] && NodeOf(b, k)[0] == d
  }

  lemma FreeOne(b: Books, k: Key)
    requires Agree(b) && NodeOf(b, k) != []
    ensures var d := NodeOf(b, k)[0];
      && d in b.dls && b.dls[d].key == k && Find(b, None, k) == Some(d)
      && Agree(Free(b, d)) && Free(b, d).dls == b.dls - {d} && forall j :: j != k ==> NodeOf(Free(b, d), j) == NodeOf(b, j)
  {
    FindFacts(b, None, k);
    FreeAgrees(b, NodeOf(b, k)[0]);
  }

  /** The clean-up frees exactly the first entry of each block of the piece. */
  lemma {:induction false} FreeBlocksExactly(b: Books, idx: nat, len: nat, off: nat)
    requires Agree(b) && off % BLOCK == 0
    ensures var r := FreeBlocks(b, idx, len, off);
      forall d :: (d in r.dls <==> d in b.dls && !HeadOfBlock(b, idx, len, off, d)) && (d in r.dls ==> r.dls[d] == b.dls[d])
    decreases len + BLOCK - off
  {
    hide Agree;
    if off < len {
      var k := Key(idx, off);
      var b' := b;
      assert (off + BLOCK) % BLOCK == 0 && IsBlock(len, off);
      if NodeOf(b, k) != [] {
        FreeOne(b, k);
        b' := Free(b, NodeOf(b, k)[0]);
      }
      FreeBlocksExactly(b', idx, len, off + BLOCK);
      forall x | off < x && IsBlock(len, x) ensures off + BLOCK <= x { BlockSteps(off, x); }
      forall d
        ensures HeadOfBlock(b, idx, len, off, d) <==> (NodeOf(b, k) != [] && d == NodeOf(b, k)[0]) || HeadOfBlock(b', idx, len, off + BLOCK, d)
      {
        HeadStep(b, b', idx, len, off, d);
      }
    }
  }

  lemma HeadStep(b: Books, b': Books, idx: nat, len: nat, off: nat, d: DlId)
    requires Agree(b) && IsBlock(len, off)
    requires var k := Key(idx, off);
      if NodeOf(b, k) == [] then b' == b
      else b'.dls == b.dls - {NodeOf(b, k)[0]} && NodeOf(b, k)[0] in b.dls && b.dls[NodeOf(b, k)[0]].key == k
           && forall j :: j != k ==> NodeOf(b', j) == NodeOf(b, j)
    requires forall x :: off < x && IsBlock(len, x) ==> off + BLOCK <= x
    ensures HeadOfBlock(b, idx, len, off, d)
      <==> (NodeOf(b, Key(idx, off)) != [] && d == NodeOf(b, Key(idx, off))[0]) || HeadOfBlock(b', idx, len, off + BLOCK, d)
  {
    hide NodesSound, ListsSound, ListsComplete, IdsUsed;
  }

  /** The books after the block is counted on its request. */
  ghost predicate Counted(b: Books, r: Books, d: DlId, n: nat) {
    && d in b.dls && r.lists == b.lists && r.index == b.index && r.dls.Keys == b.dls.Keys
    && r.dls[d] == b.dls[d].(bytes := (b.dls[d].bytes + n) % 0x1_0000_0000)
    && forall e :: e in b.dls && e != d ==> r.dls[e] == b.dls[e]
  }

  lemma CreditCounts(b: Books, d: DlId, n: nat)
    requires d in b.dls
    ensures Counted(b, Credit(b, d, n), d, n)
  {}

  /** Every block of the piece is done. */
  ghost predicate PieceDone(t: Torrent, b: Books, p: PeerId, idx: nat)
    requires idx < t.numPieces
  {
    forall x :: 0 <= x && IsBlock(Length(t, idx), x) ==> BlockDone(b, p, Key(idx, x))
  }

  /** The books once the octets of a taken message are counted. */
  ghost function AfterCount(t: Torrent, s: State, p: PeerId, idx: nat, off: nat, data: seq<Byte>): Books
    requires |s.ok| == t.numPieces && Takes(t, s, p, idx, off, data)
  {
    Credit(s.books, Find(s.books, Some(p), Key(idx, off)).value, |data|)
  }

  /** The handler on a message that is taken, in steps. */
  lemma TakenSteps(t: Torrent, s: State, p: PeerId, idx: nat, off: nat, data: seq<Byte>)
    requires ValidTorrent(t) && Inv(t, s) && Takes(t, s, p, idx, off, data)
    ensures var s', b := OnPiece(t, s, p, idx, off, data), AfterCount(t, s, p, idx, off, data);
      && AllFit(s.files, SegmentsOf(t, idx)) && Agree(b)
      && var s1 := Stored(t, s, idx, off, data, Find(s.books, Some(p), Key(idx, off)).value);
      && s1.books == b && AllFit(s1.files, SegmentsOf(t, idx))
      && s' == if PieceDone(t, b, p, idx) then Checked(t, s1, idx) else s1
  {
    hide SegmentsOf, Length, Aligned, Credited, AllComplete, Checked, Count, WriteSegs,
         NodesSound, NodesComplete, ListsSound, ListsComplete, IdsUsed;
    FindFacts(s.books, Some(p), Key(idx, off));
    PieceSegments(t, s.files, idx);
    CreditAgrees(s.books, Find(s.books, Some(p), Key(idx, off)).value, |data|);
    AllCompleteIff(AfterCount(t, s, p, idx, off, data), p, idx, Length(t, idx), 0);
  }

  /** A message that is taken counts its octets on its request. If then every block of the piece is done, the piece is
      hashed: it becomes verified, with the counters moved, exactly when the digest of what is now stored is the expected
      one. */
  lemma PieceChecks(t: Torrent, s: State, p: PeerId, idx: nat, off: nat, data: seq<Byte>)
    requires ValidTorrent(t) && Inv(t, s) && Takes(t, s, p, idx, off, data)
    ensures var s', b := OnPiece(t, s, p, idx, off, data), AfterCount(t, s, p, idx, off, data);
      && Counted(s.books, b, Find(s.books, Some(p), Key(idx, off)).value, |data|)
      && AllFit(s'.files, SegmentsOf(t, idx))
      && var good := PieceDone(t, b, p, idx) && Sha1Standard.Hash(PieceData(t, s'.files, idx)) == t.hashes[idx];
      && s'.ok == (if good then s.ok[idx := true] else s.ok)
      && s'.good == s.good + (if good then 1 else 0) && s'.left == s.left - (if good then Length(t, idx) else 0)
      && s'.peers == s.peers && s'.peerList == s.peerList
  {
    hide SegmentsOf, Length, OnPiece, FreeBlocks, Sha1Standard.Hash, WriteSegs, PieceData, PieceDone, Inv, ValidTorrent, Agree;
    TakenSteps(t, s, p, idx, off, data);
    CreditCounts(s.books, Find(s.books, Some(p), Key(idx, off)).value, |data|);
  }

  /** After a hash check, whatever its outcome, the first request of each block of the piece is gone, and no other;
      without one the requests stay as counted. */
  lemma PieceFrees(t: Torrent, s: State, p: PeerId, idx: nat, off: nat, data: seq<Byte>)
    requires ValidTorrent(t) && Inv(t, s) && Takes(t, s, p, idx, off, data)
    ensures var r, b := OnPiece(t, s, p, idx, off, data).books, AfterCount(t, s, p, idx, off, data);
      && (!PieceDone(t, b, p, idx) ==> r == b)
      && (PieceDone(t, b, p, idx) ==>
            forall d :: (d in r.dls <==> d in b.dls && !HeadOfBlock(b, idx, Length(t, idx), 0, d)) && (d in r.dls ==> r.dls[d] == b.dls[d]))
  {
    hide SegmentsOf, Length, OnPiece, FreeBlocks, Sha1Standard.Hash, WriteSegs, PieceData, PieceDone, Aligned, Credited, Count, ValidTorrent, HeadOfBlock, Agree;
    TakenSteps(t, s, p, idx, off, data);
    FreeBlocksExactly(AfterCount(t, s, p, idx, off, data), idx, Length(t, idx), 0);
  }
}
