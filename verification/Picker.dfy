/** The block picker and the endgame, exactly: which piece is chosen and when none is, which block is taken, and what
    happens to the requests. */
module Picker {
  import opened Options
  import opened Sequences
  import opened Torrents
  import opened Downloads
  import opened Session
  import opened Unexpected

  /** A piece that is worth asking this peer for. */
  predicate Suits(t: Torrent, s: State, peer: Peer, i: nat)
    requires |s.ok| == t.numPieces
  {
    i < t.numPieces && HasPiece(peer, i) && Wanted(t, s, i)
  }

  // ---------- The routes ----------

  /** The first route returns the piece of the first index node that suits, and nothing exactly when none does. */
  lemma {:induction false} StartedIs(t: Torrent, s: State, peer: Peer, nodes: seq<Key>)
    requires |s.ok| == t.numPieces
    ensures var r := Started(t, s, peer, nodes);
      && (r.None? <==> forall i :: 0 <= i < |nodes| ==> !Suits(t, s, peer, nodes[i].idx))
      && (r.Some? ==> exists i :: 0 <= i < |nodes| && nodes[i].idx == r.value && Suits(t, s, peer, nodes[i].idx)
                               && forall j :: 0 <= j < i ==> !Suits(t, s, peer, nodes[j].idx))
    decreases |nodes|
  {
    hide Wanted;
    if nodes != [] {
      var rest := nodes[1..];
      StartedIs(t, s, peer, rest);
      assert forall i :: 1 <= i < |nodes| ==> nodes[i] == rest[i - 1];
      if !Suits(t, s, peer, nodes[0].idx) {
        var r := Started(t, s, peer, rest);
        if r.Some? {
          var i :| 0 <= i < |rest| && rest[i].idx == r.value && Suits(t, s, peer, rest[i].idx)
                && forall j :: 0 <= j < i ==> !Suits(t, s, peer, rest[j].idx);
          assert nodes[i + 1] == rest[i];
        } else {
          assert forall i :: 0 <= i < |rest| ==> rest[i] == nodes[i + 1];
        }
      }
    }
  }

  /** The second route's array holds exactly the pieces that suit, once each, in ascending order. */
  lemma {:induction false} UsefulIs(t: Torrent, s: State, peer: Peer, n: nat)
    requires n <= t.numPieces == |s.ok|
    ensures var u := Useful(t, s, peer, n);
      && (forall i: nat :: i in u <==> i < n && Suits(t, s, peer, i))
      && forall a, b :: 0 <= a < b < |u| ==> u[a] < u[b]
    decreases n
  {
    hide Wanted;
    if n > 0 {
      UsefulIs(t, s, peer, n - 1);
      var u := Useful(t, s, peer, n - 1);
      assert forall a :: 0 <= a < |u| ==> u[a] in u;
    }
  }

  /** The picker chooses nothing exactly when no begun piece suits and, while fewer than four pieces of more than four are
      verified, no piece suits, or else the rarest-first loop stops nowhere. */
  lemma ChoosesNothingIff(t: Torrent, s: State, peer: Peer, c: Chance)
    requires |s.ok| == t.numPieces
    ensures ChoosePiece(t, s, peer, c).None? <==>
      && (forall i :: 0 <= i < |c.nodes| ==> !Suits(t, s, peer, c.nodes[i].idx))
      && if s.good < 4 && t.numPieces > 4 then forall i: nat :: !Suits(t, s, peer, i)
         else forall k :: 0 <= k < |c.rarity| ==> !Stops(t, s, peer, c.rarity, k)
  {
    hide Wanted, Suits, Stops;
    StartedIs(t, s, peer, c.nodes);
    UsefulIs(t, s, peer, t.numPieces);
    RarestPlace(t, s, peer, c.rarity, 0);
    var u := Useful(t, s, peer, t.numPieces);
    if u != [] { assert u[0] in u; }
    SuitsInRange(t, s, peer);
  }

  lemma SuitsInRange(t: Torrent, s: State, peer: Peer)
    requires |s.ok| == t.numPieces
    ensures forall i: nat :: Suits(t, s, peer, i) ==> i < t.numPieces
  {}

  /** On the random route every piece that suits can come up, and nothing else. */
  lemma RandomReaches(t: Torrent, s: State, peer: Peer, c: Chance, i: nat)
    requires |s.ok| == t.numPieces && s.good < 4 && t.numPieces > 4 && Started(t, s, peer, c.nodes).None?
    ensures Suits(t, s, peer, i) <==> exists random: nat :: ChoosePiece(t, s, peer, c.(random := random)) == Some(i)
  {
    hide Wanted, Suits, Started, Useful, ChoosePiece;
    UsefulIs(t, s, peer, t.numPieces);
    SuitsInRange(t, s, peer);
    var u := Useful(t, s, peer, t.numPieces);
    if Suits(t, s, peer, i) {
      var k :| 0 <= k < |u| && u[k] == i;
      RandomChoice(t, s, peer, c, k);
      assert ChoosePiece(t, s, peer, c.(random := k)) == Some(i);
    }
    if random: nat :| ChoosePiece(t, s, peer, c.(random := random)) == Some(i) {
      RandomChoice(t, s, peer, c, random);
      assert u[random % |u|] in u;
    }
  }

  lemma RandomChoice(t: Torrent, s: State, peer: Peer, c: Chance, random: nat)
    requires |s.ok| == t.numPieces && s.good < 4 && t.numPieces > 4 && Started(t, s, peer, c.nodes).None?
    ensures var u := Useful(t, s, peer, t.numPieces);
      && ChoosePiece(t, s, peer, c.(random := random)) == (if u == [] then None else Some(u[random % |u|]))
      && (random < |u| ==> random % |u| == random)
  {
    hide Started, Useful, Rarest;
  }

  // ---------- The block ----------

  /** The offset loop stops at the first unassigned block. */
  lemma {:induction false} FirstUnassignedIs(b: Books, idx: nat, len: nat, off: nat)
    requires off % BLOCK == 0
    ensures var r := FirstUnassigned(b, idx, len, off);
      && (r.None? <==> forall x :: off <= x && IsBlock(len, x) ==> !Unassigned(b, Key(idx, x)))
      && (r.Some? ==> off <= r.value && IsBlock(len, r.value) && Unassigned(b, Key(idx, r.value))
                      && forall x :: off <= x < r.value && IsBlock(len, x) ==> !Unassigned(b, Key(idx, x)))
    decreases len + BLOCK - off
  {
    hide Unassigned;
    if off < len {
      assert (off + BLOCK) % BLOCK == 0 && IsBlock(len, off);
      FirstUnassignedIs(b, idx, len, off + BLOCK);
      forall x | off < x && IsBlock(len, x) ensures off + BLOCK <= x { BlockSteps(off, x); }
    }
  }

  /** A block is unassigned exactly when it has no request, or its first request has no owner and is incomplete. */
  lemma UnassignedIff(b: Books, k: Key)
    requires Agree(b)
    ensures Unassigned(b, k) <==>
      (forall d :: d in b.dls ==> b.dls[d].key != k)
      || (k in b.index && b.index[k] != [] && b.index[k][0] in b.dls
          && b.dls[b.index[k][0]].owner == None && b.dls[b.index[k][0]].bytes != b.dls[b.index[k][0]].len)
  {
    FindFacts(b, None, k);
  }

  /** A request that the picker returns is the peer's: either the orphan that stood first for the block, its count kept, or
      a new one with the block's length and nothing received. No other request changes. */
  lemma GimmeAsks(t: Torrent, s: State, p: PeerId, c: Chance)
    requires ValidTorrent(t) && Inv(t, s) && p in s.peers
    ensures var (r, b') := Gimme(t, s, p, c);
      var b := s.books;
      r.Some? ==>
        && ChoosePiece(t, s, s.peers[p], c) == Some(r.value.idx) && r.value.idx < t.numPieces
        && FirstUnassigned(b, r.value.idx, Length(t, r.value.idx), 0) == Some(r.value.off)
        && var d := if NodeOf(b, r.value) == [] then b.next else NodeOf(b, r.value)[0];
        && b'.dls.Keys == b.dls.Keys + {d} && b'.lists == b.lists[p := ListOf(b, p) + [d]]
        && (forall e :: e in b.dls && e != d ==> b'.dls[e] == b.dls[e])
        && b'.dls[d] == if d in b.dls then b.dls[d].(owner := Some(p))
                        else Dl(Some(p), r.value, BlockLen(Length(t, r.value.idx), r.value.off), 0)
  {
    hide Length, ChoosePiece, Unassigned, BlockLen, Aligned, Credited, Count, ListsSound, ListsComplete;
    var r := Gimme(t, s, p, c).0;
    if r.Some? {
      ChosenIsWanted(t, s, s.peers[p], c);
      NoBadOffset(s.books, r.value.idx, Length(t, r.value.idx), 0);
      FindFacts(s.books, None, r.value);
    }
  }

  // ---------- Endgame ----------

  /** Every request of `r` that `b` does not have was missing in `b`, and is there once, empty. */
  ghost predicate AddsOnce(b: Books, r: Books) {
    forall d :: d in r.dls && d !in b.dls ==>
      && r.dls[d].owner.Some? && !Asks(b, r.dls[d].owner.value, r.dls[d].key) && r.dls[d].bytes == 0
      && forall e :: e in r.dls && e !in b.dls && r.dls[e].owner == r.dls[d].owner && r.dls[e].key == r.dls[d].key ==> e == d
  }

  lemma AddsOnceTransitive(a: Books, b: Books, c: Books)
    requires Grows(a, b) && Grows(b, c) && AddsOnce(a, b) && AddsOnce(b, c)
    ensures AddsOnce(a, c)
  {
    forall d | d in c.dls && d !in a.dls && d !in b.dls
      ensures c.dls[d].owner.Some? && !Asks(a, c.dls[d].owner.value, c.dls[d].key)
    {
      assert !Asks(b, c.dls[d].owner.value, c.dls[d].key);
    }
    forall d, e | d in c.dls && d !in a.dls && e in c.dls && e !in a.dls && c.dls[e].owner == c.dls[d].owner && c.dls[e].key == c.dls[d].key
      ensures e == d
    {
      if d in b.dls && e !in b.dls { assert Asks(b, c.dls[e].owner.value, c.dls[e].key); }
      if e in b.dls && d !in b.dls { assert Asks(b, c.dls[d].owner.value, c.dls[d].key); }
    }
  }

  lemma CreateAddsOnce(b: Books, p: PeerId, k: Key, len: nat)
    requires Agree(b) && p in b.lists && FirstFor(b.dls, ListOf(b, p), k).None?
    ensures AddsOnce(b, Create(b, p, k, len))
  {
    FirstForFacts(b.dls, ListOf(b, p), k);
  }

  lemma {:induction false} AskBlocksOnce(t: Torrent, s: State, b: Books, p: PeerId, idx: nat, off: nat)
    requires GoodBooks(t, b, s.log) && p in b.lists && idx < t.numPieces && off % BLOCK == 0
    ensures AddsOnce(b, AskBlocks(t, b, p, idx, off))
    decreases Length(t, idx) + BLOCK - off
  {
    hide Length, BlockLen, FirstFor, AddsOnce, Agree, Aligned, Credited;
    var len := Length(t, idx);
    NothingOnce(b);
    if off < len {
      var b' := b;
      GrowsItself(b);
      if FirstFor(b.dls, ListOf(b, p), Key(idx, off)).None? {
        CreateGood(t, b, s.log, p, Key(idx, off));
        b' := Create(b, p, Key(idx, off), BlockLen(len, off));
        CreateAddsOnce(b, p, Key(idx, off), BlockLen(len, off));
      }
      assert (off + BLOCK) % BLOCK == 0;
      AskBlocksGood(t, b', s.log, p, idx, off + BLOCK);
      AskBlocksOnce(t, s, b', p, idx, off + BLOCK);
      AddsOnceTransitive(b, b', AskBlocks(t, b, p, idx, off));
    }
  }

  lemma NothingOnce(b: Books)
    ensures AddsOnce(b, b)
  {}

  lemma GrowsItself(b: Books)
    ensures Grows(b, b)
  {}

  lemma {:induction false} AskPeersOnce(t: Torrent, s: State, b: Books, list: seq<PeerId>, idx: nat)
    requires GoodBooks(t, b, s.log) && idx < t.numPieces && forall p :: p in list ==> p in b.lists
    ensures AddsOnce(b, AskPeers(t, b, s.peers, list, idx))
    decreases |list|
  {
    hide Length, GoodBooks, EndgameAsks, AskBlocks, AddsOnce;
    NothingOnce(b);
    if list != [] {
      var b' := b;
      GrowsItself(b);
      if EndgameAsks(s.peers, list[0], idx) {
        AskBlocksGood(t, b, s.log, list[0], idx, 0);
        AskBlocksOnce(t, s, b, list[0], idx, 0);
        b' := AskBlocks(t, b, list[0], idx, 0);
      }
      AskPeersGood(t, b', s.log, s.peers, list[1..], idx);
      AskPeersOnce(t, s, b', list[1..], idx);
      AddsOnceTransitive(b, b', AskPeers(t, b, s.peers, list, idx));
    }
  }

  /** Over a whole endgame pass no peer is asked for a block that it was asked for before, or twice. */
  lemma {:induction false} AskPiecesOnce(t: Torrent, s: State, b: Books, i: nat)
    requires |s.ok| == t.numPieces && GoodBooks(t, b, s.log) && PeersMatch(s) && b.lists.Keys == s.peers.Keys
    ensures AddsOnce(b, AskPieces(t, s, b, i))
    decreases t.numPieces - i
  {
    hide Length, GoodBooks, EndgameAsks, AskPeers, AddsOnce;
    NothingOnce(b);
    if i < t.numPieces {
      var b' := b;
      GrowsItself(b);
      if !s.ok[i] {
        AskPieceGood(t, s, b, i);
        AskPeersOnce(t, s, b, s.peerList, i);
        b' := AskPeers(t, b, s.peers, s.peerList, i);
      }
      AskPiecesGood(t, s, b', i + 1);
      AskPiecesOnce(t, s, b', i + 1);
      AddsOnceTransitive(b, b', AskPieces(t, s, b, i));
    }
  }
}
