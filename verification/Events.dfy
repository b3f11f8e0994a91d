/** What each event of a session changes, and that it changes nothing else. */
module Events {
  import opened Options
  import opened Sequences
  import opened Torrents
  import opened Downloads
  import opened Session
  import opened Bytes
  import opened Storage
  import Sha1Standard

  /** Only peer `p` is different, and of it only what `now` says. */
  ghost predicate PeerIs(s: State, s': State, p: PeerId, now: Peer) {
    p in s'.peers && s'.peers[p] == now && s'.peers.Keys == s.peers.Keys && forall q :: q in s.peers && q != p ==> s'.peers[q] == s.peers[q]
  }

  /** Flags, counters, data and log are the same. */
  ghost predicate DataSame(s: State, s': State) {
    s'.ok == s.ok && s'.good == s.good && s'.left == s.left && s'.files == s.files && s'.log == s.log
  }

  /** A CHOKE marks the peer as choking us. From a peer without the fast extension it leaves exactly that peer's requests
      without owner, and its list empty; from a fast peer it leaves all requests alone. */
  lemma ChokeEffect(t: Torrent, s: State, p: PeerId)
    requires ValidTorrent(t) && Inv(t, s) && p in s.peers
    ensures var s' := Step(t, s, ChokedBy(p));
      var b, b' := s.books, s'.books;
      && PeerIs(s, s', p, Peer(s.peers[p].bitfield, true, s.peers[p].fast)) && s'.peerList == s.peerList && DataSame(s, s')
      && (s.peers[p].fast ==> b' == b)
      && (!s.peers[p].fast ==>
            && b'.index == b.index && b'.dls.Keys == b.dls.Keys && b'.lists.Keys == b.lists.Keys && b'.lists[p] == []
            && (forall q :: q in b.lists && q != p ==> b'.lists[q] == b.lists[q])
            && (forall d :: d in b.dls && b.dls[d].owner == Some(p) ==> b'.dls[d] == b.dls[d].(owner := None))
            && (forall d :: d in b.dls && b.dls[d].owner != Some(p) ==> b'.dls[d] == b.dls[d]))
  {
    hide Agree, Aligned, Credited, Count, ValidTorrent;
    OrphanAllEffect(s.books, p);
  }

  /** An UNCHOKE, a change of bitfield and a kill touch nothing but that peer; a killed peer's bits are cleared. */
  lemma PeerEffect(t: Torrent, s: State, p: PeerId, pieces: set<nat>)
    requires ValidTorrent(t) && Inv(t, s) && p in s.peers
    ensures var s', was := Step(t, s, UnchokedBy(p)), s.peers[p];
      PeerIs(s, s', p, Peer(was.bitfield, false, was.fast)) && s'.books == s.books && s'.peerList == s.peerList && DataSame(s, s')
    ensures var s', was := Step(t, s, Claims(p, pieces)), s.peers[p];
      PeerIs(s, s', p, Peer(Some(pieces), was.choked, was.fast)) && s'.books == s.books && s'.peerList == s.peerList && DataSame(s, s')
    ensures var s', was := Step(t, s, Killed(p)), s.peers[p];
      PeerIs(s, s', p, Peer(was.bitfield, false, false)) && s'.books == s.books && s'.peerList == s.peerList && DataSame(s, s')
  {
    hide Agree, Aligned, Credited, Count, ValidTorrent;
  }

  /** A REJECT from a peer without the fast extension kills that peer and frees nothing. */
  lemma SlowRejectKills(t: Torrent, s: State, p: PeerId, k: Key)
    requires ValidTorrent(t) && Inv(t, s) && p in s.peers && !s.peers[p].fast
    ensures var s' := Step(t, s, RejectedBy(p, k));
      PeerIs(s, s', p, Peer(s.peers[p].bitfield, false, false)) && s'.books == s.books && s'.peerList == s.peerList && DataSame(s, s')
  {
    hide Agree, Aligned, Credited, Count, ValidTorrent;
  }

  /** A PIECE message kills its peer exactly when it is in range and for a block that nobody was asked for; otherwise all
      peers are as they were. */
  lemma UnaskedPieceKills(t: Torrent, s: State, p: PeerId, idx: nat, off: nat, data: seq<Byte>)
    requires ValidTorrent(t) && Inv(t, s) && p in s.peers
    ensures var s' := Step(t, s, Piece(p, idx, off, data));
      var unasked := idx < t.numPieces && off <= Length(t, idx) && forall d :: d in s.books.dls ==> s.books.dls[d].key != Key(idx, off);
      && s'.peerList == s.peerList
      && (unasked ==> PeerIs(s, s', p, Peer(s.peers[p].bitfield, false, false)) && s'.books == s.books && DataSame(s, s'))
      && (!unasked ==> s'.peers == s.peers)
  {
    hide Agree, Aligned, Credited, Count, ValidTorrent, Length, SegmentsOf, AllComplete, FreeBlocks, Sha1Standard.Hash, WriteSegs, PieceData;
    FindFacts(s.books, Some(p), Key(idx, off));
  }

  /** A message from nobody in the list changes nothing. */
  lemma StrangerIgnored(t: Torrent, s: State, p: PeerId, pieces: set<nat>, k: Key, c: Chance)
    requires ValidTorrent(t) && Inv(t, s) && p !in s.peers
    ensures Step(t, s, ChokedBy(p)) == s && Step(t, s, UnchokedBy(p)) == s && Step(t, s, Claims(p, pieces)) == s
    ensures Step(t, s, Killed(p)) == s && Step(t, s, RejectedBy(p, k)) == s && Step(t, s, Ask(p, c)) == s
  {
    hide Agree, Aligned, Credited, Count, ValidTorrent;
  }

  /** A new peer comes at the end of the list, choking us, without bitfield and without requests. */
  lemma ConnectEffect(t: Torrent, s: State, p: PeerId, fast: bool)
    requires ValidTorrent(t) && Inv(t, s) && p !in s.peers
    ensures var s' := Step(t, s, Connect(p, fast));
      && s'.peers == s.peers[p := Peer(None, true, fast)] && s'.peerList == s.peerList + [p] && DataSame(s, s')
      && s'.books.dls == s.books.dls && s'.books.index == s.books.index && s'.books.lists == s.books.lists[p := []]
  {
    hide Agree, Aligned, Credited, Count, ValidTorrent;
  }

  /** network_peer_free: the peer's list goes; its complete requests stay without owner, its other requests go, and
      everybody else's stay. */
  lemma RemoveEffect(b: Books, p: PeerId)
    requires Agree(b)
    ensures var r := RemovePeer(b, p);
      && p !in r.lists && (forall q :: q in b.lists && q != p ==> q in r.lists && r.lists[q] == b.lists[q])
      && (forall d :: d in r.dls <==> d in b.dls && !(b.dls[d].owner == Some(p) && b.dls[d].bytes != b.dls[d].len))
      && (forall d :: d in r.dls ==> r.dls[d] == if b.dls[d].owner == Some(p) then b.dls[d].(owner := None) else b.dls[d])
  {
    hide Agree, ReleaseAll;
    ReleaseAllEffect(b, p);
  }

  /** A peer that goes leaves the list and is freed; nothing else changes. */
  lemma GoneEffect(t: Torrent, s: State, p: PeerId)
    requires ValidTorrent(t) && Inv(t, s) && p in s.peers
    ensures var s' := Step(t, s, Gone(p));
      && s'.peers == s.peers - {p} && s'.peerList == Without(s.peerList, p) && DataSame(s, s')
      && (forall q :: q in s'.peerList <==> q in s.peerList && q != p)
      && s'.books == RemovePeer(s.books, p)
  {
    hide Agree, Aligned, Credited, Count, ValidTorrent, RemovePeer;
    WithoutFacts(s.peerList, p);
  }

  lemma {:induction false} CountFull(ok: seq<bool>)
    ensures Count(ok) <= |ok| && (Count(ok) == |ok| <==> forall i :: 0 <= i < |ok| ==> ok[i])
    decreases |ok|
  {
    if ok != [] {
      CountFull(ok[1..]);
      assert forall i :: 1 <= i < |ok| ==> ok[i] == ok[1..][i - 1];
      assert forall i :: 0 <= i < |ok| - 1 ==> ok[1..][i] == ok[i + 1];
    }
  }

  /** The scheduler calls the picker for a peer exactly when the peer does not choke us and some piece is not verified. */
  lemma AskEffect(t: Torrent, s: State, p: PeerId, c: Chance)
    requires ValidTorrent(t) && Inv(t, s) && p in s.peers
    ensures var s', calls := Step(t, s, Ask(p, c)), !s.peers[p].choked && exists i :: 0 <= i < t.numPieces && !s.ok[i];
      && (calls ==> s' == s.(books := Gimme(t, s, p, c).1))
      && (!calls ==> s' == s)
  {
    hide Agree, Aligned, Credited, ValidTorrent, Gimme;
    CountFull(s.ok);
  }

  /** The endgame pass runs exactly when no unverified piece has an open block. */
  lemma TickEffect(t: Torrent, s: State)
    requires ValidTorrent(t) && Inv(t, s)
    ensures Step(t, s, EndgameTick)
      == if OpenBlocks(t, s) == {} then s.(books := AskPieces(t, s, s.books, 0)) else s
  {
    hide Agree, Aligned, Credited, ValidTorrent, AskPieces, Count, Assigned, OpenBlocks;
    EndgameIffNothingOpen(t, s);
  }
}
