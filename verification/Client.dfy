/** The session's handlers as the program runs them: in place, with loops, proved against the functions of `Session`. */
module Client {
  import opened Sequences
  import opened Options
  import opened Bytes
  import opened Layout
  import opened Storage
  import opened Torrents
  import opened Downloads
  import opened Session
  import Sha1Standard
  import opened IndexOrder
  import Events
  import P = PieceIndex
  import T = RbTree

  /** Piece numbers and offsets are below 2^31, so that the index can tell blocks apart by its comparison. */
  predicate Bounded(t: Torrent) { t.numPieces <= 0x8000_0000 && t.pieceLength < 0x8000_0000 }

  lemma SmallKey(t: Torrent, idx: nat, off: nat)
    requires ValidTorrent(t) && Bounded(t) && idx < t.numPieces && off <= Length(t, idx)
    ensures P.Small(Key(idx, off)) && Is32(Key(idx, off))
  {
    hide Length;
    PieceEnds(t, idx);
  }

  class Client {
    const torrent: Torrent
    const disk: Disk
    var dls: map<DlId, Dl>
    var lists: map<PeerId, seq<DlId>>
    const tree: P.PieceIndex
    var next: DlId
    var peers: map<PeerId, Peer>
    var peerList: seq<PeerId>
    var ok: seq<bool>
    var good: nat
    var left: int
    var log: seq<Accepted>

    /** The request books. */
    ghost function Ledger(): Books
      reads this, tree
    {
      Books(dls, lists, tree.index, next)
    }

    /** The objects of the index. */
    ghost function Footprint(): set<object>
      reads this, tree.head
    {
      {tree, tree.head} + T.Nodes(tree.head.tree)
    }

    lemma Apart()
      ensures this !in Footprint() && disk !in Footprint()
    {}

    /** The red-black tree holds the index, with keys that it can compare. */
    ghost predicate Indexed()
      reads this, tree, tree.head, T.Nodes(tree.head.tree)
    {
      tree.Valid() && (forall k :: k in tree.index ==> P.Small(k)) && ValidTorrent(torrent) && Bounded(torrent)
    }

    ghost function View(): State
      reads this, tree, disk
    {
      State(Ledger(), peers, peerList, ok, good, left, disk.files, log)
    }

    ghost predicate Valid()
      reads this, disk, tree, tree.head, T.Nodes(tree.head.tree)
    {
      Indexed() && Inv(torrent, View())
    }

    constructor (torrent: Torrent, disk: Disk, ok: seq<bool>, good: nat, left: int)
      requires ValidTorrent(torrent) && Bounded(torrent) && HasShape(torrent, disk.files) && |ok| == torrent.numPieces && good == Count(ok)
      ensures Valid() && View() == Begin(ok, left, disk.files) && this.torrent == torrent && this.disk == disk
    {
      this.torrent, this.disk := torrent, disk;
      tree := new P.PieceIndex();
      dls, lists, next := map[], map[], 0;
      peers, peerList := map[], [];
      this.ok, this.good, this.left, log := ok, good, left, [];
      new;
      BeginInv(torrent, ok, left, disk.files);
    }

    /** network_piece_dl_find. */
    method DlFind(p: Option<PeerId>, k: Key) returns (r: Option<DlId>)
      requires Agree(Ledger()) && Indexed() && Is32(k)
      ensures r == Find(Ledger(), p, k)
    {
      if p.Some? && p.value in lists {
        var list := lists[p.value];
        var i := 0;
        assert list[0..] == list;
        while i < |list|
          invariant 0 <= i <= |list|
          invariant FirstFor(dls, list, k) == FirstFor(dls, list[i..], k)
        {
          assert list[i] in lists[p.value];
          if dls[list[i]].key == k {
            return Some(list[i]);
          }
          assert list[i..][1..] == list[i + 1..];
          i := i + 1;
        }
      }
      if k in tree.index { P.SmallComparable(k, tree.index); }
      r := tree.First(k);
    }

    /** network_piece_dl_create. */
    method DlCreate(p: PeerId, k: Key, len: nat) returns (d: DlId)
      requires Indexed() && P.Small(k) && p in lists
      modifies `dls, `lists, `next, Footprint()
      ensures Indexed() && fresh(Footprint() - old(Footprint()))
      ensures View() == old(View()).(books := Create(old(Ledger()), p, k, len)) && d == old(next)
    {
      hide P.Small, ValidTorrent, Bounded, P.Named, P.Noded, T.Full, T.RedBlack, T.Inorder, T.Ascending, T.Nodes;
      Apart();
      d := next;
      P.SmallComparable(k, tree.index);
      tree.Add(k, d);
      Apart();
      next := next + 1;
      dls := dls[d := Dl(Some(p), k, len, 0)];
      lists := lists[p := lists[p] + [d]];
    }

    /** network_piece_dl_free. */
    method DlFree(d: DlId)
      requires Indexed() && Agree(Ledger()) && d in dls
      modifies `dls, `lists, Footprint()
      ensures Indexed() && fresh(Footprint() - old(Footprint()))
      ensures View() == old(View()).(books := Free(old(Ledger()), d)) && Agree(Ledger())
    {
      hide P.Small, ValidTorrent, Bounded, P.Named, P.Noded, T.Full, T.RedBlack, T.Inorder, T.Ascending, T.Nodes;
      Apart();
      FreeAgrees(Ledger(), d);
      var dl := dls[d];
      assert dl.key in tree.index;
      P.SmallComparable(dl.key, tree.index);
      tree.Drop(dl.key, d);
      Apart();
      if dl.owner.Some? {
        lists := lists[dl.owner.value := Without(lists[dl.owner.value], d)];
      }
      dls := dls - {d};
    }

    /** The first request of a peer loses its owner and leaves the list. */
    method OrphanHead(p: PeerId) returns (d: DlId)
      requires Indexed() && p in lists && lists[p] != [] && lists[p][0] in dls
      modifies `dls, `lists
      ensures Indexed() && d == old(lists[p][0]) && View() == old(View()).(books := OrphanFirst(old(Ledger()), p))
    {
      hide ValidTorrent, P.Named, P.Noded, T.Full, T.RedBlack, T.Inorder, T.Ascending, T.Nodes;
      Apart();
      d := lists[p][0];
      dls := dls[d := dls[d].(owner := None)];
      lists := lists[p := lists[p][1..]];
    }

    /** The loop of the CHOKE handler, for a peer without the fast extension. */
    method OrphanRequests(p: PeerId)
      requires Indexed() && Agree(Ledger()) && p in lists
      modifies `dls, `lists
      ensures Indexed() && Agree(Ledger()) && View() == old(View()).(books := OrphanAll(old(Ledger()), p))
    {
      hide NodesSound, NodesComplete, ListsComplete, IdsUsed, ValidTorrent;
      hide P.Named, P.Noded, T.Full, T.RedBlack, T.Inorder, T.Ascending, T.Nodes;
      Apart();
      while lists[p] != []
        invariant Indexed() && Agree(Ledger()) && p in lists && View() == old(View()).(books := Ledger())
        invariant OrphanAll(old(Ledger()), p) == OrphanAll(Ledger(), p)
        decreases |lists[p]|
      {
        OrphanFirstAgrees(Ledger(), p);
        assert lists[p][0] in lists[p];
        var _ := OrphanHead(p);
      }
    }

    /** network_peer_free: orphan each request, and free it unless it is complete. */
    method PeerFree(p: PeerId)
      requires Indexed() && Agree(Ledger()) && p in lists
      modifies `dls, `lists, Footprint()
      ensures Indexed() && fresh(Footprint() - old(Footprint()))
      ensures Agree(Ledger()) && View() == old(View()).(books := RemovePeer(old(Ledger()), p))
    {
      hide NodesSound, NodesComplete, ListsComplete, IdsUsed, ValidTorrent, ReleaseAll;
      hide P.Named, P.Noded, T.Full, T.RedBlack, T.Inorder, T.Ascending, T.Nodes;
      ghost var s := View();
      while lists[p] != []
        invariant Indexed() && fresh(Footprint() - old(Footprint()))
        invariant Agree(Ledger()) && p in lists && View() == s.(books := Ledger())
        invariant ReleaseAll(s.books, p) == ReleaseAll(Ledger(), p)
        decreases |lists[p]|
      {
        ReleaseFirstAgrees(Ledger(), p);
        OrphanFirstAgrees(Ledger(), p);
        ReleaseStep(Ledger(), p);
        ghost var b := Ledger();
        var d := OrphanHead(p);
        if dls[d].len != dls[d].bytes {
          DlFree(d);
        }
        assert Ledger() == ReleaseFirst(b, p);
      }
      ReleaseStep(Ledger(), p);
      DropPeerAgrees(Ledger(), p);
      Apart();
      lists := lists - {p};
    }

    /** scheduler_piece_assigned. */
    method PieceAssigned(idx: nat) returns (yes: bool)
      requires Indexed() && Agree(Ledger()) && idx < torrent.numPieces
      ensures yes == Assigned(torrent, Ledger(), idx)
    {
      hide Agree, Find, Length, P.Small;
      hide P.Named, P.Noded, T.Full, T.RedBlack, T.Inorder, T.Ascending, T.Nodes;
      var len, off := Length(torrent, idx), 0;
      while off < len
        invariant AssignedFrom(Ledger(), idx, len, 0) == AssignedFrom(Ledger(), idx, len, off)
        decreases len + BLOCK - off
      {
        SmallKey(torrent, idx, off);
        FindFacts(Ledger(), None, Key(idx, off));
        var d := DlFind(None, Key(idx, off));
        if d.None? || (dls[d.value].bytes != dls[d.value].len && dls[d.value].owner.None?) {
          return false;
        }
        off := off + BLOCK;
      }
      return true;
    }

    /** scheduler_is_endgame: true exactly when no unverified piece has an open block. */
    method IsEndgame() returns (yes: bool)
      requires Valid()
      ensures yes == Endgame(torrent, View())
      ensures yes <==> OpenBlocks(torrent, View()) == {}
    {
      hide Assigned, Agree, Aligned, Credited;
      hide P.Named, P.Noded, T.Full, T.RedBlack, T.Inorder, T.Ascending, T.Nodes;
      EndgameIffNothingOpen(torrent, View());
      yes := true;
      for i := 0 to torrent.numPieces
        invariant yes && forall j :: 0 <= j < i && !ok[j] ==> Assigned(torrent, Ledger(), j)
      {
        if !ok[i] {
          var busy := PieceAssigned(i);
          if !busy { return false; }
        }
      }
    }

    /** Hand an orphaned entry to a peer. */
    method GiveTo(p: PeerId, d: DlId)
      requires Indexed() && p in lists && d in dls
      modifies `dls, `lists
      ensures Indexed() && View() == old(View()).(books := Recycle(old(Ledger()), d, p))
    {
      hide ValidTorrent, P.Named, P.Noded, T.Full, T.RedBlack, T.Inorder, T.Ascending, T.Nodes;
      Apart();
      dls := dls[d := dls[d].(owner := Some(p))];
      lists := lists[p := lists[p] + [d]];
    }

    /** The last part of scheduler_piece_gimme: find the block, recycle its orphaned entry or make a new one.
        The bad-offset abort would be a walk past the end of the piece. */
    method TakeBlock(p: PeerId, idx: nat) returns (k: Key)
      requires Indexed() && Agree(Ledger()) && p in lists && idx < torrent.numPieces && !Assigned(torrent, Ledger(), idx)
      modifies `dls, `lists, `next, Footprint()
      ensures Indexed() && fresh(Footprint() - old(Footprint()))
      ensures FirstUnassigned(old(Ledger()), idx, Length(torrent, idx), 0) == Some(k.off) && k.idx == idx
      ensures k.off < Length(torrent, idx) && View() == old(View()).(books := Take(torrent, old(Ledger()), p, k))
    {
      hide Agree, Find, Length, P.Small, ValidTorrent;
      hide P.Named, P.Noded, T.Full, T.RedBlack, T.Inorder, T.Ascending, T.Nodes;
      var len, off := Length(torrent, idx), 0;
      NoBadOffset(Ledger(), idx, len, 0);
      while true
        invariant Indexed() && View() == old(View()) && Footprint() == old(Footprint())
        invariant FirstUnassigned(Ledger(), idx, len, 0) == FirstUnassigned(Ledger(), idx, len, off)
        decreases len + BLOCK - off
      {
        assert off < len;
        k := Key(idx, off);
        SmallKey(torrent, idx, off);
        FindFacts(Ledger(), None, k);
        var d := DlFind(None, k);
        if d.None? { break; }
        if dls[d.value].owner.None? && dls[d.value].bytes != dls[d.value].len {
          GiveTo(p, d.value);
          return;
        }
        off := off + BLOCK;
      }
      var _ := DlCreate(p, k, if BLOCK > len - off then len - off else BLOCK);
    }

    /** The completeness loop of the PIECE handler. */
    method SeemsComplete(p: PeerId, idx: nat) returns (found: bool)
      requires Indexed() && Agree(Ledger()) && idx < torrent.numPieces
      ensures found == AllComplete(Ledger(), p, idx, Length(torrent, idx), 0)
    {
      hide Agree, Find, Length, P.Small;
      hide P.Named, P.Noded, T.Full, T.RedBlack, T.Inorder, T.Ascending, T.Nodes;
      var len, off := Length(torrent, idx), 0;
      while off < len
        invariant AllComplete(Ledger(), p, idx, len, 0) == AllComplete(Ledger(), p, idx, len, off)
        decreases len + BLOCK - off
      {
        SmallKey(torrent, idx, off);
        FindFacts(Ledger(), Some(p), Key(idx, off));
        var d := DlFind(Some(p), Key(idx, off));
        if d.None? { return false; }
        if dls[d.value].len != dls[d.value].bytes { return false; }
        off := off + BLOCK;
      }
      return true;
    }

    /** The clean-up loop after a hash check. */
    method FreePiece(idx: nat)
      requires Indexed() && Agree(Ledger()) && idx < torrent.numPieces
      modifies `dls, `lists, Footprint()
      ensures Indexed() && fresh(Footprint() - old(Footprint())) && Agree(Ledger())
      ensures View() == old(View()).(books := FreeBlocks(old(Ledger()), idx, Length(torrent, idx), 0))
    {
      hide Agree, Find, Length, P.Small, ValidTorrent, FreeBlocks;
      hide P.Named, P.Noded, T.Full, T.RedBlack, T.Inorder, T.Ascending, T.Nodes;
      var len, off := Length(torrent, idx), 0;
      ghost var s := View();
      while off < len
        invariant Indexed() && fresh(Footprint() - old(Footprint())) && Agree(Ledger()) && View() == s.(books := Ledger())
        invariant FreeBlocks(s.books, idx, len, 0) == FreeBlocks(Ledger(), idx, len, off)
        decreases len + BLOCK - off
      {
        SmallKey(torrent, idx, off);
        FindFacts(Ledger(), None, Key(idx, off));
        FreeStep(Ledger(), idx, len, off);
        var d := DlFind(None, Key(idx, off));
        if d.Some? { DlFree(d.value); }
        off := off + BLOCK;
      }
      FreeStep(Ledger(), idx, len, off);
    }

    /** torrent_piece_map. */
    method MapPiece(idx: nat) returns (segs: seq<Segment>)
      requires idx < torrent.numPieces
      ensures segs == SegmentsOf(torrent, idx)
    {
      if !torrent.multi {
        segs := [Segment(0, Offset(torrent, idx), Length(torrent, idx))];
      } else {
        var len, crashed;
        segs, len, crashed := PieceMap(torrent.fileLens, Offset(torrent, idx), Length(torrent, idx));
        if crashed { segs := []; }
      }
    }

    /** Write the block to disk and count it on its entry. */
    method StoreBlock(idx: nat, off: nat, data: seq<Byte>, d: DlId)
      requires Valid() && idx < torrent.numPieces && d in dls && AllFit(disk.files, SegmentsOf(torrent, idx))
      modifies `dls, `log, disk
      ensures Indexed() && View() == Stored(torrent, old(View()), idx, off, data, d)
    {
      hide Inv, Length, SegmentsOf, WriteSegs, ValidTorrent;
      hide P.Named, P.Noded, T.Full, T.RedBlack, T.Inorder, T.Ascending, T.Nodes;
      Apart();
      var segs := MapPiece(idx);
      disk.BlockWrite(segs, off, data);
      dls := dls[d := dls[d].(bytes := (dls[d].bytes + |data|) % 0x1_0000_0000)];
      log := log + [Accepted(idx, off, data)];
    }

    /** Check the hash of a piece that seems complete, and clean up its requests. */
    method VerifyPiece(idx: nat, raw: seq<Byte>)
      requires Indexed() && Agree(Ledger()) && idx < torrent.numPieces == |ok|
      requires HasShape(torrent, disk.files) && |raw| == Length(torrent, idx)
      modifies `dls, `lists, `ok, `good, `left, Footprint()
      ensures Indexed() && fresh(Footprint() - old(Footprint()))
      ensures AllFit(disk.files, SegmentsOf(torrent, idx)) && View() == Checked(torrent, old(View()), idx)
    {
      hide Agree, Length, SegmentsOf, FreeBlocks, Sha1Standard.Hash, PieceData;
      hide P.Named, P.Noded, T.Full, T.RedBlack, T.Inorder, T.Ascending, T.Nodes;
      var segs := MapPiece(idx);
      PieceSegments(torrent, disk.files, idx);
      DataIsFlat(torrent, disk.files, idx);
      var passed := disk.CheckHash(segs, Length(torrent, idx), torrent.hashes[idx], raw);
      FreePiece(idx);
      Apart();
      if passed {
        ok := ok[idx := true];
        good := good + 1;
        left := left - Length(torrent, idx);
      }
    }

    /** The PIECE handler; `raw` is the buffer that the hash check may allocate. */
    method HandlePiece(p: PeerId, idx: nat, off: nat, data: seq<Byte>, raw: seq<Byte>)
      requires Valid() && (idx < torrent.numPieces ==> |raw| == Length(torrent, idx))
      modifies this, disk, Footprint()
      ensures Valid() && fresh(Footprint() - old(Footprint())) && View() == OnPiece(torrent, old(View()), p, idx, off, data)
    {
      hide Agree, Find, Length, SegmentsOf, AllComplete, Count, Aligned, Credited, Stored, Checked;
      hide P.Named, P.Noded, T.Full, T.RedBlack, T.Inorder, T.Ascending, T.Nodes;
      Apart();
      OnPieceKeeps(torrent, View(), p, idx, off, data);
      if idx >= torrent.numPieces { return; }
      if off > Length(torrent, idx) { return; }
      FindFacts(Ledger(), Some(p), Key(idx, off));
      SmallKey(torrent, idx, off);
      var d := DlFind(Some(p), Key(idx, off));
      if d.Some? && |data| != dls[d.value].len { return; }
      if d.None? {
        if p in peers { peers := peers[p := peers[p].(choked := false, fast := false)]; }
        return;
      }
      if ok[idx] { return; }
      PieceSegments(torrent, disk.files, idx);
      CreditAgrees(Ledger(), d.value, |data|);
      StoredFrame(torrent, View(), idx, off, data, d.value);
      StoreBlock(idx, off, data, d.value);
      var found := SeemsComplete(p, idx);
      if found {
        VerifyPiece(idx, raw);
      }
    }

    /** The first search of scheduler_piece_gimme: RB_FOREACH over the index, for a piece already begun. */
    method StartedFor(peer: Peer) returns (chosen: Option<nat>)
      requires Valid()
      ensures P.IsListing(tree.Listing(), tree.index)
      ensures chosen == Started(torrent, View(), peer, tree.Listing())
    {
      hide Agree, Aligned, Credited, Count, Assigned, Length, ValidTorrent, P.Small;
      hide P.Named, P.Noded, T.Full, T.RedBlack, T.Inorder, T.Ascending, T.Nodes;
      tree.ListingIs();
      ghost var s, nodes, i := View(), tree.Listing(), 0;
      assert nodes[0..] == nodes;
      var pdin := tree.FirstNode();
      while pdin != null
        invariant i <= |nodes| == |tree.Order()| && pdin == if i < |nodes| then tree.Order()[i] else null
        invariant Started(torrent, s, peer, nodes) == Started(torrent, s, peer, nodes[i..])
        decreases |nodes| - i
      {
        var idx := tree.keyOf[pdin].idx;
        assert nodes[i..][0] == nodes[i] && nodes[i..][1..] == nodes[i + 1..];
        if idx < torrent.numPieces && !ok[idx] {
          var busy := PieceAssigned(idx);
          if !busy && HasPiece(peer, idx) { return Some(idx); }
        }
        pdin := tree.NextNode(pdin, i);
        i := i + 1;
      }
      return None;
    }

    /** The three searches of scheduler_piece_gimme, of which the first goes through the index in tree order. */
    method ChooseFor(p: PeerId, random: nat, rarity: seq<nat>) returns (chosen: Option<nat>)
      requires Valid() && p in peers
      ensures P.IsListing(tree.Listing(), tree.index)
      ensures chosen == ChoosePiece(torrent, View(), peers[p], Chance(tree.Listing(), random, rarity))
    {
      hide Agree, Aligned, Credited, Count, Assigned, Length, ValidTorrent, P.Small;
      hide P.Named, P.Noded, T.Full, T.RedBlack, T.Inorder, T.Ascending, T.Nodes;
      var peer := peers[p];
      ghost var s := View();
      chosen := StartedFor(peer);
      if chosen.Some? { return; }
      if good < 4 && torrent.numPieces > 4 {
        var useful := UsefulFor(peer);
        if useful == [] { return None; }
        return Some(useful[random % |useful|]);
      }
      chosen := RarestFor(peer, rarity);
    }

    /** The second search: the array of all pieces that the peer has and that we want. */
    method UsefulFor(peer: Peer) returns (useful: seq<nat>)
      requires Valid()
      ensures useful == Useful(torrent, View(), peer, torrent.numPieces)
    {
      hide Agree, Aligned, Credited, Count, Assigned, Length, ValidTorrent, P.Small;
      hide P.Named, P.Noded, T.Full, T.RedBlack, T.Inorder, T.Ascending, T.Nodes;
      useful := [];
      for i := 0 to torrent.numPieces
        invariant useful == Useful(torrent, View(), peer, i)
      {
        if HasPiece(peer, i) && !ok[i] {
          var busy := PieceAssigned(i);
          if !busy { useful := useful + [i]; }
        }
      }
    }

    /** scheduler_piece_find_rarest. */
    method RarestFor(peer: Peer, rarity: seq<nat>) returns (chosen: Option<nat>)
      requires Valid()
      ensures chosen == Rarest(torrent, View(), peer, rarity, 0)
    {
      hide Agree, Aligned, Credited, Count, Assigned, Length, ValidTorrent, P.Small;
      hide P.Named, P.Noded, T.Full, T.RedBlack, T.Inorder, T.Ascending, T.Nodes;
      ghost var s := View();
      var i := 0;
      while i < torrent.numPieces && i < |rarity|
        invariant 0 <= i <= torrent.numPieces
        invariant Rarest(torrent, s, peer, rarity, 0) == Rarest(torrent, s, peer, rarity, i)
      {
        if peer.bitfield.Some? && i !in peer.bitfield.value {
          i := i + 1;
          continue;
        }
        var idx := rarity[i];
        if idx < torrent.numPieces && !ok[idx] {
          var busy := PieceAssigned(idx);
          if !busy { return Some(idx); }
        }
        i := i + 1;
      }
      return None;
    }

    /** scheduler_piece_gimme. With `nocreate` it only sets the hint that there is something to ask for; otherwise a request
        that it returns closes exactly one open block. */
    method PieceGimme(p: PeerId, nocreate: bool, hint: bool, random: nat, rarity: seq<nat>)
      returns (r: Option<Key>, hint': bool, ghost c: Chance)
      requires Valid() && p in peers
      modifies `dls, `lists, `next, Footprint()
      ensures Indexed() && fresh(Footprint() - old(Footprint()))
      ensures P.IsListing(c.nodes, old(tree.index)) && c == Chance(c.nodes, random, rarity)
      ensures nocreate ==> r == None && View() == old(View())
      ensures hint' == (hint || (nocreate && ChoosePiece(torrent, old(View()), peers[p], c).Some?))
      ensures !nocreate ==> r == Gimme(torrent, old(View()), p, c).0
      ensures !nocreate ==> View() == old(View()).(books := Gimme(torrent, old(View()), p, c).1)
      ensures r.Some? ==> OpenBlocks(torrent, View()) == OpenBlocks(torrent, old(View())) - {r.value}
      ensures r.Some? ==> r.value in OpenBlocks(torrent, old(View()))
    {
      hide Agree, Aligned, Credited, Count, Length, ChoosePiece, Take, FirstUnassigned, OpenBlocks, P.IsListing, ValidTorrent, P.Small;
      hide P.Named, P.Noded, T.Full, T.RedBlack, T.Inorder, T.Ascending, T.Nodes;
      ghost var s := View();
      c := Chance(tree.Listing(), random, rarity);
      var chosen := ChooseFor(p, random, rarity);
      hint' := hint;
      if chosen.None? { return None, hint, c; }
      if nocreate { return None, true, c; }
      ChosenIsWanted(torrent, s, peers[p], c);
      NoBadOffset(s.books, chosen.value, Length(torrent, chosen.value), 0);
      var k := TakeBlock(p, chosen.value);
      GimmeClosesOne(torrent, s, p, c);
      r := Some(k);
    }

    // ---------- Handlers ----------

    /** The CHOKE handler. */
    method HandleChoke(p: PeerId)
      requires Valid() && p in peers
      modifies `peers, `dls, `lists
      ensures Valid() && View() == Step(torrent, old(View()), ChokedBy(p))
    {
      hide Agree, Aligned, Credited, Count, ValidTorrent, P.Small;
      hide P.Named, P.Noded, T.Full, T.RedBlack, T.Inorder, T.Ascending, T.Nodes;
      StepKeeps(torrent, View(), ChokedBy(p));
      Apart();
      peers := peers[p := peers[p].(choked := true)];
      if !peers[p].fast {
        OrphanRequests(p);
      }
    }

    /** The UNCHOKE handler. */
    method HandleUnchoke(p: PeerId)
      requires Valid() && p in peers
      modifies `peers
      ensures Valid() && View() == Step(torrent, old(View()), UnchokedBy(p))
    {
      hide Agree, Aligned, Credited, Count, ValidTorrent, P.Small;
      hide P.Named, P.Noded, T.Full, T.RedBlack, T.Inorder, T.Ascending, T.Nodes;
      StepKeeps(torrent, View(), UnchokedBy(p));
      Apart();
      peers := peers[p := peers[p].(choked := false)];
    }

    /** The REJECT handler. */
    method HandleReject(p: PeerId, k: Key)
      requires Valid() && p in peers && Is32(k)
      modifies `peers, `dls, `lists, Footprint()
      ensures Valid() && fresh(Footprint() - old(Footprint())) && View() == Step(torrent, old(View()), RejectedBy(p, k))
    {
      hide Agree, Aligned, Credited, Count, ValidTorrent, P.Small;
      hide P.Named, P.Noded, T.Full, T.RedBlack, T.Inorder, T.Ascending, T.Nodes;
      StepKeeps(torrent, View(), RejectedBy(p, k));
      Apart();
      if !peers[p].fast {
        peers := peers[p := peers[p].(choked := false, fast := false)];
        return;
      }
      if k.idx >= torrent.numPieces { return; }
      FindFacts(Ledger(), Some(p), k);
      var d := DlFind(Some(p), k);
      if d.None? { return; }
      DlFree(d.value);
    }

    /** scheduler_reap_dead: the peer leaves the list and is freed. */
    method Reap(p: PeerId)
      requires Valid() && p in peers
      modifies `peers, `peerList, `dls, `lists, Footprint()
      ensures Valid() && fresh(Footprint() - old(Footprint())) && View() == Step(torrent, old(View()), Gone(p))
    {
      hide Agree, Aligned, Credited, Count, ValidTorrent, P.Small;
      hide P.Named, P.Noded, T.Full, T.RedBlack, T.Inorder, T.Ascending, T.Nodes;
      hide RemovePeer, Step;
      StepKeeps(torrent, View(), Gone(p));
      Events.GoneEffect(torrent, View(), p);
      Apart();
      peerList := Without(peerList, p);
      PeerFree(p);
      Apart();
      peers := peers - {p};
    }

    /** One request of scheduler_fill_requests. */
    method FillOne(p: PeerId, random: nat, rarity: seq<nat>) returns (ghost c: Chance)
      requires Valid() && p in peers
      modifies `dls, `lists, `next, Footprint()
      ensures Valid() && fresh(Footprint() - old(Footprint())) && P.IsListing(c.nodes, old(tree.index))
      ensures c == Chance(c.nodes, random, rarity) && View() == Step(torrent, old(View()), Ask(p, c))
    {
      hide Agree, Aligned, Credited, Count, ValidTorrent, P.Small;
      hide P.Named, P.Noded, T.Full, T.RedBlack, T.Inorder, T.Ascending, T.Nodes;
      hide Gimme, P.IsListing;
      tree.ListingIs();
      c := Chance(tree.Listing(), random, rarity);
      StepKeeps(torrent, View(), Ask(p, c));
      if !peers[p].choked && torrent.numPieces - good > 0 {
        var r, hint;
        r, hint, c := PieceGimme(p, false, false, random, rarity);
        StepKeeps(torrent, old(View()), Ask(p, c));
      }
    }

    /** The end of scheduler(). */
    method EndgameIfDue()
      requires Valid()
      modifies `dls, `lists, `next, Footprint()
      ensures Valid() && fresh(Footprint() - old(Footprint())) && View() == Step(torrent, old(View()), EndgameTick)
    {
      hide Agree, Aligned, Credited, Count, ValidTorrent, P.Small;
      hide P.Named, P.Noded, T.Full, T.RedBlack, T.Inorder, T.Ascending, T.Nodes;
      hide AskPieces, Endgame, OpenBlocks;
      StepKeeps(torrent, View(), EndgameTick);
      var due := IsEndgame();
      if due { EndgamePass(); }
    }

    /** The innermost loop of scheduler_endgame_algorithm. */
    method AskPeer(p: PeerId, idx: nat)
      requires Indexed() && Agree(Ledger()) && p in lists && idx < torrent.numPieces
      modifies `dls, `lists, `next, Footprint()
      ensures Indexed() && fresh(Footprint() - old(Footprint()))
      ensures View() == old(View()).(books := AskBlocks(torrent, old(Ledger()), p, idx, 0))
      ensures Agree(Ledger()) && lists.Keys == old(lists.Keys)
    {
      hide Agree, Length, ValidTorrent, P.Small, AskBlocks, FirstFor;
      hide P.Named, P.Noded, T.Full, T.RedBlack, T.Inorder, T.Ascending, T.Nodes;
      var len, off := Length(torrent, idx), 0;
      ghost var s := View();
      while off < len
        invariant Indexed() && fresh(Footprint() - old(Footprint())) && View() == s.(books := Ledger())
        invariant Agree(Ledger()) && p in lists && lists.Keys == old(lists.Keys)
        invariant AskBlocks(torrent, s.books, p, idx, 0) == AskBlocks(torrent, Ledger(), p, idx, off)
        decreases len + BLOCK - off
      {
        SmallKey(torrent, idx, off);
        AskStep(torrent, Ledger(), p, idx, off);
        AskOnce(p, Key(idx, off), if BLOCK > len - off then len - off else BLOCK);
        off := off + BLOCK;
      }
      AskStep(torrent, Ledger(), p, idx, off);
    }

    /** One block of it: a request, unless the peer has one. */
    method AskOnce(p: PeerId, k: Key, len: nat)
      requires Indexed() && Agree(Ledger()) && p in lists && P.Small(k)
      modifies `dls, `lists, `next, Footprint()
      ensures Indexed() && fresh(Footprint() - old(Footprint())) && Agree(Ledger()) && lists.Keys == old(lists.Keys)
      ensures View() == old(View()).(books :=
        if FirstFor(old(dls), ListOf(old(Ledger()), p), k).Some? then old(Ledger()) else Create(old(Ledger()), p, k, len))
    {
      hide Agree, ValidTorrent, P.Small, FirstFor;
      hide P.Named, P.Noded, T.Full, T.RedBlack, T.Inorder, T.Ascending, T.Nodes;
      var found := OnList(p, k);
      if !found {
        CreateAgrees(Ledger(), p, k, len);
        var _ := DlCreate(p, k, len);
      }
    }

    /** Is the block queued on this peer? */
    method OnList(p: PeerId, k: Key) returns (found: bool)
      requires Agree(Ledger()) && p in lists
      ensures found == FirstFor(dls, ListOf(Ledger(), p), k).Some?
    {
      hide P.Named, P.Noded, T.Full, T.RedBlack, T.Inorder, T.Ascending, T.Nodes;
      var list := lists[p];
      FirstForFacts(dls, list, k);
      for i := 0 to |list|
        invariant forall j :: 0 <= j < i ==> dls[list[j]].key != k
      {
        assert list[i] in lists[p];
        if dls[list[i]].key == k { return true; }
      }
      return false;
    }

    /** The middle loop of the endgame pass: one piece, asked of every unchoked peer whose bitfield lacks it. */
    method AskPeersFor(i: nat)
      requires Indexed() && Agree(Ledger()) && i < torrent.numPieces && forall p :: p in peerList ==> p in peers && p in lists
      modifies `dls, `lists, `next, Footprint()
      ensures Indexed() && fresh(Footprint() - old(Footprint()))
      ensures View() == old(View()).(books := AskPeers(torrent, old(Ledger()), peers, peerList, i))
      ensures Agree(Ledger()) && lists.Keys == old(lists.Keys)
    {
      hide Agree, Length, AskBlocks, ValidTorrent, P.Small;
      hide P.Named, P.Noded, T.Full, T.RedBlack, T.Inorder, T.Ascending, T.Nodes;
      ghost var s := View();
      assert peerList[0..] == peerList;
      for j := 0 to |peerList|
        invariant Indexed() && fresh(Footprint() - old(Footprint())) && View() == s.(books := Ledger())
        invariant Agree(Ledger()) && lists.Keys == old(lists.Keys)
        invariant AskPeers(torrent, s.books, peers, peerList, i) == AskPeers(torrent, Ledger(), peers, peerList[j..], i)
      {
        var p := peerList[j];
        assert p in peerList && peerList[j..][0] == p && peerList[j..][1..] == peerList[j + 1..];
        if peers[p].bitfield.None? || i in peers[p].bitfield.value { continue; }
        if peers[p].choked { continue; }
        AskPeer(p, i);
      }
    }

    /** scheduler_endgame_algorithm. */
    method EndgamePass()
      requires Valid()
      modifies `dls, `lists, `next, Footprint()
      ensures Indexed() && fresh(Footprint() - old(Footprint()))
      ensures View() == old(View()).(books := AskPieces(torrent, old(View()), old(Ledger()), 0))
    {
      hide Agree, Aligned, Credited, Count, Length, AskPeers, ValidTorrent, P.Small;
      hide P.Named, P.Noded, T.Full, T.RedBlack, T.Inorder, T.Ascending, T.Nodes;
      ghost var s := View();
      for i := 0 to torrent.numPieces
        invariant Indexed() && fresh(Footprint() - old(Footprint()))
        invariant View() == s.(books := Ledger()) && Agree(Ledger()) && lists.Keys == s.peers.Keys
        invariant AskPieces(torrent, s, s.books, 0) == AskPieces(torrent, s, Ledger(), i)
      {
        if ok[i] { continue; }
        AskPeersFor(i);
      }
    }
  }

  /** One round of the endgame's offset loop. */
  lemma AskStep(t: Torrent, b: Books, p: PeerId, idx: nat, off: nat)
    requires idx < t.numPieces
    ensures off >= Length(t, idx) ==> AskBlocks(t, b, p, idx, off) == b
    ensures off < Length(t, idx) ==>
      AskBlocks(t, b, p, idx, off)
      == AskBlocks(t, if FirstFor(b.dls, ListOf(b, p), Key(idx, off)).Some? then b
                      else Create(b, p, Key(idx, off), BlockLen(Length(t, idx), off)), p, idx, off + BLOCK)
  {
    hide Length, FirstFor, Create, BlockLen;
  }

  /** One round of the clean-up loop. */
  lemma FreeStep(b: Books, idx: nat, len: nat, off: nat)
    requires Agree(b)
    ensures off >= len ==> FreeBlocks(b, idx, len, off) == b
    ensures var d := Find(b, None, Key(idx, off)); off < len ==>
      && (d.None? ==> FreeBlocks(b, idx, len, off) == FreeBlocks(b, idx, len, off + BLOCK))
      && (d.Some? ==> d.value in b.dls && Agree(Free(b, d.value))
                      && FreeBlocks(b, idx, len, off) == FreeBlocks(Free(b, d.value), idx, len, off + BLOCK))
  {
    hide Agree, Find, Free;
    FindFacts(b, None, Key(idx, off));
    var d := Find(b, None, Key(idx, off));
    if d.Some? { FreeAgrees(b, d.value); }
  }

  /** One round of the release loop. */
  lemma ReleaseStep(b: Books, p: PeerId)
    requires Agree(b)
    ensures ListOf(b, p) == [] ==> ReleaseAll(b, p) == b
    ensures ListOf(b, p) != [] ==> b.lists[p][0] in b.dls && Agree(ReleaseFirst(b, p)) && ReleaseAll(b, p) == ReleaseAll(ReleaseFirst(b, p), p)
  {
    if ListOf(b, p) != [] { ReleaseFirstAgrees(b, p); }
  }

  lemma DataIsFlat(t: Torrent, files: Files, i: nat)
    requires i < t.numPieces && AllFit(files, SegmentsOf(t, i))
    ensures PieceData(t, files, i) == Flat(files, SegmentsOf(t, i))
  {}
}
