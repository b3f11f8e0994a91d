/** Outstanding block requests (`struct piece_dl`), held both in per-peer lists and in the global index by piece and
    offset: network_piece_dl_create, _free and _find, CHOKE, network_peer_free and recycling. */
module Downloads {
  import opened Sequences
  import opened Options
  import opened Storage

  type PeerId = nat
  type DlId = nat

  /** A block: piece index and offset in the piece. */
  datatype Key = Key(idx: nat, off: nat)

  /** One request; an entry without owner is orphaned. */
  datatype Dl = Dl(owner: Option<PeerId>, key: Key, len: nat, bytes: nat)

  /** All requests, the peers' lists, the index nodes, and the next unused identity. */
  datatype Books = Books(dls: map<DlId, Dl>, lists: map<PeerId, seq<DlId>>, index: map<Key, seq<DlId>>, next: DlId)

  const EMPTY := Books(map[], map[], map[], 0)

  ghost predicate NoDup<T(!new)>(s: seq<T>) { forall i, j :: 0 <= i < j < |s| ==> s[i] != s[j] }

  // ---------- The two structures agree ----------

  /** No index node is empty, and a node's entries are live requests for its key, each once. */
  ghost predicate NodesSound(b: Books) {
    forall k :: k in b.index ==>
      && b.index[k] != [] && NoDup(b.index[k])
      && forall d :: d in b.index[k] ==> d in b.dls && b.dls[d].key == k
  }

  /** Every request is in the node of its key. */
  ghost predicate NodesComplete(b: Books) {
    forall d :: d in b.dls ==> b.dls[d].key in b.index && d in b.index[b.dls[d].key]
  }

  /** A peer's list holds live requests that the peer owns, each once. */
  ghost predicate ListsSound(b: Books) {
    forall p :: p in b.lists ==>
      && NoDup(b.lists[p])
      && forall d :: d in b.lists[p] ==> d in b.dls && b.dls[d].owner == Some(p)
  }

  /** Every owned request is in its owner's list. */
  ghost predicate ListsComplete(b: Books) {
    forall d :: d in b.dls && b.dls[d].owner.Some? ==>
      b.dls[d].owner.value in b.lists && d in b.lists[b.dls[d].owner.value]
  }

  ghost predicate IdsUsed(b: Books) { forall d :: d in b.dls ==> d < b.next }

  ghost predicate Agree(b: Books) {
    NodesSound(b) && NodesComplete(b) && ListsSound(b) && ListsComplete(b) && IdsUsed(b)
  }

  // ---------- Operations ----------

  lemma NoDupCons<T(!new)>(x: T, s: seq<T>)
    requires NoDup(s) && x !in s
    ensures NoDup([x] + s)
  {}

  lemma {:induction false} WithoutFacts<T(!new)>(s: seq<T>, x: T)
    requires NoDup(s)
    ensures NoDup(Without(s, x))
    ensures forall y :: y in Without(s, x) <==> y in s && y != x
    decreases |s|
  {
    if s != [] {
      assert forall y :: y in s <==> y == s[0] || y in s[1..];
      assert s[0] !in s[1..] && NoDup(s[1..]);
      if s[0] != x {
        WithoutFacts(s[1..], x);
        NoDupCons(s[0], Without(s[1..], x));
      }
    }
  }

  function ListOf(b: Books, p: PeerId): seq<DlId> { if p in b.lists then b.lists[p] else [] }

  function NodeOf(b: Books, k: Key): seq<DlId> { if k in b.index then b.index[k] else [] }

  /** network_piece_dl_create. */
  function Create(b: Books, p: PeerId, k: Key, len: nat): Books {
    Books(b.dls[b.next := Dl(Some(p), k, len, 0)],
          b.lists[p := ListOf(b, p) + [b.next]],
          b.index[k := NodeOf(b, k) + [b.next]],
          b.next + 1)
  }

  /** The index without entry `d` of node `k`; a node left empty goes. */
  function Unindex(index: map<Key, seq<DlId>>, k: Key, d: DlId): map<Key, seq<DlId>> {
    if k !in index then index
    else if Without(index[k], d) == [] then index - {k}
    else index[k := Without(index[k], d)]
  }

  function Unlist(lists: map<PeerId, seq<DlId>>, owner: Option<PeerId>, d: DlId): map<PeerId, seq<DlId>> {
    if owner.Some? && owner.value in lists then lists[owner.value := Without(lists[owner.value], d)] else lists
  }

  /** network_piece_dl_free. */
  function Free(b: Books, d: DlId): Books
    requires d in b.dls
  {
    var dl := b.dls[d];
    Books(b.dls - {d}, Unlist(b.lists, dl.owner, d), Unindex(b.index, dl.key, d), b.next)
  }

  /** Take the first entry off a peer's list and leave it without owner. */
  function OrphanFirst(b: Books, p: PeerId): Books
    requires ListOf(b, p) != [] && b.lists[p][0] in b.dls
  {
    var d := b.lists[p][0];
    b.(dls := b.dls[d := b.dls[d].(owner := None)], lists := b.lists[p := b.lists[p][1..]])
  }

  predicate Complete(dl: Dl) { dl.bytes == dl.len }

  /** One round of the loop in network_peer_free: a completed entry stays in the index, an incomplete one goes. */
  function ReleaseFirst(b: Books, p: PeerId): Books
    requires ListOf(b, p) != [] && b.lists[p][0] in b.dls
  {
    var d := b.lists[p][0];
    var b' := OrphanFirst(b, p);
    if Complete(b.dls[d]) then b' else Free(b', d)
  }

  function AddPeer(b: Books, p: PeerId): Books
    requires p !in b.lists
  {
    b.(lists := b.lists[p := []])
  }

  /** The peer structure itself is freed once its list is empty. */
  function DropPeer(b: Books, p: PeerId): Books
    requires ListOf(b, p) == []
  {
    b.(lists := b.lists - {p})
  }

  /** Hand an orphaned entry to a peer. */
  function Recycle(b: Books, d: DlId, p: PeerId): Books
    requires d in b.dls
  {
    b.(dls := b.dls[d := b.dls[d].(owner := Some(p))], lists := b.lists[p := ListOf(b, p) + [d]])
  }

  /** Count received octets on an entry; the counter is 32 bits wide. */
  function Credit(b: Books, d: DlId, n: nat): Books
    requires d in b.dls
  {
    b.(dls := b.dls[d := b.dls[d].(bytes := (b.dls[d].bytes + n) % 0x1_0000_0000)])
  }

  /** The first entry of a list for block `k`. */
  function FirstFor(dls: map<DlId, Dl>, list: seq<DlId>, k: Key): Option<DlId> {
    if list == [] then None
    else if list[0] in dls && dls[list[0]].key == k then Some(list[0])
    else FirstFor(dls, list[1..], k)
  }

  /** network_piece_dl_find: the peer's own entry if one is given and has it, else the first of the index node. */
  function Find(b: Books, p: Option<PeerId>, k: Key): Option<DlId> {
    var own := if p.Some? then FirstFor(b.dls, ListOf(b, p.value), k) else None;
    if own.Some? then own
    else if NodeOf(b, k) == [] then None
    else Some(NodeOf(b, k)[0])
  }

  // ---------- Every operation keeps the agreement ----------

  lemma NoDupSnoc<T(!new)>(s: seq<T>, x: T)
    requires NoDup(s) && x !in s
    ensures NoDup(s + [x])
  {}

  lemma CreateAgrees(b: Books, p: PeerId, k: Key, len: nat)
    requires Agree(b) && p in b.lists
    ensures Agree(Create(b, p, k, len))
  {
    CreateNodesAgree(b, p, k, len);
    CreateListsAgree(b, p, k, len);
    hide NodesSound, NodesComplete, ListsSound, ListsComplete;
  }

  lemma CreateNodesAgree(b: Books, p: PeerId, k: Key, len: nat)
    requires NodesSound(b) && NodesComplete(b) && IdsUsed(b)
    ensures var r := Create(b, p, k, len); NodesSound(r) && NodesComplete(r)
  {
    assert b.next !in NodeOf(b, k);
    NoDupSnoc(NodeOf(b, k), b.next);
  }

  lemma CreateListsAgree(b: Books, p: PeerId, k: Key, len: nat)
    requires ListsSound(b) && ListsComplete(b) && IdsUsed(b)
    ensures var r := Create(b, p, k, len); ListsSound(r) && ListsComplete(r)
  {
    assert b.next !in ListOf(b, p);
    NoDupSnoc(ListOf(b, p), b.next);
  }

  lemma FreeAgrees(b: Books, d: DlId)
    requires Agree(b) && d in b.dls
    ensures Agree(Free(b, d))
  {
    var dl := b.dls[d];
    WithoutFacts(b.index[dl.key], d);
    if dl.owner.Some? { WithoutFacts(b.lists[dl.owner.value], d); }
  }

  lemma OrphanFirstAgrees(b: Books, p: PeerId)
    requires Agree(b) && ListOf(b, p) != []
    ensures b.lists[p][0] in b.dls && Agree(OrphanFirst(b, p))
  {
    var list := b.lists[p];
    assert list[0] in list;
    assert forall y :: y in list <==> y == list[0] || y in list[1..];
  }

  lemma ReleaseFirstAgrees(b: Books, p: PeerId)
    requires Agree(b) && ListOf(b, p) != []
    ensures b.lists[p][0] in b.dls && Agree(ReleaseFirst(b, p))
    ensures p in ReleaseFirst(b, p).lists && ReleaseFirst(b, p).lists[p] == b.lists[p][1..]
  {
    hide Agree;
    OrphanFirstAgrees(b, p);
    var b' := OrphanFirst(b, p);
    if !Complete(b.dls[b.lists[p][0]]) { FreeAgrees(b', b.lists[p][0]); }
  }

  lemma RecycleAgrees(b: Books, d: DlId, p: PeerId)
    requires Agree(b) && p in b.lists && d in b.dls && b.dls[d].owner.None?
    ensures Agree(Recycle(b, d, p))
  {
    NoDupSnoc(b.lists[p], d);
  }

  lemma CreditAgrees(b: Books, d: DlId, n: nat)
    requires Agree(b) && d in b.dls
    ensures Agree(Credit(b, d, n))
  {}

  lemma AddPeerAgrees(b: Books, p: PeerId)
    requires Agree(b) && p !in b.lists
    ensures Agree(AddPeer(b, p))
  {}

  lemma DropPeerAgrees(b: Books, p: PeerId)
    requires Agree(b) && ListOf(b, p) == []
    ensures Agree(DropPeer(b, p))
  {}

  // ---------- Lookup ----------

  /** Peer `p` has a request for block `k`. */
  ghost predicate Asks(b: Books, p: PeerId, k: Key) { exists d :: d in b.dls && b.dls[d].owner == Some(p) && b.dls[d].key == k }

  lemma {:induction false} FirstForFacts(dls: map<DlId, Dl>, list: seq<DlId>, k: Key)
    ensures FirstFor(dls, list, k).None? <==> forall d :: d in list && d in dls ==> dls[d].key != k
    ensures var r := FirstFor(dls, list, k); r.Some? ==> r.value in list && r.value in dls && dls[r.value].key == k
    decreases |list|
  {
    if list != [] {
      FirstForFacts(dls, list[1..], k);
      assert forall d :: d in list <==> d == list[0] || d in list[1..];
    }
  }

  /** The entry found in a list is the first one for the block. */
  lemma {:induction false} FirstForIs(dls: map<DlId, Dl>, list: seq<DlId>, k: Key)
    ensures var r := FirstFor(dls, list, k); r.Some? ==>
      exists i :: 0 <= i < |list| && list[i] == r.value && forall j :: 0 <= j < i && list[j] in dls ==> dls[list[j]].key != k
    decreases |list|
  {
    if list != [] && !(list[0] in dls && dls[list[0]].key == k) {
      FirstForIs(dls, list[1..], k);
      var r := FirstFor(dls, list[1..], k);
      if r.Some? {
        var i :| 0 <= i < |list[1..]| && list[1..][i] == r.value && forall j :: 0 <= j < i && list[1..][j] in dls ==> dls[list[1..][j]].key != k;
        assert list[i + 1] == r.value;
        assert forall j :: 1 <= j < i + 1 ==> list[j] == list[1..][j - 1];
      }
    }
  }

  /** A lookup, with or without a peer, finds an entry exactly when one exists for the block, and prefers the peer's own. */
  lemma FindFacts(b: Books, p: Option<PeerId>, k: Key)
    requires Agree(b)
    ensures Find(b, p, k).Some? <==> exists d :: d in b.dls && b.dls[d].key == k
    ensures var r := Find(b, p, k); r.Some? ==> r.value in b.dls && b.dls[r.value].key == k
    ensures var r := Find(b, p, k); p.Some? && r.Some? && b.dls[r.value].owner != p ==>
      forall d :: d in b.dls && b.dls[d].owner == p ==> b.dls[d].key != k
  {
    if p.Some? { FirstForFacts(b.dls, ListOf(b, p.value), k); }
    if NodeOf(b, k) != [] { assert NodeOf(b, k)[0] in b.index[k]; }
  }

  // ---------- Whole-list operations ----------

  /** CHOKE from a peer without the fast extension: its requests are all orphaned. */
  function OrphanAll(b: Books, p: PeerId): (r: Books)
    requires Agree(b)
    ensures Agree(r)
    decreases |ListOf(b, p)|
  {
    if ListOf(b, p) == [] then b
    else
      OrphanFirstAgrees(b, p);
      OrphanAll(OrphanFirst(b, p), p)
  }

  /** The loop of network_peer_free over the peer's requests. */
  function ReleaseAll(b: Books, p: PeerId): (r: Books)
    requires Agree(b)
    ensures Agree(r) && ListOf(r, p) == []
    decreases |ListOf(b, p)|
  {
    if ListOf(b, p) == [] then b
    else
      ReleaseFirstAgrees(b, p);
      ReleaseAll(ReleaseFirst(b, p), p)
  }

  /** network_peer_free. */
  function RemovePeer(b: Books, p: PeerId): (r: Books)
    requires Agree(b)
    ensures Agree(r) && p !in r.lists
  {
    var b' := ReleaseAll(b, p);
    DropPeerAgrees(b', p);
    DropPeer(b', p)
  }

  /** Orphaning changes owners and nothing else: the peer's entries lose theirs, all other entries are untouched. */
  lemma {:induction false} OrphanAllEffect(b: Books, p: PeerId)
    requires Agree(b)
    ensures var r := OrphanAll(b, p);
      && ListOf(r, p) == [] && r.index == b.index && r.dls.Keys == b.dls.Keys && r.lists.Keys == b.lists.Keys
      && (forall q :: q in b.lists && q != p ==> r.lists[q] == b.lists[q])
      && (forall d :: d in b.dls ==>
            r.dls[d] == if b.dls[d].owner == Some(p) then b.dls[d].(owner := None) else b.dls[d])
    decreases |ListOf(b, p)|
  {
    if ListOf(b, p) != [] {
      OrphanFirstAgrees(b, p);
      OrphanAllEffect(OrphanFirst(b, p), p);
      assert b.lists[p][0] in b.lists[p];
    }
  }

  /** A peer that goes takes its incomplete requests with it; completed ones stay as orphans; the rest is untouched. */
  lemma ReleaseFirstEffect(b: Books, p: PeerId)
    requires Agree(b) && ListOf(b, p) != []
    ensures var r, d0 := ReleaseFirst(b, p), b.lists[p][0];
      && d0 in b.dls && b.dls[d0].owner == Some(p)
      && (forall q :: q in b.lists && q != p ==> q in r.lists && r.lists[q] == b.lists[q])
      && (forall d :: d in r.dls <==> d in b.dls && !(d == d0 && !Complete(b.dls[d])))
      && (forall d :: d in r.dls ==> r.dls[d] == if d == d0 then b.dls[d].(owner := None) else b.dls[d])
  {
    hide NodesSound, NodesComplete;
    assert b.lists[p][0] in b.lists[p];
  }

  lemma {:induction false} ReleaseAllEffect(b: Books, p: PeerId)
    requires Agree(b)
    ensures var r := ReleaseAll(b, p);
      && (forall q :: q in b.lists && q != p ==> q in r.lists && r.lists[q] == b.lists[q])
      && (forall d :: d in r.dls <==> d in b.dls && !(b.dls[d].owner == Some(p) && !Complete(b.dls[d])))
      && (forall d :: d in r.dls ==>
            r.dls[d] == if b.dls[d].owner == Some(p) then b.dls[d].(owner := None) else b.dls[d])
    decreases |ListOf(b, p)|
  {
    hide NodesSound, NodesComplete;
    if ListOf(b, p) != [] {
      ReleaseFirstAgrees(b, p);
      ReleaseFirstEffect(b, p);
      hide ReleaseFirst, Complete;
      ReleaseAllEffect(ReleaseFirst(b, p), p);
    }
  }

  /** Orphans are in no list, and an entry is in a peer's list exactly when that peer owns it. */
  lemma OwnershipIsListMembership(b: Books, d: DlId, p: PeerId)
    requires Agree(b) && d in b.dls && p in b.lists
    ensures d in b.lists[p] <==> b.dls[d].owner == Some(p)
  {}

  /** An entry is in exactly one index node. */
  lemma OneNode(b: Books, d: DlId, k: Key)
    requires Agree(b) && d in b.dls && k in b.index
    ensures d in b.index[k] <==> b.dls[d].key == k
  {}
}
