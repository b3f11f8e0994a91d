/** The global index of requests as the program keeps it: a red-black tree of nodes, each with the list of its entries. */
module PieceIndex {
  import opened Sequences
  import opened Options
  import opened Downloads
  import opened IndexOrder
  import T = RbTree

  /** The comparison of `k` with every key of the index survives its truncation to an int. */
  ghost predicate Comparable(k: Key, index: map<Key, seq<DlId>>) {
    forall j :: j in index ==> -TWO31 <= Deciding(k, j) < TWO31
  }

  /** Then, and only then, comparing ranks is what the program's comparison of `k` with the keys of the index does. */
  lemma ComparisonAgreesIff(k: Key, index: map<Key, seq<DlId>>)
    requires Is32(k) && forall j :: j in index ==> Is32(j)
    ensures Comparable(k, index) <==> forall j :: j in index ==> Sign(Cmp(k, j)) == Sign(Rank(k) - Rank(j))
  {
    hide Cmp, Rank, Deciding;
    forall j | j in index ensures Sign(Cmp(k, j)) == Sign(Rank(k) - Rank(j)) <==> -TWO31 <= Deciding(k, j) < TWO31 {
      CmpIsLexicographicIff(k, j);
    }
  }

  /** Piece numbers and offsets below 2^31. */
  predicate Small(k: Key) { k.idx < TWO31 && k.off < TWO31 }

  lemma SmallComparable(k: Key, index: map<Key, seq<DlId>>)
    requires Small(k) && forall j :: j in index ==> Small(j)
    ensures Is32(k) && Comparable(k, index)
  {}

  lemma RankInjective(a: Key, b: Key)
    requires Is32(a) && Is32(b) && Rank(a) == Rank(b)
    ensures a == b
  {
    CmpZeroIffSame(a, b);
  }

  /** Lexicographic order. */
  predicate Precedes(a: Key, b: Key) { a.idx < b.idx || (a.idx == b.idx && a.off < b.off) }

  lemma RankOrder(a: Key, b: Key)
    requires Is32(a) && Is32(b)
    ensures Rank(a) < Rank(b) <==> Precedes(a, b)
  {}

  /** `keys` lists the keys of the index once each, in ascending order: the order of RB_FOREACH. */
  ghost predicate IsListing(keys: seq<Key>, index: map<Key, seq<DlId>>) {
    && (forall k :: k in keys <==> k in index)
    && forall i, j :: 0 <= i < j < |keys| ==> Precedes(keys[i], keys[j])
  }

  /** The keys of a list of nodes. */
  ghost function KeysOf(ns: seq<T.Node>, keyOf: map<T.Node, Key>): (keys: seq<Key>)
    ensures |keys| == |ns| && forall i :: 0 <= i < |ns| && ns[i] in keyOf ==> keys[i] == keyOf[ns[i]]
  {
    seq(|ns|, i requires 0 <= i < |ns| => if ns[i] in keyOf then keyOf[ns[i]] else Key(0, 0))
  }

  /** Every node stands for its key, with the entries of that key. */
  ghost predicate Named(keyOf: map<T.Node, Key>, entries: map<T.Node, seq<DlId>>, index: map<Key, seq<DlId>>) {
    keyOf.Keys == entries.Keys
    && forall n :: n in keyOf ==>
         n in entries && Is32(keyOf[n]) && n.key == Rank(keyOf[n]) && keyOf[n] in index && index[keyOf[n]] == entries[n]
  }

  /** Every key has a node. */
  ghost predicate Noded(keyOf: map<T.Node, Key>, index: map<Key, seq<DlId>>) {
    forall k :: k in index ==> exists n :: n in keyOf && keyOf[n] == k
  }

  ghost predicate Unique(keyOf: map<T.Node, Key>, n: T.Node)
    requires n in keyOf
  {
    forall m :: m in keyOf && keyOf[m] == keyOf[n] ==> m == n
  }

  lemma Grown(keyOf: map<T.Node, Key>, entries: map<T.Node, seq<DlId>>, index: map<Key, seq<DlId>>, n: T.Node, k: Key, ds: seq<DlId>)
    requires Named(keyOf, entries, index) && Noded(keyOf, index) && n !in keyOf && k !in index && Is32(k) && n.key == Rank(k)
    ensures Named(keyOf[n := k], entries[n := ds], index[k := ds]) && Noded(keyOf[n := k], index[k := ds])
  {
    hide Is32, Rank;
    var keyOf', index' := keyOf[n := k], index[k := ds];
    forall k' | k' in index' ensures exists m :: m in keyOf' && keyOf'[m] == k' {
      if k' == k {
        assert n in keyOf' && keyOf'[n] == k;
      } else {
        var m: T.Node :| m in keyOf && keyOf[m] == k';
        assert m in keyOf' && keyOf'[m] == k';
      }
    }
  }

  lemma Changed(keyOf: map<T.Node, Key>, entries: map<T.Node, seq<DlId>>, index: map<Key, seq<DlId>>, n: T.Node, ds: seq<DlId>)
    requires Named(keyOf, entries, index) && Noded(keyOf, index) && n in keyOf && Unique(keyOf, n)
    ensures Named(keyOf, entries[n := ds], index[keyOf[n] := ds]) && Noded(keyOf, index[keyOf[n] := ds])
  {
    hide Is32, Rank;
  }

  lemma Shrunk(keyOf: map<T.Node, Key>, entries: map<T.Node, seq<DlId>>, index: map<Key, seq<DlId>>, n: T.Node)
    requires Named(keyOf, entries, index) && Noded(keyOf, index) && n in keyOf && Unique(keyOf, n)
    ensures Named(keyOf - {n}, entries - {n}, index - {keyOf[n]}) && Noded(keyOf - {n}, index - {keyOf[n]})
  {
    hide Is32, Rank;
    var keyOf', index' := keyOf - {n}, index - {keyOf[n]};
    forall k | k in index' ensures exists m :: m in keyOf' && keyOf'[m] == k {
      var m: T.Node :| m in keyOf && keyOf[m] == k;
      assert m in keyOf' && keyOf'[m] == k;
    }
  }

  /** In a search tree a key has one node. */
  lemma OnlyNode(keyOf: map<T.Node, Key>, entries: map<T.Node, seq<DlId>>, index: map<Key, seq<DlId>>, tree: T.Tree, n: T.Node)
    requires Named(keyOf, entries, index) && T.Ascending(T.Inorder(tree)) && keyOf.Keys == T.Nodes(tree) && n in keyOf
    ensures Unique(keyOf, n)
  {
    hide T.Inorder, T.Ascending, T.Nodes;
    forall m | m in keyOf && keyOf[m] == keyOf[n] ensures m == n {
      T.SameKeySameNode(tree, m, n);
    }
  }

  /** `keyOf` and `entries` are the fields idx, off and idxnode_piece_dls of the nodes in the tree. */
  class PieceIndex {
    const head: T.Head
    var keyOf: map<T.Node, Key>
    var entries: map<T.Node, seq<DlId>>
    ghost var index: map<Key, seq<DlId>>

    ghost predicate Valid()
      reads this, head, T.Nodes(head.tree)
    {
      head.Valid() && keyOf.Keys == T.Nodes(head.tree) && Named(keyOf, entries, index) && Noded(keyOf, index)
    }

    constructor ()
      ensures Valid() && fresh(head) && index == map[]
    {
      head := new T.Head();
      keyOf, entries, index := map[], map[], map[];
    }

    /** The nodes in tree order, and their keys. */
    ghost function Order(): seq<T.Node>
      reads head
    {
      T.Inorder(head.tree)
    }

    ghost function Listing(): seq<Key>
      reads this, head
    {
      KeysOf(Order(), keyOf)
    }

    lemma ListingIs()
      requires Valid()
      ensures IsListing(Listing(), index) && forall i :: 0 <= i < |Order()| ==> Order()[i] in keyOf
    {
      hide T.Inorder, T.Nodes, T.Full, T.RedBlack, Rank, Is32;
      var ns, keys := Order(), Listing();
      forall i | 0 <= i < |ns| ensures ns[i] in keyOf && keys[i] in index {
        T.InOrderListed(head.tree, ns[i]);
      }
      forall i, j | 0 <= i < j < |keys| ensures Precedes(keys[i], keys[j]) {
        RankOrder(keys[i], keys[j]);
      }
      forall k | k in index ensures k in keys {
        var n: T.Node :| n in keyOf && keyOf[n] == k;
        T.InOrderListed(head.tree, n);
        var i :| 0 <= i < |ns| && ns[i] == n;
        assert keys[i] == k;
      }
    }

    /** The start of RB_FOREACH. */
    method FirstNode() returns (n: T.Node?)
      requires Valid()
      ensures n == if Order() == [] then null else Order()[0]
    {
      n := head.MinMax(-1);
    }

    /** One step of RB_FOREACH, from the node in place `i`. */
    method NextNode(n: T.Node, ghost i: nat) returns (next: T.Node?)
      requires Valid() && i < |Order()| && Order()[i] == n
      ensures next == if i + 1 < |Order()| then Order()[i + 1] else null
    {
      hide T.Inorder, T.Nodes, T.Full, T.RedBlack;
      T.InOrderListed(head.tree, n);
      next := head.Next(n);
      T.FollowsAt(Order(), n, next, i);
    }

    /** RB_FIND for a block. A key that is not there is not found, however the comparisons on the way turn out, since only
        equal keys compare as equal. */
    method NodeFor(k: Key) returns (n: T.Node?)
      requires Valid() && Is32(k) && (k in index ==> Comparable(k, index))
      ensures n != null <==> k in index
      ensures n != null ==> n in keyOf && n in entries && n in T.Nodes(head.tree) && keyOf[n] == k && entries[n] == index[k]
      ensures n != null ==> Unique(keyOf, n)
      ensures n == null ==> forall m :: m in T.Nodes(head.tree) ==> m.key != Rank(k)
    {
      hide T.Full, T.RedBlack, T.Inorder, T.Ascending, T.Nodes, Rank;
      T.NodesAllocated(head.tree);
      n := head.Lookup(Rank(k));
      if n != null {
        RankInjective(keyOf[n], k);
        OnlyNode(keyOf, entries, index, head.tree, n);
      }
    }

    /** The first entry for a block: network_piece_dl_find without a peer. */
    method First(k: Key) returns (d: Option<DlId>)
      requires Valid() && Is32(k) && (k in index ==> Comparable(k, index))
      ensures d == if k in index && index[k] != [] then Some(index[k][0]) else None
    {
      var n := NodeFor(k);
      d := if n == null || entries[n] == [] then None else Some(entries[n][0]);
    }

    /** The index part of network_piece_dl_create. */
    method Add(k: Key, d: DlId)
      requires Valid() && Is32(k) && Comparable(k, index)
      modifies this, head, T.Nodes(head.tree)
      ensures Valid() && fresh(T.Nodes(head.tree) - old(T.Nodes(head.tree)))
      ensures index == old(index)[k := (if k in old(index) then old(index)[k] else []) + [d]]
    {
      hide T.Full, T.RedBlack, T.Inorder, T.Ascending, T.Nodes, Rank, Is32, Comparable, Named, Noded;
      var n := NodeFor(k);
      if n == null {
        AddNode(k, [d]);
        assert [] + [d] == [d];
      } else {
        SetEntries(n, entries[n] + [d]);
      }
    }

    method SetEntries(n: T.Node, ds: seq<DlId>)
      requires Valid() && n in keyOf && n in entries && Unique(keyOf, n)
      modifies this`entries, this`index
      ensures Valid() && index == old(index)[keyOf[n] := ds]
    {
      hide T.Full, T.RedBlack, T.Inorder, T.Ascending, T.Nodes, Rank, Is32;
      Changed(keyOf, entries, index, n, ds);
      entries := entries[n := ds];
      index := index[keyOf[n] := ds];
    }

    /** A new node for a key that has none. */
    method AddNode(k: Key, ds: seq<DlId>)
      requires Valid() && Is32(k) && Comparable(k, index) && k !in index
      requires forall m :: m in T.Nodes(head.tree) ==> m.key != Rank(k)
      modifies this, head, T.Nodes(head.tree)
      ensures Valid() && index == old(index)[k := ds] && fresh(T.Nodes(head.tree) - old(T.Nodes(head.tree)))
    {
      hide T.Full, T.RedBlack, T.Inorder, T.Ascending, T.Nodes, T.InsertSorted, Rank, Is32, Comparable, Named, Noded;
      T.NodesAllocated(head.tree);
      var n := new T.Node(Rank(k));
      Grown(keyOf, entries, index, n, k, ds);
      var found := head.Insert(n);
      keyOf, entries := keyOf[n := k], entries[n := ds];
      index := index[k := ds];
    }

    /** The index part of network_piece_dl_free: an emptied node leaves the tree. */
    method Drop(k: Key, d: DlId)
      requires Valid() && Is32(k) && Comparable(k, index)
      modifies this, head, T.Nodes(head.tree)
      ensures Valid() && index == Unindex(old(index), k, d) && fresh(T.Nodes(head.tree) - old(T.Nodes(head.tree)))
    {
      hide T.Full, T.RedBlack, T.Inorder, T.Ascending, T.Nodes, Rank, Is32, Comparable, Named, Noded;
      var n := NodeFor(k);
      if n == null { return; }
      var rest := Without(entries[n], d);
      if rest != [] {
        SetEntries(n, rest);
      } else {
        Shrunk(keyOf, entries, index, n);
        T.NodesAllocated(head.tree);
        var removed := head.Remove(n);
        keyOf, entries, index := keyOf - {n}, entries - {n}, index - {k};
      }
    }
  }
}
