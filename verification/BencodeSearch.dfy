/** Searching a parsed input for a key: the search is complete, and finds the entry that comes first in the input. */
module BencodeSearch {
  import opened Options
  import opened Bytes
  import opened Bencode
  import opened BencodeTree
  import opened Parser
  import opened ParseEncoded

  /** The value `v`, encoded from offset `pos` on, has at some depth the entry of key `k` and value `w`, encoded from offset
      `at` on. */
  ghost predicate InValue(v: Value, pos: nat, k: seq<Octet>, w: Value, at: nat)
    decreases v
  {
    match v
    case Int(_) => false
    case Str(_) => false
    case List(items) => InValues(items, pos + 1, k, w, at)
    case Dict(entries) => InEntries(entries, pos + 1, k, w, at)
  }

  ghost predicate InValues(vs: seq<Value>, pos: nat, k: seq<Octet>, w: Value, at: nat)
    decreases vs
  {
    vs != [] && (InValue(vs[0], pos, k, w, at) || InValues(vs[1..], pos + |Encode(vs[0])|, k, w, at))
  }

  ghost predicate InEntries(es: seq<Pair>, pos: nat, k: seq<Octet>, w: Value, at: nat)
    decreases es
  {
    es != [] &&
    var mid := pos + |EncodeStr(es[0].key)|;
    || (es[0] == Pair(k, w) && at == pos)
    || InValue(es[0].value, mid, k, w, at)
    || InEntries(es[1..], mid + |Encode(es[0].value)|, k, w, at)
  }

  /** Entries lie inside the encoding. */
  lemma {:induction false} InValueRange(v: Value, pos: nat, k: seq<Octet>, w: Value, at: nat)
    requires InValue(v, pos, k, w, at)
    ensures pos < at < pos + |Encode(v)|
    decreases v
  {
    match v {
      case List(items) => InValuesRange(items, pos + 1, k, w, at);
      case Dict(entries) => InEntriesRange(entries, pos + 1, k, w, at);
    }
  }

  lemma {:induction false} InValuesRange(vs: seq<Value>, pos: nat, k: seq<Octet>, w: Value, at: nat)
    requires InValues(vs, pos, k, w, at)
    ensures pos <= at < pos + |EncodeAll(vs)|
    decreases vs
  {
    if InValue(vs[0], pos, k, w, at) {
      InValueRange(vs[0], pos, k, w, at);
    } else {
      InValuesRange(vs[1..], pos + |Encode(vs[0])|, k, w, at);
    }
  }

  lemma {:induction false} InEntriesRange(es: seq<Pair>, pos: nat, k: seq<Octet>, w: Value, at: nat)
    requires InEntries(es, pos, k, w, at)
    ensures pos <= at < pos + |EncodeEntries(es)|
    decreases es
  {
    var mid := pos + |EncodeStr(es[0].key)|;
    if es[0] == Pair(k, w) && at == pos {
    } else if InValue(es[0].value, mid, k, w, at) {
      InValueRange(es[0].value, mid, k, w, at);
    } else {
      InEntriesRange(es[1..], mid + |Encode(es[0].value)|, k, w, at);
    }
  }

  /** `r` is the value of the entry for `key` that is encoded at `at`. */
  ghost predicate IsValueOf(r: Option<Node>, key: seq<Octet>, k: seq<Octet>, w: Value, at: nat) {
    r.Some? ==> CString(k) == key && r.value == Tree(w, at + |EncodeStr(k)|)
  }

  lemma {:induction false} SearchValue(v: Value, pos: nat, key: seq<Octet>) returns (k: seq<Octet>, w: Value, at: nat)
    ensures var r := First(Entries(Tree(v, pos)), key);
      && (r.Some? ==> InValue(v, pos, k, w, at)) && IsValueOf(r, key, k, w, at)
      && forall k', w', at' :: InValue(v, pos, k', w', at') && CString(k') == key ==> r.Some? && at <= at'
    decreases v
  {
    hide IsValueOf, CString;
    k, w, at := [], v, 0;
    match v {
      case Int(_) => NothingOf(key, k, w, at);
      case Str(_) => NothingOf(key, k, w, at);
      case List(items) => k, w, at := SearchValues(items, pos + 1, key);
      case Dict(entries) => k, w, at := SearchEntries(entries, pos + 1, key);
    }
  }

  lemma NothingOf(key: seq<Octet>, k: seq<Octet>, w: Value, at: nat)
    ensures First([], key) == None && IsValueOf(None, key, k, w, at)
  {}

  lemma {:induction false} SearchValues(vs: seq<Value>, pos: nat, key: seq<Octet>) returns (k: seq<Octet>, w: Value, at: nat)
    ensures var r := First(AllEntries(Trees(vs, pos)), key);
      && (r.Some? ==> InValues(vs, pos, k, w, at)) && IsValueOf(r, key, k, w, at)
      && forall k', w', at' :: InValues(vs, pos, k', w', at') && CString(k') == key ==> r.Some? && at <= at'
    decreases vs
  {
    hide IsValueOf, CString, Encode, Tree, First, Entries, InValue;
    k, w, at := [], Int(0), 0;
    if vs == [] {
      NothingOf(key, k, w, at);
    } else {
      var next := pos + |Encode(vs[0])|;
      var ns := Trees(vs, pos);
      assert ns[0] == Tree(vs[0], pos) && ns[1..] == Trees(vs[1..], next);
      FirstConcat(Entries(ns[0]), AllEntries(ns[1..]), key);
      k, w, at := SearchValue(vs[0], pos, key);
      var k1, w1, at1 := SearchValues(vs[1..], next, key);
      if First(Entries(ns[0]), key).Some? {
        InValueRange(vs[0], pos, k, w, at);
        forall k', w', at' | InValues(vs[1..], next, k', w', at') ensures at <= at' {
          InValuesRange(vs[1..], next, k', w', at');
        }
      } else {
        k, w, at := k1, w1, at1;
      }
    }
  }

  lemma {:induction false} SearchEntries(es: seq<Pair>, pos: nat, key: seq<Octet>) returns (k: seq<Octet>, w: Value, at: nat)
    ensures var r := First(AllEntries(EntryTrees(es, pos)), key);
      && (r.Some? ==> InEntries(es, pos, k, w, at)) && IsValueOf(r, key, k, w, at)
      && forall k', w', at' :: InEntries(es, pos, k', w', at') && CString(k') == key ==> r.Some? && at <= at'
    decreases es
  {
    hide CString, Encode, EncodeStr, First, Entries, InValue;
    k, w, at := [], Int(0), 0;
    if es == [] {
      NothingOf(key, k, w, at);
    } else {
      var e := es[0];
      var mid := pos + |EncodeStr(e.key)|;
      var next := mid + |Encode(e.value)|;
      var ns, node := EntryTrees(es, pos), Tree(e.value, mid);
      assert ns[0] == EntryNode(e.key, node) && ns[1..] == EntryTrees(es[1..], next);
      hide Tree;
      FirstConcat(Entries(ns[0]), AllEntries(ns[1..]), key);
      EntryEntries(e.key, node);
      FirstEntry(Named(e.key, node), Entries(node), key);
      var k1, w1, at1 := SearchValue(e.value, mid, key);
      var k2, w2, at2 := SearchEntries(es[1..], next, key);
      forall k', w', at' | InEntries(es, pos, k', w', at') ensures pos <= at' { InEntriesRange(es, pos, k', w', at'); }
      if CString(e.key) == key {
        k, w, at := e.key, e.value, pos;
      } else if First(Entries(node), key).Some? {
        k, w, at := k1, w1, at1;
        InValueRange(e.value, mid, k, w, at);
        forall k', w', at' | InEntries(es[1..], next, k', w', at') ensures at <= at' {
          InEntriesRange(es[1..], next, k', w', at');
        }
      } else {
        k, w, at := k2, w2, at2;
      }
    }
  }

  /** The entry at `at` has the key, and no entry before it has. */
  ghost predicate ComesFirst(vs: seq<Value>, key: seq<Octet>, k: seq<Octet>, w: Value, at: nat) {
    && InValues(vs, 0, k, w, at) && CString(k) == key
    && forall k', w', at' :: InValues(vs, 0, k', w', at') && CString(k') == key ==> at <= at'
  }

  /** In the parse of every input within the limits, a search finds something exactly when some entry, at whatever depth,
      has the key as its C string; and then it finds the value of the one that comes first in the input. */
  lemma SearchOfEncoding(vs: seq<Value>, key: seq<Octet>)
    requires AllParsable(vs, 0)
    ensures Parse(EncodeAll(vs)).Accepted?
    ensures var found := First(Entries(ListNode(Parse(EncodeAll(vs)).root)), key);
      && (found.Some? <==> exists k, w, at: nat :: InValues(vs, 0, k, w, at) && CString(k) == key)
      && (found.Some? ==> exists k, w, at: nat :: ComesFirst(vs, key, k, w, at) && found.value == Tree(w, at + |EncodeStr(k)|))
  {
    hide CString, Encode, EncodeStr, First, InValues, Run, Parsable, Tree, Trees;
    ParseOfEncoding(vs);
    var k, w, at := SearchValues(vs, 0, key);
    var found := First(AllEntries(Trees(vs, 0)), key);
    if found.Some? {
      assert ComesFirst(vs, key, k, w, at);
    }
  }
}
