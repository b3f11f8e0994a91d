/** Reading a parsed tree: benc_node_find, and the offsets at which dictionaries end. */
module BencodeTree {
  import opened Options
  import opened Bytes
  import opened Bencode
  import opened Lexer

  // ---------- benc_node_find ----------

  /** A dictionary entry met on the way. */
  datatype Named = Named(key: seq<Octet>, value: Node)

  predicate IsContainer(n: Node) { n.ListNode? || n.DictNode? }

  /** All entries below a node, each before those inside its value, in the order of the input. */
  function Entries(n: Node): seq<Named>
    decreases n
  {
    match n
    case EntryNode(key, value) => [Named(key, value)] + if IsContainer(value) then AllEntries(value.children) else []
    case ListNode(children) => AllEntries(children)
    case DictNode(children, _) => AllEntries(children)
    case _ => []
  }

  function AllEntries(ns: seq<Node>): seq<Named>
    decreases ns
  {
    if ns == [] then [] else Entries(ns[0]) + AllEntries(ns[1..])
  }

  /** The value of the first entry with this key, compared as strcmp does. */
  function First(es: seq<Named>, key: seq<Octet>): Option<Node> {
    if es == [] then None else if CString(es[0].key) == key then Some(es[0].value) else First(es[1..], key)
  }

  lemma {:induction false} FirstConcat(a: seq<Named>, b: seq<Named>, key: seq<Octet>)
    ensures First(a + b, key) == if First(a, key).Some? then First(a, key) else First(b, key)
    decreases |a|
  {
    if a == [] {
      assert a + b == b;
    } else {
      assert (a + b)[1..] == a[1..] + b;
      FirstConcat(a[1..], b, key);
    }
  }

  lemma NothingFirst(key: seq<Octet>)
    ensures First([], key) == None
  {}

  lemma FirstEntry(e: Named, rest: seq<Named>, key: seq<Octet>)
    ensures First([e] + rest, key) == if CString(e.key) == key then Some(e.value) else First(rest, key)
  {
    assert ([e] + rest)[1..] == rest;
  }

  lemma EntryEntries(key: seq<Octet>, value: Node)
    requires !value.EntryNode?
    ensures Entries(EntryNode(key, value)) == [Named(key, value)] + Entries(value)
  {}

  /** benc_node_find on a C string `key`. */
  method Find(node: Node, key: seq<Octet>) returns (r: Option<Node>)
    ensures r == First(Entries(node), key)
    decreases node, 0
  {
    if node.EntryNode? {
      if CString(node.key) == key {
        return Some(node.value);
      }
      var own := [Named(node.key, node.value)];
      if IsContainer(node.value) {
        r := FindAmong(node.value.children, key);
        FirstConcat(own, AllEntries(node.value.children), key);
        return;
      }
      assert own + [] == own;
      return None;
    }
    if IsContainer(node) {
      r := FindAmong(node.children, key);
      return;
    }
    r := None;
  }

  /** The loop over the children of a container. */
  method FindAmong(children: seq<Node>, key: seq<Octet>) returns (r: Option<Node>)
    ensures r == First(AllEntries(children), key)
    decreases children, 1
  {
    var i := 0;
    while i < |children|
      invariant i <= |children| && First(AllEntries(children), key) == First(AllEntries(children[i..]), key)
    {
      FirstConcat(Entries(children[i]), AllEntries(children[i..][1..]), key);
      assert children[i..][1..] == children[i + 1..];
      r := Find(children[i], key);
      if r.Some? { return; }
      i := i + 1;
    }
    r := None;
  }

  // ---------- The end of a dictionary ----------

  /** Every dictionary in the value has as `end` the offset one past its closing 'e', so that the octets from its start to
      there are its encoding. */
  ghost predicate EndsRight(input: seq<Octet>, v: Value, pos: nat)
    decreases v
  {
    match v
    case Int(_) => true
    case Str(_) => true
    case List(items) => AllEndRight(input, items, pos + 1)
    case Dict(entries) =>
      var end := Tree(v, pos).end;
      && pos < end <= |input| && input[end - 1] == E_CHAR && input[pos..end] == Encode(v)
      && EntriesEndRight(input, entries, pos + 1)
  }

  ghost predicate AllEndRight(input: seq<Octet>, vs: seq<Value>, pos: nat)
    decreases vs
  {
    vs == [] || (EndsRight(input, vs[0], pos) && AllEndRight(input, vs[1..], pos + |Encode(vs[0])|))
  }

  ghost predicate EntriesEndRight(input: seq<Octet>, es: seq<Pair>, pos: nat)
    decreases es
  {
    es == [] ||
    var at := pos + |EncodeStr(es[0].key)|;
    EndsRight(input, es[0].value, at) && EntriesEndRight(input, es[1..], at + |Encode(es[0].value)|)
  }

  lemma {:induction false} EncodedEndsRight(input: seq<Octet>, v: Value, pos: nat)
    requires At(input, pos, Encode(v))
    ensures EndsRight(input, v, pos)
    decreases v
  {
    match v {
      case Int(_) =>
      case Str(_) =>
      case List(items) =>
        var body := EncodeAll(items);
        AtSplit(input, pos, [L_CHAR] + body, [E_CHAR]);
        AtSplit(input, pos, [L_CHAR], body);
        AllEncodedEndRight(input, items, pos + 1);
      case Dict(entries) =>
        var body := EncodeEntries(entries);
        AtSplit(input, pos, [D_CHAR] + body, [E_CHAR]);
        AtSplit(input, pos, [D_CHAR], body);
        AtChar(input, pos + |[D_CHAR] + body|, E_CHAR);
        EntriesEncodedEndRight(input, entries, pos + 1);
    }
  }

  lemma {:induction false} AllEncodedEndRight(input: seq<Octet>, vs: seq<Value>, pos: nat)
    requires At(input, pos, EncodeAll(vs))
    ensures AllEndRight(input, vs, pos)
    decreases vs
  {
    if vs != [] {
      AtSplit(input, pos, Encode(vs[0]), EncodeAll(vs[1..]));
      EncodedEndsRight(input, vs[0], pos);
      AllEncodedEndRight(input, vs[1..], pos + |Encode(vs[0])|);
    }
  }

  lemma {:induction false} EntriesEncodedEndRight(input: seq<Octet>, es: seq<Pair>, pos: nat)
    requires At(input, pos, EncodeEntries(es))
    ensures EntriesEndRight(input, es, pos)
    decreases es
  {
    hide At, EncodeStr, Encode, EndsRight;
    if es != [] {
      var k, v, rest := EncodeStr(es[0].key), Encode(es[0].value), EncodeEntries(es[1..]);
      AtSplit(input, pos, k + v, rest);
      AtSplit(input, pos, k, v);
      EncodedEndsRight(input, es[0].value, pos + |k|);
      EntriesEncodedEndRight(input, es[1..], pos + |k| + |v|);
    }
  }

  /** All dictionaries of an encoded input end where their nodes say. */
  lemma EndsOfEncoding(vs: seq<Value>)
    ensures AllEndRight(EncodeAll(vs), vs, 0)
  {
    var input := EncodeAll(vs);
    assert input[0..|input|] == input;
    AllEncodedEndRight(input, vs, 0);
  }
}
