/** Bencoded values, the trees the parser builds from them, and numbers as text. */
module Bencode {
  import opened Bytes
  import opened Options

  datatype Pair = Pair(key: seq<Octet>, value: Value)

  datatype Value =
    | Int(n: int)
    | Str(s: seq<Octet>)
    | List(items: seq<Value>)
    | Dict(entries: seq<Pair>)

  const COLON_CHAR: Octet := 58
  const E_CHAR: Octet := 101
  const I_CHAR: Octet := 105
  const D_CHAR: Octet := 100
  const L_CHAR: Octet := 108
  const MINUS: Octet := 45
  const PLUS: Octet := 43

  // ---------- Numbers ----------

  function Digits(n: nat): (s: seq<Octet>)
    ensures |s| > 0
  {
    if n < 10 then [48 + n] else Digits(n / 10) + [48 + n % 10]
  }

  function Decimal(n: int): seq<Octet> { if n < 0 then [MINUS] + Digits(-n) else Digits(n) }

  predicate IsDigit(c: Octet) { 48 <= c <= 57 }

  predicate AllDigits(s: seq<Octet>) { forall i :: 0 <= i < |s| ==> IsDigit(s[i]) }

  /** The number that a row of digits denotes. */
  function Denotes(s: seq<Octet>): int {
    if s == [] then 0 else Denotes(s[..|s| - 1]) * 10 + (s[|s| - 1] as int - 48)
  }

  /** What a C function sees of a buffer: it stops at the first NUL. */
  function CString(s: seq<Octet>): seq<Octet> {
    if s == [] || s[0] == 0 then [] else [s[0]] + CString(s[1..])
  }

  predicate IsSpace(c: Octet) { c == 32 || 9 <= c <= 13 }

  function SkipSpace(s: seq<Octet>): seq<Octet> {
    if s != [] && IsSpace(s[0]) then SkipSpace(s[1..]) else s
  }

  const LLONG_MAX := 0x7fff_ffff_ffff_ffff
  const LLONG_MIN := -LLONG_MAX - 1

  predicate IsLong(n: int) { LLONG_MIN <= n <= LLONG_MAX }

  /** strtonum(text, LLONG_MIN, LLONG_MAX, ...). */
  function Strtonum(text: seq<Octet>): Option<int> {
    var s := SkipSpace(CString(text));
    var d := if s != [] && (s[0] == MINUS || s[0] == PLUS) then s[1..] else s;
    if d == [] || !AllDigits(d) then None
    else
      var n := if s[0] == MINUS then -Denotes(d) else Denotes(d);
      if IsLong(n) then Some(n) else None
  }

  lemma {:induction false} DigitsDenote(n: nat)
    ensures AllDigits(Digits(n)) && Denotes(Digits(n)) == n
    decreases n
  {
    if n >= 10 {
      DigitsDenote(n / 10);
      var s := Digits(n / 10);
      assert (s + [48 + n % 10])[..|s|] == s;
    } else {
      assert [48 + n][..0] == [];
    }
  }

  /** A text that lexes as one word: no octet of it is special to the lexer or ends a C string. */
  predicate Plain(s: seq<Octet>) { forall i :: 0 <= i < |s| ==> IsDigit(s[i]) || s[i] == MINUS }

  lemma {:induction false} CStringPlain(s: seq<Octet>)
    requires Plain(s)
    ensures CString(s) == s
    decreases |s|
  {
    if s != [] { CStringPlain(s[1..]); }
  }

  /** Decimal text reads back as the number, exactly when that fits a long long. */
  lemma StrtonumDecimal(n: int)
    ensures Plain(Decimal(n)) && |Decimal(n)| > 0
    ensures Strtonum(Decimal(n)) == if IsLong(n) then Some(n) else None
  {
    var s := Decimal(n);
    var d := if n < 0 then Digits(-n) else Digits(n);
    DigitsDenote(if n < 0 then -n else n);
    CStringPlain(s);
    assert n < 0 ==> s[1..] == d;
  }

  // ---------- Encoding ----------

  function EncodeStr(s: seq<Octet>): seq<Octet> { Digits(|s|) + [COLON_CHAR] + s }

  function Encode(v: Value): (r: seq<Octet>)
    decreases v
  {
    match v
    case Int(n) => [I_CHAR] + Decimal(n) + [E_CHAR]
    case Str(s) => EncodeStr(s)
    case List(items) => [L_CHAR] + EncodeAll(items) + [E_CHAR]
    case Dict(entries) => [D_CHAR] + EncodeEntries(entries) + [E_CHAR]
  }

  function EncodeAll(vs: seq<Value>): seq<Octet>
    decreases vs
  {
    if vs == [] then [] else Encode(vs[0]) + EncodeAll(vs[1..])
  }

  function EncodeEntries(es: seq<Pair>): seq<Octet>
    decreases es
  {
    if es == [] then [] else EncodeStr(es[0].key) + Encode(es[0].value) + EncodeEntries(es[1..])
  }

  // ---------- Trees ----------

  /** struct benc_node. */
  datatype Node =
    | StrNode(len: int, text: seq<Octet>)
    | IntNode(number: int)
    | ListNode(children: seq<Node>)
    | DictNode(children: seq<Node>, end: nat)
    | EntryNode(key: seq<Octet>, value: Node)

  /** The tree for `v` when its encoding starts at offset `pos` of the input. */
  function Tree(v: Value, pos: nat): Node
    decreases v
  {
    match v
    case Int(n) => IntNode(n)
    case Str(s) => StrNode(|s|, s)
    case List(items) => ListNode(Trees(items, pos + 1))
    case Dict(entries) => DictNode(EntryTrees(entries, pos + 1), pos + |Encode(v)|)
  }

  function Trees(vs: seq<Value>, pos: nat): (r: seq<Node>)
    ensures |r| == |vs|
    decreases vs
  {
    if vs == [] then [] else [Tree(vs[0], pos)] + Trees(vs[1..], pos + |Encode(vs[0])|)
  }

  function EntryTrees(es: seq<Pair>, pos: nat): (r: seq<Node>)
    ensures |r| == |es|
    decreases es
  {
    if es == [] then []
    else
      var at := pos + |EncodeStr(es[0].key)|;
      [EntryNode(es[0].key, Tree(es[0].value, at))] + EntryTrees(es[1..], at + |Encode(es[0].value)|)
  }

  /** The value that a tree stands for. */
  function ValueOf(n: Node): Value
    decreases n
  {
    match n
    case StrNode(_, text) => Str(text)
    case IntNode(number) => Int(number)
    case ListNode(children) => List(ValuesOf(children))
    case DictNode(children, _) => Dict(PairsOf(children))
    case EntryNode(_, value) => ValueOf(value)
  }

  function ValuesOf(ns: seq<Node>): seq<Value>
    decreases ns
  {
    if ns == [] then [] else [ValueOf(ns[0])] + ValuesOf(ns[1..])
  }

  function PairsOf(ns: seq<Node>): seq<Pair>
    decreases ns
  {
    if ns == [] then []
    else
      [if ns[0].EntryNode? then Pair(ns[0].key, ValueOf(ns[0].value)) else Pair([], ValueOf(ns[0]))] + PairsOf(ns[1..])
  }

  /** No part of the value is lost in its tree: content, order of children, keys. */
  lemma {:induction false} TreeFaithful(v: Value, pos: nat)
    ensures ValueOf(Tree(v, pos)) == v
    decreases v
  {
    match v {
      case Int(n) =>
      case Str(s) =>
      case List(items) => TreesFaithful(items, pos + 1);
      case Dict(entries) => EntryTreesFaithful(entries, pos + 1);
    }
  }

  lemma {:induction false} TreesFaithful(vs: seq<Value>, pos: nat)
    ensures ValuesOf(Trees(vs, pos)) == vs
    decreases vs
  {
    if vs != [] {
      TreeFaithful(vs[0], pos);
      var rest := Trees(vs[1..], pos + |Encode(vs[0])|);
      TreesFaithful(vs[1..], pos + |Encode(vs[0])|);
      assert Trees(vs, pos)[1..] == rest;
    }
  }

  lemma {:induction false} EntryTreesFaithful(es: seq<Pair>, pos: nat)
    ensures PairsOf(EntryTrees(es, pos)) == es
    decreases es
  {
    hide Encode, EncodeStr, Tree, ValueOf;
    if es != [] {
      var at := pos + |EncodeStr(es[0].key)|;
      TreeFaithful(es[0].value, at);
      EntryTreesFaithful(es[1..], at + |Encode(es[0].value)|);
      assert EntryTrees(es, pos)[1..] == EntryTrees(es[1..], at + |Encode(es[0].value)|);
    }
  }

  // ---------- What the parser can take ----------

  const MAX_DEPTH := 15

  /** No container is empty, containers nest at most fifteen deep below `depth` open ones, and numbers fit. */
  predicate Parsable(v: Value, depth: nat)
    decreases v
  {
    match v
    case Int(n) => IsLong(n)
    case Str(s) => IsLong(|s|)
    case List(items) => depth < MAX_DEPTH && items != [] && AllParsable(items, depth + 1)
    case Dict(entries) => depth < MAX_DEPTH && entries != [] && EntriesParsable(entries, depth + 1)
  }

  predicate AllParsable(vs: seq<Value>, depth: nat)
    decreases vs
  {
    vs == [] || (Parsable(vs[0], depth) && AllParsable(vs[1..], depth))
  }

  predicate EntriesParsable(es: seq<Pair>, depth: nat)
    decreases es
  {
    es == [] || (IsLong(|es[0].key|) && Parsable(es[0].value, depth) && EntriesParsable(es[1..], depth))
  }
}
