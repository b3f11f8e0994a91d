/** Parsing what was encoded: the trees come back, and exactly the values the parser can take are taken. */
module ParseEncoded {
  import opened Options
  import opened Bytes
  import opened Bencode
  import opened Lexer
  import opened Parser

  ghost predicate Failed(c: Config) { c == SyntaxError || c == Overflow }

  /** Between two values: no lookahead, all globals zero. */
  function Ready(stack: Stack, pos: nat, bstack: seq<Container>, root: seq<Node>): Config {
    Busy(stack, None, Clean(pos), bstack, root)
  }

  lemma RunStep(input: seq<Octet>, c: Config)
    requires c.Busy?
    ensures Run(input, c) == Run(input, Step(input, c))
  {}

  lemma RunStopped(input: seq<Octet>, c: Config)
    requires !c.Busy?
    ensures Run(input, c) == c
  {}

  /** A place for a value: at the top level, in a list, or after a key. */
  predicate ValueSpot(st: Stack) {
    st.Push? && (st.top == Values || st.top == ListMark || st.top.ListEntries?
                 || (st.top.Item? && st.top.node.StrNode? && AtKey(st.below)))
  }

  /** A place for a string whose length is read before bstrflag is set. */
  predicate StringSpot(st: Stack) { ValueSpot(st) || (st.Push? && st.top.DictEntries?) }

  lemma SpotActions(c: Config)
    requires c.Busy? && StringSpot(c.stack)
    ensures c.look == None ==> ActionOf(c.stack, c.look) == Read
    ensures c.look.Some? && c.look.value.STRING? ==> ActionOf(c.stack, c.look) == Reduce && Reduction(c) == SetFlag(c)
    ensures ValueSpot(c.stack) && c.look.Some? && c.look.value in [INT_START, LIST_START, DICT_START] ==>
      ActionOf(c.stack, c.look) == Shift
  {}

  // ---------- Strings ----------

  /** From the length, once it is the lookahead, to the end of the string. */
  lemma DriveText(input: seq<Octet>, st: Stack, bst: seq<Container>, root: seq<Node>, s: seq<Octet>, pos: nat)
    requires At(input, pos, [COLON_CHAR] + s)
    ensures var c := Busy(Push(st, Flag), Some(STRING(Digits(|s|))), Lexer(pos, 0, true, true, false), bst, root);
      if IsLong(|s|) then Run(input, c) == Run(input, Ready(Push(st, Item(StrNode(|s|, s))), pos + 1 + |s|, bst, root))
      else Failed(Run(input, c))
  {
    hide Run, Scan, Strtonum;
    StrtonumDecimal(|s|);
    assert Decimal(|s|) == Digits(|s|);
    var flagged, n := Push(st, Flag), |s|;
    var c0 := Busy(flagged, Some(STRING(Digits(n))), Lexer(pos, 0, true, true, false), bst, root);
    var c1 := Busy(Push(flagged, Text(Digits(n))), None, Lexer(pos, 0, true, true, false), bst, root);
    RunStep(input, c0);
    RunStep(input, c1);
    if !IsLong(n) {
      RunStopped(input, SyntaxError);
    } else {
      DriveBody(input, st, bst, root, s, pos);
    }
  }

  /** From the colon to the end of the string, with the length known. */
  lemma DriveBody(input: seq<Octet>, st: Stack, bst: seq<Container>, root: seq<Node>, s: seq<Octet>, pos: nat)
    requires At(input, pos, [COLON_CHAR] + s)
    ensures var c := Busy(Push(Push(st, Flag), Number(|s|)), None, Lexer(pos, |s|, true, true, false), bst, root);
      Run(input, c) == Run(input, Ready(Push(st, Item(StrNode(|s|, s))), pos + 1 + |s|, bst, root))
  {
    hide Run, Scan;
    var n, numbered := |s|, Push(Push(st, Flag), Number(|s|));
    var c2 := Busy(numbered, None, Lexer(pos, n, true, true, false), bst, root);
    var c3 := Busy(numbered, Some(COLON), Lexer(pos + 1, n, true, false, true), bst, root);
    var c4 := Busy(Push(numbered, Colon), None, Lexer(pos + 1, n, true, false, true), bst, root);
    AtSplit(input, pos, [COLON_CHAR], s);
    ScanColon(input, c2.lx);
    RunStep(input, c2);
    RunStep(input, c3);
    ScanBody(input, c4.lx, [], s);
    assert [] + s == s;
    var c5 := Busy(c4.stack, Some(STRING(s)), Clean(pos + 1 + n), bst, root);
    RunStep(input, c4);
    RunStep(input, c5);
    RunStep(input, Busy(Push(c4.stack, Text(s)), None, Clean(pos + 1 + n), bst, root));
  }

  /** The colon after a length. */
  lemma ScanColon(input: seq<Octet>, lx: Lexer)
    requires At(input, lx.pos, [COLON_CHAR]) && lx.bdone && !lx.bcdone
    ensures Lex(input, lx) == Lexed(COLON, lx.(pos := lx.pos + 1, bdone := false, bcdone := true))
  {
    AtChar(input, lx.pos, COLON_CHAR);
  }

  /** A string at a place where the lookahead is read first. */
  lemma DriveString(input: seq<Octet>, st: Stack, bst: seq<Container>, root: seq<Node>, s: seq<Octet>, pos: nat)
    requires StringSpot(st) && At(input, pos, EncodeStr(s))
    ensures var r, n := Run(input, Ready(st, pos, bst, root)), |EncodeStr(s)|;
      if IsLong(|s|) then r == Run(input, Ready(Push(st, Item(StrNode(|s|, s))), pos + n, bst, root)) else Failed(r)
  {
    hide Run, Scan;
    var d := Digits(|s|);
    StringParts(input, pos, s);
    ScanNumber(input, Clean(pos), [], d, COLON_CHAR);
    assert [] + d == d;
    var c1 := Busy(st, Some(STRING(d)), Lexer(pos + |d|, 0, false, true, false), bst, root);
    SpotActions(Ready(st, pos, bst, root));
    RunStep(input, Ready(st, pos, bst, root));
    SpotActions(c1);
    RunStep(input, c1);
    DriveText(input, st, bst, root, s, pos + |d|);
  }

  /** A dictionary's first key, for which bstrflag is set before its length is read. */
  lemma DriveFirstKey(input: seq<Octet>, st: Stack, bst: seq<Container>, root: seq<Node>, s: seq<Octet>, pos: nat)
    requires st.Push? && st.top == DictMark && At(input, pos, EncodeStr(s))
    ensures var r, n := Run(input, Ready(st, pos, bst, root)), |EncodeStr(s)|;
      if IsLong(|s|) then r == Run(input, Ready(Push(st, Item(StrNode(|s|, s))), pos + n, bst, root)) else Failed(r)
  {
    hide Run, Scan;
    var d := Digits(|s|);
    StringParts(input, pos, s);
    var lx := Lexer(pos, 0, true, false, false);
    ScanNumber(input, lx, [], d, COLON_CHAR);
    assert [] + d == d;
    RunStep(input, Ready(st, pos, bst, root));
    RunStep(input, Busy(Push(st, Flag), None, lx, bst, root));
    DriveText(input, st, bst, root, s, pos + |d|);
  }

  lemma StringParts(input: seq<Octet>, pos: nat, s: seq<Octet>)
    requires At(input, pos, EncodeStr(s))
    ensures var d := Digits(|s|);
      && Plain(d) && At(input, pos, d + [COLON_CHAR]) && At(input, pos + |d|, [COLON_CHAR] + s)
      && |EncodeStr(s)| == |d| + 1 + |s|
  {
    var d := Digits(|s|);
    DigitsDenote(|s|);
    assert EncodeStr(s) == (d + [COLON_CHAR]) + s == d + ([COLON_CHAR] + s);
    AtSplit(input, pos, d + [COLON_CHAR], s);
    AtSplit(input, pos, d, [COLON_CHAR] + s);
  }

  // ---------- Integers ----------

  lemma DriveInt(input: seq<Octet>, st: Stack, bst: seq<Container>, root: seq<Node>, n: int, pos: nat)
    requires ValueSpot(st) && At(input, pos, Encode(Int(n)))
    ensures var r, len := Run(input, Ready(st, pos, bst, root)), |Encode(Int(n))|;
      if IsLong(n) then r == Run(input, Ready(Push(st, Item(IntNode(n))), pos + len, bst, root)) else Failed(r)
  {
    hide Run, Scan, Strtonum;
    var d := Decimal(n);
    StrtonumDecimal(n);
    assert Encode(Int(n)) == [I_CHAR] + (d + [E_CHAR]);
    AtSplit(input, pos, [I_CHAR], d + [E_CHAR]);
    AtSplit(input, pos + 1, d, [E_CHAR]);
    DriveOpening(input, st, bst, root, I_CHAR, pos);
    var st1 := Push(st, IntStart);
    ScanNumber(input, Clean(pos + 1), [], d, E_CHAR);
    assert [] + d == d;
    var lx := Lexer(pos + 1 + |d|, 0, false, true, false);
    RunStep(input, Ready(st1, pos + 1, bst, root));
    RunStep(input, Busy(st1, Some(STRING(d)), lx, bst, root));
    RunStep(input, Busy(Push(st1, Text(d)), None, lx, bst, root));
    if !IsLong(n) {
      RunStopped(input, SyntaxError);
    } else {
      var st2 := Push(st1, Number(n));
      ScanEnd(input, lx);
      var end := lx.pos + 1;
      RunStep(input, Busy(st2, None, lx, bst, root));
      RunStep(input, Busy(st2, Some(END(end)), Clean(end), bst, root));
      RunStep(input, Ready(Push(st2, End(end)), end, bst, root));
    }
  }

  function Opening(c: Octet): Token { if c == I_CHAR then INT_START else if c == L_CHAR then LIST_START else DICT_START }

  /** The character that opens a number, a list or a dictionary. */
  lemma DriveOpening(input: seq<Octet>, st: Stack, bst: seq<Container>, root: seq<Node>, c: Octet, pos: nat)
    requires ValueSpot(st) && At(input, pos, [c]) && c in [I_CHAR, L_CHAR, D_CHAR]
    ensures Run(input, Ready(st, pos, bst, root)) == Run(input, Ready(Push(st, Shifted(Opening(c))), pos + 1, bst, root))
  {
    hide Run, Scan;
    var c1 := Busy(st, Some(Opening(c)), Clean(pos + 1), bst, root);
    ScanOpening(input, pos, c);
    SpotActions(Ready(st, pos, bst, root));
    RunStep(input, Ready(st, pos, bst, root));
    SpotActions(c1);
    RunStep(input, c1);
  }

  lemma ScanOpening(input: seq<Octet>, pos: nat, c: Octet)
    requires At(input, pos, [c]) && c in [I_CHAR, L_CHAR, D_CHAR]
    ensures Lex(input, Clean(pos)) == Lexed(Opening(c), Clean(pos + 1))
  {
    AtChar(input, pos, c);
  }

  lemma ScanEnd(input: seq<Octet>, lx: Lexer)
    requires At(input, lx.pos, [E_CHAR]) && lx.bstrlen == 0 && !lx.bstrflag && !lx.bcdone
    ensures Lex(input, lx) == Lexed(END(lx.pos + 1), Clean(lx.pos + 1))
  {
    AtChar(input, lx.pos, E_CHAR);
  }

  // ---------- Containers ----------

  /** The opening of a container: refused when fifteen are open. */
  lemma DriveOpen(input: seq<Octet>, st: Stack, bst: seq<Container>, root: seq<Node>, dict: bool, pos: nat)
    requires ValueSpot(st) && At(input, pos, [if dict then D_CHAR else L_CHAR]) && |bst| <= MAX_DEPTH
    ensures var r := Run(input, Ready(st, pos, bst, root));
      if |bst| == MAX_DEPTH then r == Overflow
      else r == Run(input, Ready(Opened(st, dict), pos + 1, bst + [Container(dict, [])], root))
  {
    hide Run, Scan;
    DriveOpening(input, st, bst, root, if dict then D_CHAR else L_CHAR, pos);
    RunStep(input, Ready(Push(st, if dict then DictStart else ListStart), pos + 1, bst, root));
    RunStopped(input, Overflow);
  }

  function Opened(st: Stack, dict: bool): Stack {
    if dict then Push(Push(st, DictStart), DictMark) else Push(Push(st, ListStart), ListMark)
  }

  /** The end of a container: the first child, kept aside until now, goes in front of the others. */
  lemma DriveClose(input: seq<Octet>, st: Stack, bst: seq<Container>, root: seq<Node>, first: Node, more: seq<Node>, dict: bool, pos: nat)
    requires At(input, pos, [E_CHAR])
    ensures var entries := Push(Opened(st, dict), if dict then DictEntries(first) else ListEntries(first));
      var node := if dict then DictNode([first] + more, pos + 1) else ListNode([first] + more);
      Run(input, Ready(entries, pos, bst + [Container(dict, more)], root)) == Run(input, Ready(Push(st, Item(node)), pos + 1, bst, root))
  {
    hide Run, Scan;
    var entries := Push(Opened(st, dict), if dict then DictEntries(first) else ListEntries(first));
    var bst' := bst + [Container(dict, more)];
    ScanEnd(input, Clean(pos));
    RunStep(input, Ready(entries, pos, bst', root));
    RunStep(input, Busy(entries, Some(END(pos + 1)), Clean(pos + 1), bst', root));
    RunStep(input, Ready(Push(entries, End(pos + 1)), pos + 1, bst', root));
    assert bst'[..|bst' | - 1] == bst;
  }

  /** An empty list is a syntax error. */
  lemma EmptyList(input: seq<Octet>, st: Stack, bst: seq<Container>, root: seq<Node>, pos: nat)
    requires At(input, pos, [E_CHAR])
    ensures Run(input, Ready(Opened(st, false), pos, bst, root)) == SyntaxError
  {
    hide Run, Scan;
    ScanEnd(input, Clean(pos));
    var st' := Opened(st, false);
    RunStep(input, Ready(st', pos, bst, root));
    RunStep(input, Busy(st', Some(END(pos + 1)), Clean(pos + 1), bst, root));
    RunStopped(input, SyntaxError);
  }

  /** In an empty dictionary the closing 'e' is taken for the first octet of a key's length: a syntax error, whatever follows. */
  lemma EmptyDict(input: seq<Octet>, st: Stack, bst: seq<Container>, root: seq<Node>, pos: nat)
    requires At(input, pos, [E_CHAR])
    ensures Run(input, Ready(Opened(st, true), pos, bst, root)) == SyntaxError
  {
    hide Run, Strtonum;
    AtChar(input, pos, E_CHAR);
    var st' := Opened(st, true);
    var lx := Lexer(pos, 0, true, false, false);
    ScanLost(input, lx.(pos := pos + 1), [E_CHAR]);
    var r := Scan(input, lx, []);
    assert [] + [E_CHAR] == [E_CHAR];
    assert r == Scan(input, lx.(pos := pos + 1), [E_CHAR]);
    hide Scan;
    RunStep(input, Ready(st', pos, bst, root));
    RunStep(input, Busy(Push(st', Flag), None, lx, bst, root));
    var c := Busy(Push(st', Flag), Some(r.token), r.lx, bst, root);
    RunStep(input, c);
    RunStopped(input, SyntaxError);
    if r.token.STRING? {
      NotNumber(r.token.text);
      RunStep(input, Busy(Push(Push(st', Flag), Text(r.token.text)), None, r.lx, bst, root));
    }
  }

  /** One value at its place: its tree comes to stand on the stack, and nothing else changes. */
  lemma {:induction false} DriveValue(input: seq<Octet>, st: Stack, bst: seq<Container>, root: seq<Node>, v: Value, pos: nat)
    requires ValueSpot(st) && At(input, pos, Encode(v)) && |bst| <= MAX_DEPTH
    ensures var r, n := Run(input, Ready(st, pos, bst, root)), |Encode(v)|;
      if Parsable(v, |bst|) then r == Run(input, Ready(Push(st, Item(Tree(v, pos))), pos + n, bst, root)) else Failed(r)
    decreases v
  {
    hide Run, Scan, At;
    match v {
      case Int(n) => DriveInt(input, st, bst, root, n, pos);
      case Str(s) => DriveString(input, st, bst, root, s, pos);
      case List(items) =>
        ContainerParts(input, pos, L_CHAR, EncodeAll(items));
        DriveOpen(input, st, bst, root, false, pos);
        if |bst| < MAX_DEPTH { DriveListBody(input, st, bst, root, items, pos); }
      case Dict(entries) =>
        ContainerParts(input, pos, D_CHAR, EncodeEntries(entries));
        DriveOpen(input, st, bst, root, true, pos);
        if |bst| < MAX_DEPTH { DriveDictBody(input, st, bst, root, entries, pos); }
    }
  }

  lemma ContainerParts(input: seq<Octet>, pos: nat, c: Octet, body: seq<Octet>)
    requires At(input, pos, [c] + body + [E_CHAR])
    ensures At(input, pos, [c]) && At(input, pos + 1, body) && At(input, pos + 1 + |body|, [E_CHAR])
    ensures |[c] + body + [E_CHAR]| == |body| + 2
  {
    AtSplit(input, pos, [c] + body, [E_CHAR]);
    AtSplit(input, pos, [c], body);
  }

  /** Everything after the opening of a list. */
  lemma {:induction false} DriveListBody(input: seq<Octet>, st: Stack, bst: seq<Container>, root: seq<Node>, items: seq<Value>, pos: nat)
    requires |bst| < MAX_DEPTH && At(input, pos + 1, EncodeAll(items)) && At(input, pos + 1 + |EncodeAll(items)|, [E_CHAR])
    ensures var r := Run(input, Ready(Opened(st, false), pos + 1, bst + [Container(false, [])], root));
      if items != [] && AllParsable(items, |bst| + 1)
      then r == Run(input, Ready(Push(st, Item(ListNode(Trees(items, pos + 1)))), pos + |EncodeAll(items)| + 2, bst, root))
      else Failed(r)
    decreases items, 1
  {
    hide Run, Scan, At;
    var st', bst' := Opened(st, false), bst + [Container(false, [])];
    if items == [] {
      EmptyList(input, st, bst', root, pos + 1);
    } else {
      var v, rest := items[0], items[1..];
      var first, at := Tree(v, pos + 1), pos + 1 + |Encode(v)|;
      AtSplit(input, pos + 1, Encode(v), EncodeAll(rest));
      DriveValue(input, st', bst', root, v, pos + 1);
      if Parsable(v, |bst| + 1) {
        RunStep(input, Ready(Push(st', Item(first)), at, bst', root));
        DriveItems(input, st, bst, root, first, [], rest, at);
        if AllParsable(rest, |bst| + 1) {
          var more := Trees(rest, at);
          assert [] + more == more;
          DriveClose(input, st, bst, root, first, more, false, at + |EncodeAll(rest)|);
        }
      }
    }
  }

  /** The items after the first one, each appended to the container on top of the stack. */
  lemma {:induction false} DriveItems(input: seq<Octet>, st: Stack, bst: seq<Container>, root: seq<Node>, first: Node, done: seq<Node>,
                                      vs: seq<Value>, pos: nat)
    requires |bst| < MAX_DEPTH && At(input, pos, EncodeAll(vs))
    ensures var st' := Push(Opened(st, false), ListEntries(first));
      var r := Run(input, Ready(st', pos, bst + [Container(false, done)], root));
      if AllParsable(vs, |bst| + 1)
      then r == Run(input, Ready(st', pos + |EncodeAll(vs)|, bst + [Container(false, done + Trees(vs, pos))], root))
      else Failed(r)
    decreases vs, 0
  {
    hide Run, Scan, At, Encode, Parsable, Tree;
    var st', bst' := Push(Opened(st, false), ListEntries(first)), bst + [Container(false, done)];
    if vs == [] {
      assert done + [] == done;
    } else {
      var v, rest := vs[0], vs[1..];
      var node, at := Tree(v, pos), pos + |Encode(v)|;
      AtSplit(input, pos, Encode(v), EncodeAll(rest));
      DriveValue(input, st', bst', root, v, pos);
      if Parsable(v, |bst| + 1) {
        RunStep(input, Ready(Push(st', Item(node)), at, bst', root));
        Appended(bst, false, done, node);
        DriveItems(input, st, bst, root, first, done + [node], rest, at);
        assert done + [node] + Trees(rest, at) == done + ([node] + Trees(rest, at));
      }
    }
  }

  lemma Appended(bst: seq<Container>, dict: bool, done: seq<Node>, node: Node)
    ensures var b := bst + [Container(dict, done)]; var n := |b| - 1;
      n == |bst| && b[..n] + [b[n].(children := b[n].children + [node])] == bst + [Container(dict, done + [node])]
  {}

  /** Everything after the opening of a dictionary. */
  lemma {:induction false} DriveDictBody(input: seq<Octet>, st: Stack, bst: seq<Container>, root: seq<Node>, es: seq<Pair>, pos: nat)
    requires |bst| < MAX_DEPTH && At(input, pos + 1, EncodeEntries(es)) && At(input, pos + 1 + |EncodeEntries(es)|, [E_CHAR])
    ensures var r := Run(input, Ready(Opened(st, true), pos + 1, bst + [Container(true, [])], root));
      var end := pos + |EncodeEntries(es)| + 2;
      if es != [] && EntriesParsable(es, |bst| + 1)
      then r == Run(input, Ready(Push(st, Item(DictNode(EntryTrees(es, pos + 1), end))), end, bst, root))
      else Failed(r)
    decreases es, 1
  {
    hide Run, Scan, At, EncodeStr, Encode, Parsable, Tree;
    var st', bst' := Opened(st, true), bst + [Container(true, [])];
    if es == [] {
      EmptyDict(input, st, bst', root, pos + 1);
    } else {
      var e, rest := es[0], es[1..];
      EntryParts(input, pos + 1, e, EncodeEntries(rest));
      DriveFirstKey(input, st', bst', root, e.key, pos + 1);
      if IsLong(|e.key|) {
        var at := pos + 1 + |EncodeStr(e.key)|;
        DriveEntryValue(input, st', bst', root, e, at);
        if Parsable(e.value, |bst| + 1) {
          var first, at' := EntryNode(e.key, Tree(e.value, at)), at + |Encode(e.value)|;
          RunStep(input, Ready(Push(st', DictEntry(first)), at', bst', root));
          DriveEntries(input, st, bst, root, first, [], rest, at');
          if EntriesParsable(rest, |bst| + 1) {
            var more := EntryTrees(rest, at');
            assert [] + more == more;
            DriveClose(input, st, bst, root, first, more, true, at' + |EncodeEntries(rest)|);
          }
        }
      }
    }
  }

  lemma EntryParts(input: seq<Octet>, pos: nat, e: Pair, rest: seq<Octet>)
    requires At(input, pos, EncodeStr(e.key) + Encode(e.value) + rest)
    ensures At(input, pos, EncodeStr(e.key)) && At(input, pos + |EncodeStr(e.key)|, Encode(e.value))
    ensures At(input, pos + |EncodeStr(e.key)| + |Encode(e.value)|, rest)
  {
    AtSplit(input, pos, EncodeStr(e.key) + Encode(e.value), rest);
    AtSplit(input, pos, EncodeStr(e.key), Encode(e.value));
  }

  /** The value after a key, and the entry made of both. */
  lemma {:induction false} DriveEntryValue(input: seq<Octet>, st: Stack, bst: seq<Container>, root: seq<Node>, e: Pair, at: nat)
    requires AtKey(st) && At(input, at, Encode(e.value)) && |bst| <= MAX_DEPTH
    ensures var key := StrNode(|e.key|, e.key);
      var r := Run(input, Ready(Push(st, Item(key)), at, bst, root));
      if Parsable(e.value, |bst|)
      then r == Run(input, Ready(Push(st, DictEntry(EntryNode(e.key, Tree(e.value, at)))), at + |Encode(e.value)|, bst, root))
      else Failed(r)
    decreases e
  {
    hide Run, Scan, At;
    var st' := Push(st, Item(StrNode(|e.key|, e.key)));
    DriveValue(input, st', bst, root, e.value, at);
    if Parsable(e.value, |bst|) {
      RunStep(input, Ready(Push(st', Item(Tree(e.value, at))), at + |Encode(e.value)|, bst, root));
    }
  }

  lemma {:induction false} DriveEntries(input: seq<Octet>, st: Stack, bst: seq<Container>, root: seq<Node>, first: Node, done: seq<Node>,
                                        es: seq<Pair>, pos: nat)
    requires |bst| < MAX_DEPTH && At(input, pos, EncodeEntries(es))
    ensures var st' := Push(Opened(st, true), DictEntries(first));
      var r := Run(input, Ready(st', pos, bst + [Container(true, done)], root));
      if EntriesParsable(es, |bst| + 1)
      then r == Run(input, Ready(st', pos + |EncodeEntries(es)|, bst + [Container(true, done + EntryTrees(es, pos))], root))
      else Failed(r)
    decreases es, 0
  {
    hide Run, Scan, At, EncodeStr, Encode, Parsable, Tree;
    var st', bst' := Push(Opened(st, true), DictEntries(first)), bst + [Container(true, done)];
    if es == [] {
      assert done + [] == done;
    } else {
      var e, rest := es[0], es[1..];
      EntryParts(input, pos, e, EncodeEntries(rest));
      DriveString(input, st', bst', root, e.key, pos);
      if IsLong(|e.key|) {
        var at := pos + |EncodeStr(e.key)|;
        DriveEntryValue(input, st', bst', root, e, at);
        if Parsable(e.value, |bst| + 1) {
          var node, at' := EntryNode(e.key, Tree(e.value, at)), at + |Encode(e.value)|;
          RunStep(input, Ready(Push(st', DictEntry(node)), at', bst', root));
          Appended(bst, true, done, node);
          DriveEntries(input, st, bst, root, first, done + [node], rest, at');
          assert done + [node] + EntryTrees(rest, at') == done + ([node] + EntryTrees(rest, at'));
        }
      }
    }
  }

  // ---------- Whole inputs ----------

  lemma {:induction false} DriveAll(input: seq<Octet>, root: seq<Node>, vs: seq<Value>, pos: nat)
    requires At(input, pos, EncodeAll(vs))
    ensures var st := Push(Bottom, Values);
      var r := Run(input, Ready(st, pos, [], root));
      if AllParsable(vs, 0) then r == Run(input, Ready(st, pos + |EncodeAll(vs)|, [], root + Trees(vs, pos))) else Failed(r)
    decreases |vs|
  {
    hide Run, Scan, At, Encode, Parsable, Tree;
    var st := Push(Bottom, Values);
    if vs == [] {
      assert root + [] == root;
    } else {
      var v, rest := vs[0], vs[1..];
      var node, at := Tree(v, pos), pos + |Encode(v)|;
      AtSplit(input, pos, Encode(v), EncodeAll(rest));
      DriveValue(input, st, [], root, v, pos);
      if Parsable(v, 0) {
        RunStep(input, Ready(Push(st, Item(node)), at, [], root));
        DriveAll(input, root + [node], rest, at);
        assert root + [node] + Trees(rest, at) == root + ([node] + Trees(rest, at));
      }
    }
  }

  /** Parsing an encoding gives the trees of the values, with the container stack empty and the globals zero again,
      exactly when the values are within the parser's limits; otherwise the parse fails. */
  lemma ParseOfEncoding(vs: seq<Value>)
    ensures var input := EncodeAll(vs);
      if AllParsable(vs, 0) then Parse(input) == Accepted(Clean(|input|), [], Trees(vs, 0)) else Failed(Parse(input))
  {
    hide Run;
    var input := EncodeAll(vs);
    assert input[0..|input|] == input;
    var st := Push(Bottom, Values);
    RunStep(input, Start(0));
    DriveAll(input, [], vs, 0);
    assert [] + Trees(vs, 0) == Trees(vs, 0);
    var c := Ready(st, |input|, [], Trees(vs, 0));
    RunStep(input, c);
    RunStep(input, c.(look := Some(EOF)));
    RunStopped(input, Accepted(c.lx, c.bstack, c.root));
  }

  /** Decoding undoes encoding. */
  lemma RoundTrip(vs: seq<Value>)
    requires AllParsable(vs, 0)
    ensures Parse(EncodeAll(vs)).Accepted? && ValuesOf(Parse(EncodeAll(vs)).root) == vs
  {
    ParseOfEncoding(vs);
    TreesFaithful(vs, 0);
  }
}
