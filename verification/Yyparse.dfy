/** The parser on arbitrary input: what holds of its two stacks in every state, and yyparse itself. */
module Yyparse {
  import opened Options
  import opened Bytes
  import opened Bencode
  import opened Lexer
  import opened Parser
  import opened ParseEncoded

  // ---------- The two stacks ----------

  /** What the grammar allows below a symbol. */
  predicate Allowed(b: Stack, top: Symbol) {
    match top
    case Values => b.Bottom?
    case Flag => ValueSpot(b) || AtKey(b)
    case Number(_) => b.Push? && (b.top == IntStart || b.top == Flag)
    case Colon => b.Push? && b.top.Number? && b.below.Push? && b.below.top == Flag
    case Text(_) => b.Push? && (b.top == IntStart || b.top == Flag || b.top == Colon)
    case Item(node) => ValueSpot(b) || (AtKey(b) && node.StrNode?)
    case IntStart => ValueSpot(b)
    case ListStart => ValueSpot(b)
    case DictStart => ValueSpot(b)
    case End(_) =>
      b.Push? && ((b.top.Number? && b.below.Push? && b.below.top == IntStart) || b.top.ListEntries? || b.top.DictEntries?)
    case ListMark => b.Push? && b.top == ListStart
    case ListEntries(_) => b.Push? && b.top == ListMark
    case DictMark => b.Push? && b.top == DictStart
    case DictEntry(_) => AtKey(b)
    case DictEntries(_) => b.Push? && b.top == DictMark
  }

  predicate Legal(st: Stack) {
    match st
    case Bottom => true
    case Push(b, top) => Legal(b) && Allowed(b, top)
  }

  /** The containers that the parse stack is inside of, the outermost first; true for a dictionary. */
  function Inside(st: Stack): seq<bool> {
    match st
    case Bottom => []
    case Push(b, ListMark) => Inside(b) + [false]
    case Push(b, DictMark) => Inside(b) + [true]
    case Push(b, _) => Inside(b)
  }

  ghost predicate Mirrors(bst: seq<Container>, inside: seq<bool>) {
    |bst| == |inside| && forall i :: 0 <= i < |bst| ==> bst[i].dict == inside[i]
  }

  /** `bstack` holds exactly the enclosing containers, the innermost on top; nothing is popped from an empty stack. */
  ghost predicate Sound(c: Config) {
    match c
    case Busy(stack, _, _, bst, _) => Legal(stack) && Mirrors(bst, Inside(stack)) && |bst| <= MAX_DEPTH
    case Accepted(_, bst, _) => bst == []
    case SyntaxError => true
    case Overflow => true
    case Underflow => false
  }

  lemma Peel(st: Stack)
    requires Legal(st) && st.Push?
    ensures Legal(st.below) && Allowed(st.below, st.top)
    ensures st.top != ListMark && st.top != DictMark ==> Inside(st) == Inside(st.below)
    ensures st.top == ListMark ==> Inside(st) == Inside(st.below) + [false]
    ensures st.top == DictMark ==> Inside(st) == Inside(st.below) + [true]
  {}

  lemma TextSound(c: Config, below: Stack, s: seq<Octet>)
    requires c.Busy? && Sound(c) && c.stack == Push(below, Text(s))
    ensures Sound(ReduceText(c, below, s))
  {
    hide Strtonum;
    Peel(c.stack);
    if below.top == Colon {
      Peel(below);
      Peel(below.below);
      Peel(below.below.below);
    }
  }

  lemma EndSound(c: Config, below: Stack, at: nat)
    requires c.Busy? && Sound(c) && c.stack == Push(below, End(at))
    ensures Sound(ReduceEnd(c, below, at))
  {
    Peel(c.stack);
    Peel(below);
    Peel(below.below);
    if !below.top.Number? { Peel(below.below.below); }
  }

  lemma ItemSound(c: Config, below: Stack, node: Node)
    requires c.Busy? && Sound(c) && c.stack == Push(below, Item(node))
    ensures Sound(ReduceItem(c, below, node))
  {
    Peel(c.stack);
    Peel(below);
    if below.top.ListEntries? { Peel(below.below); }
  }

  lemma EntrySound(c: Config, below: Stack, node: Node)
    requires c.Busy? && Sound(c) && c.stack == Push(below, DictEntry(node))
    ensures Sound(ReduceEntry(c, below, node))
  {
    Peel(c.stack);
    Peel(below);
    if below.top.DictEntries? { Peel(below.below); }
  }

  lemma OpenSound(c: Config, mark: Symbol)
    requires c.Busy? && Sound(c) && c.stack.Push? && (mark == ListMark || mark == DictMark)
    requires c.stack.top == if mark == DictMark then DictStart else ListStart
    ensures Sound(Open(c, mark))
  {}

  lemma ShiftSound(c: Config)
    requires c.Busy? && Sound(c) && c.look.Some? && ActionOf(c.stack, c.look) == Shift
    ensures Sound(c.(stack := Push(c.stack, Shifted(c.look.value)), look := None))
  {
    assert Inside(Push(c.stack, Shifted(c.look.value))) == Inside(c.stack);
  }

  lemma ReductionSound(c: Config)
    requires c.Busy? && Sound(c) && ActionOf(c.stack, c.look) == Reduce
    ensures Sound(Reduction(c))
  {
    hide ReduceText, ReduceEnd, ReduceItem, ReduceEntry, Open;
    match c.stack
    case Bottom =>
    case Push(below, top) =>
      match top
      case Text(s) => TextSound(c, below, s);
      case Item(node) => ItemSound(c, below, node);
      case End(at) => EndSound(c, below, at);
      case DictEntry(node) => EntrySound(c, below, node);
      case ListStart => OpenSound(c, ListMark);
      case DictStart => OpenSound(c, DictMark);
      case _ =>
  }

  lemma StepSound(input: seq<Octet>, c: Config)
    requires c.Busy? && Sound(c)
    ensures Sound(Step(input, c))
  {
    hide Lex, Reduction, Legal;
    match ActionOf(c.stack, c.look)
    case Read =>
    case Shift => ShiftSound(c);
    case Reduce => ReductionSound(c);
    case Accept => AtValuesNothingOpen(c.stack);
    case Error =>
  }

  lemma AtValuesNothingOpen(st: Stack)
    requires Legal(st) && st.Push? && st.top == Values
    ensures Inside(st) == []
  {}

  lemma {:induction false} RunSound(input: seq<Octet>, c: Config)
    requires Sound(c)
    ensures Sound(Run(input, c))
    decreases Fuel(input, c), Rank(c)
  {
    hide Step, Sound;
    if c.Busy? {
      StepSinks(input, c);
      StepSound(input, c);
      RunSound(input, Step(input, c));
    }
  }

  /** Whatever the input, no container is ever popped from or looked for on an empty stack, and an accepted input leaves
      the stack empty. */
  lemma NeverUnderflows(input: seq<Octet>)
    ensures Parse(input) != Underflow && (Parse(input).Accepted? ==> Parse(input).bstack == [])
  {
    RunSound(input, Start(0));
  }

  // ---------- The code ----------

  /** The parser's globals; the tables of yacc are `ActionOf`. */
  class BencParser {
    const scanner: Scanner
    const bstack: array<Container>
    var bstackidx: nat
    var root: seq<Node>

    constructor (input: seq<Octet>)
      ensures Valid() && fresh(scanner) && fresh(bstack) && scanner.input == input && View(Bottom, None) == Start(0)
    {
      scanner := new Scanner(input);
      bstack := new Container[MAX_DEPTH + 1](_ => Container(false, []));
      bstackidx, root := 0, [];
    }

    ghost predicate Valid()
      reads this
    {
      bstack.Length == MAX_DEPTH + 1 && bstackidx <= MAX_DEPTH
    }

    ghost function View(stack: Stack, look: Option<Token>): Config
      requires Valid()
      reads this, bstack, scanner
    {
      Busy(stack, look, scanner.View(), bstack[..bstackidx], root)
    }

    /** benc_stack_push; `overflow` is its exit. */
    method StackPush(node: Container) returns (overflow: bool)
      requires Valid()
      modifies this`bstackidx, bstack
      ensures Valid() && overflow == (old(bstackidx) == MAX_DEPTH)
      ensures bstack[..bstackidx] == if overflow then old(bstack[..bstackidx]) else old(bstack[..bstackidx]) + [node]
    {
      if bstackidx == bstack.Length - 1 { return true; }
      bstack[bstackidx] := node;
      bstackidx := bstackidx + 1;
      overflow := false;
    }

    /** benc_stack_pop. */
    method StackPop() returns (node: Container)
      requires Valid() && bstackidx > 0
      modifies this`bstackidx
      ensures Valid() && bstack[..bstackidx] + [node] == old(bstack[..bstackidx])
    {
      bstackidx := bstackidx - 1;
      node := bstack[bstackidx];
    }

    /** benc_node_add(benc_stack_peek(), node). */
    method AddToPeek(node: Node)
      requires Valid() && bstackidx > 0
      modifies bstack
      ensures bstack[..bstackidx - 1] == old(bstack[..bstackidx - 1])
      ensures bstack[bstackidx - 1] == old(bstack[bstackidx - 1].(children := bstack[bstackidx - 1].children + [node]))
    {
      var top := bstack[bstackidx - 1];
      bstack[bstackidx - 1] := top.(children := top.children + [node]);
    }

    /** The actions of number and bstring. */
    method ActText(below: Stack, s: seq<Octet>, look: Option<Token>) returns (stack': Stack, stop: Option<Config>)
      requires Valid()
      modifies scanner
      ensures match stop
        case None => View(stack', look) == old(ReduceText(View(Push(below, Text(s)), look), below, s))
        case Some(c) => c == old(ReduceText(View(Push(below, Text(s)), look), below, s)) && Failed(c)
    {
      hide Strtonum;
      stack', stop := Bottom, Some(SyntaxError);
      if below.Bottom? {
      } else if below.top == IntStart || below.top == Flag {
        var lval := Strtonum(s);
        if lval.Some? {
          stack', stop := Push(below, Number(lval.value)), None;
          if scanner.bstrflag { scanner.bstrlen := lval.value; }
        }
      } else if below.top == Colon && below.below.Push? && below.below.top.Number? && below.below.below.Push?
        && below.below.below.top == Flag {
        stack', stop := Push(below.below.below.below, Item(StrNode(below.below.top.n, s))), None;
      }
    }

    /** The actions of bencode, blist_entries and bdict_entry, and bstrflag after a key. */
    method ActItem(below: Stack, node: Node, look: Option<Token>) returns (stack': Stack, stop: Option<Config>)
      requires Valid() && ReduceItem(View(Push(below, Item(node)), look), below, node) != Underflow
      modifies this`root, bstack, scanner
      ensures match stop
        case None => View(stack', look) == old(ReduceItem(View(Push(below, Item(node)), look), below, node))
        case Some(c) => c == old(ReduceItem(View(Push(below, Item(node)), look), below, node)) && Failed(c)
    {
      stack', stop := Bottom, Some(SyntaxError);
      if below.Push? {
        match below.top
        case Values => root, stack', stop := root + [node], below, None;
        case ListMark => stack', stop := Push(below, ListEntries(node)), None;
        case ListEntries(_) =>
          AddToPeek(node);
          stack', stop := below, None;
        case Item(k) =>
          if k.StrNode? { stack', stop := Push(below.below, DictEntry(EntryNode(k.text, node))), None; }
        case DictMark =>
          if node.StrNode? {
            stack', stop := ActFlag(Push(below, Item(node)));
          }
        case DictEntries(_) =>
          if node.StrNode? {
            stack', stop := ActFlag(Push(below, Item(node)));
          }
        case _ =>
      }
    }

    /** The actions of bdict_entries. */
    method ActEntry(below: Stack, node: Node, look: Option<Token>) returns (stack': Stack, stop: Option<Config>)
      requires Valid() && ReduceEntry(View(Push(below, DictEntry(node)), look), below, node) != Underflow
      modifies bstack
      ensures match stop
        case None => View(stack', look) == old(ReduceEntry(View(Push(below, DictEntry(node)), look), below, node))
        case Some(c) => c == old(ReduceEntry(View(Push(below, DictEntry(node)), look), below, node)) && Failed(c)
    {
      stack', stop := Bottom, Some(SyntaxError);
      if below.Push? && below.top == DictMark {
        stack', stop := Push(below, DictEntries(node)), None;
      } else if below.Push? && below.top.DictEntries? {
        AddToPeek(node);
        stack', stop := below, None;
      }
    }

    /** The end of a container: it is popped, and the first child linked in front. */
    method ActClose(stack: Stack, under: Stack, first: Node, dict: bool, at: nat, look: Option<Token>)
      returns (stack': Stack, stop: Option<Config>)
      requires Valid() && bstackidx > 0
      modifies this`bstackidx
      ensures Valid() && stop == None
      ensures View(stack', look) == old(Close(View(stack, look), under, first, dict, at))
    {
      var node := StackPop();
      var children := [first] + node.children;
      stack', stop := Push(under, Item(if dict then DictNode(children, at) else ListNode(children))), None;
    }

    /** The actions at the closing of bint, blist and bdict. */
    method ActEnd(below: Stack, at: nat, look: Option<Token>) returns (stack': Stack, stop: Option<Config>)
      requires Valid() && ReduceEnd(View(Push(below, End(at)), look), below, at) != Underflow
      modifies this`bstackidx
      ensures Valid()
      ensures match stop
        case None => View(stack', look) == old(ReduceEnd(View(Push(below, End(at)), look), below, at))
        case Some(c) => c == old(ReduceEnd(View(Push(below, End(at)), look), below, at)) && Failed(c)
    {
      hide Close;
      CloseUnderflow(View(Push(below, End(at)), look));
      stack', stop := Bottom, Some(SyntaxError);
      if below.Push? && below.below.Push? {
        var under := below.below;
        match below.top
        case Number(n) =>
          if under.top == IntStart { stack', stop := Push(under.below, Item(IntNode(n))), None; }
        case ListEntries(first) =>
          if under.top == ListMark && under.below.Push? {
            stack', stop := ActClose(Push(below, End(at)), under.below.below, first, false, at, look);
          }
        case DictEntries(first) =>
          if under.top == DictMark && under.below.Push? {
            stack', stop := ActClose(Push(below, End(at)), under.below.below, first, true, at, look);
          }
        case _ =>
      }
    }

    /** The mid-rule actions of blist and bdict. */
    method ActOpen(stack: Stack, mark: Symbol, look: Option<Token>) returns (stack': Stack, stop: Option<Config>)
      requires Valid()
      modifies this`bstackidx, bstack
      ensures Valid()
      ensures match stop
        case None => View(stack', look) == old(Open(View(stack, look), mark))
        case Some(c) => c == old(Open(View(stack, look), mark)) && Failed(c)
    {
      var overflow := StackPush(Container(mark == DictMark, []));
      stack', stop := Push(stack, mark), if overflow then Some(Overflow) else None;
    }

    /** One reduction. */
    method Act(stack: Stack, look: Option<Token>) returns (stack': Stack, stop: Option<Config>)
      requires Valid() && Reduction(View(stack, look)) != Underflow
      modifies this, bstack, scanner
      ensures Valid()
      ensures match stop
        case None => View(stack', look) == old(Reduction(View(stack, look)))
        case Some(c) => c == old(Reduction(View(stack, look))) && Failed(c)
    {
      hide ReduceText, ReduceItem, ReduceEntry, ReduceEnd, Open;
      match stack
      case Bottom => stack', stop := Push(Bottom, Values), None;
      case Push(below, top) =>
        match top
        case Text(s) => stack', stop := ActText(below, s, look);
        case Item(node) => stack', stop := ActItem(below, node, look);
        case End(at) => stack', stop := ActEnd(below, at, look);
        case DictEntry(node) => stack', stop := ActEntry(below, node, look);
        case ListStart => stack', stop := ActOpen(stack, ListMark, look);
        case DictStart => stack', stop := ActOpen(stack, DictMark, look);
        case Values => stack', stop := ActFlag(stack);
        case ListMark => stack', stop := ActFlag(stack);
        case DictMark => stack', stop := ActFlag(stack);
        case ListEntries(_) => stack', stop := ActFlag(stack);
        case DictEntries(_) => stack', stop := ActFlag(stack);
        case _ => stack', stop := stack, Some(SyntaxError);
    }

    /** The action of bstrflag. */
    method ActFlag(stack: Stack) returns (stack': Stack, stop: Option<Config>)
      modifies scanner
      ensures stack' == Push(stack, Flag) && stop == None && scanner.View() == old(scanner.View()).(bstrflag := true)
    {
      scanner.bstrflag := true;
      stack', stop := Push(stack, Flag), None;
    }

    /** yyparse, from the globals as they are at program start. */
    method Parse() returns (r: Config)
      requires Valid() && View(Bottom, None) == Start(0)
      modifies this, bstack, scanner
      ensures r == Parser.Parse(scanner.input)
      ensures r.Accepted? ==> r.root == root && r.lx == scanner.View() && bstackidx == 0
    {
      hide Reduction, Run, Sound, Lex;
      var stack, look: Option<Token> := Bottom, None;
      ghost var input := scanner.input;
      StartSound();
      while true
        invariant Valid() && Sound(View(stack, look)) && Run(input, View(stack, look)) == Parser.Parse(input)
        decreases Fuel(input, View(stack, look)), Rank(View(stack, look))
      {
        ghost var c := View(stack, look);
        RunStep(input, c);
        StepSinks(input, c);
        StepSound(input, c);
        match ActionOf(stack, look)
        case Read =>
          var token := scanner.Yylex();
          look := Some(token);
        case Shift =>
          if look.None? { RunStopped(input, SyntaxError); return SyntaxError; }
          stack, look := Push(stack, Shifted(look.value)), None;
        case Reduce =>
          NotUnderflow(input, c);
          var stop;
          stack, stop := Act(stack, look);
          if stop.Some? {
            RunStopped(input, stop.value);
            return stop.value;
          }
        case Accept =>
          RunStopped(input, Step(input, c));
          AcceptedEmpty(Step(input, c));
          return Accepted(scanner.View(), bstack[..bstackidx], root);
        case Error =>
          RunStopped(input, SyntaxError);
          return SyntaxError;
      }
    }
  }

  lemma CloseUnderflow(c: Config)
    requires c.Busy?
    ensures forall stack, first, dict, at :: Close(c, stack, first, dict, at) == Underflow <==> c.bstack == []
  {}

  lemma StartSound()
    ensures Sound(Start(0))
  {}

  lemma AcceptedEmpty(c: Config)
    requires Sound(c) && c.Accepted?
    ensures c.bstack == []
  {}

  lemma NotUnderflow(input: seq<Octet>, c: Config)
    requires c.Busy? && Sound(c) && ActionOf(c.stack, c.look) == Reduce
    ensures Reduction(c) != Underflow && Sound(Reduction(c)) && Step(input, c) == Reduction(c)
  {
    hide Legal, Reduction;
    ReductionSound(c);
  }
}
