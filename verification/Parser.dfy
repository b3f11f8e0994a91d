/** The grammar of parse.y as the shift-reduce machine that yacc makes of it, with its semantic actions. */
module Parser {
  import opened Options
  import opened Bytes
  import opened Bencode
  import opened Lexer

  /** Grammar symbols with their semantic values; the marks are the mid-rule actions of blist and bdict. */
  datatype Symbol =
    | Values                        // bencode
    | Flag                          // bstrflag
    | Number(n: int)
    | Colon
    | Text(s: seq<Octet>)
    | Item(node: Node)              // bstring, bint, blist or bdict
    | IntStart
    | End(at: nat)
    | ListStart
    | ListMark
    | ListEntries(first: Node)
    | DictStart
    | DictMark
    | DictEntry(node: Node)
    | DictEntries(first: Node)

  datatype Stack = Bottom | Push(below: Stack, top: Symbol)

  /** A container on `bstack`, with the children linked to it so far. */
  datatype Container = Container(dict: bool, children: seq<Node>)

  datatype Config =
    | Busy(stack: Stack, look: Option<Token>, lx: Lexer, bstack: seq<Container>, root: seq<Node>)
    | Accepted(lx: Lexer, bstack: seq<Container>, root: seq<Node>)
    | SyntaxError
    | Overflow        // benc_stack_push on a full stack
    | Underflow       // benc_stack_pop or benc_stack_peek on an empty one

  datatype Action = Read | Shift | Reduce | Accept | Error

  // ---------- The table ----------

  /** Where a value may start. */
  function ForValue(look: Option<Token>): Action {
    match look
    case None => Read
    case Some(INT_START) => Shift
    case Some(LIST_START) => Shift
    case Some(DICT_START) => Shift
    case Some(STRING(_)) => Reduce
    case Some(_) => Error
  }

  function ForString(look: Option<Token>): Action {
    match look
    case None => Read
    case Some(STRING(_)) => Shift
    case Some(_) => Error
  }

  function ForNumberEnd(below: Stack, look: Option<Token>): Action {
    if look.None? then Read
    else if below.Bottom? then Error
    else if below.top == IntStart && look.value.END? then Shift
    else if below.top == Flag && look.value == COLON then Shift
    else Error
  }

  predicate AtKey(below: Stack) { below.Push? && (below.top.DictMark? || below.top.DictEntries?) }

  /** What the machine does next. A state with a single reduction reads no lookahead. */
  function ActionOf(stack: Stack, look: Option<Token>): Action {
    match stack
    case Bottom => Reduce
    case Push(below, top) =>
      match top
      case Values => if look == Some(EOF) then Accept else ForValue(look)
      case ListMark => ForValue(look)
      case ListEntries(_) => if look.Some? && look.value.END? then Shift else ForValue(look)
      case DictEntries(_) =>
        if look.None? then Read else if look.value.END? then Shift else if look.value.STRING? then Reduce else Error
      case Item(_) => if AtKey(below) then ForValue(look) else Reduce
      case Flag => ForString(look)
      case Colon => ForString(look)
      case IntStart => ForString(look)
      case Number(_) => ForNumberEnd(below, look)
      case _ => Reduce
  }

  function Shifted(t: Token): Symbol {
    match t
    case EOF => Values
    case COLON => Colon
    case STRING(s) => Text(s)
    case END(at) => End(at)
    case INT_START => IntStart
    case DICT_START => DictStart
    case LIST_START => ListStart
  }

  // ---------- Reductions ----------

  function SetFlag(c: Config): Config
    requires c.Busy?
  {
    c.(stack := Push(c.stack, Flag), lx := c.lx.(bstrflag := true))
  }

  function Open(c: Config, mark: Symbol): Config
    requires c.Busy?
  {
    if |c.bstack| == MAX_DEPTH then Overflow
    else c.(stack := Push(c.stack, mark), bstack := c.bstack + [Container(mark == DictMark, [])])
  }

  /** benc_node_add(benc_stack_peek(), node). */
  function AddToTop(c: Config, stack: Stack, node: Node): Config
    requires c.Busy?
  {
    if c.bstack == [] then Underflow
    else
      var n := |c.bstack| - 1;
      c.(stack := stack, bstack := c.bstack[..n] + [c.bstack[n].(children := c.bstack[n].children + [node])])
  }

  /** benc_stack_pop, then benc_node_add_head of the first child. */
  function Close(c: Config, stack: Stack, first: Node, dict: bool, at: nat): Config
    requires c.Busy?
  {
    if c.bstack == [] then Underflow
    else
      var n := |c.bstack| - 1;
      var children := [first] + c.bstack[n].children;
      c.(stack := Push(stack, Item(if dict then DictNode(children, at) else ListNode(children))), bstack := c.bstack[..n])
  }

  function ReduceNumber(c: Config, below: Stack, s: seq<Octet>): Config
    requires c.Busy?
  {
    match Strtonum(s)
    case None => SyntaxError
    case Some(n) => c.(stack := Push(below, Number(n)), lx := if c.lx.bstrflag then c.lx.(bstrlen := n) else c.lx)
  }

  function ReduceText(c: Config, below: Stack, s: seq<Octet>): Config
    requires c.Busy?
  {
    if below.Bottom? then SyntaxError
    else if below.top == IntStart || below.top == Flag then ReduceNumber(c, below, s)
    else if below.top == Colon && below.below.Push? && below.below.top.Number? && below.below.below.Push?
      && below.below.below.top == Flag then
      c.(stack := Push(below.below.below.below, Item(StrNode(below.below.top.n, s))))
    else SyntaxError
  }

  function ReduceItem(c: Config, below: Stack, node: Node): Config
    requires c.Busy?
  {
    if below.Bottom? then SyntaxError
    else
      match below.top
      case Values => c.(stack := below, root := c.root + [node])
      case ListMark => c.(stack := Push(below, ListEntries(node)))
      case ListEntries(_) => AddToTop(c, below, node)
      case Item(k) =>
        if k.StrNode? then c.(stack := Push(below.below, DictEntry(EntryNode(k.text, node)))) else SyntaxError
      case DictMark => if node.StrNode? then SetFlag(c) else SyntaxError
      case DictEntries(_) => if node.StrNode? then SetFlag(c) else SyntaxError
      case _ => SyntaxError
  }

  function ReduceEntry(c: Config, below: Stack, node: Node): Config
    requires c.Busy?
  {
    if below.Bottom? then SyntaxError
    else if below.top == DictMark then c.(stack := Push(below, DictEntries(node)))
    else if below.top.DictEntries? then AddToTop(c, below, node)
    else SyntaxError
  }

  function ReduceEnd(c: Config, below: Stack, at: nat): Config
    requires c.Busy?
  {
    if below.Bottom? || below.below.Bottom? then SyntaxError
    else
      var under := below.below;
      match below.top
      case Number(n) => if under.top == IntStart then c.(stack := Push(under.below, Item(IntNode(n)))) else SyntaxError
      case ListEntries(first) =>
        if under.top == ListMark && under.below.Push? then Close(c, under.below.below, first, false, at) else SyntaxError
      case DictEntries(first) =>
        if under.top == DictMark && under.below.Push? then Close(c, under.below.below, first, true, at) else SyntaxError
      case _ => SyntaxError
  }

  function Reduction(c: Config): Config
    requires c.Busy?
  {
    match c.stack
    case Bottom => c.(stack := Push(Bottom, Values))
    case Push(below, top) =>
      match top
      case Text(s) => ReduceText(c, below, s)
      case Item(node) => ReduceItem(c, below, node)
      case End(at) => ReduceEnd(c, below, at)
      case DictEntry(node) => ReduceEntry(c, below, node)
      case ListStart => Open(c, ListMark)
      case DictStart => Open(c, DictMark)
      case Values => SetFlag(c)
      case ListMark => SetFlag(c)
      case DictMark => SetFlag(c)
      case ListEntries(_) => SetFlag(c)
      case DictEntries(_) => SetFlag(c)
      case _ => SyntaxError
  }

  // ---------- Runs ----------

  function Step(input: seq<Octet>, c: Config): Config
    requires c.Busy?
  {
    match ActionOf(c.stack, c.look)
    case Read =>
      var r := Lex(input, c.lx);
      c.(look := Some(r.token), lx := r.lx)
    case Shift => if c.look.None? then SyntaxError else c.(stack := Push(c.stack, Shifted(c.look.value)), look := None)
    case Reduce => Reduction(c)
    case Accept => Accepted(c.lx, c.bstack, c.root)
    case Error => SyntaxError
  }

  function Weight(s: Symbol): nat {
    match s
    case Values => 0
    case Flag => 0
    case Number(_) => 1
    case Colon => 1
    case Text(_) => 2
    case Item(_) => 3
    case IntStart => 6
    case End(_) => 6
    case ListStart => 6
    case ListMark => 0
    case ListEntries(_) => 2
    case DictStart => 6
    case DictMark => 0
    case DictEntry(_) => 3
    case DictEntries(_) => 2
  }

  function StackWeight(s: Stack): nat {
    match s
    case Bottom => 1
    case Push(below, top) => (if below.Bottom? then 0 else StackWeight(below)) + Weight(top)
  }

  function LookWeight(look: Option<Token>): nat {
    match look
    case None => 1
    case Some(EOF) => 0
    case Some(COLON) => 4
    case Some(STRING(_)) => 4
    case Some(_) => 8
  }

  /** Drops with every step but the mid-rule actions and the one that only sets bstrflag. */
  function Fuel(input: seq<Octet>, c: Config): nat {
    if c.Busy? then
      8 * Left(input, c.lx) + (if c.lx.bcdone then 4 else 0) + LookWeight(c.look) + StackWeight(c.stack)
    else 0
  }

  function Rank(c: Config): nat {
    if !c.Busy? then 0
    else if c.stack.Bottom? then 2
    else if c.stack.top == Flag then 1
    else if c.stack.top == ListStart || c.stack.top == DictStart then 3
    else 2
  }

  ghost predicate Sinks(input: seq<Octet>, c: Config, c': Config) {
    c'.Busy? ==> Fuel(input, c') < Fuel(input, c) || (Fuel(input, c') == Fuel(input, c) && Rank(c') < Rank(c))
  }

  lemma ReadSinks(input: seq<Octet>, c: Config)
    requires c.Busy? && c.look == None
    ensures var r := Lex(input, c.lx); Sinks(input, c, c.(look := Some(r.token), lx := r.lx))
  {
    hide Scan;
    ScanProgress(input, c.lx, []);
  }

  lemma TextSinks(input: seq<Octet>, c: Config, below: Stack, s: seq<Octet>)
    requires c.Busy? && c.stack == Push(below, Text(s))
    ensures Sinks(input, c, ReduceText(c, below, s))
  {
    hide Strtonum;
    if below.Push? && below.top == Colon && below.below.Push? && below.below.below.Push? {
      assert StackWeight(below) == StackWeight(below.below) + 1;
      assert StackWeight(below.below.below) >= if below.below.below.below.Bottom? then 0 else StackWeight(below.below.below.below);
    }
  }

  lemma EndSinks(input: seq<Octet>, c: Config, below: Stack, at: nat)
    requires c.Busy? && c.stack == Push(below, End(at))
    ensures Sinks(input, c, ReduceEnd(c, below, at))
  {
    if below.Push? && below.below.Push? {
      var under := below.below;
      assert StackWeight(below) == StackWeight(under) + Weight(below.top);
      assert StackWeight(under) == (if under.below.Bottom? then 0 else StackWeight(under.below)) + Weight(under.top);
    }
  }

  lemma ItemSinks(input: seq<Octet>, c: Config, below: Stack, node: Node)
    requires c.Busy? && c.stack == Push(below, Item(node))
    ensures Sinks(input, c, ReduceItem(c, below, node))
  {
    if below.Push? {
      assert StackWeight(below) == (if below.below.Bottom? then 0 else StackWeight(below.below)) + Weight(below.top);
    }
  }

  lemma ShiftSinks(input: seq<Octet>, c: Config)
    requires c.Busy? && c.look.Some? && c.look.value != EOF && c.stack.Push?
    ensures Sinks(input, c, c.(stack := Push(c.stack, Shifted(c.look.value)), look := None))
  {}

  lemma OtherSinks(input: seq<Octet>, c: Config)
    requires c.Busy? && (c.stack.Bottom? || !(c.stack.top.Text? || c.stack.top.End? || c.stack.top.Item?))
    ensures Sinks(input, c, Reduction(c))
  {}

  lemma StepSinks(input: seq<Octet>, c: Config)
    requires c.Busy?
    ensures Sinks(input, c, Step(input, c))
  {
    hide Lex, ReduceText, ReduceEnd, ReduceItem, ReduceEntry, Open, Fuel, Rank;
    match ActionOf(c.stack, c.look)
    case Read => ReadSinks(input, c);
    case Shift => ShiftSinks(input, c);
    case Reduce =>
      if c.stack.Bottom? || !(c.stack.top.Text? || c.stack.top.End? || c.stack.top.Item?) {
        OtherSinks(input, c);
      } else if c.stack.top.Text? {
        TextSinks(input, c, c.stack.below, c.stack.top.s);
      } else if c.stack.top.End? {
        EndSinks(input, c, c.stack.below, c.stack.top.at);
      } else {
        ItemSinks(input, c, c.stack.below, c.stack.top.node);
      }
    case _ =>
  }

  /** yyparse: the machine runs until it stops, on every input. */
  function Run(input: seq<Octet>, c: Config): (r: Config)
    ensures !r.Busy?
    decreases Fuel(input, c), Rank(c)
  {
    if !c.Busy? then c
    else
      StepSinks(input, c);
      Run(input, Step(input, c))
  }

  function Start(pos: nat): Config { Busy(Bottom, None, Clean(pos), [], []) }

  function Parse(input: seq<Octet>): Config { Run(input, Start(0)) }
}
