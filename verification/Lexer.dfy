/** yylex: one lexer for two contexts, told apart by four globals that lexer and parser both set. */
module Lexer {
  import opened Bytes
  import opened Bencode

  /** The input position and the globals bstrlen, bstrflag, bdone, bcdone. */
  datatype Lexer = Lexer(pos: nat, bstrlen: int, bstrflag: bool, bdone: bool, bcdone: bool)

  datatype Token =
    | EOF
    | COLON
    | STRING(text: seq<Octet>)
    | END(at: nat)
    | INT_START
    | DICT_START
    | LIST_START

  datatype Lexed = Lexed(token: Token, lx: Lexer)

  /** Between two values all globals are zero. */
  function Clean(pos: nat): Lexer { Lexer(pos, 0, false, false, false) }

  function StringDone(lx: Lexer): Lexer { lx.(bstrlen := 0, bstrflag := false, bcdone := false) }

  /** In string context special characters are ordinary. */
  predicate Ordinary(c: Octet, lx: Lexer) {
    (c == COLON_CHAR && !lx.bdone && lx.bcdone) || (c != COLON_CHAR && lx.bstrflag)
    || c !in [COLON_CHAR, E_CHAR, I_CHAR, D_CHAR, L_CHAR]
  }

  /** The token that a special character makes when `buf` was read before it. */
  function Special(c: Octet, lx: Lexer, buf: seq<Octet>): Lexed {
    var next := lx.(pos := lx.pos + 1);
    if c == COLON_CHAR then
      if !lx.bdone && buf != [] then Lexed(STRING(buf), lx.(bdone := true, bcdone := false))
      else Lexed(COLON, next.(bdone := false, bcdone := true))
    else if c == E_CHAR then
      if !lx.bdone && buf != [] then Lexed(STRING(buf), lx.(bdone := true))
      else Lexed(END(next.pos), next.(bdone := false))
    else if c == I_CHAR then Lexed(INT_START, next)
    else if c == D_CHAR then Lexed(DICT_START, next)
    else Lexed(LIST_START, next)
  }

  /** One call of yylex, from inside its loop with `buf` read so far. */
  function Scan(input: seq<Octet>, lx: Lexer, buf: seq<Octet>): Lexed
    decreases |input| - lx.pos
  {
    if lx.bstrlen == 0 && lx.bstrflag && lx.bcdone then Lexed(STRING(buf), StringDone(lx))
    else if lx.pos >= |input| then Lexed(EOF, lx)
    else
      var c := input[lx.pos];
      if !Ordinary(c, lx) then Special(c, lx, buf)
      else
        var buf', lx' := buf + [c], lx.(pos := lx.pos + 1);
        if |buf'| == lx.bstrlen && lx.bstrflag then Lexed(STRING(buf'), StringDone(lx'))
        else Scan(input, lx', buf')
  }

  function Lex(input: seq<Octet>, lx: Lexer): Lexed { Scan(input, lx, []) }

  /** The lexer's globals and its input. */
  class Scanner {
    const input: seq<Octet>
    var pos: nat
    var bstrlen: int
    var bstrflag: bool
    var bdone: bool
    var bcdone: bool

    constructor (input: seq<Octet>)
      ensures this.input == input && View() == Clean(0)
    {
      this.input := input;
      pos, bstrlen, bstrflag, bdone, bcdone := 0, 0, false, false, false;
    }

    function View(): Lexer
      reads this
    {
      Lexer(pos, bstrlen, bstrflag, bdone, bcdone)
    }

    /** yylex. */
    method Yylex() returns (token: Token)
      modifies this
      ensures Lexed(token, View()) == Lex(input, old(View()))
    {
      var buf: seq<Octet> := [];
      while true
        invariant Scan(input, View(), buf) == Lex(input, old(View()))
        invariant bstrflag == old(bstrflag) && bdone == old(bdone) && bcdone == old(bcdone) && bstrlen == old(bstrlen)
        decreases |input| - pos
      {
        if bstrlen == 0 && bstrflag && bcdone {
          bstrlen, bstrflag, bcdone := 0, false, false;
          return STRING(buf);
        }
        if pos >= |input| { return EOF; }
        var c := input[pos];
        pos := pos + 1;
        if !((c == COLON_CHAR && !bdone && bcdone) || (c != COLON_CHAR && bstrflag)) {
          if c == COLON_CHAR {
            if !bdone && |buf| > 0 {
              bdone, bcdone, pos := true, false, pos - 1;
              return STRING(buf);
            }
            bdone, bcdone := false, true;
            return COLON;
          } else if c == E_CHAR {
            if !bdone && |buf| > 0 {
              bdone, pos := true, pos - 1;
              return STRING(buf);
            }
            bdone := false;
            return END(pos);
          } else if c == I_CHAR {
            return INT_START;
          } else if c == D_CHAR {
            return DICT_START;
          } else if c == L_CHAR {
            return LIST_START;
          }
        }
        buf := buf + [c];
        if |buf| == bstrlen && bstrflag {
          bstrlen, bstrflag, bcdone := 0, false, false;
          return STRING(buf);
        }
      }
    }
  }

  // ---------- Progress ----------

  function Left(input: seq<Octet>, lx: Lexer): nat { if lx.pos <= |input| then |input| - lx.pos else 0 }

  /** Every token but the end of the input and the empty string takes at least one octet; the empty string clears bcdone. */
  lemma {:induction false} ScanProgress(input: seq<Octet>, lx: Lexer, buf: seq<Octet>)
    ensures var r := Scan(input, lx, buf);
      && Left(input, r.lx) <= Left(input, lx)
      && (r.token == EOF ==> r.lx.bcdone == lx.bcdone)
      && (r.token != EOF && buf == [] ==>
            Left(input, r.lx) < Left(input, lx) || (r.token == STRING([]) && lx.bcdone && !r.lx.bcdone))
      && (r.token.STRING? ==> r.lx.bcdone ==> lx.bcdone)
      && (!r.token.STRING? && !r.token.COLON? ==> r.lx.bcdone == lx.bcdone)
    decreases |input| - lx.pos
  {
    if !(lx.bstrlen == 0 && lx.bstrflag && lx.bcdone) && lx.pos < |input| && Ordinary(input[lx.pos], lx) {
      var buf', lx' := buf + [input[lx.pos]], lx.(pos := lx.pos + 1);
      if !(|buf'| == lx.bstrlen && lx.bstrflag) {
        ScanProgress(input, lx', buf');
      }
    }
  }

  // ---------- Encoded text ----------

  ghost predicate At(input: seq<Octet>, pos: nat, s: seq<Octet>) {
    pos + |s| <= |input| && input[pos..pos + |s|] == s
  }

  lemma AtSplit(input: seq<Octet>, pos: nat, a: seq<Octet>, b: seq<Octet>)
    requires At(input, pos, a + b)
    ensures At(input, pos, a) && At(input, pos + |a|, b)
  {
    assert input[pos..pos + |a|] == (a + b)[..|a|];
    assert input[pos + |a|..pos + |a| + |b|] == (a + b)[|a|..];
  }

  lemma AtChar(input: seq<Octet>, pos: nat, c: Octet)
    requires At(input, pos, [c])
    ensures pos < |input| && input[pos] == c
  {
    assert input[pos..pos + 1][0] == c;
  }

  lemma AtHead(input: seq<Octet>, pos: nat, s: seq<Octet>)
    requires At(input, pos, s) && s != []
    ensures pos < |input| && input[pos] == s[0] && At(input, pos + 1, s[1..])
  {
    assert input[pos..pos + |s|][0] == s[0];
    assert s[1..] == input[pos + 1..pos + |s|];
  }

  /** A number, up to the character that ends it: also when bstrflag is already set, as it is for a dictionary's first key. */
  lemma {:induction false} ScanNumber(input: seq<Octet>, lx: Lexer, buf: seq<Octet>, s: seq<Octet>, end: Octet)
    requires Plain(s) && At(input, lx.pos, s + [end]) && buf + s != []
    requires end == COLON_CHAR || (end == E_CHAR && !lx.bstrflag)
    requires lx.bstrlen == 0 && !lx.bdone && !lx.bcdone
    ensures Scan(input, lx, buf) == Lexed(STRING(buf + s), lx.(pos := lx.pos + |s|, bdone := true))
    decreases |s|
  {
    AtHead(input, lx.pos, s + [end]);
    if s == [] {
      assert buf + s == buf;
    } else {
      assert (s + [end])[1..] == s[1..] + [end];
      ScanNumber(input, lx.(pos := lx.pos + 1), buf + [s[0]], s[1..], end);
      assert buf + [s[0]] + s[1..] == buf + s;
    }
  }

  /** The body of a string, whatever it contains. */
  lemma {:induction false} ScanBody(input: seq<Octet>, lx: Lexer, buf: seq<Octet>, s: seq<Octet>)
    requires At(input, lx.pos, s) && lx.bstrlen == |buf| + |s| && (s == [] ==> buf == [])
    requires lx.bstrflag && !lx.bdone && lx.bcdone
    ensures Scan(input, lx, buf) == Lexed(STRING(buf + s), Clean(lx.pos + |s|))
    decreases |s|
  {
    if s == [] {
      assert buf + s == buf;
    } else {
      AtHead(input, lx.pos, s);
      assert buf + [s[0]] + s[1..] == buf + s;
      if |s| > 1 {
        ScanBody(input, lx.(pos := lx.pos + 1), buf + [s[0]], s[1..]);
      } else {
        assert s[1..] == [] && buf + [s[0]] + [] == buf + [s[0]];
      }
    }
  }

  /** With bstrflag set and a length still to come, a text that starts with 'e' is never a number. */
  lemma {:induction false} ScanLost(input: seq<Octet>, lx: Lexer, buf: seq<Octet>)
    requires lx.bstrflag && lx.bstrlen == 0 && !lx.bdone && !lx.bcdone && buf != [] && buf[0] == E_CHAR
    ensures var t := Scan(input, lx, buf).token; t == EOF || (t.STRING? && t.text != [] && t.text[0] == E_CHAR)
    decreases |input| - lx.pos
  {
    if lx.pos < |input| && Ordinary(input[lx.pos], lx) {
      ScanLost(input, lx.(pos := lx.pos + 1), buf + [input[lx.pos]]);
    }
  }

  lemma NotNumber(s: seq<Octet>)
    requires s != [] && s[0] == E_CHAR
    ensures Strtonum(s).None?
  {
    assert CString(s)[0] == E_CHAR;
    var c := CString(s);
    assert SkipSpace(c) == c && !IsDigit(c[0]);
  }
}
