/** The bencoded text itself, as BEP 3 describes it, in characters; and the numbers that strtonum takes. */
module BencodeFormat {
  import opened Options
  import opened Bytes
  import opened Bencode

  /** ASCII. */
  function Ascii(c: char): Octet
    requires c < 128 as char
  {
    c as int
  }

  /** A row of decimal digits denotes `n`, most significant first, without leading zeros. */
  ghost predicate IsDecimal(s: seq<Octet>, n: nat) {
    && s != [] && (forall i :: 0 <= i < |s| ==> Ascii('0') <= s[i] <= Ascii('9'))
    && Worth(s) == n && (s[0] == Ascii('0') ==> |s| == 1)
  }

  /** The digits weighed by powers of ten. */
  function Worth(s: seq<Octet>): int {
    if s == [] then 0 else Worth(s[..|s| - 1]) * 10 + (s[|s| - 1] as int - '0' as int)
  }

  lemma {:induction false} DigitsFormat(n: nat)
    ensures IsDecimal(Digits(n), n) && (n > 0 ==> Digits(n)[0] != Ascii('0'))
    decreases n
  {
    if n >= 10 {
      DigitsFormat(n / 10);
      var s := Digits(n / 10);
      assert (s + [48 + n % 10])[..|s|] == s;
    } else {
      assert [48 + n][..0] == [];
    }
  }

  /** Every value in characters: numbers between i and e, strings after their length and a colon, lists between l and e,
      dictionaries between d and e with each key before its value. */
  lemma ValueFormat(v: Value)
    ensures var e := Encode(v);
      match v
      case Int(n) =>
        var m := if n < 0 then -n else n;
        IsDecimal(Digits(m), m) && e == [Ascii('i')] + (if n < 0 then [Ascii('-')] else []) + Digits(m) + [Ascii('e')]
      case Str(s) => IsDecimal(Digits(|s|), |s|) && e == Digits(|s|) + [Ascii(':')] + s
      case List(items) => e == [Ascii('l')] + EncodeAll(items) + [Ascii('e')]
      case Dict(entries) => e == [Ascii('d')] + EncodeEntries(entries) + [Ascii('e')]
  {
    hide Digits, IsDecimal;
    match v {
      case Int(n) => DigitsFormat(if n < 0 then -n else n); SignFormat(n);
      case Str(s) => DigitsFormat(|s|);
      case List(_) =>
      case Dict(_) =>
    }
  }

  lemma SignFormat(n: int)
    ensures n < 0 ==> [I_CHAR] + Decimal(n) == [Ascii('i')] + [Ascii('-')] + Digits(-n)
    ensures n >= 0 ==> [I_CHAR] + Decimal(n) == [Ascii('i')] + [] + Digits(n)
  {}

  /** The parts follow each other in order. */
  lemma PartsFormat(vs: seq<Value>, ws: seq<Value>, es: seq<Pair>, fs: seq<Pair>)
    ensures EncodeAll([]) == [] && EncodeAll(vs + ws) == EncodeAll(vs) + EncodeAll(ws)
    ensures EncodeEntries([]) == [] && EncodeEntries(es + fs) == EncodeEntries(es) + EncodeEntries(fs)
  {
    ItemsFormat(vs, ws);
    EntriesFormat(es, fs);
  }

  lemma {:induction false} ItemsFormat(vs: seq<Value>, ws: seq<Value>)
    ensures EncodeAll(vs + ws) == EncodeAll(vs) + EncodeAll(ws)
    decreases |vs|
  {
    if vs == [] {
      assert vs + ws == ws;
    } else {
      assert (vs + ws)[1..] == vs[1..] + ws;
      ItemsFormat(vs[1..], ws);
    }
  }

  lemma {:induction false} EntriesFormat(es: seq<Pair>, fs: seq<Pair>)
    ensures EncodeEntries(es + fs) == EncodeEntries(es) + EncodeEntries(fs)
    decreases |es|
  {
    if es == [] {
      assert es + fs == fs;
    } else {
      assert (es + fs)[1..] == es[1..] + fs;
      EntriesFormat(es[1..], fs);
    }
  }

  /** One item, and one entry. */
  lemma OneFormat(v: Value, e: Pair)
    ensures EncodeAll([v]) == Encode(v) && EncodeEntries([e]) == Encode(Str(e.key)) + Encode(e.value)
  {
    assert [v][1..] == [] && [e][1..] == [];
  }

  // ---------- strtonum ----------

  /** Text as strtoll takes it: spaces, a sign or none, digits, and then the end of the C string. */
  datatype Numeral = Numeral(spaces: seq<Octet>, sign: seq<Octet>, digits: seq<Octet>, rest: seq<Octet>)

  ghost predicate WellWritten(t: Numeral) {
    && (forall i :: 0 <= i < |t.spaces| ==> IsSpace(t.spaces[i]))
    && (t.sign == [] || t.sign == [Ascii('-')] || t.sign == [Ascii('+')])
    && t.digits != [] && AllDigits(t.digits) && (t.rest == [] || t.rest[0] == 0)
  }

  function Text(t: Numeral): seq<Octet> { t.spaces + t.sign + t.digits + t.rest }

  function NumeralValue(t: Numeral): int { if t.sign == [Ascii('-')] then -Denotes(t.digits) else Denotes(t.digits) }

  lemma {:induction false} CStringUpTo(a: seq<Octet>, b: seq<Octet>)
    requires (forall i :: 0 <= i < |a| ==> a[i] != 0) && (b == [] || b[0] == 0)
    ensures CString(a + b) == a
    decreases |a|
  {
    if a == [] {
      assert a + b == b;
    } else {
      assert (a + b)[1..] == a[1..] + b;
      CStringUpTo(a[1..], b);
    }
  }

  lemma {:induction false} SkipsSpaces(a: seq<Octet>, b: seq<Octet>)
    requires (forall i :: 0 <= i < |a| ==> IsSpace(a[i])) && b != [] && !IsSpace(b[0])
    ensures SkipSpace(a + b) == b
    decreases |a|
  {
    if a == [] {
      assert a + b == b;
    } else {
      assert (a + b)[1..] == a[1..] + b;
      SkipsSpaces(a[1..], b);
    }
  }

  /** A well-written numeral reads as its value, if that fits. */
  lemma NumeralReads(t: Numeral)
    requires WellWritten(t)
    ensures Strtonum(Text(t)) == if IsLong(NumeralValue(t)) then Some(NumeralValue(t)) else None
  {
    hide CString, SkipSpace, Denotes;
    var a, b := t.spaces + t.sign + t.digits, t.sign + t.digits;
    CStringUpTo(a, t.rest);
    Regroup(t.spaces, t.sign, t.digits, []);
    assert a == t.spaces + b;
    SkipsSpaces(t.spaces, b);
    assert t.sign != [] ==> b[1..] == t.digits;
    assert t.sign == [] ==> b == t.digits;
  }

  lemma {:induction false} SplitSpaces(s: seq<Octet>) returns (spaces: seq<Octet>)
    ensures s == spaces + SkipSpace(s) && forall i :: 0 <= i < |spaces| ==> IsSpace(spaces[i])
    decreases |s|
  {
    spaces := [];
    if s != [] && IsSpace(s[0]) {
      var more := SplitSpaces(s[1..]);
      spaces := [s[0]] + more;
    }
  }

  lemma {:induction false} SplitCString(s: seq<Octet>) returns (rest: seq<Octet>)
    ensures s == CString(s) + rest && (rest == [] || rest[0] == 0)
    decreases |s|
  {
    rest := s;
    if s != [] && s[0] != 0 {
      rest := SplitCString(s[1..]);
    }
  }

  /** And nothing else reads as a number. */
  lemma OnlyNumeralsRead(s: seq<Octet>) returns (t: Numeral)
    requires Strtonum(s).Some?
    ensures WellWritten(t) && Text(t) == s && Strtonum(s) == Some(NumeralValue(t))
  {
    var rest := SplitCString(s);
    var c := CString(s);
    var spaces := SplitSpaces(c);
    var n := SkipSpace(c);
    hide CString, SkipSpace, Denotes, AllDigits;
    var signed := n != [] && (n[0] == MINUS || n[0] == PLUS);
    var sign, digits := if signed then [n[0]] else [], if signed then n[1..] else n;
    Regroup(spaces, sign, digits, rest);
    t := Numeral(spaces, sign, digits, rest);
  }

  lemma Regroup<T>(a: seq<T>, b: seq<T>, c: seq<T>, d: seq<T>)
    ensures a + (b + c) + d == a + b + c + d
  {}
}
