/** torrent_parse_infohash: which octets of a torrent file are hashed. */
module InfoHash {
  import opened Options
  import opened Bytes
  import opened Bencode
  import opened Lexer
  import opened BencodeTree
  import opened Parser
  import opened ParseEncoded

  const INFO: seq<Octet> := [105, 110, 102, 111]       // "info"
  const INFO_STR: seq<Octet> := [52, 58] + INFO        // "4:info"

  /** strstr(file, "4:info") from offset `i` on. */
  function FirstInfo(s: seq<Octet>, i: nat): (r: Option<nat>)
    ensures r.Some? ==> i <= r.value && At(s, r.value, INFO_STR)
    ensures r.Some? ==> forall k :: i <= k < r.value ==> !At(s, k, INFO_STR)
    ensures r.None? ==> forall k :: i <= k ==> !At(s, k, INFO_STR)
    decreases |s| - i
  {
    if i + |INFO_STR| > |s| then None
    else if s[i..i + |INFO_STR|] == INFO_STR then Some(i)
    else FirstInfo(s, i + 1)
  }

  /** The octets that are hashed: from the first textual occurrence of the key to the end of the dictionary that the parser
      found; `None` when there is no occurrence, or it lies beyond that end. */
  function Hashed(file: seq<Octet>, end: nat): Option<seq<Octet>> {
    match FirstInfo(CString(file), 0)
    case None => None
    case Some(k) => if k + |INFO_STR| <= end <= |file| then Some(file[k + |INFO_STR|..end]) else None
  }

  lemma {:induction false} CStringPrefix(s: seq<Octet>)
    ensures CString(s) <= s
    decreases |s|
  {
    if s != [] && s[0] != 0 { CStringPrefix(s[1..]); }
  }

  /** The dictionary at offset `pos` is what is hashed exactly when the text before it is the first "4:info" of the file. */
  lemma HashedIffFirst(file: seq<Octet>, entries: seq<Pair>, pos: nat)
    requires At(file, pos, Encode(Dict(entries)))
    ensures Hashed(file, Tree(Dict(entries), pos).end) == Some(Encode(Dict(entries)))
      <==> pos >= |INFO_STR| && FirstInfo(CString(file), 0) == Some(pos - |INFO_STR|)
  {
    hide Encode, CString;
    var code := Encode(Dict(entries));
    CStringPrefix(file);
    var end := pos + |code|;
    var first := FirstInfo(CString(file), 0);
    assert file[pos..end] == code;
    if first.Some? && first.value + |INFO_STR| <= end {
      assert |file[first.value + |INFO_STR|..end]| == end - (first.value + |INFO_STR|);
    }
  }

  /** The entry whose key is "info" puts that text before its value. */
  lemma KeyIsText(file: seq<Octet>, pos: nat)
    requires At(file, pos, EncodeStr(INFO))
    ensures At(file, pos, INFO_STR) && |EncodeStr(INFO)| == |INFO_STR|
  {
    assert Digits(4) == [52];
    assert EncodeStr(INFO) == INFO_STR;
  }

  /** For a torrent file with an "info" entry: its value is hashed exactly when no octet before the key is NUL or starts
      another "4:info". */
  lemma InfoValueHashedIff(file: seq<Octet>, entries: seq<Pair>, at: nat)
    requires At(file, at, EncodeStr(INFO) + Encode(Dict(entries)))
    ensures var pos := at + |INFO_STR|;
      Hashed(file, Tree(Dict(entries), pos).end) == Some(Encode(Dict(entries)))
      <==> At(CString(file), at, INFO_STR) && forall k :: 0 <= k < at ==> !At(CString(file), k, INFO_STR)
  {
    hide Encode, CString, EncodeStr, Hashed;
    AtSplit(file, at, EncodeStr(INFO), Encode(Dict(entries)));
    KeyIsText(file, at);
    HashedIffFirst(file, entries, at + |INFO_STR|);
    var first := FirstInfo(CString(file), 0);
    if first.Some? && first.value > at { assert !At(CString(file), at, INFO_STR); }
  }

  const LEAD: seq<Octet> := [100, 49, 58, 97, 54, 58]  // "d1:a6:"

  function Decoy(info: Value): Value { Dict([Pair([97], Str(INFO_STR)), Pair(INFO, info)]) }

  lemma DecoyText(info: Value)
    ensures Encode(Decoy(info)) == LEAD + INFO_STR + (INFO_STR + (Encode(info) + [E_CHAR]))
  {
    hide Encode, Digits;
    var es := [Pair([97], Str(INFO_STR)), Pair(INFO, info)];
    DecoyParts(info);
    assert es[1..] == [Pair(INFO, info)] && es[1..][1..] == [];
    assert EncodeEntries(es[1..]) == INFO_STR + Encode(info) + [];
    assert EncodeEntries(es) == [49, 58, 97] + ([54, 58] + INFO_STR) + (INFO_STR + Encode(info) + []);
  }

  lemma DecoyParts(info: Value)
    ensures EncodeStr([97]) == [49, 58, 97] && EncodeStr(INFO) == INFO_STR && Encode(Str(INFO_STR)) == [54, 58] + INFO_STR
    ensures Encode(Decoy(info)) == [D_CHAR] + EncodeEntries([Pair([97], Str(INFO_STR)), Pair(INFO, info)]) + [E_CHAR]
  {
    assert Digits(1) == [49] && Digits(4) == [52] && Digits(6) == [54];
  }

  /** A string that merely contains the text before the key makes the program hash something else, whatever the
      dictionary. */
  lemma Shadowed(entries: seq<Pair>)
    ensures var info, pos := Dict(entries), |LEAD| + 2 * |INFO_STR|;
      var file := Encode(Decoy(info));
      At(file, pos, Encode(info)) && Hashed(file, Tree(info, pos).end) != Some(Encode(info))
  {
    hide Encode, CString, Hashed;
    var info := Dict(entries);
    var file, tail := Encode(Decoy(info)), Encode(info) + [E_CHAR];
    DecoyText(info);
    assert file == LEAD + INFO_STR + INFO_STR + tail;
    var n := |LEAD + INFO_STR + INFO_STR|;
    assert file[n..n + |Encode(info)|] == Encode(info);
    HashedIffFirst(file, entries, n);
    CStringReaches(LEAD + INFO_STR, INFO_STR + tail);
    assert CString(file)[|LEAD|..|LEAD| + |INFO_STR|] == INFO_STR;
    assert At(CString(file), |LEAD|, INFO_STR);
  }

  /** A prefix without NUL is seen by the C functions. */
  lemma {:induction false} CStringReaches(a: seq<Octet>, b: seq<Octet>)
    requires forall i :: 0 <= i < |a| ==> a[i] != 0
    ensures CString(a + b) == a + CString(b)
    decreases |a|
  {
    if a == [] {
      assert a + b == b;
    } else {
      assert (a + b)[1..] == a[1..] + b;
      CStringReaches(a[1..], b);
      assert [a[0]] + (a[1..] + CString(b)) == a + CString(b);
    }
  }

  // ---------- From the file to the hash ----------

  /** `node` is the tree of the value `w` of an entry whose key, read as a C string, is `key`; the entry is encoded at
      offset `at` of the input. */
  ghost predicate Placed(input: seq<Octet>, key: seq<Octet>, node: Node, k: seq<Octet>, w: Value, at: nat) {
    CString(k) == key && At(input, at, EncodeStr(k) + Encode(w)) && node == Tree(w, at + |EncodeStr(k)|)
  }

  /** What a search finds in the tree of an encoded value is the value of an entry of its encoding. */
  lemma {:induction false} FoundIn(input: seq<Octet>, v: Value, pos: nat, key: seq<Octet>) returns (k: seq<Octet>, w: Value, at: nat)
    requires At(input, pos, Encode(v))
    ensures var r := First(Entries(Tree(v, pos)), key); r.Some? ==> Placed(input, key, r.value, k, w, at)
    decreases v
  {
    hide At, Placed;
    k, w, at := [], v, 0;
    match v {
      case Int(_) =>
      case Str(_) =>
      case List(items) =>
        ContainerParts(input, pos, L_CHAR, EncodeAll(items));
        k, w, at := FoundAmong(input, items, pos + 1, key);
      case Dict(entries) =>
        ContainerParts(input, pos, D_CHAR, EncodeEntries(entries));
        k, w, at := FoundInEntries(input, entries, pos + 1, key);
    }
  }

  lemma {:induction false} FoundAmong(input: seq<Octet>, vs: seq<Value>, pos: nat, key: seq<Octet>)
    returns (k: seq<Octet>, w: Value, at: nat)
    requires At(input, pos, EncodeAll(vs))
    ensures var r := First(AllEntries(Trees(vs, pos)), key); r.Some? ==> Placed(input, key, r.value, k, w, at)
    decreases vs
  {
    hide At, Placed, Encode, Tree, First, Entries;
    k, w, at := [], Int(0), 0;
    if vs == [] {
      NothingFirst(key);
    } else {
      var next := pos + |Encode(vs[0])|;
      AtSplit(input, pos, Encode(vs[0]), EncodeAll(vs[1..]));
      var ns := Trees(vs, pos);
      assert ns[0] == Tree(vs[0], pos) && ns[1..] == Trees(vs[1..], next);
      FirstConcat(Entries(ns[0]), AllEntries(ns[1..]), key);
      k, w, at := FoundIn(input, vs[0], pos, key);
      if First(Entries(ns[0]), key).None? {
        k, w, at := FoundAmong(input, vs[1..], next, key);
      }
    }
  }

  lemma {:induction false} FoundInEntries(input: seq<Octet>, es: seq<Pair>, pos: nat, key: seq<Octet>)
    returns (k: seq<Octet>, w: Value, at: nat)
    requires At(input, pos, EncodeEntries(es))
    ensures var r := First(AllEntries(EntryTrees(es, pos)), key); r.Some? ==> Placed(input, key, r.value, k, w, at)
    decreases es
  {
    hide At, Encode, EncodeStr, First, Entries, CString;
    k, w, at := [], Int(0), 0;
    if es == [] {
      NothingFirst(key);
    } else {
      var e := es[0];
      var mid := pos + |EncodeStr(e.key)|;
      var next := mid + |Encode(e.value)|;
      EntryParts(input, pos, e, EncodeEntries(es[1..]));
      AtSplit(input, pos, EncodeStr(e.key) + Encode(e.value), EncodeEntries(es[1..]));
      var ns, node := EntryTrees(es, pos), Tree(e.value, mid);
      assert ns[0] == EntryNode(e.key, node) && ns[1..] == EntryTrees(es[1..], next);
      hide Tree;
      FirstConcat(Entries(ns[0]), AllEntries(ns[1..]), key);
      EntryEntries(e.key, node);
      FirstEntry(Named(e.key, node), Entries(node), key);
      if CString(e.key) == key {
        k, w, at := e.key, e.value, pos;
      } else {
        k, w, at := FoundIn(input, e.value, mid, key);
        if First(Entries(node), key).None? {
          k, w, at := FoundInEntries(input, es[1..], next, key);
        }
      }
    }
  }

  lemma {:induction false} CStringStops(s: seq<Octet>, i: nat)
    requires i < |s| && s[i] == 0
    ensures |CString(s)| <= i
    decreases i
  {
    if i > 0 && s[0] != 0 { CStringStops(s[1..], i - 1); }
  }

  /** A text that is not its own C string has a NUL, right after the C string. */
  lemma {:induction false} CStringNul(s: seq<Octet>)
    requires CString(s) != s
    ensures |CString(s)| < |s| && s[|CString(s)|] == 0
    decreases |s|
  {
    if s != [] && s[0] != 0 {
      assert s == [s[0]] + s[1..];
      CStringNul(s[1..]);
    }
  }

  /** A key with a NUL in it is never what the hash starts after. */
  lemma NulKeyMisses(file: seq<Octet>, k: seq<Octet>, at: nat, rest: seq<Octet>)
    requires At(file, at, EncodeStr(k) + rest) && CString(k) != k
    ensures var pos := at + |EncodeStr(k)|; pos >= |INFO_STR| ==> FirstInfo(CString(file), 0) != Some(pos - |INFO_STR|)
  {
    var d, n := Digits(|k|), |CString(k)|;
    hide CString, FirstInfo, Digits;
    CStringNul(k);
    AtSplit(file, at, EncodeStr(k), rest);
    var nul := at + |d| + 1 + n;
    assert file[at..at + |EncodeStr(k)|] == d + [COLON_CHAR] + k;
    assert file[at..at + |EncodeStr(k)|][|d| + 1 + n] == k[n];
    assert file[nul] == 0;
    CStringStops(file, nul);
  }

  /** For every torrent file within the parser's limits: if the search for "info" in its parse finds a dictionary, then the
      octets hashed are the encoding of that dictionary exactly when its key is plainly "info" and is the first "4:info" of
      the file that a C string search sees. */
  lemma InfoHashOfFile(vs: seq<Value>) returns (k: seq<Octet>, w: Value, at: nat)
    requires AllParsable(vs, 0)
    ensures var file := EncodeAll(vs);
      && Parse(file).Accepted?
      && var found := First(Entries(ListNode(Parse(file).root)), INFO);
      && (found.Some? ==> Placed(file, INFO, found.value, k, w, at))
      && (found.Some? && found.value.DictNode? ==>
            && w.Dict?
            && (Hashed(file, found.value.end) == Some(Encode(w)) <==> k == INFO && FirstInfo(CString(file), 0) == Some(at)))
  {
    hide Encode, CString, FirstInfo, Hashed, First, Run, Parsable, Placed, Tree;
    var file := EncodeAll(vs);
    ParseOfEncoding(vs);
    assert file[0..|file|] == file;
    k, w, at := FoundAmong(file, vs, 0, INFO);
    var found := First(AllEntries(Trees(vs, 0)), INFO);
    if found.Some? && found.value.DictNode? { PlacedHashedIff(file, found.value, k, w, at); }
  }

  lemma PlacedHashedIff(file: seq<Octet>, node: Node, k: seq<Octet>, w: Value, at: nat)
    requires Placed(file, INFO, node, k, w, at) && node.DictNode?
    ensures w.Dict? && (Hashed(file, node.end) == Some(Encode(w)) <==> k == INFO && FirstInfo(CString(file), 0) == Some(at))
  {
    hide Encode, EncodeStr, CString, FirstInfo, Hashed;
    AtSplit(file, at, EncodeStr(k), Encode(w));
    HashedIffFirst(file, w.entries, at + |EncodeStr(k)|);
    if CString(k) == k {
      KeyIsText(file, at);
    } else {
      InfoPlain();
      NulKeyMisses(file, k, at, Encode(w));
    }
  }

  lemma InfoPlain()
    ensures CString(INFO) == INFO
  {}
}
