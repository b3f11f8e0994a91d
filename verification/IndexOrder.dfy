/** piece_dl_idxnode_cmp: the order in which the global index keeps its nodes. */
module IndexOrder {
  import opened Downloads

  const TWO31: int := 0x8000_0000
  const TWO32: int := 0x1_0000_0000

  /** Both fields of an index node's key are u_int32_t. */
  predicate Is32(k: Key) { k.idx < TWO32 && k.off < TWO32 }

  /** The unsigned 32-bit difference. */
  function Sub32(a: nat, b: nat): nat { (a - b) % TWO32 }

  /** What remains of a number that is returned as a 32-bit int. */
  function AsInt(x: int): int {
    var m := x % TWO32;
    if m < TWO31 then m else m - TWO32
  }

  function Cmp(a: Key, b: Key): int {
    var idxdiff := Sub32(a.idx, b.idx);
    if idxdiff == 0 then AsInt(Sub32(a.off, b.off)) else AsInt(idxdiff)
  }

  /** One integer per key, in lexicographic order. */
  function Rank(k: Key): int { k.idx * TWO32 + k.off }

  function Sign(x: int): int { if x < 0 then -1 else if x == 0 then 0 else 1 }

  /** The difference that decides the comparison. */
  function Deciding(a: Key, b: Key): int { if a.idx != b.idx then a.idx - b.idx else a.off - b.off }

  lemma AsIntSub(a: nat, b: nat)
    requires a < TWO32 && b < TWO32
    ensures Sub32(a, b) == 0 <==> a == b
    ensures AsInt(Sub32(a, b)) ==
      if a - b < -TWO31 then a - b + TWO32 else if a - b < TWO31 then a - b else a - b - TWO32
  {}

  /** Two keys compare as equal only when they are: no lookup finds another block's node. */
  lemma CmpZeroIffSame(a: Key, b: Key)
    requires Is32(a) && Is32(b)
    ensures Cmp(a, b) == 0 <==> a == b
    ensures Rank(a) == Rank(b) <==> a == b
  {
    AsIntSub(a.idx, b.idx);
    AsIntSub(a.off, b.off);
  }

  /** The comparison is the lexicographic one exactly when the deciding difference survives the truncation to int. */
  lemma CmpIsLexicographicIff(a: Key, b: Key)
    requires Is32(a) && Is32(b)
    ensures Sign(Cmp(a, b)) == Sign(Rank(a) - Rank(b)) <==> -TWO31 <= Deciding(a, b) < TWO31
  {
    AsIntSub(a.idx, b.idx);
    AsIntSub(a.off, b.off);
    if a.idx != b.idx {
      assert Sign(Rank(a) - Rank(b)) == Sign(a.idx - b.idx);
    }
  }

  /** A strict order on all keys with idx < n and off < m. */
  ghost predicate Orders(n: nat, m: nat) {
    && (forall a: Key, b: Key :: a.idx < n && b.idx < n && a.off < m && b.off < m ==> (Cmp(a, b) < 0 <==> Cmp(b, a) > 0))
    && (forall a: Key, b: Key, c: Key ::
          a.idx < n && b.idx < n && c.idx < n && a.off < m && b.off < m && c.off < m && Cmp(a, b) < 0 && Cmp(b, c) < 0 ==>
          Cmp(a, c) < 0)
  }

  /** The comparison orders the keys of a torrent exactly when piece numbers and offsets stay below 2^31. */
  lemma OrdersIff(n: nat, m: nat)
    requires 0 < n <= TWO32 && 0 < m <= TWO32
    ensures Orders(n, m) <==> n <= TWO31 && m <= TWO31
  {
    if n <= TWO31 && m <= TWO31 {
      forall a: Key, b: Key | a.idx < n && b.idx < n && a.off < m && b.off < m
        ensures Sign(Cmp(a, b)) == Sign(Rank(a) - Rank(b))
      {
        CmpIsLexicographicIff(a, b);
      }
    } else {
      var k := if n > TWO31 then Key(TWO31, 0) else Key(0, TWO31);
      assert Cmp(Key(0, 0), k) < 0 && !(Cmp(k, Key(0, 0)) > 0);
    }
  }

  /** Beyond that, three keys can each come before the next, round in a circle. */
  lemma Circle()
    ensures var a, b, c := Key(0, 0), Key(0x6000_0000, 0), Key(0xC000_0000, 0);
      Cmp(a, b) < 0 && Cmp(b, c) < 0 && Cmp(c, a) < 0
  {}
}
