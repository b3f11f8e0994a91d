/** Bit sets of pieces (util_setbit, util_getbit, torrent_bitfield_get) and the fast-resume file made of one. */
module Bits {
  import opened Bytes

  /** The mask of bit `i` in its octet: the first bit is the most significant one. */
  function Mask(i: nat): Byte { 1 << (7 - i % 8) }

  predicate Has(x: Byte, i: nat) { x & Mask(i) != 0 }

  /** util_getbit. */
  predicate GetBit(bits: seq<Byte>, i: nat)
    requires i < 8 * |bits|
  {
    Has(bits[i / 8], i)
  }

  /** The octets needed for `n` bits. */
  function Octets(n: nat): nat { (n + 7) / 8 }

  lemma MaskIs(i: nat)
    ensures Mask(i) == match i % 8 case 0 => 128 case 1 => 64 case 2 => 32 case 3 => 16 case 4 => 8 case 5 => 4 case 6 => 2 case _ => 1
  {}

  /** Setting a bit sets that bit and no other. */
  lemma MaskOr(x: Byte, i: nat, j: nat)
    ensures Has(x | Mask(i), j) <==> Has(x, j) || i % 8 == j % 8
  {
    hide Mask;
    MaskIs(i);
    MaskIs(j);
    var a, b := Mask(i), Mask(j);
    assert (x | a) & b == (x & b) | (a & b);
    assert a & b == if i % 8 == j % 8 then a else 0;
    assert (x & b) | (a & b) != 0 <==> (x & b) != 0 || (a & b) != 0;
  }

  lemma SamePlace(i: nat, j: nat)
    ensures i == j <==> i / 8 == j / 8 && i % 8 == j % 8
  {}

  /** util_setbit. */
  method SetBit(bits: array<Byte>, bit: nat)
    requires bit < 8 * bits.Length
    modifies bits
    ensures forall j :: 0 <= j < 8 * bits.Length ==> (GetBit(bits[..], j) <==> j == bit || GetBit(old(bits[..]), j))
  {
    hide Mask, GetBit;
    var byte := bit / 8;
    ghost var was := bits[..];
    bits[byte] := bits[byte] | Mask(bit);
    assert bits[..] == was[byte := was[byte] | Mask(bit)];
    forall j | 0 <= j < 8 * bits.Length ensures GetBit(bits[..], j) <==> j == bit || GetBit(was, j) {
      SetOne(was, bit, j);
    }
  }

  lemma SetOne(bits: seq<Byte>, i: nat, j: nat)
    requires i < 8 * |bits| && j < 8 * |bits|
    ensures GetBit(bits[i / 8 := bits[i / 8] | Mask(i)], j) <==> j == i || GetBit(bits, j)
  {
    hide Mask, Has;
    MaskOr(bits[i / 8], i, j);
    SamePlace(i, j);
  }
}

module Resume {
  import opened Bytes
  import opened Bits
  import opened Torrents
  import Session

  /** The octets are the bit set of `ok`, and the spare bits at the end are zero. */
  ghost predicate IsBitfield(bits: seq<Byte>, ok: seq<bool>) {
    && |bits| == Octets(|ok|)
    && forall i :: 0 <= i < 8 * |bits| ==> (GetBit(bits, i) <==> i < |ok| && ok[i])
  }

  /** torrent_bitfield_get, which is also what torrent_fastresume_dump writes. */
  method BitfieldGet(ok: seq<bool>) returns (bits: array<Byte>)
    ensures fresh(bits) && IsBitfield(bits[..], ok)
  {
    bits := new Byte[Octets(|ok|)](_ => 0);
    forall j | 0 <= j < 8 * bits.Length ensures !GetBit(bits[..], j) { ZeroHas(j); }
    var i := 0;
    while i < |ok|
      invariant i <= |ok| && fresh(bits)
      invariant forall j :: 0 <= j < 8 * bits.Length ==> (GetBit(bits[..], j) <==> j < i && ok[j])
    {
      if ok[i] {
        SetBit(bits, i);
      }
      i := i + 1;
    }
  }

  lemma ZeroHas(j: nat)
    ensures !Has(0, j)
  {
    hide Mask;
    assert 0 & Mask(j) == 0;
  }

  /** The buffer after the file was read into zeroed memory: a short file leaves zeros, a long one is cut. */
  function Buffer(file: seq<Byte>, n: nat): (r: seq<Byte>)
    ensures |r| == n
  {
    if |file| >= n then file[..n] else file + seq(n - |file|, _ => 0)
  }

  /** A piece whose bit lies beyond the end of a short file is not marked; what a long file has too much is ignored. */
  lemma BufferBits(file: seq<Byte>, n: nat, i: nat)
    requires i < 8 * n
    ensures GetBit(Buffer(file, n), i) <==> i < 8 * |file| && GetBit(file, i)
  {
    hide Has;
    ZeroHas(i);
    assert i < 8 * |file| ==> Buffer(file, n)[i / 8] == file[i / 8];
  }

  /** The flags in a buffer. */
  ghost function Flags(bits: seq<Byte>, n: nat): (ok: seq<bool>)
    requires n <= 8 * |bits|
    ensures |ok| == n && forall i :: 0 <= i < n ==> (ok[i] <==> GetBit(bits, i))
  {
    seq(n, i requires 0 <= i < n => GetBit(bits, i))
  }

  /** The counters and flags of a torrent in memory. */
  class Progress {
    const t: Torrent
    var ok: seq<bool>
    var good: nat
    var downloaded: nat

    constructor (t: Torrent)
      ensures this.t == t && ok == seq(t.numPieces, _ => false) && good == 0 && downloaded == 0
    {
      this.t := t;
      ok, good, downloaded := seq(t.numPieces, _ => false), 0, 0;
    }

    /** torrent_fastresume_load of a file with this content. */
    method Load(file: seq<Byte>)
      requires |ok| == t.numPieces
      modifies this`ok, this`good, this`downloaded
      ensures |ok| == t.numPieces
      ensures var flags := Flags(Buffer(file, Octets(t.numPieces)), t.numPieces);
        && (forall i :: 0 <= i < t.numPieces ==> ok[i] == (old(ok)[i] || flags[i]))
        && good == old(good) + Session.Count(flags)
        && downloaded == old(downloaded) + Session.VerifiedLength(t, flags, t.numPieces)
    {
      hide GetBit, Session.Count, Length;
      var bits := Buffer(file, Octets(t.numPieces));
      assert t.numPieces <= 8 * |bits|;
      CountNone();
      ghost var flags := Flags(bits, t.numPieces);
      var i := 0;
      while i < t.numPieces
        invariant i <= t.numPieces == |ok|
        invariant forall j :: 0 <= j < t.numPieces ==> ok[j] == (old(ok)[j] || (j < i && flags[j]))
        invariant good == old(good) + Session.Count(flags[..i])
        invariant downloaded == old(downloaded) + Session.VerifiedLength(t, flags, i)
      {
        CountNext(flags, i);
        if GetBit(bits, i) {
          ok := ok[i := true];
          good := good + 1;
          downloaded := downloaded + Length(t, i);
        }
        i := i + 1;
      }
      assert flags[..i] == flags;
    }

    /** torrent_fastresume_dump. */
    method Dump() returns (file: seq<Byte>)
      ensures IsBitfield(file, ok)
    {
      var bits := BitfieldGet(ok);
      file := bits[..];
    }
  }

  lemma CountNone()
    ensures Session.Count([]) == 0
  {}

  lemma {:induction false} CountNext(ok: seq<bool>, i: nat)
    requires i < |ok|
    ensures Session.Count(ok[..i + 1]) == Session.Count(ok[..i]) + (if ok[i] then 1 else 0)
    decreases i
  {
    if i > 0 {
      CountNext(ok[1..], i - 1);
      assert ok[..i + 1][1..] == ok[1..][..i] && ok[..i][1..] == ok[1..][..i - 1];
    }
  }

  /** Dumping and loading into a fresh copy of the torrent restores the verified set, its size and its total length. */
  method Restart(p: Progress) returns (q: Progress)
    requires |p.ok| == p.t.numPieces
    ensures fresh(q) && q.t == p.t && q.ok == p.ok
    ensures q.good == Session.Count(p.ok) && q.downloaded == Session.VerifiedLength(p.t, p.ok, p.t.numPieces)
  {
    var file := p.Dump();
    q := new Progress(p.t);
    q.Load(file);
    Restored(file, p.ok);
  }

  /** The file that a dump writes reads back as the flags it was made from. */
  lemma Restored(file: seq<Byte>, ok: seq<bool>)
    requires IsBitfield(file, ok)
    ensures Flags(Buffer(file, Octets(|ok|)), |ok|) == ok
  {
    assert file[..|file|] == file;
  }
}
