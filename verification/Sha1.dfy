/** Folding a function over the 64-octet blocks of a message, whatever the function is. */
module BlockFold {
  import opened Bytes

  type Block = s: seq<Byte> | |s| == 64 witness seq(64, _ => 0)

  function Fold<H>(f: (H, Block) -> H, h: H, m: seq<Byte>): H
    decreases |m|
  {
    if |m| < 64 then h else Fold(f, f(h, m[..64]), m[64..])
  }

  /** The fold can stop at any block boundary and resume. */
  lemma {:induction false} FoldAppend<H>(f: (H, Block) -> H, h: H, a: seq<Byte>, b: seq<Byte>)
    requires |a| % 64 == 0
    ensures Fold(f, h, a + b) == Fold(f, Fold(f, h, a), b)
    decreases |a|
  {
    if |a| < 64 {
      assert a + b == b;
    } else {
      assert (a + b)[..64] == a[..64];
      assert (a + b)[64..] == a[64..] + b;
      FoldAppend(f, f(h, a[..64]), a[64..], b);
    }
  }

  /** One more block at the end is one more application. */
  lemma FoldSnoc<H>(f: (H, Block) -> H, h: H, a: seq<Byte>, b: Block)
    requires |a| % 64 == 0
    ensures Fold(f, h, a + b) == f(Fold(f, h, a), b)
  {
    FoldAppend(f, h, a, b);
    assert b[..64] == b && b[64..] == [];
  }

  lemma Mod64(a: nat, b: nat)
    requires a % 64 == 0
    ensures (a + b) % 64 == b % 64
  {}

  /** A trailing part block does not enter the fold. */
  lemma FoldTail<H>(f: (H, Block) -> H, h: H, full: seq<Byte>, tail: seq<Byte>)
    requires |full| % 64 == 0 && |tail| < 64
    ensures |full + tail| % 64 == |tail| && (full + tail)[|full|..] == tail
    ensures Fold(f, h, full + tail) == Fold(f, h, full)
  {
    FoldAppend(f, h, full, tail);
    Mod64(|full|, |tail|);
  }
}

/** The hash function as FIPS 180-4 defines it: the reference against which the in-place code is proved. */
module Sha1Standard {
  import opened Bytes
  import opened BlockFold

  /** The five working variables, or the five words of an intermediate hash value. */
  datatype Regs = Regs(a: bv32, b: bv32, c: bv32, d: bv32, e: bv32)

  /** Section 5.3.1. */
  const INIT := Regs(0x67452301, 0xEFCDAB89, 0x98BADCFE, 0x10325476, 0xC3D2E1F0)

  /** Four octets as a word, the first one most significant. */
  function Pack(a: Byte, b: Byte, c: Byte, d: Byte): bv32 {
    ((a as bv32) << 24) | ((b as bv32) << 16) | ((c as bv32) << 8) | (d as bv32)
  }

  /** Word `t` of a block, most significant octet first (section 3.1). */
  function BigEndianWord(block: Block, t: nat): bv32
    requires t < 16
  {
    Pack(block[4*t], block[4*t+1], block[4*t+2], block[4*t+3])
  }

  /** The recurrence of the schedule: four earlier words give the next one. */
  function Expand(w3: bv32, w8: bv32, w14: bv32, w16: bv32): bv32 { (w3 ^ w8 ^ w14 ^ w16).RotateLeft(1) }

  /** The 80-word message schedule of section 6.1.2, step 1. */
  function Schedule(block: Block, t: nat): bv32 {
    if t < 16 then BigEndianWord(block, t)
    else Expand(Schedule(block, t-3), Schedule(block, t-8), Schedule(block, t-14), Schedule(block, t-16))
  }

  /** Section 4.1.1: Ch, Parity, Maj, Parity. */
  function F(t: nat, x: bv32, y: bv32, z: bv32): bv32 {
    if t < 20 then (x & y) ^ (!x & z)
    else if t < 40 then x ^ y ^ z
    else if t < 60 then (x & y) ^ (x & z) ^ (y & z)
    else x ^ y ^ z
  }

  /** Section 4.2.1. */
  function K(t: nat): bv32 {
    if t < 20 then 0x5A827999 else if t < 40 then 0x6ED9EBA1 else if t < 60 then 0x8F1BBCDC else 0xCA62C1D6
  }

  /** Addition modulo 2^32. */
  function Plus(x: bv32, y: bv32): bv32 { x + y }

  /** The temporary word T of a round. */
  function Temp(a: bv32, e: bv32, f: bv32, k: bv32, w: bv32): bv32 {
    Plus(Plus(Plus(Plus(e, f), w), k), a.RotateLeft(5))
  }

  /** The working variables after a round whose function value is `f` and whose constant is `k`. */
  function Turn(r: Regs, f: bv32, k: bv32, w: bv32): Regs {
    Regs(Temp(r.a, r.e, f, k, w), r.a, r.b.RotateLeft(30), r.c, r.d)
  }

  /** Section 6.1.2, step 3, for one value of `t`. */
  function Round(r: Regs, t: nat, w: bv32): Regs { Turn(r, F(t, r.b, r.c, r.d), K(t), w) }

  /** The working variables after rounds `0 .. n-1`. */
  function Rounds(h: Regs, block: Block, n: nat): Regs {
    if n == 0 then h else Round(Rounds(h, block, n-1), n-1, Schedule(block, n-1))
  }

  const ROUNDS: nat := 80

  /** Section 6.1.2: the intermediate hash value after one block. */
  function Compress(h: Regs, block: Block): Regs {
    var r := Rounds(h, block, ROUNDS);
    Regs(Plus(h.a, r.a), Plus(h.b, r.b), Plus(h.c, r.c), Plus(h.d, r.d), Plus(h.e, r.e))
  }

  /** The hash value after all the full blocks of `m`; a trailing part block is ignored. */
  function HashBlocks(m: seq<Byte>): Regs { Fold(Compress, INIT, m) }

  /** The number of zero octets that section 5.1.1 puts after the 1 bit's octet. */
  function ZeroCount(n: nat): nat { (119 - n % 64) % 64 }

  function Zeros(n: nat): (s: seq<Byte>)
    ensures |s| == n
  {
    seq(n, _ => 0)
  }

  /** The octet of weight 256^k in `x`. */
  function Digit(x: nat, k: nat): Byte {
    if k == 0 then (x % 256) as bv8 else Digit(x / 256, k - 1)
  }

  /** A 64-bit big-endian integer. */
  function Be64(x: nat): (s: seq<Byte>)
    ensures |s| == 8
  {
    seq(8, i requires 0 <= i < 8 => Digit(x, 7 - i))
  }

  /** The length in bits of `n` octets, as a 64-bit counter holds it. */
  function BitCount(n: nat): nat { 8 * n % 0x1_0000_0000_0000_0000 }

  /** Section 5.1.1: the 1 bit, zeros, and the length in bits as a 64-bit integer. */
  function Pad(m: seq<Byte>): seq<Byte> {
    m + [0x80] + Zeros(ZeroCount(|m|)) + Be64(BitCount(|m|))
  }

  /** The least significant octet of a word. */
  function WordByte(x: bv32): Byte { (x & 0xFF) as bv8 }

  function WordBytes(x: bv32): seq<Byte> {
    [WordByte(x >> 24), WordByte(x >> 16), WordByte(x >> 8), WordByte(x)]
  }

  /** The 20-octet message digest of an intermediate hash value. */
  function Digest(h: Regs): seq<Byte> {
    WordBytes(h.a) + WordBytes(h.b) + WordBytes(h.c) + WordBytes(h.d) + WordBytes(h.e)
  }

  /** SHA-1. */
  function Hash(m: seq<Byte>): seq<Byte> { Digest(HashBlocks(Pad(m))) }

  lemma LeastZeros(n: nat, k: nat)
    ensures (n + 1 + ZeroCount(n) + 8) % 64 == 0
    ensures (n + 1 + k + 8) % 64 == 0 ==> ZeroCount(n) <= k
  {
    var q, r := n / 64, n % 64;
    assert n == 64 * q + r;
    assert n + 1 + ZeroCount(n) + 8 == 64 * q + (r + 9 + (119 - r) % 64);
  }

  /** The padded message is a whole number of blocks, and the zero count is the least one that makes it so. */
  lemma PadIsMinimal(m: seq<Byte>, k: nat)
    ensures |Pad(m)| % 64 == 0
    ensures (|m| + 1 + k + 8) % 64 == 0 ==> ZeroCount(|m|) <= k
  {
    assert |Pad(m)| == |m| + 1 + ZeroCount(|m|) + 8;
    LeastZeros(|m|, k);
  }
}

/** A sixteen-place circular buffer that is overwritten in turn by the values of a recurrence. */
module Ring {

  /** The buffer before turn `i`, which started out holding `loads`. */
  ghost function Circular<T>(loads: nat -> T, words: nat -> T, i: nat): (l: seq<T>)
    ensures |l| == 16
  {
    if i == 0 then seq(16, t requires 0 <= t < 16 => loads(t))
    else Circular(loads, words, i - 1)[(i - 1) % 16 := words(i - 1)]
  }

  lemma Apart(t: nat, u: nat)
    requires t < u < t + 16
    ensures t % 16 != u % 16
  {}

  /** It holds the last sixteen words, and the loads that have not been reached yet. */
  lemma {:induction false} CircularAt<T>(loads: nat -> T, words: nat -> T, i: nat, t: nat)
    requires (i - 16 <= t < i) || (i <= t < 16)
    ensures Circular(loads, words, i)[t % 16] == if t < i then words(t) else loads(t)
    decreases i
  {
    if t < i - 1 {
      Apart(t, i - 1);
      CircularAt(loads, words, i - 1, t);
    } else if 0 < i <= t {
      Apart(i - 1, t);
      CircularAt(loads, words, i - 1, t);
    }
  }

  /** Indices masked to four bits reach back 3, 8, 14 and 16 places. */
  lemma MaskedIndices(i: nat)
    requires 16 <= i
    ensures (i - 3) % 16 == (i + 13) % 16 && (i - 14) % 16 == (i + 2) % 16
    ensures (i - 8) % 16 == (i + 8) % 16 && (i - 16) % 16 == i % 16
  {}
}

/** SHA-1 as the program computes it: a 16-word circular schedule, rotating register names and a streaming context. */
module Sha1 {
  import opened Sequences
  import opened Bytes
  import opened BlockFold
  import opened Ring
  import opened Sha1Standard

  /** A block word as a little-endian machine loads it from the octets. */
  function LittleEndianWord(block: Block, t: nat): bv32
    requires t < 16
  {
    Pack(block[4*t+3], block[4*t+2], block[4*t+1], block[4*t])
  }

  /** The byte swap inside the `blk0` macro. */
  function Swap(x: bv32): bv32 { (x.RotateLeft(24) & 0xFF00FF00) | (x.RotateLeft(8) & 0x00FF00FF) }

  /** The mixing functions as the R0 to R4 macros write them. */
  function Mix(i: nat, w: bv32, x: bv32, y: bv32): bv32 {
    if i < 20 then (w & (x ^ y)) ^ y
    else if i < 40 then w ^ x ^ y
    else if i < 60 then ((w | x) & y) | (w & x)
    else w ^ x ^ y
  }

  /** The rewritten Ch and Maj agree with section 4.1.1. */
  lemma MixIsF(i: nat, w: bv32, x: bv32, y: bv32)
    ensures Mix(i, w, x, y) == F(i, w, x, y)
  {
    ChRewritten(w, x, y);
    MajRewritten(w, x, y);
  }

  lemma ChRewritten(w: bv32, x: bv32, y: bv32)
    ensures (w & (x ^ y)) ^ y == (w & x) ^ (!w & y)
  {}

  lemma MajRewritten(w: bv32, x: bv32, y: bv32)
    ensures ((w | x) & y) | (w & x) == (w & x) ^ (w & y) ^ (x & y)
  {}

  lemma SwapBytes(a: Byte, b: Byte, c: Byte, d: Byte)
    ensures Swap(Pack(d, c, b, a)) == Pack(a, b, c, d)
  {}

  /** Swapping a little-endian load gives the big-endian word of the standard. */
  lemma SwapIsBigEndian(block: Block, t: nat)
    requires t < 16
    ensures Swap(LittleEndianWord(block, t)) == BigEndianWord(block, t)
  {
    SwapBytes(block[4*t], block[4*t+1], block[4*t+2], block[4*t+3]);
  }

  ghost function Loads(block: Block): nat -> bv32 {
    (t: nat) => if t < 16 then LittleEndianWord(block, t) else 0
  }

  ghost function Words(block: Block): nat -> bv32 { (t: nat) => Schedule(block, t) }

  /** The program's buffer before round `i`. */
  ghost function Buffer(block: Block, i: nat): (l: seq<bv32>)
    ensures |l| == 16
  {
    Circular(Loads(block), Words(block), i)
  }

  /** The two register assignments of a macro: with the names rotated they are one round. */
  method AddUp(v: bv32, w: bv32, x: bv32, y: bv32, z: bv32, mix: bv32, k: bv32, word: bv32)
    returns (z': bv32, w': bv32)
    ensures Regs(z', v, w', x, y) == Turn(Regs(v, w, x, y, z), mix, k, word)
  {
    z' := Temp(v, z, mix, k, word);
    w' := w.RotateLeft(30);
  }

  /** The `blk0` macro yields the schedule word of an early round. */
  lemma LoadedWord(block: Block, i: nat)
    requires i < 16
    ensures Swap(Buffer(block, i)[i]) == Schedule(block, i)
  {
    hide Swap, Pack, Circular;
    CircularAt(Loads(block), Words(block), i, i);
    SwapIsBigEndian(block, i);
  }

  /** The `blk` macro yields the schedule word of a later round. */
  lemma ExpandedWord(block: Block, i: nat)
    requires 16 <= i
    ensures var l := Buffer(block, i);
      Expand(l[(i + 13) % 16], l[(i + 8) % 16], l[(i + 2) % 16], l[i % 16]) == Schedule(block, i)
  {
    hide Expand, Pack, Circular;
    MaskedIndices(i);
    CircularAt(Loads(block), Words(block), i, i - 3);
    CircularAt(Loads(block), Words(block), i, i - 8);
    CircularAt(Loads(block), Words(block), i, i - 14);
    CircularAt(Loads(block), Words(block), i, i - 16);
  }

  /** The word that a macro's `blk0` or `blk` computes and stores is the schedule word of its round. */
  method NextWord(l: array<bv32>, i: nat, ghost block: Block) returns (word: bv32)
    requires l.Length == 16 && l[..] == Buffer(block, i)
    modifies l
    ensures word == Schedule(block, i) && l[..] == Buffer(block, i + 1)
  {
    ghost var was := l[..];
    if i < 16 {
      LoadedWord(block, i);
      word := Swap(l[i]);
    } else {
      ExpandedWord(block, i);
      word := Expand(l[(i + 13) % 16], l[(i + 8) % 16], l[(i + 2) % 16], l[i % 16]);
    }
    l[i % 16] := word;
    assert l[..] == was[i % 16 := word];
  }

  /** One R0 .. R4 macro: registers `w` and `z` and one word of the buffer change. */
  method Step(l: array<bv32>, i: nat, v: bv32, w: bv32, x: bv32, y: bv32, z: bv32, ghost block: Block, ghost h: Regs)
    returns (w': bv32, z': bv32)
    requires l.Length == 16 && l[..] == Buffer(block, i)
    requires Regs(v, w, x, y, z) == Rounds(h, block, i)
    modifies l
    ensures l[..] == Buffer(block, i + 1)
    ensures Regs(z', v, w', x, y) == Rounds(h, block, i + 1)
  {
    var word := NextWord(l, i, block);
    MixIsF(i, w, x, y);
    z', w' := AddUp(v, w, x, y, z, Mix(i, w, x, y), K(i), word);
  }

  /** Hash a single block. The eighty macro calls form sixteen groups that rotate the five names once. */
  method Transform(h: Regs, block: Block) returns (h': Regs)
    ensures h' == Compress(h, block)
  {
    var l := new bv32[16](t requires 0 <= t < 16 => LittleEndianWord(block, t));
    assert l[..] == Buffer(block, 0);
    var a, b, c, d, e := h.a, h.b, h.c, h.d, h.e;
    for group := 0 to 16
      invariant l[..] == Buffer(block, 5 * group)
      invariant Regs(a, b, c, d, e) == Rounds(h, block, 5 * group)
    {
      var i := 5 * group;
      b, e := Step(l, i, a, b, c, d, e, block, h);
      a, d := Step(l, i + 1, e, a, b, c, d, block, h);
      e, c := Step(l, i + 2, d, e, a, b, c, block, h);
      d, b := Step(l, i + 3, c, d, e, a, b, block, h);
      c, a := Step(l, i + 4, b, c, d, e, a, block, h);
    }
    h' := Regs(Plus(h.a, a), Plus(h.b, b), Plus(h.c, c), Plus(h.d, d), Plus(h.e, e));
  }

  /** `SHA1_CTX`: the octets fed so far are the ghost field `message`. */
  class Context {
    var count: nat
    var state: Regs
    const buffer: array<Byte>
    ghost var message: seq<Byte>

    ghost predicate Sized()
    {
      buffer.Length == 64
    }

    /** The context is the fold of the compression function over the full blocks, plus the buffered tail. */
    ghost predicate Valid()
      reads this, buffer
    {
      && Sized()
      && count == BitCount(|message|)
      && state == HashBlocks(message)
      && buffer[..|message| % 64] == message[|message| - |message| % 64..]
    }

    constructor ()
      ensures Valid() && message == [] && fresh(buffer)
    {
      count := 0;
      state := INIT;
      buffer := new Byte[64];
      message := [];
    }

    /** memcpy into the block buffer. */
    method Fill(j: nat, data: seq<Byte>)
      requires Sized() && j + |data| <= 64
      modifies buffer
      ensures buffer[..j + |data|] == old(buffer[..j]) + data
    {
      for k := 0 to |data|
        invariant buffer[..j + k] == old(buffer[..j]) + data[..k]
      {
        buffer[j + k] := data[k];
        assert buffer[..j + k + 1] == buffer[..j + k] + [data[k]];
      }
    }

    /** Complete the buffered block with the head of `data`, then hash the full blocks that follow. */
    method Absorb(j: nat, data: seq<Byte>, ghost full: seq<Byte>) returns (i: nat)
      requires Sized() && j < 64 <= j + |data|
      requires |full| % 64 == 0 && state == HashBlocks(full)
      modifies `state, buffer
      ensures i <= |data| < i + 64 && |full + old(buffer[..j]) + data[..i]| % 64 == 0
      ensures state == HashBlocks(full + old(buffer[..j]) + data[..i])
    {
      hide Compress;
      ghost var start := full + buffer[..j];
      i := 64 - j;
      FirstBlock(full, buffer[..j], data[..i]);
      ghost var tail := buffer[..j];
      Fill(j, data[..i]);
      assert buffer[..] == buffer[..64] == tail + data[..i];
      state := Transform(state, buffer[..]);
      while i + 63 < |data|
        invariant 0 <= i <= |data| && |start + data[..i]| % 64 == 0
        invariant state == HashBlocks(start + data[..i])
      {
        NextBlock(start, data, i);
        state := Transform(state, data[i..i+64]);
        i := i + 64;
      }
    }

    /** Where the next octet goes in the buffer: exact, although the bit counter wraps. */
    method Position(ghost n: nat) returns (j: nat)
      requires count == BitCount(n)
      ensures j == n % 64
    {
      j := count / 8 % 64;
      BufferedLength(n);
    }

    /** Add `len` octets to the bit counter; `j` is the buffer position before that. */
    method Tally(len: nat, ghost n: nat) returns (j: nat)
      requires count == BitCount(n)
      modifies `count
      ensures count == BitCount(n + len)
      ensures j == n % 64 && (n - j) % 64 == 0
    {
      j := Position(n);
      BlockBoundary(n);
      CountAdds(n, len);
      count := (count + 8 * len) % 0x1_0000_0000_0000_0000;
    }

    /** Feed data: every split of a message into calls leaves the same context. */
    method Update(data: seq<Byte>)
      requires Valid()
      modifies this, buffer
      ensures Valid() && message == old(message) + data
    {
      hide Compress, BitCount, HashBlocks;
      var len := |data|;
      var j := Tally(len, |message|);
      ghost var full, tail := message[..|message| - j], message[|message| - j..];
      Settled(full, tail, message);
      ghost var m := message;
      assert m == full + tail && buffer[..j] == tail;
      message := message + data;
      if j + len > 63 {
        var i := Absorb(j, data, full);
        Absorbed(full, tail, data, i);
        Fill(0, data[i..]);
      } else {
        assert full + (tail + data) == m + data;
        Settled(full, tail + data, message);
        Fill(j, data);
      }
    }

    /** The eight octets of the bit count, shifted out one by one. */
    method CountOctets() returns (finalcount: seq<Byte>)
      ensures finalcount == Be64(count)
    {
      finalcount := [];
      for i := 0 to 8
        invariant finalcount == Be64(count)[..i]
      {
        ShiftedDigit(count, 7 - i);
        finalcount := finalcount + [(Shr(count, (7 - i % 8) * 8) % 256) as bv8];
      }
    }

    /** The twenty octets of the hash value, shifted out of its words one by one. */
    method DigestOctets() returns (digest: seq<Byte>)
      ensures digest == Digest(state)
    {
      hide Digest, ShiftOut, Word;
      digest := [];
      DigestLength(state);
      for i := 0 to 20
        invariant digest == Digest(state)[..i]
      {
        DigestAt(state, i);
        digest := digest + [ShiftOut(Word(state, i / 4), i % 4)];
      }
    }

    /** Padding: the loop stops, and what was fed is the padded message of section 5.1.1. */
    method Pad()
      requires Valid()
      modifies this, buffer
      ensures Valid() && message == Sha1Standard.Pad(old(message))
    {
      hide Compress, BitCount, ZeroCount, Be64;
      ghost var m := message;
      var finalcount := CountOctets();
      Update([0x80]);
      ghost var k := 0;
      var j := Position(|message|);
      while j != 56
        invariant Valid() && j == |message| % 64
        invariant k <= ZeroCount(|m|) && message == m + [0x80] + Zeros(k)
        decreases ZeroCount(|m|) - k
      {
        ZerosDone(|m|, k, |message|);
        Update([0]);
        k := k + 1;
        j := Position(|message|);
      }
      ZerosDone(|m|, k, |message|);
      Update(finalcount);
    }

    /** Pad and return the digest, then wipe the context. */
    method Final() returns (digest: seq<Byte>)
      requires Valid()
      modifies this, buffer
      ensures digest == Hash(old(message))
    {
      Pad();
      digest := DigestOctets();
      count, state := 0, Regs(0, 0, 0, 0, 0);
      forall k | 0 <= k < 64 { buffer[k] := 0; }
    }
  }

  /** `x >> n` on an unsigned integer. */
  function Shr(x: nat, n: nat): nat { if n == 0 then x else Shr(x, n - 1) / 2 }

  lemma Halve(x: nat, d: nat)
    requires d > 0
    ensures x / d / 2 == x / (2 * d)
  {
    var q := x / d;
    assert x == q * d + x % d;
    assert q == 2 * (q / 2) + q % 2;
    DivModUnique(x, 2 * d, q / 2, q % 2 * d + x % d);
  }

  /** Shifting by eight is dividing by 256. */
  lemma ShrOctet(x: nat, n: nat)
    ensures Shr(x, n + 8) == Shr(x, n) / 256
  {
    var y := Shr(x, n);
    assert Shr(x, n + 2) == y / 2 / 2 && Shr(x, n + 4) == Shr(x, n + 2) / 2 / 2;
    assert Shr(x, n + 6) == Shr(x, n + 4) / 2 / 2 && Shr(x, n + 8) == Shr(x, n + 6) / 2 / 2;
    Halve(y, 2); Halve(y, 4); Halve(y, 8); Halve(y, 16); Halve(y, 32); Halve(y, 64); Halve(y, 128);
  }

  lemma {:induction false} ShrTail(x: nat, k: nat)
    ensures Shr(x, 8 * k + 8) == Shr(x / 256, 8 * k)
    decreases k
  {
    ShrOctet(x, 8 * k);
    if k > 0 {
      ShrTail(x, k - 1);
      ShrOctet(x / 256, 8 * (k - 1));
    }
  }

  /** The octet that a shift by 8k brings down is the digit of weight 256^k. */
  lemma {:induction false} ShiftedDigit(x: nat, k: nat)
    ensures (Shr(x, 8 * k) % 256) as bv8 == Digit(x, k)
    decreases k
  {
    if k > 0 {
      ShrTail(x, k - 1);
      ShiftedDigit(x / 256, k - 1);
    }
  }

  /** `state[i]` of the five words. */
  function Word(h: Regs, i: nat): bv32
    requires i < 5
  {
    if i == 0 then h.a else if i == 1 then h.b else if i == 2 then h.c else if i == 3 then h.d else h.e
  }

  /** `x >> 8 * k`. */
  function ShrOctets(x: bv32, k: nat): bv32 { if k == 0 then x else Down(ShrOctets(x, k - 1)) }

  function Down(x: bv32): bv32 { x >> 8 }

  /** Octet `j` of a word, the most significant one first. */
  function ShiftOut(x: bv32, j: nat): Byte
    requires j < 4
  {
    WordByte(ShrOctets(x, 3 - j))
  }

  lemma DigestLength(h: Regs)
    ensures |Digest(h)| == 20
  {}

  lemma DigestAt(h: Regs, i: nat)
    requires i < 20
    ensures |Digest(h)| == 20 && Digest(h)[i] == ShiftOut(Word(h, i / 4), i % 4)
  {
    DigestLength(h);
    WordLength(h.a); WordLength(h.b); WordLength(h.c); WordLength(h.d); WordLength(h.e);
    hide WordBytes, ShiftOut;
    ShiftedOut(Word(h, i / 4), i % 4);
    FiveFours(WordBytes(h.a), WordBytes(h.b), WordBytes(h.c), WordBytes(h.d), WordBytes(h.e), i);
  }

  lemma WordLength(x: bv32)
    ensures |WordBytes(x)| == 4
  {}

  lemma FiveFours<T>(a: seq<T>, b: seq<T>, c: seq<T>, d: seq<T>, e: seq<T>, i: nat)
    requires |a| == |b| == |c| == |d| == |e| == 4 && i < 20
    ensures (a + b + c + d + e)[i] == (if i < 4 then a else if i < 8 then b else if i < 12 then c else if i < 16 then d else e)[i % 4]
  {}

  lemma ShiftTwice(x: bv32)
    ensures Down(x) == x >> 8 && Down(Down(x)) == x >> 16 && Down(Down(Down(x))) == x >> 24
  {}

  lemma ShrUnfold(x: bv32)
    ensures ShrOctets(x, 0) == x && ShrOctets(x, 1) == Down(x)
    ensures ShrOctets(x, 2) == Down(Down(x)) && ShrOctets(x, 3) == Down(Down(Down(x)))
  {
    hide Down;
  }

  lemma WordShifts(x: bv32)
    ensures WordBytes(x)
         == [WordByte(ShrOctets(x, 3)), WordByte(ShrOctets(x, 2)), WordByte(ShrOctets(x, 1)), WordByte(ShrOctets(x, 0))]
  {
    hide WordByte, ShrOctets, Down;
    ShrUnfold(x);
    ShiftTwice(x);
  }

  lemma ShiftedOut(x: bv32, j: nat)
    requires j < 4
    ensures |WordBytes(x)| == 4 && WordBytes(x)[j] == ShiftOut(x, j)
  {
    hide WordByte, WordBytes, ShrOctets;
    WordShifts(x);
  }

  /** Splitting off the part block at the end of a message. */
  lemma Settled(full: seq<Byte>, tail: seq<Byte>, m: seq<Byte>)
    requires |full| % 64 == 0 && |tail| < 64 && m == full + tail
    ensures |m| % 64 == |tail| && m[|m| - |m| % 64..] == tail
    ensures HashBlocks(m) == HashBlocks(full)
  {
    FoldTail(Compress, INIT, full, tail);
  }

  /** After the block loop of an update, what is left of the data is the part block. */
  lemma Absorbed(full: seq<Byte>, tail: seq<Byte>, data: seq<Byte>, i: nat)
    requires i <= |data| < i + 64 && |full + tail + data[..i]| % 64 == 0
    ensures var m := full + tail + data;
      && |m| % 64 == |data| - i && m[|m| - |m| % 64..] == data[i..]
      && HashBlocks(m) == HashBlocks(full + tail + data[..i])
  {
    hide HashBlocks;
    assert full + tail + data == (full + tail + data[..i]) + data[i..];
    Settled(full + tail + data[..i], data[i..], full + tail + data);
  }

  /** Hashing the next whole block of `data`, on top of the octets `start`. */
  lemma NextBlock(start: seq<Byte>, data: seq<Byte>, i: nat)
    requires i + 64 <= |data| && |start + data[..i]| % 64 == 0
    ensures |start + data[..i+64]| % 64 == 0
    ensures HashBlocks(start + data[..i+64]) == Compress(HashBlocks(start + data[..i]), data[i..i+64])
  {
    assert start + data[..i] + data[i..i+64] == start + data[..i+64];
    FoldSnoc(Compress, INIT, start + data[..i], data[i..i+64]);
    Mod64(|start + data[..i]|, 64);
  }

  /** Hashing the block made of a buffered tail and the head of `data`. */
  lemma FirstBlock(full: seq<Byte>, tail: seq<Byte>, head: seq<Byte>)
    requires |full| % 64 == 0 && |tail + head| == 64
    ensures |full + tail + head| % 64 == 0
    ensures HashBlocks(full + tail + head) == Compress(HashBlocks(full), tail + head)
  {
    assert full + (tail + head) == full + tail + head;
    FoldSnoc(Compress, INIT, full, tail + head);
    Mod64(|full|, 64);
  }

  lemma BlockBoundary(n: nat)
    ensures (n - n % 64) % 64 == 0 && (n + (64 - n % 64)) % 64 == 0
  {
    Mod64(n - n % 64, 64);
  }

  /** The padding loop's exit test holds exactly after the required number of zeros. */
  lemma ZerosDone(n: nat, k: nat, total: nat)
    requires k <= ZeroCount(n) && total == n + 1 + k
    ensures total % 64 == 56 <==> k == ZeroCount(n)
  {
    var q, r := n / 64, n % 64;
    assert n == 64 * q + r;
    assert total % 64 == (r + 1 + k) % 64;
  }

  lemma DivModUnique(x: int, d: int, q: int, r: int)
    requires x == q * d + r && 0 <= r < d
    ensures x / d == q && x % d == r
  {
    var k := x / d - q;
    assert x == (x / d) * d + x % d;
    assert k * d == r - x % d;
    assert k >= 1 ==> k * d >= d;
    assert k <= -1 ==> k * d <= -d;
  }

  const LIMIT := 0x1_0000_0000_0000_0000

  /** The bit counter wraps at 2^64, but the buffer position it yields is exact. */
  lemma BufferedLength(n: nat)
    ensures BitCount(n) / 8 % 64 == n % 64
  {
    var m := LIMIT / 8;
    var q, r := n / m, n % m;
    DivModUnique(8 * n, LIMIT, q, 8 * r);
    assert BitCount(n) / 8 == r;
    DivModUnique(n, 64, q * (m / 64) + r / 64, r % 64);
  }

  lemma CountAdds(n: nat, len: nat)
    ensures (BitCount(n) + 8 * len) % LIMIT == BitCount(n + len)
  {
    var q, x := 8 * n / LIMIT, BitCount(n) + 8 * len;
    DivModUnique(8 * (n + len), LIMIT, q + x / LIMIT, x % LIMIT);
  }

  /** Any division of a message into `Update` calls yields the standard's digest. */
  method HashChunks(chunks: seq<seq<Byte>>) returns (digest: seq<Byte>)
    ensures digest == Hash(Concat(chunks))
  {
    var ctx := new Context();
    for i := 0 to |chunks|
      invariant ctx.Valid() && fresh(ctx) && fresh(ctx.buffer)
      invariant ctx.message == Concat(chunks[..i])
    {
      ctx.Update(chunks[i]);
      ConcatSnoc(chunks[..i], chunks[i]);
      assert chunks[..i+1] == chunks[..i] + [chunks[i]];
    }
    assert chunks[..|chunks|] == chunks;
    digest := ctx.Final();
  }

  lemma {:induction false} ConcatSnoc(chunks: seq<seq<Byte>>, last: seq<Byte>)
    ensures Concat(chunks + [last]) == Concat(chunks) + last
  {
    if chunks == [] {
      assert Concat([last]) == last;
    } else {
      assert (chunks + [last])[1..] == chunks[1..] + [last];
      ConcatSnoc(chunks[1..], last);
    }
  }
}
