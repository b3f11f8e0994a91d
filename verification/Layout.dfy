/** How a torrent's pieces lie in its files: torrent_pieces_create and torrent_piece_map. */
module Layout {

  /** A mapping of `len` octets of file number `file` from offset `off`. */
  datatype Segment = Segment(file: nat, off: nat, len: nat)

  /** Where file `k` begins in the concatenation of all files. */
  function Start(files: seq<nat>, k: nat): nat
    requires k <= |files|
  {
    if k == 0 then 0 else Start(files, k - 1) + files[k - 1]
  }

  function Total(files: seq<nat>): nat { Start(files, |files|) }

  /** The segments, in order, are exactly the octets `lo .. hi-1` of the concatenated files. */
  ghost predicate Covers(files: seq<nat>, segs: seq<Segment>, lo: nat, hi: nat)
    decreases |segs|
  {
    if segs == [] then lo == hi
    else
      var s := segs[0];
      && s.file < |files| && s.off + s.len <= files[s.file] && 0 < s.len
      && Start(files, s.file) + s.off == lo
      && Covers(files, segs[1..], lo + s.len, hi)
  }

  lemma {:induction false} StartMonotonic(files: seq<nat>, j: nat, k: nat)
    requires j <= k <= |files|
    ensures Start(files, j) <= Start(files, k)
    decreases k
  {
    if j < k { StartMonotonic(files, j, k - 1); }
  }

  // ---------- Piece lengths ----------

  const WRAP := 0x1_0000_0000

  /** The length that torrent_pieces_create stores for piece `i`. In a multi-file torrent the offset of the last
      piece is a product that wraps at 32 bits; either way the result is truncated to 32 bits. */
  function PieceLength(multi: bool, total: nat, pieceLength: nat, numPieces: nat, i: nat): nat
    requires i < numPieces
  {
    if i != numPieces - 1 then pieceLength
    else if multi then (total - (numPieces - 1) * pieceLength % WRAP) % WRAP
    else (total - pieceLength * i) % WRAP
  }

  /** The number of hashes in a consistent torrent: the total length in pieces, rounded up. */
  ghost predicate Consistent(total: nat, pieceLength: nat, numPieces: nat) {
    && 0 < pieceLength < WRAP && 0 < numPieces < WRAP
    && (numPieces - 1) * pieceLength < total <= numPieces * pieceLength
  }

  lemma WrapCancels(total: nat, whole: nat)
    requires whole < total < whole + WRAP
    ensures (total - whole % WRAP) % WRAP == total - whole
    ensures (total - whole) % WRAP == total - whole
  {
    var q := whole / WRAP;
    assert total - whole % WRAP == q * WRAP + (total - whole);
    MultipleDrops(q, total - whole);
  }

  lemma MultipleDrops(q: nat, r: nat)
    requires r < WRAP
    ensures (q * WRAP + r) % WRAP == r
  {}

  /** The last piece is what remains, for totals of any size, in spite of the 32-bit product. */
  lemma LastPieceLength(multi: bool, total: nat, pieceLength: nat, numPieces: nat)
    requires Consistent(total, pieceLength, numPieces)
    ensures PieceLength(multi, total, pieceLength, numPieces, numPieces - 1) == total - (numPieces - 1) * pieceLength
  {
    var whole := (numPieces - 1) * pieceLength;
    assert numPieces * pieceLength == whole + pieceLength;
    WrapCancels(total, whole);
  }

  function SumTo(lens: seq<nat>, n: nat): nat
    requires n <= |lens|
  {
    if n == 0 then 0 else SumTo(lens, n - 1) + lens[n - 1]
  }

  /** Fill in the piece descriptors: the lengths are positive and add up to the size of the torrent. */
  method PiecesCreate(multi: bool, total: nat, pieceLength: nat, numPieces: nat) returns (lens: seq<nat>)
    ensures |lens| == numPieces
    ensures forall i :: 0 <= i < numPieces ==> lens[i] == PieceLength(multi, total, pieceLength, numPieces, i)
    ensures Consistent(total, pieceLength, numPieces) ==> SumTo(lens, numPieces) == total
    ensures Consistent(total, pieceLength, numPieces) ==> forall i :: 0 <= i < numPieces ==> 0 < lens[i] <= pieceLength
  {
    lens := [];
    for i := 0 to numPieces
      invariant |lens| == i
      invariant forall j :: 0 <= j < i ==> lens[j] == PieceLength(multi, total, pieceLength, numPieces, j)
    {
      var off := pieceLength * i;
      var len;
      if !multi {
        if i == numPieces - 1 { len := (total - off) % WRAP; } else { len := pieceLength; }
      } else {
        if i == numPieces - 1 { len := (total - (numPieces - 1) * pieceLength % WRAP) % WRAP; } else { len := pieceLength; }
      }
      lens := lens + [len];
    }
    if Consistent(total, pieceLength, numPieces) {
      LastPieceLength(multi, total, pieceLength, numPieces);
      assert numPieces * pieceLength == (numPieces - 1) * pieceLength + pieceLength;
      EqualPieces(lens, pieceLength, numPieces - 1);
    }
  }

  lemma {:induction false} EqualPieces(lens: seq<nat>, pieceLength: nat, n: nat)
    requires n <= |lens| && forall i :: 0 <= i < n ==> lens[i] == pieceLength
    ensures SumTo(lens, n) == n * pieceLength
    decreases n
  {
    if n > 0 { EqualPieces(lens, pieceLength, n - 1); }
  }

  // ---------- Mapping a piece ----------

  /** The outcome of torrent_piece_map: segments and the re-accumulated piece length, or a walk off the file list. */
  datatype Mapping = Mapped(segs: seq<Segment>, len: nat) | Crash

  function Prepend(segs: seq<Segment>, m: Mapping): Mapping {
    match m
    case Mapped(rest, len) => Mapped(segs + rest, len)
    case Crash => Crash
  }

  /** The multi-file walk of torrent_piece_map from file `k` on: `off` and `len` are its running variables and
      `got` the piece length accumulated so far. */
  function MapFrom(files: seq<nat>, k: nat, off: nat, len: nat, got: nat): Mapping
    requires k <= |files|
    decreases |files| - k
  {
    if k == |files| then Mapped([], got)
    else
      var size := files[k];
      if off > size then MapFrom(files, k + 1, off - size, len, got)
      else if size < len && got < len then
        if size == off then MapFrom(files, k + 1, off, len, got)
        else
          Prepend([Segment(k, off, size - off)], MapFrom(files, k + 1, 0, len - (size - off), got + (size - off)))
      else if off + len > size then
        if size == off then MapFrom(files, k + 1, 0, len, got)
        else
          var first, len1, got1 := Segment(k, off, size - off), len - (size - off), got + (size - off);
          if k + 1 == |files| then Crash
          else
            var next := files[k + 1];
            if next < len1 then
              if next == 0 then Prepend([first], MapFrom(files, k + 1, off + 1, len1, got1))
              else Prepend([first, Segment(k + 1, 0, next)], MapFrom(files, k + 2, 0, len1 - next, got1 + next))
            else Mapped([first, Segment(k + 1, 0, len1)], got1 + len1)
      else if len == 0 then MapFrom(files, k + 1, off, len, got)
      else Mapped([Segment(k, off, len)], got + len)
  }

  function Map(files: seq<nat>, off: nat, len: nat): Mapping { MapFrom(files, 0, off, len, 0) }

  /** The walk takes neither faulty branch: it never skips a file at whose end the piece starts without resetting the
      offset, and never leaves an advanced offset in front of an empty file. */
  predicate Sound(files: seq<nat>, k: nat, off: nat, len: nat, got: nat)
    requires k <= |files|
    decreases |files| - k
  {
    k < |files| ==>
      var size := files[k];
      if off > size then Sound(files, k + 1, off - size, len, got)
      else if size < len && got < len then
        if size == off then off == 0 && Sound(files, k + 1, 0, len, got)
        else Sound(files, k + 1, 0, len - (size - off), got + (size - off))
      else if off + len > size then
        if size == off then Sound(files, k + 1, 0, len, got)
        else
          var len1 := len - (size - off);
          k + 1 < |files| && files[k + 1] < len1 ==>
            files[k + 1] != 0 && Sound(files, k + 2, 0, len1 - files[k + 1], got + (size - off) + files[k + 1])
      else true
  }

  /** On the sound walks the segments are the piece's slice of the stream, and its length is restored. */
  lemma {:induction false} SoundMaps(files: seq<nat>, k: nat, off: nat, len: nat, got: nat)
    requires k <= |files| && 0 < len && Start(files, k) + off + len <= Total(files)
    requires Sound(files, k, off, len, got)
    ensures var m := MapFrom(files, k, off, len, got);
      && m.Mapped? && m.len == got + len
      && Covers(files, m.segs, Start(files, k) + off, Start(files, k) + off + len)
    decreases |files| - k
  {
    hide Covers;
    if k < |files| {
      var size := files[k];
      StartMonotonic(files, k + 1, |files|);
      if off > size {
        SoundMaps(files, k + 1, off - size, len, got);
      } else if size < len && got < len {
        if size == off {
          SoundMaps(files, k + 1, 0, len, got);
        } else {
          SoundMaps(files, k + 1, 0, len - (size - off), got + (size - off));
          CoversCons(files, Segment(k, off, size - off), MapFrom(files, k + 1, 0, len - (size - off), got + (size - off)).segs,
            Start(files, k) + off + len);
        }
      } else if off + len > size {
        if size == off {
          SoundMaps(files, k + 1, 0, len, got);
        } else {
          SoundStraddle(files, k, off, len, got);
        }
      } else {
        CoversNothing(files, Start(files, k) + off + len);
        CoversCons(files, Segment(k, off, len), [], Start(files, k) + off + len);
        assert [Segment(k, off, len)] + [] == [Segment(k, off, len)];
      }
    }
  }

  lemma {:induction false} SoundStraddle(files: seq<nat>, k: nat, off: nat, len: nat, got: nat)
    requires k < |files| && 0 < len && Start(files, k) + off + len <= Total(files)
    requires Sound(files, k, off, len, got)
    requires off < files[k] < off + len && !(files[k] < len && got < len)
    ensures var m := MapFrom(files, k, off, len, got);
      && m.Mapped? && m.len == got + len
      && Covers(files, m.segs, Start(files, k) + off, Start(files, k) + off + len)
    decreases |files| - k, 0
  {
    hide Covers;
    var size, hi := files[k], Start(files, k) + off + len;
    var first, len1, got1 := Segment(k, off, size - off), len - (size - off), got + (size - off);
    assert k + 1 < |files|;
    var next := files[k + 1];
    assert Start(files, k + 1) == Start(files, k) + size;
    assert Start(files, k + 2) == Start(files, k + 1) + next;
    if next < len1 {
      SoundMaps(files, k + 2, 0, len1 - next, got1 + next);
      var rest := MapFrom(files, k + 2, 0, len1 - next, got1 + next).segs;
      CoversCons(files, Segment(k + 1, 0, next), rest, hi);
      CoversCons(files, first, [Segment(k + 1, 0, next)] + rest, hi);
      assert [first] + ([Segment(k + 1, 0, next)] + rest) == [first, Segment(k + 1, 0, next)] + rest;
    } else {
      CoversNothing(files, hi);
      CoversCons(files, Segment(k + 1, 0, len1), [], hi);
      CoversCons(files, first, [Segment(k + 1, 0, len1)], hi);
      assert [first] + [Segment(k + 1, 0, len1)] == [first, Segment(k + 1, 0, len1)];
      assert [Segment(k + 1, 0, len1)] + [] == [Segment(k + 1, 0, len1)];
    }
  }

  lemma CoversNothing(files: seq<nat>, hi: nat)
    ensures Covers(files, [], hi, hi)
  {}

  /** Coverage is decided segment by segment. */
  lemma CoversCons(files: seq<nat>, s: Segment, rest: seq<Segment>, hi: nat)
    requires s.file < |files| && s.off + s.len <= files[s.file] && 0 < s.len
    ensures var lo := Start(files, s.file) + s.off;
      Covers(files, [s] + rest, lo, hi) <==> Covers(files, rest, lo + s.len, hi)
  {
    assert ([s] + rest)[1..] == rest;
  }

  /** No segment of the walk from file `k` lies before file `k`; and when the walk arrives there with an offset that
      should have been zero, the first octet of file `k` is missed. */
  lemma {:induction false} FirstSegment(files: seq<nat>, k: nat, off: nat, len: nat, got: nat)
    requires k <= |files|
    ensures var m := MapFrom(files, k, off, len, got);
      m.Mapped? && m.segs != [] ==>
        && m.segs[0].file < |files|
        && Start(files, m.segs[0].file) + m.segs[0].off >= Start(files, k)
        && (off > 0 ==> Start(files, m.segs[0].file) + m.segs[0].off > Start(files, k))
    decreases |files| - k
  {
    if k < |files| {
      var size := files[k];
      if off > size {
        FirstSegment(files, k + 1, off - size, len, got);
      } else if size < len && got < len {
        if size == off { FirstSegment(files, k + 1, off, len, got); }
      } else if off + len > size {
        if size == off { FirstSegment(files, k + 1, 0, len, got); }
      } else if len == 0 {
        FirstSegment(files, k + 1, off, len, got);
      }
    }
  }

  /** A walk with a wrong positive offset cannot cover what starts at file `k`. */
  lemma SkewedMisses(files: seq<nat>, k: nat, off: nat, len: nat, got: nat, hi: nat)
    requires k <= |files| && off > 0 && Start(files, k) < hi
    ensures var m := MapFrom(files, k, off, len, got);
      !(m.Mapped? && Covers(files, m.segs, Start(files, k), hi))
  {
    FirstSegment(files, k, off, len, got);
  }

  /** A walk through a faulty branch does not map the piece. */
  lemma {:induction false} UnsoundMisses(files: seq<nat>, k: nat, off: nat, len: nat, got: nat)
    requires k <= |files| && 0 < len && Start(files, k) + off + len <= Total(files)
    requires !Sound(files, k, off, len, got)
    ensures var m := MapFrom(files, k, off, len, got);
      !(m.Mapped? && Covers(files, m.segs, Start(files, k) + off, Start(files, k) + off + len))
    decreases |files| - k
  {
    hide Covers;
    var size, hi := files[k], Start(files, k) + off + len;
    assert Start(files, k + 1) == Start(files, k) + size;
    if off > size {
      UnsoundMisses(files, k + 1, off - size, len, got);
    } else if size < len && got < len {
      if size == off {
        if off == 0 { UnsoundMisses(files, k + 1, 0, len, got); } else { SkewedMisses(files, k + 1, off, len, got, hi); }
      } else {
        UnsoundMisses(files, k + 1, 0, len - (size - off), got + (size - off));
        var m := MapFrom(files, k + 1, 0, len - (size - off), got + (size - off));
        if m.Mapped? { CoversCons(files, Segment(k, off, size - off), m.segs, hi); }
      }
    } else if off + len > size {
      if size == off {
        UnsoundMisses(files, k + 1, 0, len, got);
      } else {
        UnsoundStraddle(files, k, off, len, got);
      }
    }
  }

  lemma {:induction false} UnsoundStraddle(files: seq<nat>, k: nat, off: nat, len: nat, got: nat)
    requires k < |files| && 0 < len && Start(files, k) + off + len <= Total(files)
    requires !Sound(files, k, off, len, got)
    requires off < files[k] < off + len && !(files[k] < len && got < len)
    ensures var m := MapFrom(files, k, off, len, got);
      !(m.Mapped? && Covers(files, m.segs, Start(files, k) + off, Start(files, k) + off + len))
    decreases |files| - k, 0
  {
    hide Covers;
    var size, hi := files[k], Start(files, k) + off + len;
    var first, len1, got1 := Segment(k, off, size - off), len - (size - off), got + (size - off);
    var next := files[k + 1];
    assert Start(files, k + 1) == Start(files, k) + size;
    assert Start(files, k + 2) == Start(files, k + 1) + next;
    if next == 0 {
      SkewedMisses(files, k + 1, off + 1, len1, got1, hi);
      var m := MapFrom(files, k + 1, off + 1, len1, got1);
      if m.Mapped? { CoversCons(files, first, m.segs, hi); }
    } else {
      UnsoundMisses(files, k + 2, 0, len1 - next, got1 + next);
      var m := MapFrom(files, k + 2, 0, len1 - next, got1 + next);
      if m.Mapped? {
        var second := Segment(k + 1, 0, next);
        CoversCons(files, second, m.segs, hi);
        CoversCons(files, first, [second] + m.segs, hi);
        assert [first] + ([second] + m.segs) == [first, second] + m.segs;
      }
    }
  }

  /** torrent_piece_map tiles the piece exactly when its walk takes neither faulty branch. */
  lemma MapIffSound(files: seq<nat>, off: nat, len: nat)
    requires 0 < len && off + len <= Total(files)
    ensures var m := Map(files, off, len);
      (m.Mapped? && m.len == len && Covers(files, m.segs, off, off + len)) <==> Sound(files, 0, off, len, 0)
  {
    if Sound(files, 0, off, len, 0) {
      SoundMaps(files, 0, off, len, 0);
    } else {
      UnsoundMisses(files, 0, off, len, 0);
    }
  }

  /** The piece does not start exactly where a non-empty file shorter than the piece ends. */
  predicate StartsWell(files: seq<nat>, off: nat, len: nat) {
    forall k :: 0 <= k < |files| && 0 < files[k] < len ==> Start(files, k + 1) != off
  }

  predicate NoEmptyFile(files: seq<nat>) { forall k :: 0 <= k < |files| ==> files[k] > 0 }

  lemma {:induction false} SoundFromZero(files: seq<nat>, k: nat, len: nat, got: nat)
    requires k <= |files| && NoEmptyFile(files)
    ensures Sound(files, k, 0, len, got)
    decreases |files| - k
  {
    if k < |files| {
      var size := files[k];
      if size < len && got < len {
        SoundFromZero(files, k + 1, len - size, got + size);
      } else if len > size && k + 1 < |files| && files[k + 1] < len - size {
        SoundFromZero(files, k + 2, len - size - files[k + 1], got + size + files[k + 1]);
      }
    }
  }

  /** No file from `k` on that is shorter than `len` ends at `pos`. */
  ghost predicate NoneEndsAt(files: seq<nat>, k: nat, pos: nat, len: nat)
    requires k <= |files|
  {
    forall j :: k <= j < |files| && files[j] < len ==> Start(files, j + 1) != pos
  }

  lemma NoneEndsStep(files: seq<nat>, k: nat, pos: nat, len: nat)
    requires k < |files|
    ensures Start(files, k + 1) == Start(files, k) + files[k]
    ensures NoneEndsAt(files, k, pos, len)
      <==> (files[k] < len ==> Start(files, k + 1) != pos) && NoneEndsAt(files, k + 1, pos, len)
  {}

  lemma NoneEndsBefore(files: seq<nat>, k: nat, pos: nat, len: nat)
    requires k <= |files| && NoEmptyFile(files) && pos <= Start(files, k)
    ensures NoneEndsAt(files, k, pos, len)
  {
    forall j | k <= j < |files|
      ensures Start(files, j + 1) > pos && files[j] > 0
    {
      StartMonotonic(files, k, j);
    }
  }

  lemma {:induction false} SoundFromOffset(files: seq<nat>, k: nat, off: nat, len: nat)
    requires k <= |files| && NoEmptyFile(files) && 0 < len && Start(files, k) + off + len <= Total(files)
    requires k > 0 ==> off > 0
    ensures Sound(files, k, off, len, 0) <==> NoneEndsAt(files, k, Start(files, k) + off, len)
    decreases |files| - k
  {
    hide NoneEndsAt;
    if k < |files| {
      var size, pos := files[k], Start(files, k) + off;
      NoneEndsStep(files, k, pos, len);
      if off > size {
        SoundFromOffset(files, k + 1, off - size, len);
      } else {
        NoneEndsBefore(files, k + 1, pos, len);
        if size < len {
          if size > off { SoundFromZero(files, k + 1, len - (size - off), size - off); }
        } else if off + len > size {
          if size == off {
            SoundFromZero(files, k + 1, len, 0);
          } else if k + 1 < |files| && files[k + 1] < len - (size - off) {
            SoundFromZero(files, k + 2, len - (size - off) - files[k + 1], (size - off) + files[k + 1]);
          }
        }
      }
    }
  }

  /** Without empty files the condition is a plain one: the piece must not start at the end of a shorter file. */
  lemma MapIffStartsWell(files: seq<nat>, off: nat, len: nat)
    requires NoEmptyFile(files) && 0 < len && off + len <= Total(files)
    ensures var m := Map(files, off, len);
      (m.Mapped? && m.len == len && Covers(files, m.segs, off, off + len)) <==> StartsWell(files, off, len)
  {
    MapIffSound(files, off, len);
    SoundFromOffset(files, 0, off, len);
  }

  /** Files of 2, 2 and 8 octets in pieces of 4: the second piece is mapped two octets late. */
  lemma LateStart()
    ensures Map([2, 2, 8], 4, 4) == Mapped([Segment(2, 2, 4)], 4)
    ensures !Covers([2, 2, 8], Map([2, 2, 8], 4, 4).segs, 4, 8)
  {
    var files := [2, 2, 8];
    assert Start(files, 1) == 2 && Start(files, 2) == 4;
    assert MapFrom(files, 2, 2, 4, 0) == Mapped([Segment(2, 2, 4)], 4);
    assert MapFrom(files, 1, 2, 4, 0) == MapFrom(files, 2, 2, 4, 0);
  }

  /** Files of 6, 0 and 10 octets in pieces of 4: the empty file shifts the end of the second piece by five octets. */
  lemma EmptyFileShifts()
    ensures Map([6, 0, 10], 4, 4) == Mapped([Segment(0, 4, 2), Segment(2, 5, 2)], 4)
    ensures !Covers([6, 0, 10], Map([6, 0, 10], 4, 4).segs, 4, 8)
  {
    var files := [6, 0, 10];
    assert Start(files, 1) == 6 && Start(files, 2) == 6;
    assert MapFrom(files, 2, 5, 2, 2) == Mapped([Segment(2, 5, 2)], 4);
    assert MapFrom(files, 1, 5, 2, 2) == MapFrom(files, 2, 5, 2, 2);
    assert [Segment(0, 4, 2)] + [Segment(2, 5, 2)] == [Segment(0, 4, 2), Segment(2, 5, 2)];
    assert Map(files, 4, 4).segs[1..] == [Segment(2, 5, 2)];
  }

  lemma PrependTwice(a: seq<Segment>, b: seq<Segment>, m: Mapping)
    ensures Prepend(a, Prepend(b, m)) == Prepend(a + b, m)
  {
    if m.Mapped? { assert a + (b + m.segs) == a + b + m.segs; }
  }

  lemma PrependLast(a: seq<Segment>, b: seq<Segment>, len: nat)
    ensures Prepend(a, Mapped(b, len)) == Mapped(a + b, len) && Prepend(a, Crash) == Crash
    ensures Prepend(a, Mapped([], len)) == Mapped(a, len) && Prepend([], Mapped(a, len)) == Mapped(a, len)
  {
    assert a + [] == a && [] + a == a;
  }

  lemma PrependNothing(m: Mapping)
    ensures Prepend([], m) == m
  {
    if m.Mapped? { assert [] + m.segs == m.segs; }
  }

  /** torrent_piece_map for a piece of a multi-file torrent; `crashed` is a walk past the last file. */
  method PieceMap(files: seq<nat>, off0: nat, len0: nat) returns (segs: seq<Segment>, pieceLen: nat, crashed: bool)
    ensures (if crashed then Crash else Mapped(segs, pieceLen)) == Map(files, off0, len0)
  {
    hide Prepend;
    var off, len, k := off0, len0, 0;
    segs, pieceLen, crashed := [], 0, false;
    PrependNothing(MapFrom(files, 0, off, len, 0));
    while k < |files|
      invariant k <= |files|
      invariant Map(files, off0, len0) == Prepend(segs, MapFrom(files, k, off, len, pieceLen))
      decreases |files| - k
    {
      var size := files[k];
      ghost var before := segs;
      if off > size {
        off := off - size;
        k := k + 1;
        continue;
      }
      if size < len && pieceLen < len {
        k := k + 1;
        if size - off != 0 {
          segs := segs + [Segment(k - 1, off, size - off)];
          pieceLen := pieceLen + (size - off);
          len := len - (size - off);
          PrependTwice(before, [Segment(k - 1, off, size - off)], MapFrom(files, k, 0, len, pieceLen));
          off := 0;
        }
        continue;
      }
      if off + len > size {
        if size == off {
          off := 0;
          k := k + 1;
          continue;
        }
        ghost var first := Segment(k, off, size - off);
        PrependLast(before, [], 0);
        segs := segs + [Segment(k, off, size - off)];
        pieceLen := pieceLen + (size - off);
        if k + 1 == |files| {
          crashed := true;
          return;
        }
        var next := files[k + 1];
        len := len - (size - off);
        off := off + 1;
        if next < len {
          if next == 0 {
            k := k + 1;
            PrependTwice(before, [first], MapFrom(files, k, off, len, pieceLen));
            continue;
          }
          segs := segs + [Segment(k + 1, 0, next)];
          pieceLen := pieceLen + next;
          len := len - next;
          off := 0;
          k := k + 2;
          PrependTwice(before, [first, Segment(k - 1, 0, next)], MapFrom(files, k, 0, len, pieceLen));
          assert segs == before + [first, Segment(k - 1, 0, next)];
          continue;
        }
        segs := segs + [Segment(k + 1, 0, len)];
        pieceLen := pieceLen + len;
        PrependLast(before, [first, Segment(k + 1, 0, len)], pieceLen);
        assert segs == before + [first, Segment(k + 1, 0, len)];
        return;
      }
      if len == 0 {
        k := k + 1;
        continue;
      }
      segs := segs + [Segment(k, off, len)];
      pieceLen := pieceLen + len;
      PrependLast(before, [Segment(k, off, len)], pieceLen);
      return;
    }
    PrependLast(segs, [], pieceLen);
  }
}
