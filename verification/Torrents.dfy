/** A parsed torrent: its pieces as disjoint parts of its files. */
module Torrents {
  import opened Bytes
  import opened Layout
  import opened Storage

  /** Layout and expected digests, as torrent_parse_file and torrent_pieces_create leave them. */
  datatype Torrent = Torrent(multi: bool, fileLens: seq<nat>, pieceLength: nat, numPieces: nat, hashes: seq<seq<Byte>>)

  /** One hash per started piece, and every piece maps soundly onto the files. */
  ghost predicate ValidTorrent(t: Torrent) {
    && Consistent(Total(t.fileLens), t.pieceLength, t.numPieces)
    && |t.hashes| == t.numPieces
    && (!t.multi ==> |t.fileLens| == 1)
    && (t.multi ==> forall i :: 0 <= i < t.numPieces ==> SoundPiece(t, i))
  }

  function Offset(t: Torrent, i: nat): nat { i * t.pieceLength }

  function Length(t: Torrent, i: nat): nat
    requires i < t.numPieces
  {
    PieceLength(t.multi, Total(t.fileLens), t.pieceLength, t.numPieces, i)
  }

  ghost predicate SoundPiece(t: Torrent, i: nat)
    requires i < t.numPieces
  {
    Sound(t.fileLens, 0, Offset(t, i), Length(t, i), 0)
  }

  /** The mappings of piece `i`: one when there is a single file, else what torrent_piece_map finds. */
  function SegmentsOf(t: Torrent, i: nat): seq<Segment>
    requires i < t.numPieces
  {
    if !t.multi then [Segment(0, Offset(t, i), Length(t, i))]
    else
      match Map(t.fileLens, Offset(t, i), Length(t, i))
      case Mapped(segs, _) => segs
      case Crash => []
  }

  /** Pieces are laid end to end. */
  lemma PieceEnds(t: Torrent, i: nat)
    requires Consistent(Total(t.fileLens), t.pieceLength, t.numPieces) && i < t.numPieces
    ensures 0 < Length(t, i) <= t.pieceLength
    ensures Offset(t, i) + Length(t, i) <= Total(t.fileLens)
    ensures i + 1 < t.numPieces ==> Offset(t, i) + Length(t, i) == Offset(t, i + 1)
  {
    LastPieceLength(t.multi, Total(t.fileLens), t.pieceLength, t.numPieces);
    assert t.numPieces * t.pieceLength == (t.numPieces - 1) * t.pieceLength + t.pieceLength;
    assert (i + 1) * t.pieceLength == i * t.pieceLength + t.pieceLength;
    if i + 1 < t.numPieces {
      Scale(i + 1, t.numPieces - 1, t.pieceLength);
    }
  }

  lemma Scale(a: nat, b: nat, n: nat)
    requires a <= b
    ensures a * n <= b * n
  {}

  /** The segments of a piece are its slice of the stream. */
  lemma SegmentsCover(t: Torrent, i: nat)
    requires ValidTorrent(t) && i < t.numPieces
    ensures Covers(t.fileLens, SegmentsOf(t, i), Offset(t, i), Offset(t, i) + Length(t, i))
  {
    PieceEnds(t, i);
    if t.multi {
      assert SoundPiece(t, i);
      MapIffSound(t.fileLens, Offset(t, i), Length(t, i));
    } else {
      var s := Segment(0, Offset(t, i), Length(t, i));
      assert Start(t.fileLens, 0) == 0 && Start(t.fileLens, 1) == t.fileLens[0];
      assert [s][1..] == [];
    }
  }

  /** The files have the lengths that the torrent gives them. */
  ghost predicate HasShape(t: Torrent, files: Files) {
    |files| == |t.fileLens| && forall f :: 0 <= f < |files| ==> |files[f]| == t.fileLens[f]
  }

  /** A covering list fits the files, is as long as what it covers, and each segment lies in the covered range. */
  lemma {:induction false} CoversFits(t: Torrent, files: Files, segs: seq<Segment>, lo: nat, hi: nat)
    requires HasShape(t, files) && Covers(t.fileLens, segs, lo, hi)
    ensures AllFit(files, segs) && lo + SumLen(segs) == hi
    decreases |segs|
  {
    if segs != [] {
      CoversFits(t, files, segs[1..], lo + segs[0].len, hi);
      forall i | 0 <= i < |segs| ensures Fits(files, segs[i]) {
        if i > 0 { assert segs[i] == segs[1..][i - 1]; }
      }
    }
  }

  ghost predicate Within(fileLens: seq<nat>, s: Segment, lo: nat, hi: nat) {
    && s.file < |fileLens| && s.off + s.len <= fileLens[s.file]
    && lo <= Start(fileLens, s.file) + s.off && Start(fileLens, s.file) + s.off + s.len <= hi
  }

  lemma {:induction false} CoversWithin(fileLens: seq<nat>, segs: seq<Segment>, lo: nat, hi: nat, i: nat)
    requires Covers(fileLens, segs, lo, hi) && i < |segs|
    ensures lo <= hi && Within(fileLens, segs[i], lo, hi)
    decreases |segs|
  {
    var s := segs[0];
    CoversOrder(fileLens, segs[1..], lo + s.len, hi);
    if i > 0 {
      CoversWithin(fileLens, segs[1..], lo + s.len, hi, i - 1);
      assert segs[i] == segs[1..][i - 1];
    }
  }

  lemma {:induction false} CoversOrder(fileLens: seq<nat>, segs: seq<Segment>, lo: nat, hi: nat)
    requires Covers(fileLens, segs, lo, hi)
    ensures lo <= hi
    decreases |segs|
  {
    if segs != [] { CoversOrder(fileLens, segs[1..], lo + segs[0].len, hi); }
  }

  /** Segments in ranges that do not meet share no octet of any file. */
  lemma WithinApart(fileLens: seq<nat>, s: Segment, t: Segment, lo: nat, mid: nat, mid': nat, hi: nat)
    requires Within(fileLens, s, lo, mid) && Within(fileLens, t, mid', hi) && mid <= mid'
    ensures Apart(s, t)
  {}

  lemma {:induction false} CoversMutuallyApart(fileLens: seq<nat>, segs: seq<Segment>, lo: nat, hi: nat)
    requires Covers(fileLens, segs, lo, hi)
    ensures MutuallyApart(segs)
    decreases |segs|
  {
    if segs != [] {
      var s, rest := segs[0], segs[1..];
      CoversMutuallyApart(fileLens, rest, lo + s.len, hi);
      forall i, j | 0 <= i < j < |segs|
        ensures Apart(segs[i], segs[j])
      {
        assert segs[j] == rest[j - 1];
        if i == 0 {
          CoversWithin(fileLens, rest, lo + s.len, hi, j - 1);
          WithinApart(fileLens, s, segs[j], lo, lo + s.len, lo + s.len, hi);
        } else {
          assert segs[i] == rest[i - 1];
        }
      }
    }
  }

  /** What the storage lemmas need to know of a piece. */
  lemma PieceSegments(t: Torrent, files: Files, i: nat)
    requires ValidTorrent(t) && HasShape(t, files) && i < t.numPieces
    ensures AllFit(files, SegmentsOf(t, i)) && SumLen(SegmentsOf(t, i)) == Length(t, i) > 0
    ensures SegmentsOf(t, i) != [] && MutuallyApart(SegmentsOf(t, i))
  {
    hide SegmentsOf, Length;
    var lo, hi := Offset(t, i), Offset(t, i) + Length(t, i);
    PieceEnds(t, i);
    SegmentsCover(t, i);
    CoversFits(t, files, SegmentsOf(t, i), lo, hi);
    CoversMutuallyApart(t.fileLens, SegmentsOf(t, i), lo, hi);
  }

  lemma OffsetsOrdered(t: Torrent, i: nat, j: nat)
    requires Consistent(Total(t.fileLens), t.pieceLength, t.numPieces) && i < j < t.numPieces
    ensures Offset(t, i) + Length(t, i) <= Offset(t, j)
  {
    PieceEnds(t, i);
    Scale(i + 1, j, t.pieceLength);
  }

  /** Segments of different pieces are disjoint. */
  lemma PiecesApart(t: Torrent, i: nat, j: nat)
    requires ValidTorrent(t) && i < t.numPieces && j < t.numPieces && i != j
    ensures forall a :: 0 <= a < |SegmentsOf(t, i)| ==> ApartFrom(SegmentsOf(t, i)[a], SegmentsOf(t, j))
  {
    hide SegmentsOf, Length, Offset;
    SegmentsCover(t, i);
    SegmentsCover(t, j);
    var si, sj := SegmentsOf(t, i), SegmentsOf(t, j);
    forall a, b | 0 <= a < |si| && 0 <= b < |sj|
      ensures Apart(si[a], sj[b])
    {
      var li, hi, lj, hj := Offset(t, i), Offset(t, i) + Length(t, i), Offset(t, j), Offset(t, j) + Length(t, j);
      CoversWithin(t.fileLens, si, li, hi, a);
      CoversWithin(t.fileLens, sj, lj, hj, b);
      if i < j {
        OffsetsOrdered(t, i, j);
        WithinApart(t.fileLens, si[a], sj[b], li, hi, lj, hj);
      } else {
        OffsetsOrdered(t, j, i);
        WithinApart(t.fileLens, sj[b], si[a], lj, hj, li, hi);
      }
    }
  }

  /** The stored octets of a piece. */
  function PieceData(t: Torrent, files: Files, i: nat): seq<Byte>
    requires i < t.numPieces && AllFit(files, SegmentsOf(t, i))
  {
    Flat(files, SegmentsOf(t, i))
  }
}
