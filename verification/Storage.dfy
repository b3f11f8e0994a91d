/** Piece data on disk: block writes and reads across a piece's segments (torrent_block_write, torrent_block_read). */
module Storage {
  import opened Sequences
  import opened Options
  import opened Bytes
  import opened Layout
  import Sha1
  import Sha1Standard

  /** The contents of the torrent's files. */
  type Files = seq<seq<Byte>>

  ghost predicate Fits(files: Files, s: Segment) {
    s.file < |files| && s.off + s.len <= |files[s.file]|
  }

  ghost predicate AllFit(files: Files, segs: seq<Segment>) {
    forall i :: 0 <= i < |segs| ==> Fits(files, segs[i])
  }

  /** Two segments share no octet. */
  ghost predicate Apart(s: Segment, t: Segment) {
    s.file != t.file || s.off + s.len <= t.off || t.off + t.len <= s.off
  }

  ghost predicate ApartFrom(s: Segment, segs: seq<Segment>) {
    forall i :: 0 <= i < |segs| ==> Apart(s, segs[i])
  }

  ghost predicate MutuallyApart(segs: seq<Segment>) {
    forall i, j :: 0 <= i < j < |segs| ==> Apart(segs[i], segs[j])
  }

  ghost predicate SameShape(files: Files, files': Files) {
    |files'| == |files| && forall f :: 0 <= f < |files| ==> |files'[f]| == |files[f]|
  }

  /** The octets of one segment. */
  function Slice(files: Files, s: Segment): seq<Byte>
    requires Fits(files, s)
  {
    files[s.file][s.off..s.off + s.len]
  }

  /** The flat view of a piece: its segments put end to end. */
  function Flat(files: Files, segs: seq<Segment>): seq<Byte>
    requires AllFit(files, segs)
  {
    if segs == [] then [] else Slice(files, segs[0]) + Flat(files, segs[1..])
  }

  function SumLen(segs: seq<Segment>): nat {
    if segs == [] then 0 else segs[0].len + SumLen(segs[1..])
  }

  lemma {:induction false} FlatLength(files: Files, segs: seq<Segment>)
    requires AllFit(files, segs)
    ensures |Flat(files, segs)| == SumLen(segs)
    decreases |segs|
  {
    if segs != [] { FlatLength(files, segs[1..]); }
  }

  /** `flat` with `d` put at `off`; what would lie beyond the end is dropped. */
  function Overwrite(flat: seq<Byte>, off: nat, d: seq<Byte>): seq<Byte> {
    if off > |flat| then flat
    else
      var n := if off + |d| <= |flat| then |d| else |flat| - off;
      flat[..off] + d[..n] + flat[off + n..]
  }

  /** memcpy of `d` into a mapping, `a` octets after its start. */
  function Poke(files: Files, s: Segment, a: nat, d: seq<Byte>): (files': Files)
    requires Fits(files, s) && a + |d| <= s.len
    ensures SameShape(files, files')
  {
    var f := files[s.file];
    files[s.file := f[..s.off + a] + d + f[s.off + a + |d|..]]
  }

  lemma PokeSlice(files: Files, s: Segment, a: nat, d: seq<Byte>)
    requires Fits(files, s) && a + |d| <= s.len
    ensures Slice(Poke(files, s, a, d), s) == Overwrite(Slice(files, s), a, d)
  {
    hide Overwrite;
    PatchedSlice(files[s.file], s.off, s.off + s.len, a, d);
  }

  lemma PatchedSlice(f: seq<Byte>, lo: nat, hi: nat, a: nat, d: seq<Byte>)
    requires lo + a + |d| <= hi <= |f|
    ensures (f[..lo + a] + d + f[lo + a + |d|..])[lo..hi] == Overwrite(f[lo..hi], a, d)
  {
    hide Overwrite;
    OverwriteInside(f[lo..hi], a, d);
    SliceOfSlice(f, lo, hi, a, |d|);
    SliceOfPatched(f, lo, hi, a, d);
  }

  lemma OverwriteInside(flat: seq<Byte>, a: nat, d: seq<Byte>)
    requires a + |d| <= |flat|
    ensures Overwrite(flat, a, d) == flat[..a] + d + flat[a + |d|..]
  {
    assert d[..|d|] == d;
  }

  lemma SliceOfSlice<T>(f: seq<T>, lo: nat, hi: nat, a: nat, n: nat)
    requires lo + a + n <= hi <= |f|
    ensures f[lo..hi][..a] == f[lo..lo + a] && f[lo..hi][a + n..] == f[lo + a + n..hi]
  {}

  lemma SliceOfPatched<T>(f: seq<T>, lo: nat, hi: nat, a: nat, d: seq<T>)
    requires lo + a + |d| <= hi <= |f|
    ensures (f[..lo + a] + d + f[lo + a + |d|..])[lo..hi] == f[lo..lo + a] + d + f[lo + a + |d|..hi]
  {}

  lemma PokeApart(files: Files, s: Segment, a: nat, d: seq<Byte>, t: Segment)
    requires Fits(files, s) && a + |d| <= s.len && Fits(files, t) && Apart(s, t)
    ensures Slice(Poke(files, s, a, d), t) == Slice(files, t)
  {}

  /** Writing `data` at offset `off` of a piece, segment by segment. */
  function WriteSegs(files: Files, segs: seq<Segment>, off: nat, data: seq<Byte>): (files': Files)
    requires AllFit(files, segs)
    ensures SameShape(files, files')
    decreases |segs|
  {
    if segs == [] || data == [] then files
    else
      var s := segs[0];
      if off >= s.len then WriteSegs(files, segs[1..], off - s.len, data)
      else
        var n := if |data| <= s.len - off then |data| else s.len - off;
        WriteSegs(Poke(files, s, off, data[..n]), segs[1..], 0, data[n..])
  }

  /** A write leaves every segment alone that shares nothing with the piece. */
  lemma {:induction false} WriteApart(files: Files, segs: seq<Segment>, off: nat, data: seq<Byte>, t: Segment)
    requires AllFit(files, segs) && Fits(files, t) && ApartFrom(t, segs)
    ensures Slice(WriteSegs(files, segs, off, data), t) == Slice(files, t)
    decreases |segs|
  {
    hide Poke, Slice;
    if segs != [] && data != [] {
      var s := segs[0];
      assert Apart(t, s);
      if off >= s.len {
        WriteApart(files, segs[1..], off - s.len, data, t);
      } else {
        var n := if |data| <= s.len - off then |data| else s.len - off;
        PokeApart(files, s, off, data[..n], t);
        WriteApart(Poke(files, s, off, data[..n]), segs[1..], 0, data[n..], t);
      }
    }
  }

  lemma {:induction false} FlatSame(files: Files, files': Files, segs: seq<Segment>)
    requires AllFit(files, segs) && AllFit(files', segs)
    requires forall i :: 0 <= i < |segs| ==> Slice(files', segs[i]) == Slice(files, segs[i])
    ensures Flat(files', segs) == Flat(files, segs)
    decreases |segs|
  {
    if segs != [] {
      assert Slice(files', segs[0]) == Slice(files, segs[0]);
      FlatSame(files, files', segs[1..]);
    }
  }

  /** A write to one piece leaves the flat view of a piece that shares nothing with it unchanged. */
  lemma WriteConfined(files: Files, segs: seq<Segment>, off: nat, data: seq<Byte>, other: seq<Segment>)
    requires AllFit(files, segs) && AllFit(files, other)
    requires forall i :: 0 <= i < |other| ==> ApartFrom(other[i], segs)
    ensures Flat(WriteSegs(files, segs, off, data), other) == Flat(files, other)
  {
    var files' := WriteSegs(files, segs, off, data);
    forall i | 0 <= i < |other|
      ensures Fits(files', other[i]) && Slice(files', other[i]) == Slice(files, other[i])
    {
      WriteApart(files, segs, off, data, other[i]);
    }
    FlatSame(files, files', other);
  }

  /** Block writes refine one flat array: exactly the written range changes. */
  lemma {:induction false} WriteFlat(files: Files, segs: seq<Segment>, off: nat, data: seq<Byte>)
    requires AllFit(files, segs) && MutuallyApart(segs)
    ensures Flat(WriteSegs(files, segs, off, data), segs) == Overwrite(Flat(files, segs), off, data)
    decreases |segs|
  {
    hide Poke, Slice;
    if segs == [] || data == [] {
      OverwriteNothing(Flat(files, segs), off);
    } else {
      var s, rest := segs[0], segs[1..];
      assert ApartFrom(s, rest);
      var head, tail := Slice(files, s), Flat(files, rest);
      assert |head| == s.len by { SliceLength(files, s); }
      var files' := WriteSegs(files, segs, off, data);
      if off >= s.len {
        WriteApart(files, rest, off - s.len, data, s);
        WriteFlat(files, rest, off - s.len, data);
        OverwriteTail(head, tail, off, data);
      } else {
        var n := if |data| <= s.len - off then |data| else s.len - off;
        var poked := Poke(files, s, off, data[..n]);
        PokeSlice(files, s, off, data[..n]);
        WriteApart(poked, rest, 0, data[n..], s);
        PokeLeavesRest(files, s, off, data[..n], rest);
        WriteFlat(poked, rest, 0, data[n..]);
        OverwriteAcross(head, tail, off, data, n);
      }
    }
  }

  lemma SliceLength(files: Files, s: Segment)
    requires Fits(files, s)
    ensures |Slice(files, s)| == s.len
  {}

  lemma PokeLeavesRest(files: Files, s: Segment, a: nat, d: seq<Byte>, rest: seq<Segment>)
    requires Fits(files, s) && a + |d| <= s.len && AllFit(files, rest) && ApartFrom(s, rest)
    ensures AllFit(Poke(files, s, a, d), rest) && Flat(Poke(files, s, a, d), rest) == Flat(files, rest)
  {
    hide Slice;
    forall i | 0 <= i < |rest|
      ensures Slice(Poke(files, s, a, d), rest[i]) == Slice(files, rest[i])
    {
      PokeApart(files, s, a, d, rest[i]);
    }
    FlatSame(files, Poke(files, s, a, d), rest);
  }

  lemma OverwriteNothing(flat: seq<Byte>, off: nat)
    ensures Overwrite(flat, off, []) == flat
    ensures forall d :: flat == [] ==> Overwrite(flat, off, d) == flat
  {}

  lemma OverwriteTail(head: seq<Byte>, tail: seq<Byte>, off: nat, d: seq<Byte>)
    requires off >= |head|
    ensures Overwrite(head + tail, off, d) == head + Overwrite(tail, off - |head|, d)
  {}

  /** Octet `p` after an overwrite. */
  lemma OverwriteAt(flat: seq<Byte>, off: nat, d: seq<Byte>, p: nat)
    requires p < |flat|
    ensures |Overwrite(flat, off, d)| == |flat|
    ensures Overwrite(flat, off, d)[p] == if off <= p < off + |d| then d[p - off] else flat[p]
  {}

  lemma OverwriteAcross(head: seq<Byte>, tail: seq<Byte>, off: nat, d: seq<Byte>, n: nat)
    requires off < |head| && n == if |d| <= |head| - off then |d| else |head| - off
    ensures Overwrite(head + tail, off, d) == Overwrite(head, off, d[..n]) + Overwrite(tail, 0, d[n..])
  {
    var whole, left, right := Overwrite(head + tail, off, d), Overwrite(head, off, d[..n]), Overwrite(tail, 0, d[n..]);
    OverwriteAt(head + tail, off, d, 0);
    OverwriteAt(head, off, d[..n], 0);
    if tail != [] { OverwriteAt(tail, 0, d[n..], 0); }
    forall p | 0 <= p < |whole|
      ensures whole[p] == (left + right)[p]
    {
      hide Overwrite;
      OverwriteAt(head + tail, off, d, p);
      if p < |head| { OverwriteAt(head, off, d[..n], p); } else { OverwriteAt(tail, 0, d[n..], p - |head|); }
    }
  }

  /** The octets `off .. off+len-1` of a piece, when it has that many. */
  ghost predicate InPiece(segs: seq<Segment>, off: nat, len: nat) { off + len <= SumLen(segs) }

  /** What a range read returns: the octets that are there, then whatever the raw buffer held. */
  function ReadFlat(flat: seq<Byte>, off: nat, len: nat, raw: seq<Byte>): seq<Byte>
    requires off <= |flat| && |raw| == len
  {
    if off + len <= |flat| then flat[off..off + len] else flat[off..] + raw[|flat| - off..]
  }

  /** Reading back a range that was just written returns the written data. */
  lemma ReadAfterWrite(files: Files, segs: seq<Segment>, off: nat, data: seq<Byte>, raw: seq<Byte>)
    requires AllFit(files, segs) && MutuallyApart(segs) && InPiece(segs, off, |data|) && |raw| == |data|
    ensures var files' := WriteSegs(files, segs, off, data);
      off <= |Flat(files', segs)| && ReadFlat(Flat(files', segs), off, |data|, raw) == data
  {
    FlatLength(files, segs);
    WriteFlat(files, segs, off, data);
    assert data[..|data|] == data;
  }

  /** The mapped files of a torrent. */
  class Disk {
    var files: Files

    constructor (files: Files)
      ensures this.files == files
    {
      this.files := files;
    }

    /** torrent_block_write: a walk over the mappings with running totals. */
    method BlockWrite(segs: seq<Segment>, off: nat, data: seq<Byte>)
      requires AllFit(files, segs)
      modifies this
      ensures files == WriteSegs(old(files), segs, off, data)
    {
      hide Poke, WriteSegs, AllFit, Fits;
      var len := |data|;
      var cntlen, cntbase, bytesleft := 0, 0, len;
      ghost var goal := WriteSegs(files, segs, off, data);
      assert segs[0..] == segs && data[0..] == data;
      for k := 0 to |segs|
        invariant AllFit(files, segs[k..])
        invariant 0 <= bytesleft <= len
        invariant bytesleft == len ==> cntlen == cntbase <= off && goal == WriteSegs(files, segs[k..], off - cntbase, data)
        invariant bytesleft < len ==> goal == WriteSegs(files, segs[k..], 0, data[len - bytesleft..])
      {
        var s := segs[k];
        if bytesleft < len {
          var diff := len - bytesleft;
          WriteUnfold(files, segs, k, 0, data[diff..]);
          if bytesleft > s.len {
            ghost var left := data[diff..];
            assert left[..s.len] == data[diff..diff + s.len] && left[s.len..] == data[diff + s.len..];
            files := Poke(files, s, 0, data[diff..diff + s.len]);
            bytesleft := bytesleft - s.len;
            continue;
          }
          files := Poke(files, s, 0, data[diff..]);
          return;
        }
        WriteUnfold(files, segs, k, off - cntbase, data);
        cntlen := cntlen + s.len;
        if cntlen < off {
          cntbase := cntbase + s.len;
        } else {
          var a := off - cntbase;
          cntbase := off;
          var tlen := s.len - a;
          if len > tlen {
            files := Poke(files, s, a, data[..tlen]);
            bytesleft := bytesleft - tlen;
            continue;
          }
          files := Poke(files, s, a, data);
          return;
        }
      }
      WriteEnd(files, segs[|segs|..], if bytesleft == len then off - cntbase else 0,
               if bytesleft == len then data else data[len - bytesleft..]);
    }

    /** torrent_block_read: `raw` is the uninitialised buffer it allocates when the range spans mappings. */
    method BlockRead(segs: seq<Segment>, off: nat, len: nat, raw: seq<Byte>) returns (block: Option<seq<Byte>>)
      requires AllFit(files, segs) && |raw| == len
      ensures block.None? <==> segs == [] || off > SumLen(segs)
      ensures block.Some? ==> off <= |Flat(files, segs)| && block.value == ReadFlat(Flat(files, segs), off, len, raw)
    {
      hide Slice, Flat, ReadFlat, AllFit, Fits, SumLen;
      ghost var flat := Flat(files, segs);
      FlatLength(files, segs);
      var cntlen, cntbase, tlen, hint := 0, 0, len, false;
      var copied: seq<Byte> := [];
      assert segs[0..] == segs && flat[0..] == flat;
      for k := 0 to |segs|
        invariant 0 <= tlen <= len && 0 <= cntlen <= |flat|
        invariant !hint ==> cntbase == cntlen && tlen == len && copied == [] && (k > 0 ==> cntlen < off)
        invariant hint ==> k > 0 && cntbase == off <= cntlen == off + len - tlen && tlen > 0 && copied == flat[off..cntlen]
        invariant AllFit(files, segs[k..]) && Flat(files, segs[k..]) == flat[cntlen..]
      {
        var s := segs[k];
        FlatStep(files, segs, k, flat, cntlen);
        SliceLength(files, s);
        ghost var base := cntlen;
        cntlen := cntlen + s.len;
        if cntlen < off {
          cntbase := cntbase + s.len;
          continue;
        }
        var ilen := s.len - (off - cntbase);
        assert ilen <= s.len;
        var a := off - cntbase;
        cntbase := off;
        if ilen < tlen {
          CopySlice(flat, off, base, Slice(files, s), a, ilen, copied);
          hint := true;
          copied := copied + Slice(files, s)[a..a + ilen];
          tlen := tlen - ilen;
        } else {
          CopySlice(flat, off, base, Slice(files, s), a, tlen, copied);
          ReadRange(flat, off, len, raw);
          block := Some(copied + Slice(files, s)[a..a + tlen]);
          return;
        }
      }
      FlatEnd(files, segs[|segs|..]);
      assert |flat[cntlen..]| == |flat| - cntlen;
      if hint {
        ReadRange(flat, off, len, raw);
        block := Some(copied + raw[len - tlen..]);
      } else {
        block := None;
      }
    }

    /** torrent_piece_checkhash: does the piece hash to the expected digest? A piece without mappings never does; where the
        mappings fall short of the piece, the rest of the fresh buffer is hashed with them. */
    method CheckHash(segs: seq<Segment>, len: nat, expected: seq<Byte>, raw: seq<Byte>) returns (good: bool)
      requires AllFit(files, segs) && |raw| == len
      ensures good <==> segs != [] && Sha1Standard.Hash(ReadFlat(Flat(files, segs), 0, len, raw)) == expected
      ensures segs != [] && SumLen(segs) == len ==> (good <==> Sha1Standard.Hash(Flat(files, segs)) == expected)
    {
      hide Sha1Standard.Hash;
      var block := BlockRead(segs, 0, len, raw);
      if block.None? { return false; }
      FlatLength(files, segs);
      ReadRange(Flat(files, segs), 0, len, raw);
      assert Flat(files, segs)[0..|Flat(files, segs)|] == Flat(files, segs);
      var digest := Sha1.HashChunks([block.value]);
      assert Concat([block.value]) == block.value;
      good := digest == expected;
    }
  }

  lemma WriteEnd(files: Files, segs: seq<Segment>, off: nat, data: seq<Byte>)
    requires AllFit(files, segs) && (segs == [] || data == [])
    ensures WriteSegs(files, segs, off, data) == files
  {}

  /** One step of a write, from segment `k` on: `n` octets go into it, `off` octets after its start. */
  lemma WriteUnfold(files: Files, segs: seq<Segment>, k: nat, off: nat, data: seq<Byte>)
    requires k < |segs| && AllFit(files, segs[k..])
    ensures Fits(files, segs[k]) && AllFit(files, segs[k + 1..])
    ensures off > segs[k].len ==> WriteSegs(files, segs[k..], off, data) == WriteSegs(files, segs[k + 1..], off - segs[k].len, data)
    ensures off <= segs[k].len ==>
      var n := if |data| <= segs[k].len - off then |data| else segs[k].len - off;
      var files' := Poke(files, segs[k], off, data[..n]);
      && AllFit(files', segs[k + 1..])
      && WriteSegs(files, segs[k..], off, data) == WriteSegs(files', segs[k + 1..], 0, data[n..])
      && (n == |data| ==> WriteSegs(files, segs[k..], off, data) == Poke(files, segs[k], off, data))
  {
    hide Poke;
    var s, rest := segs[k], segs[k..];
    assert rest[0] == s && rest[1..] == segs[k + 1..];
    assert Fits(files, rest[0]);
    if off <= s.len {
      var n := if |data| <= s.len - off then |data| else s.len - off;
      if n == 0 { PokeNothing(files, s, off); }
      assert n == |data| ==> data[..n] == data && data[n..] == [];
      assert data[..0] == [] && data[0..] == data;
    } else if data == [] {
      WriteEnd(files, segs[k + 1..], off - s.len, data);
    }
  }

  lemma PokeNothing(files: Files, s: Segment, a: nat)
    requires Fits(files, s) && a <= s.len
    ensures Poke(files, s, a, []) == files
  {
    var f := files[s.file];
    assert f[..s.off + a] + [] + f[s.off + a..] == f;
  }

  /** Appending octets `a .. a+n-1` of the part of `flat` that starts at `base` to what was copied before. */
  lemma CopySlice(flat: seq<Byte>, off: nat, base: nat, part: seq<Byte>, a: nat, n: nat, copied: seq<Byte>)
    requires base + |part| <= |flat| && flat[base..base + |part|] == part && a + n <= |part|
    requires off <= base + a && copied == flat[off..base + a]
    ensures copied + part[a..a + n] == flat[off..base + a + n]
  {
    var mid := flat[base + a..base + a + n];
    forall i | 0 <= i < n
      ensures part[a..a + n][i] == mid[i]
    {
      assert part[a + i] == flat[base..base + |part|][a + i];
    }
    assert part[a..a + n] == mid;
  }

  lemma ReadRange(flat: seq<Byte>, off: nat, len: nat, raw: seq<Byte>)
    requires off <= |flat| && |raw| == len
    ensures off + len <= |flat| ==> ReadFlat(flat, off, len, raw) == flat[off..off + len]
    ensures off + len > |flat| ==> ReadFlat(flat, off, len, raw) == flat[off..|flat|] + raw[|flat| - off..]
  {}

  lemma FlatEnd(files: Files, segs: seq<Segment>)
    requires segs == []
    ensures AllFit(files, segs) && Flat(files, segs) == []
  {}

  /** The flat view from segment `k` on begins with that segment. */
  lemma FlatStep(files: Files, segs: seq<Segment>, k: nat, flat: seq<Byte>, base: nat)
    requires AllFit(files, segs) && k < |segs| && base <= |flat| && Flat(files, segs[k..]) == flat[base..]
    ensures Fits(files, segs[k]) && AllFit(files, segs[k + 1..])
    ensures base + segs[k].len <= |flat|
    ensures flat[base..base + segs[k].len] == Slice(files, segs[k])
    ensures Flat(files, segs[k + 1..]) == flat[base + segs[k].len..]
  {
    hide Slice;
    var s := segs[k];
    SliceLength(files, s);
    assert segs[k..][1..] == segs[k + 1..];
    assert flat[base..] == Slice(files, s) + Flat(files, segs[k + 1..]);
    assert flat[base..][..s.len] == flat[base..base + s.len];
    assert flat[base..][s.len..] == flat[base + s.len..];
  }
}
