/** Scanline filters of PNG (RFC 2083 section 6): the in-place reconstruction inverts the filtering. */
module PngFilters {
  import opened Basics

  /** Where there is no byte to the left, zero stands in. */
  function At(s: seq<Byte>, i: int): Byte {
    if 0 <= i < |s| then s[i] else 0
  }

  function Abs(x: int): nat {
    if x < 0 then -x else x
  }

  function Paeth(left: Byte, up: Byte, upLeft: Byte): Byte {
    var estimate := left + up - upLeft;
    var leftDelta := Abs(estimate - left);
    var upDelta := Abs(estimate - up);
    var upLeftDelta := Abs(estimate - upLeft);
    if leftDelta <= upDelta && leftDelta <= upLeftDelta then left
    else if upDelta <= upLeftDelta then up
    else upLeft
  }

  /** p is the one of a, b and c nearest to a + b - c; of equally near ones a comes before b before c. */
  predicate Nearest(p: int, a: int, b: int, c: int) {
    var estimate := a + b - c;
    && p in {a, b, c}
    && Abs(estimate - p) <= Abs(estimate - a) && Abs(estimate - p) <= Abs(estimate - b)
    && Abs(estimate - p) <= Abs(estimate - c)
    && (Abs(estimate - p) == Abs(estimate - a) ==> p == a)
    && (Abs(estimate - p) == Abs(estimate - b) && p != a ==> p == b)
  }

  /** Section 6.6: of left, above and upper left the nearest to left + above - upper left, ties in that order. */
  lemma PaethIsNearest(a: Byte, b: Byte, c: Byte)
    ensures forall p :: Nearest(p, a, b, c) <==> p == Paeth(a, b, c)
  {
  }

  /** What filter ft predicts from the neighbours; 0 to 4 are None, Sub, Up, Average and Paeth. */
  function Predicted(ft: Byte, left: Byte, up: Byte, upLeft: Byte): Byte {
    if ft == 1 then left
    else if ft == 2 then up
    else if ft == 3 then (left + up) / 2
    else if ft == 4 then Paeth(left, up, upLeft)
    else 0
  }

  /** Filtering, as section 6 defines it: every byte less its prediction from the unfiltered neighbours. */
  function FilterRow(ft: Byte, row: seq<Byte>, prev: seq<Byte>, bpp: nat): (r: seq<Byte>)
    ensures |r| == |row|
  {
    seq(|row|, i requires 0 <= i < |row| =>
      (row[i] - Predicted(ft, At(row, i - bpp), At(prev, i), At(prev, i - bpp))) % 256)
  }

  /** Reconstruction: every byte plus the prediction from what has been reconstructed so far. */
  function UnfilterRow(ft: Byte, raw: seq<Byte>, prev: seq<Byte>, bpp: nat): (r: seq<Byte>)
    ensures |r| == |raw|
  {
    if raw == [] then []
    else
      var i := |raw| - 1;
      var front := UnfilterRow(ft, raw[..i], prev, bpp);
      front + [(raw[i] + Predicted(ft, At(front, i - bpp), At(prev, i), At(prev, i - bpp))) % 256]
  }

  /** What reconstruction makes of byte i, filter by filter; a, b and c are left, above and upper left of it. */
  lemma ReconstructsByte(ft: Byte, raw: seq<Byte>, prev: seq<Byte>, bpp: nat, i: nat)
    requires bpp > 0 && i < |raw| <= |prev|
    ensures var r, x: int := UnfilterRow(ft, raw, prev, bpp), raw[i];
      var a: int, b: int := if i >= bpp then r[i - bpp] else 0, prev[i];
      var c: int := if i >= bpp then prev[i - bpp] else 0;
      && (ft == 0 ==> r[i] == x)
      && (ft == 1 ==> r[i] == (x + a) % 256)
      && (ft == 2 ==> r[i] == (x + b) % 256)
      && (ft == 3 ==> r[i] == (x + (a + b) / 2) % 256)
      && (ft == 4 ==> exists p :: Nearest(p, a, b, c) && r[i] == (x + p) % 256)
  {
    var r := UnfilterRow(ft, raw, prev, bpp);
    var a, b, c := At(r, i - bpp), At(prev, i), At(prev, i - bpp);
    RebuiltByte(ft, raw, prev, bpp, i);
    hide UnfilterRow, Paeth, Nearest;
    PaethIsNearest(a, b, c);
    assert Nearest(Paeth(a, b, c), a, b, c);
  }

  lemma RebuiltByte(ft: Byte, raw: seq<Byte>, prev: seq<Byte>, bpp: nat, i: nat)
    requires bpp > 0 && i < |raw|
    ensures var r, x: int := UnfilterRow(ft, raw, prev, bpp), raw[i];
      r[i] == (x + Predicted(ft, At(r, i - bpp), At(prev, i), At(prev, i - bpp))) % 256
  {
    var r, front := UnfilterRow(ft, raw, prev, bpp), UnfilterRow(ft, raw[..i], prev, bpp);
    UnfilterPrefix(ft, raw, prev, bpp, i);
    UnfilterPrefix(ft, raw, prev, bpp, i + 1);
    hide Predicted;
    assert raw[..i + 1][..i] == raw[..i] && At(r, i - bpp) == At(front, i - bpp);
    assert UnfilterRow(ft, raw[..i + 1], prev, bpp)[i] == r[i];
  }

  /** ... and what filtering makes of it. */
  lemma FiltersByte(ft: Byte, row: seq<Byte>, prev: seq<Byte>, bpp: nat, i: nat)
    requires bpp > 0 && i < |row| <= |prev|
    ensures var f, x: int := FilterRow(ft, row, prev, bpp), row[i];
      var a: int, b: int := if i >= bpp then row[i - bpp] else 0, prev[i];
      var c: int := if i >= bpp then prev[i - bpp] else 0;
      && (ft == 0 ==> f[i] == x)
      && (ft == 1 ==> f[i] == (x - a) % 256)
      && (ft == 2 ==> f[i] == (x - b) % 256)
      && (ft == 3 ==> f[i] == (x - (a + b) / 2) % 256)
      && (ft == 4 ==> exists p :: Nearest(p, a, b, c) && f[i] == (x - p) % 256)
  {
    var a, b, c := At(row, i - bpp), At(prev, i), At(prev, i - bpp);
    hide Paeth, Nearest;
    PaethIsNearest(a, b, c);
    assert Nearest(Paeth(a, b, c), a, b, c);
  }

  lemma {:induction false} UnfilterPrefix(ft: Byte, raw: seq<Byte>, prev: seq<Byte>, bpp: nat, n: nat)
    requires n <= |raw|
    ensures UnfilterRow(ft, raw[..n], prev, bpp) == UnfilterRow(ft, raw, prev, bpp)[..n]
    decreases |raw|
  {
    if n < |raw| {
      assert raw[..|raw| - 1][..n] == raw[..n];
      UnfilterPrefix(ft, raw[..|raw| - 1], prev, bpp, n);
    } else {
      assert raw[..n] == raw;
    }
  }

  lemma ModBack(x: Byte, p: Byte)
    ensures ((x - p) % 256 + p) % 256 == x
    ensures ((x + p) % 256 - p) % 256 == x
  {
  }

  /** Reconstruction inverts filtering ... */
  lemma {:induction false} UnfilterInverts(ft: Byte, row: seq<Byte>, prev: seq<Byte>, bpp: nat)
    requires bpp > 0
    ensures UnfilterRow(ft, FilterRow(ft, row, prev, bpp), prev, bpp) == row
    decreases |row|
  {
    if row != [] {
      var i := |row| - 1;
      var raw := FilterRow(ft, row, prev, bpp);
      FilterPrefix(ft, row, prev, bpp, i);
      UnfilterInverts(ft, row[..i], prev, bpp);
      hide Predicted;
      assert At(row[..i], i - bpp) == At(row, i - bpp);
      ModBack(row[i], Predicted(ft, At(row, i - bpp), At(prev, i), At(prev, i - bpp)));
      SameFrontAndLast(UnfilterRow(ft, raw, prev, bpp), row);
    }
  }

  /** ... and filtering inverts reconstruction, so no two filtered rows reconstruct alike. */
  lemma {:induction false} FilterInverts(ft: Byte, raw: seq<Byte>, prev: seq<Byte>, bpp: nat)
    requires bpp > 0
    ensures FilterRow(ft, UnfilterRow(ft, raw, prev, bpp), prev, bpp) == raw
    decreases |raw|
  {
    if raw != [] {
      var i := |raw| - 1;
      var row := UnfilterRow(ft, raw, prev, bpp);
      LastByteBack(ft, raw, prev, bpp);
      assert row[..i] == UnfilterRow(ft, raw[..i], prev, bpp);
      hide UnfilterRow;
      FilterPrefix(ft, row, prev, bpp, i);
      hide FilterRow;
      FilterInverts(ft, raw[..i], prev, bpp);
      SameFrontAndLast(FilterRow(ft, row, prev, bpp), raw);
    }
  }

  lemma FilterPrefix(ft: Byte, row: seq<Byte>, prev: seq<Byte>, bpp: nat, n: nat)
    requires n <= |row| && bpp > 0
    ensures FilterRow(ft, row, prev, bpp)[..n] == FilterRow(ft, row[..n], prev, bpp)
  {
    hide Predicted;
  }

  lemma LastByteBack(ft: Byte, raw: seq<Byte>, prev: seq<Byte>, bpp: nat)
    requires raw != [] && bpp > 0
    ensures FilterRow(ft, UnfilterRow(ft, raw, prev, bpp), prev, bpp)[|raw| - 1] == raw[|raw| - 1]
  {
    hide Predicted;
    var i := |raw| - 1;
    var row := UnfilterRow(ft, raw, prev, bpp);
    var front := UnfilterRow(ft, raw[..i], prev, bpp);
    assert At(front, i - bpp) == At(row, i - bpp);
    ModBack(raw[i], Predicted(ft, At(row, i - bpp), At(prev, i), At(prev, i - bpp)));
  }

  /** The next reconstructed byte, from the neighbours that the loop looks up. */
  lemma NextByte(ft: Byte, raw: seq<Byte>, front: seq<Byte>, prev: seq<Byte>, bpp: nat, index: nat,
                 left: Byte, up: Byte, upLeft: Byte)
    requires bpp > 0 && index < |raw| && index < |prev| && front == UnfilterRow(ft, raw[..index], prev, bpp)
    requires left == if index >= bpp then front[index - bpp] else 0
    requires up == prev[index] && upLeft == if index >= bpp then prev[index - bpp] else 0
    ensures UnfilterRow(ft, raw[..index + 1], prev, bpp)
         == front + [(raw[index] + Predicted(ft, left, up, upLeft)) % 256]
  {
    assert raw[..index + 1][..index] == raw[..index];
    hide Predicted;
  }

  /** unfilter_scanline: rewrites current in place; an unknown filter is noticed at the first byte. */
  method UnfilterScanline(current: array<Byte>, previous: array<Byte>, bpp: nat, ft: Byte) returns (ok: bool)
    requires current != previous && current.Length <= previous.Length && bpp > 0
    modifies current
    ensures ok <==> ft <= 4 || current.Length == 0
    ensures ok ==> current[..] == UnfilterRow(ft, old(current[..]), previous[..], bpp)
    ensures !ok ==> current[..] == old(current[..])
  {
    ghost var raw := current[..];
    ghost var prev := previous[..];
    if ft == 0 {
      NoFilter(raw, prev, bpp);
      return true;
    }
    assert raw[..0] == [];
    ghost var done := UnfilterRow(ft, raw[..0], prev, bpp);
    hide UnfilterRow, Paeth;
    for index := 0 to current.Length
      invariant done == UnfilterRow(ft, raw[..index], prev, bpp)
      invariant forall j :: 0 <= j < index ==> current[j] == done[j]
      invariant forall j :: index <= j < current.Length ==> current[j] == raw[j]
      invariant ft <= 4 || index == 0
    {
      var left: int := if index >= bpp then current[index - bpp] else 0;
      var up: int := previous[index];
      var upLeft: int := if index >= bpp then previous[index - bpp] else 0;
      NextByte(ft, raw, done, prev, bpp, index, left, up, upLeft);
      var rebuilt: Byte;
      if ft == 1 {
        rebuilt := (current[index] + left) % 256;
      } else if ft == 2 {
        rebuilt := (current[index] + up) % 256;
      } else if ft == 3 {
        rebuilt := (current[index] + (left + up) / 2) % 256;
      } else if ft == 4 {
        rebuilt := (current[index] + Paeth(left, up, upLeft)) % 256;
      } else {
        assert current[..] == raw;
        return false;
      }
      assert rebuilt == (raw[index] + Predicted(ft, left, up, upLeft)) % 256;
      hide Predicted;
      current[index] := rebuilt;
      done := done + [rebuilt];
    }
    assert raw[..current.Length] == raw;
    return true;
  }

  lemma {:induction false} NoFilter(raw: seq<Byte>, prev: seq<Byte>, bpp: nat)
    ensures UnfilterRow(0, raw, prev, bpp) == raw
  {
    if raw != [] {
      NoFilter(raw[..|raw| - 1], prev, bpp);
    }
  }
}
