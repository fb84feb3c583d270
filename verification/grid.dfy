/** The Cartesian grid of axis indexes, enumerated by one flat index. */
module Grid {

  /** The number of points of the grid. */
  function Size(counts: seq<nat>): nat {
    if |counts| == 0 then 1 else Size(counts[..|counts| - 1]) * counts[|counts| - 1]
  }

  predicate Positive(counts: seq<nat>) {
    forall i :: 0 <= i < |counts| ==> counts[i] > 0
  }

  predicate InGrid(counts: seq<nat>, indexes: seq<nat>) {
    |indexes| == |counts| && forall i :: 0 <= i < |counts| ==> indexes[i] < counts[i]
  }

  /** The indexes of a flat position: the last axis varies fastest. */
  function Decode(counts: seq<nat>, flat: nat): (indexes: seq<nat>)
    requires Positive(counts)
    ensures |indexes| == |counts|
  {
    if |counts| == 0 then []
    else
      var last := counts[|counts| - 1];
      Decode(counts[..|counts| - 1], flat / last) + [flat % last]
  }

  /** The flat position of a tuple of indexes. */
  function Encode(counts: seq<nat>, indexes: seq<nat>): nat
    requires |indexes| == |counts|
  {
    if |counts| == 0 then 0
    else
      var n := |counts| - 1;
      Encode(counts[..n], indexes[..n]) * counts[n] + indexes[n]
  }

  /** Peels the axes off a flat index, the last one first. */
  method DecodeFlatIndex(counts: seq<nat>, flat: nat) returns (axisIndexes: array<nat>)
    requires Positive(counts)
    ensures fresh(axisIndexes) && axisIndexes[..] == Decode(counts, flat)
  {
    axisIndexes := new nat[|counts|];
    var remainder := flat;
    var axis := |counts|;
    assert counts[..axis] == counts;
    while axis > 0
      invariant 0 <= axis <= |counts| && axisIndexes.Length == |counts|
      invariant Decode(counts, flat) == Decode(counts[..axis], remainder) + axisIndexes[axis..]
    {
      ghost var before, tail := remainder, axisIndexes[axis..];
      axis := axis - 1;
      axisIndexes[axis] := remainder % counts[axis];
      remainder := remainder / counts[axis];
      assert counts[..axis + 1][..axis] == counts[..axis];
      assert axisIndexes[axis..] == [before % counts[axis]] + tail;
    }
  }

  lemma DivisionSplits(a: nat, c: nat)
    requires c > 0
    ensures a / c * c + a % c == a
  {
  }

  lemma MultipleGrows(d: int, c: int)
    requires c >= 0
    ensures d >= 1 ==> d * c >= c
    ensures d <= -1 ==> d * c <= -c
  {
  }

  lemma DivisionIsUnique(q: nat, r: nat, c: nat)
    requires r < c
    ensures (q * c + r) / c == q && (q * c + r) % c == r
  {
    var a := q * c + r;
    var d := a / c - q;
    assert d * c == a / c * c - q * c == r - a % c;
    MultipleGrows(d, c);
  }

  lemma MultiplesOrdered(x: nat, y: nat, c: nat)
    ensures x >= y ==> x * c >= y * c
  {
    MultipleGrows(x - y, c);
    assert (x - y) * c == x * c - y * c;
  }

  lemma QuotientBelow(a: nat, b: nat, c: nat)
    requires c > 0 && a < b * c
    ensures a / c < b
  {
    DivisionSplits(a, c);
    MultiplesOrdered(a / c, b, c);
  }

  /** Every flat index below the size decodes to a tuple of the grid, and encodes back. */
  lemma {:induction false} EncodeDecode(counts: seq<nat>, flat: nat)
    requires Positive(counts) && flat < Size(counts)
    ensures InGrid(counts, Decode(counts, flat)) && Encode(counts, Decode(counts, flat)) == flat
  {
    if |counts| > 0 {
      var n := |counts| - 1;
      QuotientBelow(flat, Size(counts[..n]), counts[n]);
      EncodeDecode(counts[..n], flat / counts[n]);
      assert Decode(counts, flat)[..n] == Decode(counts[..n], flat / counts[n]);
      DivisionSplits(flat, counts[n]);
    }
  }

  lemma DigitAppended(before: nat, digit: nat, c: nat, size: nat)
    requires digit < c && before < size
    ensures (before * c + digit) / c == before && (before * c + digit) % c == digit
    ensures before * c + digit < size * c
  {
    DivisionIsUnique(before, digit, c);
    MultiplesOrdered(size, before + 1, c);
    assert (before + 1) * c == before * c + c;
  }

  /** Every tuple of the grid has a flat index below the size, and is what that index decodes to. */
  lemma {:induction false} DecodeEncode(counts: seq<nat>, indexes: seq<nat>)
    requires InGrid(counts, indexes)
    ensures Positive(counts) && Encode(counts, indexes) < Size(counts)
    ensures Decode(counts, Encode(counts, indexes)) == indexes
  {
    if |counts| > 0 {
      var n := |counts| - 1;
      var before := Encode(counts[..n], indexes[..n]);
      assert InGrid(counts[..n], indexes[..n]);
      DecodeEncode(counts[..n], indexes[..n]);
      DigitAppended(before, indexes[n], counts[n], Size(counts[..n]));
      assert indexes == indexes[..n] + [indexes[n]];
    }
  }

  /** Tuples in lexicographic order, the first declared axis being the most significant. */
  predicate Precedes(a: seq<nat>, b: seq<nat>) {
    |a| == |b| && exists k :: 0 <= k < |a| && a[..k] == b[..k] && a[k] < b[k]
  }

  lemma QuotientMonotone(a: nat, b: nat, c: nat)
    requires c > 0 && a < b
    ensures a / c < b / c || (a / c == b / c && a % c < b % c)
  {
    DivisionSplits(a, c);
    DivisionSplits(b, c);
    MultiplesOrdered(a / c, b / c + 1, c);
    assert (b / c + 1) * c == b / c * c + c;
  }

  lemma PrecedesExtends(a: seq<nat>, b: seq<nat>, i: nat, j: nat)
    requires Precedes(a, b) || (a == b && i < j)
    ensures Precedes(a + [i], b + [j])
  {
    if a == b {
      assert (a + [i])[..|a|] == a == (b + [j])[..|b|];
    } else {
      var k :| 0 <= k < |a| && a[..k] == b[..k] && a[k] < b[k];
      assert (a + [i])[..k] == a[..k] && (b + [j])[..k] == b[..k];
    }
  }

  /** The enumeration is in lexicographic order. */
  lemma {:induction false} DecodeIsMonotone(counts: seq<nat>, a: nat, b: nat)
    requires Positive(counts) && a < b < Size(counts)
    ensures Precedes(Decode(counts, a), Decode(counts, b))
  {
    if |counts| > 0 {
      var n := |counts| - 1;
      var c := counts[n];
      QuotientMonotone(a, b, c);
      QuotientBelow(b, Size(counts[..n]), c);
      if a / c < b / c { DecodeIsMonotone(counts[..n], a / c, b / c); }
      PrecedesExtends(Decode(counts[..n], a / c), Decode(counts[..n], b / c), a % c, b % c);
    }
  }

  /** The flat indexes enumerate the grid: the decoding loop is a bijection from [0, Size) to the
      Cartesian product of the axes, in lexicographic order. */
  lemma EnumeratesGrid(counts: seq<nat>)
    requires Positive(counts)
    ensures forall flat | 0 <= flat < Size(counts) ::
      InGrid(counts, Decode(counts, flat)) && Encode(counts, Decode(counts, flat)) == flat
    ensures forall indexes | InGrid(counts, indexes) ::
      Encode(counts, indexes) < Size(counts) && Decode(counts, Encode(counts, indexes)) == indexes
    ensures forall a, b | 0 <= a < b < Size(counts) :: Precedes(Decode(counts, a), Decode(counts, b))
  {
    forall flat | 0 <= flat < Size(counts)
      ensures InGrid(counts, Decode(counts, flat)) && Encode(counts, Decode(counts, flat)) == flat
    {
      EncodeDecode(counts, flat);
    }
    forall indexes | InGrid(counts, indexes)
      ensures Encode(counts, indexes) < Size(counts) && Decode(counts, Encode(counts, indexes)) == indexes
    {
      DecodeEncode(counts, indexes);
    }
    forall a, b | 0 <= a < b < Size(counts) ensures Precedes(Decode(counts, a), Decode(counts, b)) {
      DecodeIsMonotone(counts, a, b);
    }
  }
}
