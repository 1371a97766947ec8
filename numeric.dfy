/** Python's integer conversions and slice arithmetic, written out over
    Dafny's unbounded integers and exact reals. */
module Numeric {

  function MinI(a: int, b: int): int { if a <= b then a else b }
  function MaxI(a: int, b: int): int { if a >= b then a else b }
  function MinR(a: real, b: real): real { if a <= b then a else b }
  function MaxR(a: real, b: real): real { if a >= b then a else b }

  /** Python's `int(x)` on a float: truncation toward zero. */
  function Trunc(x: real): (n: int)
    ensures 0.0 <= x ==> n as real <= x < n as real + 1.0
    ensures x < 0.0 ==> n as real - 1.0 < x <= n as real
    ensures 0.0 <= x ==> 0 <= n
  {
    if x >= 0.0 then x.Floor else -((-x).Floor)
  }

  lemma TruncOfInt(n: int)
    ensures Trunc(n as real) == n
  {
  }

  /** Truncation is monotone. */
  lemma TruncMonotone(x: real, y: real)
    requires x <= y
    ensures Trunc(x) <= Trunc(y)
  {
  }

  /** `math.ceil(a / b)` for a positive divisor. */
  function CeilDiv(a: int, b: int): (c: int)
    requires b > 0
    ensures b * (c - 1) < a <= b * c
  {
    -((-a) / b)
  }

  /** One bound of a Python slice `s[start:stop]` on a sequence of length
      `len`: a negative bound counts from the end, and the result is clipped
      to `[0, len]`. */
  function SliceIndex(i: int, len: nat): (k: nat)
    ensures k <= len
    ensures 0 <= i ==> k == MinI(i, len)
    ensures i < 0 ==> k == MaxI(0, i + len)
  {
    if i < 0 then (if i + len < 0 then 0 else i + len)
    else if i > len then len
    else i
  }

  /** The half-open range `[lo, hi)` that `s[start:stop]` selects. */
  function SliceBounds(start: int, stop: int, len: nat): (r: (nat, nat))
    ensures r.0 <= r.1 <= len
  {
    var lo := SliceIndex(start, len);
    var hi := SliceIndex(stop, len);
    (lo, if hi < lo then lo else hi)
  }

  /** The number of elements `s[start:stop]` selects. */
  function SliceLen(start: int, stop: int, len: nat): (n: nat)
    ensures n <= len
  {
    var r := SliceBounds(start, stop, len);
    r.1 - r.0
  }

  /** Python's `s[:stop]`. */
  function Take<T>(s: seq<T>, stop: int): (r: seq<T>)
    ensures 0 <= stop ==> r == s[..MinI(stop, |s|)]
    ensures stop < 0 ==> r == s[..MaxI(0, |s| + stop)]
  {
    var b := SliceBounds(0, stop, |s|);
    s[b.0..b.1]
  }

  /** With non-negative bounds a slice is the plain clipped range. */
  lemma SliceOfNonNegative(start: int, stop: int, len: nat)
    requires 0 <= start && 0 <= stop
    ensures SliceLen(start, stop, len) == MaxI(0, MinI(stop, len) - MinI(start, len))
  {
  }
}
