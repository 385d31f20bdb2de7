/** The bits of NumPy and Python semantics that the crop stage relies on:
    storing a float into an `int32` array element, and slicing a sequence
    with `start:stop`. */
module Numeric {

  const MinInt32: int := -0x8000_0000
  const MaxInt32: int := 0x7FFF_FFFF

  /** NumPy's 32-bit signed integer. */
  newtype int32 = x: int | -0x8000_0000 <= x < 0x8000_0000

  predicate InInt32Range(x: int) {
    MinInt32 <= x <= MaxInt32
  }

  function RealMax(a: real, b: real): real { if a >= b then a else b }
  function RealMin(a: real, b: real): real { if a <= b then a else b }

  /** The C conversion from floating point to integer: rounds toward zero. */
  function Trunc(v: real): (t: int)
    ensures 0.0 <= v ==> 0 <= t && t as real <= v < t as real + 1.0
    ensures v < 0.0 ==> t <= 0 && t as real - 1.0 < v <= t as real
  {
    if v >= 0.0 then v.Floor else -((-v).Floor)
  }

  /** Storing a float into an `int32` array element: the value is truncated
      toward zero.  A truncated value outside the 32-bit range has no defined
      result in C; the model takes the value x86 hardware produces, the most
      negative `int32`. */
  function ToInt32(v: real): (r: int32)
    // the store never moves a value away from zero on the positive side,
    // so a value below a non-negative bound is stored below that bound
    ensures r as int <= 0 || r as real <= v
    // a non-negative value is stored as non-negative exactly when it is below 2^31
    ensures 0.0 <= v ==> (0 <= r as int <==> v < (MaxInt32 + 1) as real)
  {
    var t := Trunc(v);
    if InInt32Range(t) then t as int32 else MinInt32 as int32
  }

  /** The half-open index range `[lo, hi)` a Python slice picks out. */
  datatype Extent = Extent(lo: nat, hi: nat) {
    function Length(): nat { if lo <= hi then hi - lo else 0 }
  }

  /** How Python reads one slice bound of a sequence of length `n`: a negative
      bound counts from the end, and the result is clamped to `[0, n]`. */
  function SliceBound(n: nat, i: int): (b: nat)
    ensures b <= n
  {
    if i < 0 then (if i + n < 0 then 0 else i + n)
    else if i > n then n
    else i
  }

  /** The indices `s[start:stop]` selects from a sequence of length `n`; a
      stop at or before the start selects nothing. */
  function PySlice(n: nat, start: int, stop: int): (e: Extent)
    ensures e.lo <= e.hi <= n
    ensures 0 <= start <= stop <= n ==> e == Extent(start, stop)
    ensures e.Length() == 0 <==> SliceBound(n, stop) <= SliceBound(n, start)
    // a negative stop no further back than the length is read from the end
    ensures 0 <= start && -(n as int) <= stop < 0 && start <= n + stop ==> e == Extent(start, n + stop)
    ensures 0 <= start && -(n as int) <= stop < 0 && n + stop < start ==> e.Length() == 0
    // a stop at zero, or at or beyond the length backwards, selects nothing
    ensures stop == 0 || stop <= -(n as int) ==> e.Length() == 0
  {
    var lo := SliceBound(n, start);
    var hi := SliceBound(n, stop);
    Extent(lo, if hi < lo then lo else hi)
  }

  /** A negative value stored as an `int32` slice stop, for a row of length
      `n` that fits in 32 bits.  A value in `(-1, 0)` truncates to 0 and a
      value at or beyond `-n` reads as 0, so both select nothing; a value in
      `(-n, -1]` is stored negative and selects up to `n` plus that value. */
  lemma {:induction false} NegativeStop(n: nat, start: int, v: real)
    requires n <= MaxInt32 && 0 <= start
    requires v < 0.0
    ensures var stop := ToInt32(v) as int;
      var e := PySlice(n, start, stop);
      && stop <= 0
      && (-(n as real) < v <= -1.0 ==>
            && stop == Trunc(v) && -(n as int) < stop < 0
            && (start <= n + stop ==> e == Extent(start, n + stop))
            && (n + stop < start ==> e.Length() == 0))
      && (-1.0 < v || v <= -(n as real) ==> e.Length() == 0)
  {
    var t := Trunc(v);
    assert t <= 0 && t as real - 1.0 < v <= t as real;
    if -1.0 < v {
      assert t == 0;
    } else if v <= -(n as real) {
      assert t <= -(n as int);
    } else if v <= -1.0 {
      assert -(n as int) < t < 0;
    }
  }
}
