/** Small shared vocabulary: optional values, results, and the two pieces of
    Python arithmetic and indexing that the rest of the model leans on. */
module Common {

  /** Python's `None` or a value. */
  datatype Option<+T> = None | Some(value: T)

  /** A value, or the exception the source raises instead of returning one. */
  datatype Result<+T, +E> = Ok(value: T) | Err(error: E)

  function Min(a: int, b: int): int { if a <= b then a else b }

  function Max(a: int, b: int): int { if a >= b then a else b }

  function MinR(a: real, b: real): real { if a <= b then a else b }

  function MaxR(a: real, b: real): real { if a >= b then a else b }

  /** Python's `int(x)` on a float: truncation toward zero. */
  function Trunc(x: real): (r: int)
    ensures 0.0 <= x ==> r as real <= x < r as real + 1.0
    ensures x < 0.0 ==> r as real - 1.0 < x <= r as real
  {
    if x >= 0.0 then x.Floor else -((-x).Floor)
  }

  /** Python's `math.ceil(a / b)` for positive integers. */
  function CeilDiv(a: int, b: int): (r: int)
    requires b > 0
    ensures (r - 1) * b < a <= r * b
  {
    (a + b - 1) / b
  }

  lemma MulMono(a: int, b: int, s: int)
    requires a <= b && s >= 0
    ensures a * s <= b * s
  {
    assert b * s - a * s == (b - a) * s;
  }

  /** The remainder of a division is the only one: `k = d * q + r` with
      `0 <= r < d` fixes `k % d`. */
  lemma ModOfSplit(k: int, d: int, q: int, r: int)
    requires d > 0 && 0 <= r < d && k == d * q + r
    ensures k % d == r
  {
    var q', r' := k / d, k % d;
    assert d * q + r == d * q' + r';
    if q' > q {
      assert (q' - q) * d == d * q' - d * q;
      MulMono(1, q' - q, d);
    } else if q' < q {
      assert (q - q') * d == d * q - d * q';
      MulMono(1, q - q', d);
    }
  }

  /** Where a Python slice bound lands in a sequence of length n: a negative
      bound counts from the end, and the result is clamped into [0, n]. */
  function SliceBound(i: int, n: nat): (r: nat)
    ensures r <= n
    ensures 0 <= i <= n ==> r == i
    ensures i > n ==> r == n
    ensures i < 0 ==> r == Max(0, n + i)
  {
    if i < 0 then (if n + i < 0 then 0 else n + i)
    else if i > n then n
    else i
  }

  /** Python's `s[a:b]`. */
  function PySlice<T>(s: seq<T>, a: int, b: int): (r: seq<T>)
    ensures var lo, hi := SliceBound(a, |s|), SliceBound(b, |s|);
            |r| == Max(0, hi - lo) &&
            forall k :: 0 <= k < |r| ==> r[k] == s[lo + k]
  {
    var lo, hi := SliceBound(a, |s|), SliceBound(b, |s|);
    if lo < hi then s[lo..hi] else []
  }

  /** Python's `s[a:]`. */
  function PySliceFrom<T>(s: seq<T>, a: int): (r: seq<T>)
    ensures r == s[SliceBound(a, |s|)..]
  {
    PySlice(s, a, |s|)
  }

  /** Python's `s[:b]`. */
  function PyPrefix<T>(s: seq<T>, b: int): (r: seq<T>)
    ensures r == s[..SliceBound(b, |s|)]
  {
    PySlice(s, 0, b)
  }
}
