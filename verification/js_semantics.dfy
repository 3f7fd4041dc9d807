/** The few pieces of JavaScript value semantics the logger depends on:
    `undefined` and the `??` operator, the signed 32-bit wrap-around of `| 0`
    and `Math.imul`, the truncating remainder `%`, and the UTF-16 code units
    that `charCodeAt` and `length` see in a string. */
module JsSemantics {

  /** A value that may be `undefined`. */
  datatype Option<+T> = None | Some(value: T)

  /** The nullish-coalescing operator `a ?? b`. */
  function Coalesce<T>(a: Option<T>, b: Option<T>): Option<T>
  {
    if a.Some? then a else b
  }

  const TwoTo31: int := 0x8000_0000
  const TwoTo32: int := 0x1_0000_0000

  predicate IsInt32(x: int)
  {
    -TwoTo31 <= x < TwoTo31
  }

  /** ToInt32 of an integral number, as performed by `x | 0`: the unique
      signed 32-bit integer congruent to `x` modulo 2^32. */
  function Wrap32(x: int): (r: int)
    ensures IsInt32(r)
    ensures (x - r) % TwoTo32 == 0
    ensures IsInt32(x) ==> r == x
  {
    (x + TwoTo31) % TwoTo32 - TwoTo31
  }

  /** `Math.imul(a, b)`: the low 32 bits of the product, read as signed. */
  function Imul(a: int, b: int): (r: int)
    ensures IsInt32(r)
    ensures (a * b - r) % TwoTo32 == 0
  {
    Wrap32(a * b)
  }

  /** The quotient JavaScript's `%` pairs with: `a / n` truncated toward zero. */
  function TruncQuot(a: int, n: int): int
    requires n > 0
  {
    if a >= 0 then a / n else -((-a) / n)
  }

  /** JavaScript's `a % n` on integral numbers, for a positive divisor: the
      remainder of the division truncated toward zero, which takes the sign of
      the dividend (Dafny's own `%` is Euclidean and never negative). */
  function TruncRem(a: int, n: int): (r: int)
    requires n > 0
    ensures a >= 0 ==> 0 <= r < n
    ensures a < 0 ==> -n < r <= 0
    ensures a == n * TruncQuot(a, n) + r
  {
    if a >= 0 then a % n else -((-a) % n)
  }

  /** A multiple of 2^32 plus a multiple of 2^32 is a multiple of 2^32. */
  lemma MultipleSum(a: int, b: int)
    requires a % TwoTo32 == 0 && b % TwoTo32 == 0
    ensures (a + b) % TwoTo32 == 0
  {
    assert a == TwoTo32 * (a / TwoTo32);
    assert b == TwoTo32 * (b / TwoTo32);
    assert a + b == TwoTo32 * (a / TwoTo32 + b / TwoTo32);
  }

  /** Any integer multiple of a multiple of 2^32 is again one. */
  lemma MultipleScaled(a: int, k: int)
    requires a % TwoTo32 == 0
    ensures (k * a) % TwoTo32 == 0
  {
    var q := a / TwoTo32;
    assert a == TwoTo32 * q;
    assert k * a == TwoTo32 * (k * q);
  }

  /** Wrap32 is the ONLY signed 32-bit integer congruent to its argument. */
  lemma {:induction false} Wrap32Unique(x: int, r: int)
    requires IsInt32(r) && (x - r) % TwoTo32 == 0
    ensures Wrap32(x) == r
  {
    var w := Wrap32(x);
    assert (x - w) % TwoTo32 == 0;
    MultipleScaled(x - r, -1);
    MultipleSum(x - w, r - x);
    var d := r - w;
    assert d % TwoTo32 == 0;
    assert -TwoTo32 < d < TwoTo32;
    assert d == TwoTo32 * (d / TwoTo32);
  }

  /** Congruent arguments wrap to the same 32-bit value. */
  lemma Wrap32Congruent(x: int, y: int)
    requires (x - y) % TwoTo32 == 0
    ensures Wrap32(x) == Wrap32(y)
  {
    var w := Wrap32(y);
    MultipleSum(x - y, y - w);
    Wrap32Unique(x, w);
  }

  /** A positive number times a positive integer is at least that number. */
  lemma {:induction false} MulAtLeast(n: int, k: int)
    requires n > 0 && k >= 1
    ensures n * k >= n
    decreases k
  {
    if k > 1 {
      MulAtLeast(n, k - 1);
      assert n * k == n * (k - 1) + n;
    }
  }

  /** Euclidean remainder is determined by any decomposition with a remainder in range. */
  lemma EuclideanModUnique(a: int, q: int, r: int, n: int)
    requires n > 0 && 0 <= r < n && a == n * q + r
    ensures a % n == r
  {
    var q' := a / n;
    var r' := a % n;
    assert a == n * q' + r';
    var d := q - q';
    assert n * q - n * q' == n * d;
    assert n * d == r' - r;
    if d >= 1 {
      MulAtLeast(n, d);
    } else if d <= -1 {
      MulAtLeast(n, -d);
    }
  }

  /** Adding a multiple of n leaves the Euclidean remainder alone. */
  lemma ModOfShift(x: int, n: int, k: int)
    requires n > 0
    ensures (x + n * k) % n == x % n
  {
    var q := x / n;
    assert x == n * q + x % n;
    assert n * (q + k) == n * q + n * k;
    EuclideanModUnique(x + n * k, q + k, x % n, n);
  }

  /** A UTF-16 code unit, as returned by `charCodeAt`. */
  type CodeUnit = x: int | 0 <= x < 0x1_0000

  /** The UTF-16 encoding of one Unicode scalar value: one code unit inside
      the Basic Multilingual Plane, a surrogate pair above it. */
  function Utf16(c: char): (u: seq<CodeUnit>)
    ensures 1 <= |u| <= 2
    ensures |u| == 1 <==> (c as int) < 0x1_0000
    ensures |u| == 1 ==> u[0] == c as int
  {
    var v := c as int;
    if v < 0x1_0000 then [v]
    else [0xD800 + (v - 0x1_0000) / 0x400, 0xDC00 + (v - 0x1_0000) % 0x400]
  }

  /** The code units a well-formed JavaScript string holds (one without
      unpaired surrogates, which a `char` cannot express): `s.length` is their number and
      `s.charCodeAt(i)` is the i-th of them. */
  function CodeUnits(s: string): (u: seq<CodeUnit>)
    ensures |u| >= |s|
    ensures (forall i :: 0 <= i < |s| ==> (s[i] as int) < 0x1_0000) ==>
              |u| == |s| && forall i :: 0 <= i < |s| ==> u[i] == s[i] as int
  {
    if |s| == 0 then [] else Utf16(s[0]) + CodeUnits(s[1..])
  }

  /** `s.length === 1`: a single character inside the Basic Multilingual Plane
      (a character above it takes two code units). */
  predicate JsLengthIsOne(s: string)
  {
    |s| == 1 && (s[0] as int) < 0x1_0000
  }

  /** The direct test agrees with counting the code units. */
  lemma JsLengthIsOneMeaning(s: string)
    ensures JsLengthIsOne(s) <==> |CodeUnits(s)| == 1
  {
    if |s| == 1 {
      assert CodeUnits(s) == Utf16(s[0]) + CodeUnits(s[1..]);
    }
  }
}
