/** The module-name hash behind the module colour (`Logger.intHash`,
    src/logger.ts): a left fold with signed 32-bit wrap-around, reduced to a
    palette index with JavaScript's truncating remainder. */
module ModuleHash {
  import opened JsSemantics

  /** One step of the loop: `Math.imul(31, hash) + c | 0`. */
  function HashStep(hash: int, c: CodeUnit): (r: int)
    ensures IsInt32(r)
  {
    Wrap32(Imul(31, hash) + c)
  }

  /** The loop's final `hash`, folding the code units from the left. */
  function Fold(units: seq<CodeUnit>): (hash: int)
    ensures IsInt32(hash)
    decreases |units|
  {
    if |units| == 0 then 0 else HashStep(Fold(units[..|units| - 1]), units[|units| - 1])
  }

  /** Reference value of the hash without any wrap-around: the polynomial
      `sum of units[i] * 31^(n-1-i)`, evaluated by Horner's rule. */
  function Polynomial(units: seq<CodeUnit>): int
    decreases |units|
  {
    if |units| == 0 then 0 else 31 * Polynomial(units[..|units| - 1]) + units[|units| - 1]
  }

  /** Wrapping after every step is the same as wrapping the exact polynomial
      once: the fold computes `(sum of units[i] * 31^(n-1-i)) mod 2^32`, read
      as a signed 32-bit integer. */
  lemma {:induction false} FoldIsWrappedPolynomial(units: seq<CodeUnit>)
    ensures Fold(units) == Wrap32(Polynomial(units))
    decreases |units|
  {
    if |units| > 0 {
      var init := units[..|units| - 1];
      var c := units[|units| - 1];
      var h := Fold(init);
      var p := Polynomial(init);
      FoldIsWrappedPolynomial(init);
      assert (p - h) % TwoTo32 == 0;
      MultipleScaled(p - h, 31);
      assert 31 * (p - h) == 31 * p - 31 * h;
      var m := Imul(31, h);
      assert (31 * h - m) % TwoTo32 == 0;
      MultipleSum(31 * p - 31 * h, 31 * h - m);
      assert (31 * p + c) - (m + c) == (31 * p - 31 * h) + (31 * h - m);
      Wrap32Congruent(31 * p + c, m + c);
    }
  }

  /** `intHash(str, length)` without its cache:
      `(hash % length + length + str.length) % length` with JavaScript's `%`. */
  function IntHash(units: seq<CodeUnit>, length: int): (index: int)
    requires length > 0
    ensures 0 <= index < length
  {
    var hash := Fold(units);
    TruncRem(TruncRem(hash, length) + length + |units|, length)
  }

  /** The truncating remainders change intermediate values only: the index is
      the Euclidean remainder of `hash + str.length`. */
  lemma IntHashIsEuclidean(units: seq<CodeUnit>, length: int)
    requires length > 0
    ensures IntHash(units, length) == (Fold(units) + |units|) % length
  {
    TruncRemShift(Fold(units), length, |units|);
  }

  /** `(hash % n + n + extra) % n` with the truncating `%`, for `extra >= 0`,
      is the Euclidean `(hash + extra) % n`. */
  lemma TruncRemShift(hash: int, n: int, extra: nat)
    requires n > 0
    ensures TruncRem(TruncRem(hash, n) + n + extra, n) == (hash + extra) % n
  {
    var inner := TruncRem(hash, n);
    var q := TruncQuot(hash, n);
    var k := 1 - q;
    var sum := inner + n + extra;
    assert n * k == n - n * q;
    assert sum == (hash + extra) + n * k;
    ModOfShift(hash + extra, n, k);
  }

  /** One step of the fold on a non-empty sequence. */
  lemma FoldStep(units: seq<CodeUnit>, i: nat)
    requires 0 < i <= |units|
    ensures Fold(units[..i]) == HashStep(Fold(units[..i - 1]), units[i - 1])
  {
    assert units[..i][..i - 1] == units[..i - 1];
  }

  /** The code units of `logger`. */
  lemma LoggerUnits()
    ensures CodeUnits("logger") == [108, 111, 103, 103, 101, 114]
  {
    assert forall i :: 0 <= i < 6 ==> ("logger"[i] as int) < 0x1_0000;
  }

  /** A step's value is the exact `31 * h + c` less some multiple of 2^32,
      whichever lands in the signed 32-bit range. */
  lemma HashStepValue(h: int, c: CodeUnit, r: int, k: int)
    requires IsInt32(r) && 31 * h + c - r == TwoTo32 * k
    ensures HashStep(h, c) == r
  {
    var m := Imul(31, h);
    EuclideanModUnique(TwoTo32 * k, k, 0, TwoTo32);
    Wrap32Unique(31 * h + c, r);
    MultipleScaled(31 * h - m, -1);
    assert (m + c) - (31 * h + c) == -1 * (31 * h - m);
    Wrap32Congruent(m + c, 31 * h + c);
  }

  /** The fold over `logger`, step by step: the last step wraps around. */
  lemma LoggerFold()
    ensures Fold(CodeUnits("logger")) == -1097337456
  {
    var u: seq<CodeUnit> := [108, 111, 103, 103, 101, 114];
    LoggerUnits();
    assert u[..0] == [];
    FoldStep(u, 1);
    HashStepValue(0, 108, 108, 0);
    FoldStep(u, 2);
    HashStepValue(108, 111, 3459, 0);
    FoldStep(u, 3);
    HashStepValue(3459, 103, 107332, 0);
    FoldStep(u, 4);
    HashStepValue(107332, 103, 3327395, 0);
    FoldStep(u, 5);
    HashStepValue(3327395, 101, 103149346, 0);
    FoldStep(u, 6);
    assert u[..6] == u;
    HashStepValue(103149346, 114, -1097337456, 1);
  }

  /** The module name `logger` hashes to a negative value, where JavaScript's
      remainder (-6) and the Euclidean one (4) differ; both roads lead to the
      palette index 0. */
  lemma LoggerHashExample()
    ensures TruncRem(Fold(CodeUnits("logger")), 10) == -6
    ensures Fold(CodeUnits("logger")) % 10 == 4
    ensures IntHash(CodeUnits("logger"), 10) == 0
  {
    LoggerFold();
    LoggerUnits();
    var h := -1097337456;
    EuclideanModUnique(-h, 109733745, 6, 10);
    EuclideanModUnique(h, -109733746, 4, 10);
    assert TruncRem(h, 10) == -6;
    EuclideanModUnique(10, 1, 0, 10);
  }

  /** The loop of `intHash`, computing the same index as the fold. */
  method ComputeIntHash(units: seq<CodeUnit>, length: int) returns (index: int)
    requires length > 0
    ensures index == IntHash(units, length)
    ensures 0 <= index < length
  {
    var hash := 0;
    var i := 0;
    while i < |units|
      invariant 0 <= i <= |units|
      invariant hash == Fold(units[..i])
    {
      assert units[..i + 1][..i] == units[..i];
      hash := Wrap32(Imul(31, hash) + units[i]);
      i := i + 1;
    }
    assert units[..|units|] == units;
    index := TruncRem(TruncRem(hash, length) + length + |units|, length);
  }
}
