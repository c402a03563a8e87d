/**
 * The `approx` wrapper from nonstdlib/approx.py: an expected value and one
 * absolute tolerance, compared against an actual value either as numbers or
 * element-wise over two sequences.
 */
module Approx {
  import opened Wrappers
  import opened Seqs

  /** A compared value: a number, or an iterable of numbers. */
  datatype Value = Scalar(x: real) | Sequence(xs: seq<real>)

  /** The default `plus_or_minus`, 1e-5. */
  const DefaultTolerance: real := 0.00001

  /** An `approx` object: the fields set once by its constructor. */
  datatype Approx = Approx(expected: Value, plusOrMinus: real)

  /** `approx(expected, plus_or_minus=1e-5)`. */
  function MakeApprox(expected: Value, plusOrMinus: real := DefaultTolerance): (a: Approx)
    ensures a.expected == expected && a.plusOrMinus == plusOrMinus
  {
    Approx(expected, plusOrMinus)
  }

  function Abs(r: real): real {
    if r < 0.0 then -r else r
  }

  /** `abs(a - x) < eps`. */
  predicate Close(a: real, x: real, eps: real) {
    Abs(a - x) < eps
  }

  /**
   * `all(abs(a - x) < eps for a, x in zip(actual, expected))`, evaluated pair
   * by pair until the shorter side runs out.
   */
  function ZipAllClose(actual: seq<real>, expected: seq<real>, eps: real): (r: bool)
    ensures r <==> forall i :: 0 <= i < Min(|actual|, |expected|) ==> Close(actual[i], expected[i], eps)
  {
    if |actual| == 0 || |expected| == 0 then true
    else
      var rest := ZipAllClose(actual[1..], expected[1..], eps);
      assert forall i :: 1 <= i < Min(|actual|, |expected|) ==>
        actual[1..][i - 1] == actual[i] && expected[1..][i - 1] == expected[i];
      Close(actual[0], expected[0], eps) && rest
  }

  /**
   * `approx.__eq__(actual)`: two iterables are compared element-wise over
   * `zip`; two numbers by the strict tolerance test; a number against an
   * iterable makes the subtraction raise `TypeError`.
   */
  function Equals(self: Approx, actual: Value): (r: Result<bool>)
    ensures r.Err? <==> actual.Scalar? != self.expected.Scalar?
    ensures r.Err? ==> r.error == TypeError
  {
    var eps := self.plusOrMinus;
    match (actual, self.expected)
    case (Sequence(a), Sequence(x)) => Ok(ZipAllClose(a, x, eps))
    case (Scalar(a), Scalar(x)) => Ok(Close(a, x, eps))
    case _ => Err(TypeError)
  }

  /** The scalar test is strict: a difference of exactly the tolerance is unequal. */
  lemma ScalarBoundary(e: real, eps: real)
    ensures Equals(Approx(Scalar(e), eps), Scalar(e + eps)) == Ok(false)
    ensures Equals(Approx(Scalar(e), eps), Scalar(e - eps)) == Ok(false)
    ensures eps > 0.0 ==> Equals(Approx(Scalar(e), eps), Scalar(e + eps / 2.0)) == Ok(true)
  {
  }

  /** Swapping the actual and the expected value gives the same answer. */
  lemma EqualsSymmetric(a: Value, x: Value, eps: real)
    ensures Equals(Approx(x, eps), a) == Equals(Approx(a, eps), x)
  {
    if a.Sequence? && x.Sequence? {
      ZipAllSymmetric(a.xs, x.xs, eps);
    }
  }

  lemma ZipAllSymmetric(a: seq<real>, x: seq<real>, eps: real)
    ensures ZipAllClose(a, x, eps) == ZipAllClose(x, a, eps)
  {
    assert forall i :: 0 <= i < Min(|a|, |x|) ==> Abs(a[i] - x[i]) == Abs(x[i] - a[i]);
  }

  /** A number equals itself exactly when the tolerance is positive. */
  lemma ScalarReflexive(e: real, eps: real)
    ensures Equals(Approx(Scalar(e), eps), Scalar(e)) == Ok(eps > 0.0)
  {
  }

  /**
   * A non-empty sequence equals itself exactly when the tolerance is
   * positive; with a tolerance of zero or less, nothing non-empty is equal.
   */
  lemma SequenceReflexive(xs: seq<real>, eps: real)
    requires |xs| > 0
    ensures Equals(Approx(Sequence(xs), eps), Sequence(xs)) == Ok(eps > 0.0)
  {
    if eps <= 0.0 {
      assert !Close(xs[0], xs[0], eps);
    }
  }

  /**
   * `zip` stops at the shorter side: a sequence equals any extension of a
   * sequence it equals, so a length mismatch goes unnoticed.
   */
  lemma LengthMismatchUndetected(a: seq<real>, x: seq<real>, extra: seq<real>, eps: real)
    requires |a| <= |x|
    ensures Equals(Approx(Sequence(x), eps), Sequence(a))
         == Equals(Approx(Sequence(x + extra), eps), Sequence(a))
  {
    assert forall i :: 0 <= i < |a| ==> (x + extra)[i] == x[i];
  }

  /** The empty sequence equals every sequence, whatever the tolerance. */
  lemma EmptyEqualsAll(x: seq<real>, eps: real)
    ensures Equals(Approx(Sequence(x), eps), Sequence([])) == Ok(true)
    ensures Equals(Approx(Sequence([]), eps), Sequence(x)) == Ok(true)
  {
  }
}
