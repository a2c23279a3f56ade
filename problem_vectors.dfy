/**
 * The problem the walkthrough poses: whether v1 = (2, 2, 7, -1), v2 = (3, -1, 2, 4) and
 * v3 = (1, 1, 3, 1) are linearly dependent. The walkthrough's correct route concludes that they
 * are independent (rank 3); this module proves that conclusion over the reals.
 */
module ProblemVectors {

  const V1: seq<real> := [2.0, 2.0, 7.0, -1.0]
  const V2: seq<real> := [3.0, -1.0, 2.0, 4.0]
  const V3: seq<real> := [1.0, 1.0, 3.0, 1.0]

  /** c1 v1 + c2 v2 + c3 v3, component by component. */
  function Combination(c1: real, c2: real, c3: real): (r: seq<real>)
    ensures |r| == 4
    ensures forall k :: 0 <= k < 4 ==> r[k] == c1 * V1[k] + c2 * V2[k] + c3 * V3[k]
  {
    seq(4, k requires 0 <= k < 4 => c1 * V1[k] + c2 * V2[k] + c3 * V3[k])
  }

  predicate IsZero(v: seq<real>) {
    forall k :: 0 <= k < |v| ==> v[k] == 0.0
  }

  /** The only relation c1 v1 + c2 v2 + c3 v3 = 0 is the trivial one: the vectors are
      linearly independent, as the conclusion step states. */
  lemma OnlyTrivialRelation(c1: real, c2: real, c3: real)
    ensures IsZero(Combination(c1, c2, c3)) <==> c1 == 0.0 && c2 == 0.0 && c3 == 0.0
  {
    var r := Combination(c1, c2, c3);
    if IsZero(r) {
      assert r[0] == 0.0 && r[1] == 0.0 && r[2] == 0.0;
      // 2c1 + 3c2 + c3 = 0, 2c1 - c2 + c3 = 0 and 7c1 + 2c2 + 3c3 = 0
      assert c2 == 0.0;
      assert c1 == 0.0;
    }
  }

  /** The answer "the vectors are linearly dependent" is wrong: no non-trivial relation exists. */
  lemma NotDependent()
    ensures !exists c1: real, c2: real, c3: real ::
      (c1 != 0.0 || c2 != 0.0 || c3 != 0.0) && IsZero(Combination(c1, c2, c3))
  {
    forall c1: real, c2: real, c3: real | IsZero(Combination(c1, c2, c3))
      ensures c1 == 0.0 && c2 == 0.0 && c3 == 0.0
    {
      OnlyTrivialRelation(c1, c2, c3);
    }
  }

  /** The determinant of a 3x3 matrix given by rows. */
  function Det3(a: seq<real>, b: seq<real>, c: seq<real>): real
    requires |a| == 3 && |b| == 3 && |c| == 3
  {
    a[0] * (b[1] * c[2] - b[2] * c[1])
    - a[1] * (b[0] * c[2] - b[2] * c[0])
    + a[2] * (b[0] * c[1] - b[1] * c[0])
  }

  /** The coefficient matrix of the first three equations c1 v1[k] + c2 v2[k] + c3 v3[k] = 0. */
  function MinorRow(k: nat): (row: seq<real>)
    requires k < 3
    ensures row == [V1[k], V2[k], V3[k]]
  {
    [V1[k], V2[k], V3[k]]
  }

  /** That 3x3 minor has determinant 4, so the coefficient matrix has rank 3, the number of
      vectors. */
  lemma MinorDeterminant()
    ensures Det3(MinorRow(0), MinorRow(1), MinorRow(2)) == 4.0
  {
  }

  /** The fourth equation is not needed: the solution of the first three already forces every
      coefficient to zero, which is why row reduction leaves one zero row. */
  lemma FirstThreeEquationsSuffice(c1: real, c2: real, c3: real)
    requires forall k :: 0 <= k < 3 ==> c1 * V1[k] + c2 * V2[k] + c3 * V3[k] == 0.0
    ensures c1 == 0.0 && c2 == 0.0 && c3 == 0.0
  {
    assert c1 * V1[0] + c2 * V2[0] + c3 * V3[0] == 0.0;
    assert c1 * V1[1] + c2 * V2[1] + c3 * V3[1] == 0.0;
    assert c1 * V1[2] + c2 * V2[2] + c3 * V3[2] == 0.0;
  }
}
