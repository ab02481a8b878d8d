/** The "step i of n" percentage both the theory page and the quiz page show in their header. */
module Percent {

  /** `((index + 1) / count) * 100` on exact reals. */
  function StepPercent(index: int, count: int): (p: real)
    requires count > 0
    ensures 0 <= index < count ==> 0.0 < p <= 100.0
    ensures p == 100.0 <==> index == count - 1
    ensures p * count as real == (index + 1) as real * 100.0
  {
    var p := ((index + 1) as real / count as real) * 100.0;
    StepBounds(index, count);
    p
  }

  lemma StepBounds(index: int, count: int)
    requires count > 0
    ensures var p := ((index + 1) as real / count as real) * 100.0;
      && p * count as real == (index + 1) as real * 100.0
      && (0 <= index < count ==> 0.0 < p <= 100.0)
      && (p == 100.0 <==> index == count - 1)
  {
    var n := count as real;
    var q := (index + 1) as real / n;
    assert q * n == (index + 1) as real;
    if 0 <= index < count {
      assert 0.0 < q <= 1.0;
    }
    if q == 1.0 {
      assert (index + 1) as real == n;
    }
  }
}
