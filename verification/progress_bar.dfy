/**
 * The progress bar: a fill width of `round((index + 1) / max(1, total) * 100)`
 * percent, which is not clamped, and a label "Question n / total" with
 * `n = min(index + 1, total)`, which is.
 */
module ProgressBar {

  /** The divisor of the fill: the total, or 1 when there are no questions. */
  function Divisor(total: int): (d: int)
    ensures d >= 1
    ensures total >= 1 ==> d == total
    ensures total < 1 ==> d == 1
  {
    if total >= 1 then total else 1
  }

  /**
   * The fill width in percent: the share of questions reached, times 100,
   * rounded half up, in exact arithmetic (rounding half up is the floor of
   * the value plus one half, and `/` on `int` with a positive divisor rounds
   * down).
   */
  function Percent(index: int, total: int): (p: int)
    ensures var d := Divisor(total);
      2 * d * p <= 200 * (index + 1) + d < 2 * d * (p + 1)
  {
    var d := Divisor(total);
    (200 * (index + 1) + d) / (2 * d)
  }

  /** The question number in the label: the index plus one, capped at the total. */
  function Label(index: int, total: int): (n: int)
    ensures n <= total && n <= index + 1
    ensures n == total || n == index + 1
  {
    if index + 1 <= total then index + 1 else total
  }

  /** Scaling by a positive factor keeps strict order. */
  lemma ScaledLess(k: int, a: int, b: int)
    requires k > 0
    ensures k * a < k * b <==> a < b
  {
    if a < b {
      assert k * b - k * a == k * (b - a);
    } else {
      assert k * a - k * b == k * (a - b);
    }
  }

  /** The last question fills the bar exactly. */
  lemma LastQuestionFull(total: int)
    requires total >= 1
    ensures Percent(total - 1, total) == 100
  {
    var k, p := 2 * total, Percent(total - 1, total);
    assert k * p <= 201 * total < k * (p + 1);
    assert k * 101 == 202 * total && k * 100 == 200 * total;
    ScaledLess(k, p, 101);
    ScaledLess(k, 100, p + 1);
  }

  /** For a fixed total, a later question never shows less progress. */
  lemma PercentMonotone(i: int, j: int, total: int)
    requires i <= j
    ensures Percent(i, total) <= Percent(j, total)
  {
    var k := 2 * Divisor(total);
    var p, q := Percent(i, total), Percent(j, total);
    assert k * p < k * (q + 1);
    ScaledLess(k, p, q + 1);
  }

  /** On a question of the bank the fill is between 0 and 100 percent. */
  lemma PercentInRange(index: int, total: int)
    requires 0 <= index < total
    ensures 0 <= Percent(index, total) <= 100
  {
    var k, p := 2 * total, Percent(index, total);
    assert k * 101 == 202 * total && k * 0 == 0;
    ScaledLess(k, p, 101);
    ScaledLess(k, 0, p + 1);
  }

  /**
   * The fill is not clamped: it exceeds 100 exactly when the unrounded value
   * reaches 100.5, while the label never exceeds the total.
   */
  lemma OverfullPercent(index: int, total: int)
    ensures Percent(index, total) > 100 <==> 200 * (index + 1) >= 201 * Divisor(total)
    ensures Label(index, total) <= total
  {
    var d := Divisor(total);
    var k, p := 2 * d, Percent(index, total);
    assert k * 101 == 202 * d;
    ScaledLess(k, 100, p);
    ScaledLess(k, p, 101);
  }

  /** An empty bank divides by one: the first index shows 100 percent and "Question 0 / 0". */
  lemma EmptyBank()
    ensures Percent(0, 0) == 100 && Label(0, 0) == 0
  {
  }
}
