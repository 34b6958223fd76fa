/**
 * The progress line of the airdrop screen: the percentage of completed tasks
 * and the ten-block bar, both rounded the way `Math.round` rounds
 * (halves go up).
 */
module Progress {
  import opened Wrappers
  import opened Text

  const BarLength: nat := 10
  const FilledChar: char := '▓'
  const EmptyChar: char := '░'

  /**
   * `Math.round(n / d)` for n >= 0 and d > 0: the integer nearest to n/d,
   * a half rounding up.
   */
  function RoundHalfUp(n: nat, d: nat): (r: nat)
    requires d > 0
    ensures (2 * r - 1) * d <= 2 * n < (2 * r + 1) * d
  {
    var q := (2 * n + d) / (2 * d);
    DivBounds(2 * n + d, 2 * d);
    q
  }

  lemma DivBounds(a: nat, b: nat)
    requires b > 0
    ensures b * (a / b) <= a < b * (a / b) + b
  {
  }

  /** The bounds in RoundHalfUp's contract pin the result down: there is one such integer. */
  lemma RoundHalfUpUnique(n: nat, d: nat, r: nat)
    requires d > 0
    requires (2 * r - 1) * d <= 2 * n < (2 * r + 1) * d
    ensures RoundHalfUp(n, d) == r
  {
    var q := RoundHalfUp(n, d);
    if q < r {
      // (2q + 1) d <= (2r - 1) d <= 2n, contradicting 2n < (2q + 1) d
      MulMonotone(2 * q + 1, 2 * r - 1, d);
    } else if q > r {
      MulMonotone(2 * r + 1, 2 * q - 1, d);
    }
  }

  lemma MulMonotone(a: int, b: int, d: nat)
    requires a <= b
    ensures a * d <= b * d
  {
  }

  /**
   * `Math.round((completed / total) * 100)`; with no rows at all JavaScript
   * computes 0/0, NaN, shown here as None.
   */
  function Percent(completed: nat, total: nat): (p: Option<nat>)
    ensures p.None? <==> total == 0
    ensures total > 0 && completed <= total ==> p.value <= 100
    ensures total > 0 && completed == total ==> p == Some(100)
    ensures total > 0 && completed == 0 ==> p == Some(0)
  {
    if total == 0 then None
    else
      PercentBounds(completed, total);
      Some(RoundHalfUp(100 * completed, total))
  }

  lemma PercentBounds(completed: nat, total: nat)
    requires total > 0
    ensures completed <= total ==> RoundHalfUp(100 * completed, total) <= 100
    ensures completed == total ==> RoundHalfUp(100 * completed, total) == 100
    ensures completed == 0 ==> RoundHalfUp(100 * completed, total) == 0
  {
    var r := RoundHalfUp(100 * completed, total);
    if completed <= total && r > 100 {
      // 201 total <= (2 r - 1) total <= 200 completed <= 200 total
      MulMonotone(201, 2 * r - 1, total);
    }
    if completed == total {
      RoundHalfUpUnique(100 * completed, total, 100);
    }
    if completed == 0 {
      RoundHalfUpUnique(0, total, 0);
    }
  }

  /** With fewer than 200 tasks the bar reads 100% exactly when every task is done. */
  lemma FullPercentIffAllDone(completed: nat, total: nat)
    requires 0 < total < 200 && completed <= total
    ensures Percent(completed, total) == Some(100) <==> completed == total
  {
    if completed < total {
      // 200 * completed <= 200 * total - 200 < 199 * total, too little to round to 100
      assert 2 * (100 * completed) < (2 * 100 - 1) * total;
    }
  }

  /** From 200 tasks on, one missing task can still round up to 100%. */
  lemma RoundsUpToFull()
    ensures Percent(199, 200) == Some(100)
  {
    RoundHalfUpUnique(100 * 199, 200, 100);
  }

  /** More completed tasks never show a lower percentage. */
  lemma PercentMonotone(c1: nat, c2: nat, total: nat)
    requires 0 < total && c1 <= c2
    ensures Percent(c1, total).value <= Percent(c2, total).value
  {
    var r1, r2 := Percent(c1, total).value, Percent(c2, total).value;
    if r1 > r2 {
      // (2 r2 + 1) total <= (2 r1 - 1) total <= 200 c1 <= 200 c2 < (2 r2 + 1) total
      MulMonotone(2 * r2 + 1, 2 * r1 - 1, total);
    }
  }

  /** `Math.round((progress / 100) * 10)`: the number of filled blocks. */
  function FilledBlocks(percent: nat): (f: nat)
    ensures percent <= 100 ==> f <= BarLength
    ensures 10 * f - 5 <= percent < 10 * f + 5
  {
    RoundHalfUp(10 * percent, 100)
  }

  /** The bar is full exactly from 95% on. */
  lemma FullBar(percent: nat)
    requires percent <= 100
    ensures FilledBlocks(percent) == BarLength <==> percent >= 95
  {
  }

  /**
   * `'▓'.repeat(filled) + '░'.repeat(10 - filled)`; for NaN both repeat
   * counts are NaN, which `repeat` treats as 0.
   */
  function Bar(percent: Option<nat>): (bar: string)
    requires percent.Some? ==> percent.value <= 100
    ensures percent.None? ==> bar == []
    ensures percent.Some? ==> |bar| == BarLength
    ensures percent.Some? ==>
              forall i :: 0 <= i < |bar| ==>
                && (bar[i] == FilledChar <==> i < FilledBlocks(percent.value))
                && (bar[i] == EmptyChar <==> i >= FilledBlocks(percent.value))
  {
    match percent
    case None => []
    case Some(p) =>
      var f := FilledBlocks(p);
      Repeat(FilledChar, f) + Repeat(EmptyChar, BarLength - f)
  }

  /** With the five seeded tasks each completed task is worth 20% and two blocks. */
  lemma FiveTaskProgress(completed: nat)
    requires completed <= 5
    ensures Percent(completed, 5) == Some(20 * completed)
    ensures FilledBlocks(20 * completed) == 2 * completed
  {
    RoundHalfUpUnique(100 * completed, 5, 20 * completed);
  }
}
