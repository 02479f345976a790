/**
 * The arithmetic the two list orientations share: the total of padding and
 * spacing along the main axis, weighted shares of leftover space, and an
 * even split of slack among all children.
 */
module ListShares {

  import opened JavaInt
  import opened Reductions

  /** `(n - 1) * spacing + 2 * padding`, for n children. */
  function Gaps(n: int, spacing: int, padding: int): int
  {
    (n - 1) * spacing + 2 * padding
  }

  /** `stretch * w / total` for each weight w (0 for children that do not fill). */
  function Shares(ws: seq<int>, stretch: int, total: int): (r: seq<int>)
    requires total != 0
    ensures |r| == |ws|
  {
    seq(|ws|, i requires 0 <= i < |ws| => JDiv(stretch * ws[i], total))
  }

  /** How many weights are positive. */
  function Positives(ws: seq<int>): nat
  {
    if ws == [] then 0 else Positives(ws[..|ws| - 1]) + (if ws[|ws| - 1] > 0 then 1 else 0)
  }

  /**
   * With a non-negative stretch and non-negative weights summing to the
   * total, the shares never exceed the stretch, and the pixels lost to
   * truncation are fewer than the number of sharing children.
   */
  lemma SharesWithinStretch(ws: seq<int>, stretch: int, total: int)
    requires stretch >= 0 && total > 0
    requires forall i :: 0 <= i < |ws| ==> ws[i] >= 0
    requires Sum(ws) == total
    ensures Sum(Shares(ws, stretch, total)) <= stretch
    ensures stretch - Positives(ws) < Sum(Shares(ws, stretch, total))
  {
    SharesScaled(ws, stretch, total);
    PositivesOfPositiveSum(ws);
    Unscale(Sum(Shares(ws, stretch, total)), stretch, total, Positives(ws));
  }

  lemma Unscale(s: int, stretch: int, total: int, k: int)
    requires total > 0 && k > 0
    requires s * total <= stretch * total
    requires s * total >= stretch * total - (total - 1) * k
    ensures s <= stretch && stretch - k < s
  {
    CancelFactor(s, stretch, total);
    calc {
      stretch * total - (total - 1) * k;
      { Distribute(stretch, -k, total); Distribute(total, -1, k); }
      (stretch - k) * total + k;
    }
    CancelFactorStrict(s, stretch - k, total);
  }

  lemma Distribute(a: int, b: int, c: int)
    ensures (a + b) * c == a * c + b * c
  {
  }

  lemma CancelFactor(a: int, b: int, c: int)
    requires c > 0 && a * c <= b * c
    ensures a <= b
  {
    if a > b {
      Distribute(a, -b, c);
      MulPositive(a - b, c);
    }
  }

  lemma CancelFactorStrict(a: int, b: int, c: int)
    requires c > 0 && a * c > b * c
    ensures a > b
  {
    if a <= b {
      Distribute(b, -a, c);
      MulNonNegative(b - a, c);
    }
  }

  lemma MulPositive(a: int, b: int)
    requires a > 0 && b > 0
    ensures a * b > 0
  {
  }

  /** Scaled back up, the shares lie within `(total - 1)` per share of the stretch. */
  lemma {:induction false} SharesScaled(ws: seq<int>, stretch: int, total: int)
    requires stretch >= 0 && total > 0
    requires forall i :: 0 <= i < |ws| ==> ws[i] >= 0
    ensures Sum(Shares(ws, stretch, total)) * total <= stretch * Sum(ws)
    ensures Sum(Shares(ws, stretch, total)) * total >= stretch * Sum(ws) - (total - 1) * Positives(ws)
  {
    if ws != [] {
      var ws', w := ws[..|ws| - 1], ws[|ws| - 1];
      SharesScaled(ws', stretch, total);
      var q := JDiv(stretch * w, total);
      assert Shares(ws, stretch, total) == Shares(ws', stretch, total) + [q];
      SumSnoc(Shares(ws', stretch, total), q);
      var d := if w > 0 then 1 else 0;
      assert Positives(ws) == Positives(ws') + d;
      assert Sum(ws) == Sum(ws') + w;
      ShareOfWeight(w, stretch, total);
      ScaledStep(Sum(Shares(ws, stretch, total)), Sum(Shares(ws', stretch, total)), q, total, stretch,
                 Sum(ws), Sum(ws'), w, Positives(ws), Positives(ws'), d);
    }
  }

  lemma ShareOfWeight(w: int, stretch: int, total: int)
    requires stretch >= 0 && total > 0 && w >= 0
    ensures JDiv(stretch * w, total) * total <= stretch * w
    ensures JDiv(stretch * w, total) * total >= stretch * w - (total - 1) * (if w > 0 then 1 else 0)
  {
    MulNonNegative(stretch, w);
    ShareTerm(stretch * w, total);
    if w == 0 {
      assert stretch * w == 0;
    }
  }

  lemma ScaledStep(all: int, s: int, q: int, total: int, stretch: int, sumAll: int, sw: int, w: int,
                   pAll: int, p: int, d: int)
    requires all == s + q && sumAll == sw + w && pAll == p + d
    requires s * total <= stretch * sw && s * total >= stretch * sw - (total - 1) * p
    requires q * total <= stretch * w && q * total >= stretch * w - (total - 1) * d
    ensures all * total <= stretch * sumAll
    ensures all * total >= stretch * sumAll - (total - 1) * pAll
  {
    Distribute(s, q, total);
    assert stretch * (sw + w) == stretch * sw + stretch * w;
    assert (total - 1) * (p + d) == (total - 1) * p + (total - 1) * d;
  }

  /** One share: truncation loses less than the divisor, and nothing from 0. */
  lemma ShareTerm(a: int, total: int)
    requires a >= 0 && total > 0
    ensures JDiv(a, total) * total <= a
    ensures JDiv(a, total) * total >= a - (total - 1)
    ensures a == 0 ==> JDiv(a, total) == 0
  {
    JDivNonNegative(a, total);
    assert a == (a / total) * total + a % total;
  }

  lemma {:induction false} PositivesOfPositiveSum(ws: seq<int>)
    requires forall i :: 0 <= i < |ws| ==> ws[i] >= 0
    requires Sum(ws) > 0
    ensures Positives(ws) > 0
  {
    var ws' := ws[..|ws| - 1];
    if ws[|ws| - 1] <= 0 {
      PositivesOfPositiveSum(ws');
    }
  }

  /**
   * The even split of slack among n children: n shares never exceed the
   * slack and leave less than n pixels over.
   */
  lemma EvenSplit(slack: int, n: int)
    requires slack >= 0 && n > 0
    ensures 0 <= n * JDiv(slack, n) <= slack
    ensures slack - n < n * JDiv(slack, n)
  {
    JDivNonNegative(slack, n);
    assert slack == (slack / n) * n + slack % n;
  }
}
