/** The numbers and labels shown for one run: the consistency score, each
    group's share of the calls, and the truncated chart label. Scores are
    exact reals; the one-decimal display formatting is not modelled. */
module Metrics {
  import opened Counting

  /** Labels longer than this are cut. */
  const LabelWidth: nat := 40
  /** Appended to a cut label. */
  const Ellipsis: string := "..."

  /** `100 * (num_calls - unique_count + 1) / num_calls if num_calls > 1 else 100`. */
  function Consistency(numCalls: int, uniqueCount: int): (r: real)
    ensures numCalls <= 1 ==> r == 100.0
    ensures numCalls >= 1 && uniqueCount == 1 ==> r == 100.0
  {
    if numCalls > 1 then
      var score := 100.0 * (numCalls - uniqueCount + 1) as real / numCalls as real;
      DivSelf(100.0, numCalls as real);
      assert uniqueCount == 1 ==> (numCalls - uniqueCount + 1) as real == numCalls as real;
      score
    else 100.0
  }

  /** All calls distinct scores `100 / num_calls`, not 0. */
  lemma ConsistencyAllDistinct(numCalls: int)
    requires numCalls > 1
    ensures Consistency(numCalls, numCalls) == 100.0 / numCalls as real
  {
  }

  /** With between one and `num_calls` groups, the score lies between
      `100 / num_calls` and 100. */
  lemma ConsistencyBounds(numCalls: int, uniqueCount: int)
    requires 1 <= uniqueCount <= numCalls
    ensures 100.0 / numCalls as real <= Consistency(numCalls, uniqueCount) <= 100.0
  {
    if numCalls > 1 {
      var n := numCalls as real;
      var k := (numCalls - uniqueCount + 1) as real;
      assert 1.0 <= k <= n;
      DivSub(100.0 * k, 100.0, n);
      assert 100.0 * k - 100.0 == 100.0 * (k - 1.0);
      DivNonNegative(100.0 * (k - 1.0), n);
      DivSub(100.0 * n, 100.0 * k, n);
      assert 100.0 * n - 100.0 * k == 100.0 * (n - k);
      DivNonNegative(100.0 * (n - k), n);
      DivSelf(100.0, n);
    }
  }

  lemma DivSub(a: real, b: real, n: real)
    requires n > 0.0
    ensures a / n - b / n == (a - b) / n
  {
  }

  lemma DivNonNegative(a: real, n: real)
    requires a >= 0.0 && n > 0.0
    ensures a / n >= 0.0
  {
  }

  lemma DivSelf(c: real, n: real)
    requires n > 0.0
    ensures (c * n) / n == c
  {
  }

  /** More groups never raise the score. */
  lemma ConsistencyAntitone(numCalls: int, u: int, v: int)
    requires u <= v
    ensures Consistency(numCalls, v) <= Consistency(numCalls, u)
  {
    if numCalls > 1 {
      var n := numCalls as real;
      var a := (numCalls - u + 1) as real;
      var b := (numCalls - v + 1) as real;
      DivSub(100.0 * a, 100.0 * b, n);
      assert 100.0 * a - 100.0 * b == 100.0 * (a - b);
      DivNonNegative(100.0 * (a - b), n);
    }
  }

  /** The score read another way: 100 times one minus the share of calls
      that opened a group beyond the first. It holds for every run, including
      a single call, which always forms one group. */
  lemma ConsistencyAlternateForm(numCalls: int, uniqueCount: int)
    requires numCalls >= 1
    requires numCalls == 1 ==> uniqueCount == 1
    ensures Consistency(numCalls, uniqueCount)
         == 100.0 * (1.0 - (uniqueCount - 1) as real / numCalls as real)
  {
    if numCalls == 1 { return; }
    var n := numCalls as real;
    var m := (uniqueCount - 1) as real;
    assert (numCalls - uniqueCount + 1) as real == n - m;
    DivSub(100.0 * n, 100.0 * m, n);
    assert 100.0 * n - 100.0 * m == 100.0 * (n - m);
    DivSelf(100.0, n);
    assert (100.0 * m) / n == 100.0 * (m / n);
  }

  /** `count / num_calls * 100`. */
  function Percentage(count: nat, numCalls: nat): (r: real)
    requires numCalls >= 1
    ensures 0.0 <= r
    ensures count <= numCalls ==> r <= 100.0
    ensures r * numCalls as real == 100.0 * count as real
  {
    count as real / numCalls as real * 100.0
  }

  /** The sum of a sequence of reals. */
  function RealSum(xs: seq<real>): real {
    if |xs| == 0 then 0.0 else xs[0] + RealSum(xs[1..])
  }

  /** The percentage column of a table. */
  function Percentages(t: seq<Entry>, numCalls: nat): (r: seq<real>)
    requires numCalls >= 1
    ensures |r| == |t|
    ensures forall i :: 0 <= i < |t| ==> r[i] == Percentage(t[i].count, numCalls)
  {
    seq(|t|, i requires 0 <= i < |t| => Percentage(t[i].count, numCalls))
  }

  lemma {:induction false} PercentagesTotal(t: seq<Entry>, numCalls: nat)
    requires numCalls >= 1
    ensures RealSum(Percentages(t, numCalls)) == Sum(t) as real / numCalls as real * 100.0
  {
    if |t| > 0 {
      var n := numCalls as real;
      var p := Percentages(t, numCalls);
      PercentagesTotal(t[1..], numCalls);
      assert p[1..] == Percentages(t[1..], numCalls);
      assert RealSum(p) == p[0] + RealSum(p[1..]);
      ShareAdd(t[0].count as real, Sum(t[1..]) as real, n);
    }
  }

  lemma ShareAdd(a: real, b: real, n: real)
    requires n > 0.0
    ensures a / n * 100.0 + b / n * 100.0 == (a + b) / n * 100.0
  {
    assert a / n + b / n == (a + b) / n;
  }

  /** When the counts add up to the number of calls, the percentage column
      adds up to 100. */
  lemma PercentagesSumTo100(t: seq<Entry>, numCalls: nat)
    requires numCalls >= 1 && Sum(t) == numCalls
    ensures RealSum(Percentages(t, numCalls)) == 100.0
  {
    PercentagesTotal(t, numCalls);
    DivSelf(1.0, numCalls as real);
  }

  /** The chart label: `(x[:40] + '...') if len(x) > 40 else x`. */
  function Label(x: string): (r: string)
    ensures |x| <= LabelWidth ==> r == x
    ensures |x| > LabelWidth ==> |r| == LabelWidth + |Ellipsis|
    ensures |x| > LabelWidth ==> r[..LabelWidth] == x[..LabelWidth] && r[LabelWidth..] == Ellipsis
  {
    if |x| > LabelWidth then x[..LabelWidth] + Ellipsis else x
  }

  /** A label is never longer than 40 characters plus the ellipsis and always begins with the
      first (up to) 40 characters of the response. */
  lemma LabelShape(x: string)
    ensures |Label(x)| <= LabelWidth + |Ellipsis|
    ensures var k := if |x| < LabelWidth then |x| else LabelWidth;
      k <= |Label(x)| && Label(x)[..k] == x[..k]
  {
  }

  /** Labelling a label changes nothing. */
  lemma LabelIdempotent(x: string)
    ensures Label(Label(x)) == Label(x)
  {
    if |x| > LabelWidth {
      assert Label(x)[..LabelWidth] == x[..LabelWidth];
    }
  }

  /** A response is its own label exactly when it is short, or when it is
      already 40 characters followed by the ellipsis. */
  lemma LabelFixedPoints(x: string)
    ensures Label(x) == x <==> |x| <= LabelWidth || (|x| == LabelWidth + |Ellipsis| && x[LabelWidth..] == Ellipsis)
  {
    if |x| == LabelWidth + |Ellipsis| && x[LabelWidth..] == Ellipsis {
      assert x == x[..LabelWidth] + x[LabelWidth..];
    }
  }
}
