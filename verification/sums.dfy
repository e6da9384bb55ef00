/**
 Sums of real numbers, the `reduce((acc, x) => acc + x, 0)` that recurs throughout the
 program. Every weighted total in the model is this one fold over the extracted
 numbers, so the arithmetic facts are proved once, here.
 */
module Sums {

  /** The left-to-right total of `ws`, starting from zero. */
  function Sum(ws: seq<real>): real {
    if |ws| == 0 then 0.0 else Sum(ws[..|ws| - 1]) + ws[|ws| - 1]
  }

  predicate NonNegative(ws: seq<real>) {
    forall i :: 0 <= i < |ws| ==> ws[i] >= 0.0
  }

  /** Totals add up over concatenation. */
  lemma {:induction false} SumAppend(a: seq<real>, b: seq<real>)
    ensures Sum(a + b) == Sum(a) + Sum(b)
  {
    if |b| > 0 {
      SumAppend(a, b[..|b| - 1]);
      assert (a + b)[..|a + b| - 1] == a + b[..|b| - 1];
    } else {
      assert a + b == a;
    }
  }

  lemma {:induction false} SumNonNegative(ws: seq<real>)
    requires NonNegative(ws)
    ensures Sum(ws) >= 0.0
  {
    if |ws| > 0 {
      SumNonNegative(ws[..|ws| - 1]);
    }
  }

  /** No non-negative term exceeds the total. */
  lemma {:induction false} TermAtMostSum(ws: seq<real>, i: nat)
    requires NonNegative(ws) && i < |ws|
    ensures ws[i] <= Sum(ws)
  {
    var init := ws[..|ws| - 1];
    SumNonNegative(init);
    if i < |ws| - 1 {
      TermAtMostSum(init, i);
    }
  }

  /** Every term multiplied by `c`. */
  function ScaleAll(ws: seq<real>, c: real): (r: seq<real>)
    ensures |r| == |ws| && forall i :: 0 <= i < |ws| ==> r[i] == c * ws[i]
  {
    seq(|ws|, i requires 0 <= i < |ws| => c * ws[i])
  }

  lemma {:induction false} SumScaleAll(ws: seq<real>, c: real)
    ensures Sum(ScaleAll(ws, c)) == c * Sum(ws)
  {
    if |ws| > 0 {
      var init := ws[..|ws| - 1];
      SumScaleAll(init, c);
      var scaled := ScaleAll(ws, c);
      assert scaled[..|ws| - 1] == ScaleAll(init, c) by {
        forall j | 0 <= j < |ws| - 1
          ensures scaled[..|ws| - 1][j] == ScaleAll(init, c)[j]
        {
        }
      }
      MulAdd(c, Sum(init), ws[|ws| - 1]);
    }
  }

  /** Every term divided by `total`. */
  function DivideAll(ws: seq<real>, total: real): (r: seq<real>)
    requires total != 0.0
    ensures |r| == |ws| && forall i :: 0 <= i < |ws| ==> r[i] == ws[i] / total
  {
    seq(|ws|, i requires 0 <= i < |ws| => ws[i] / total)
  }

  lemma {:induction false} SumDivideAll(ws: seq<real>, total: real)
    requires total != 0.0
    ensures Sum(DivideAll(ws, total)) == Sum(ws) / total
  {
    if |ws| == 0 {
      DivZero(total);
    } else {
      var init := ws[..|ws| - 1];
      SumDivideAll(init, total);
      assert DivideAll(ws, total)[..|ws| - 1] == DivideAll(init, total);
      DivAdd(Sum(init), ws[|ws| - 1], total);
    }
  }

  // Facts of real arithmetic, kept apart so that each proof sees one product or quotient.

  lemma DivSelf(t: real)
    requires t != 0.0
    ensures t / t == 1.0
  {
  }

  lemma DivZero(t: real)
    requires t != 0.0
    ensures 0.0 / t == 0.0
  {
  }

  lemma DivAdd(a: real, b: real, t: real)
    requires t != 0.0
    ensures a / t + b / t == (a + b) / t
  {
  }

  lemma DivUnit(w: real, t: real)
    requires 0.0 <= w <= t && t > 0.0
    ensures 0.0 <= w / t <= 1.0
  {
  }

  lemma DivScale(w: real, t: real, c: real)
    requires t != 0.0 && c != 0.0
    ensures c * t != 0.0 && (c * w) / (c * t) == w / t
  {
  }

  lemma MulAdd(c: real, a: real, b: real)
    ensures c * a + c * b == c * (a + b)
  {
  }

  lemma MulAtMostOne(a: real, p: real)
    requires a <= 1.0 && p >= 0.0
    ensures a * p <= p
  {
    assert p - a * p == (1.0 - a) * p;
  }
}
