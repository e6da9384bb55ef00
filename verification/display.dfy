/**
 Display helpers (util/display.ts): turning relative weights into probabilities,
 and the short "12k" / "3m" rendering of prices.
 The same `normalizeProbabilities` is repeated verbatim in mapper/loot-data-to-rarity.ts
 and stores/spt-data.store.ts; all three are this one definition.
 */
module Display {
  import opened Common
  import opened Strings
  import opened Sums

  /** An entry of a relative-probability distribution. */
  datatype Weighted<T> = Weighted(item: T, relativeProbability: real)

  /** The same entry with its normalised `probability` added. */
  datatype Normalized<T> = Normalized(item: T, relativeProbability: real, probability: real)

  /** The relative probabilities, in order. */
  function Weights<T>(xs: seq<Weighted<T>>): (ws: seq<real>)
    ensures |ws| == |xs| && forall i :: 0 <= i < |xs| ==> ws[i] == xs[i].relativeProbability
  {
    seq(|xs|, i requires 0 <= i < |xs| => xs[i].relativeProbability)
  }

  /** The normalised probabilities, in order. */
  function Probabilities<T>(ns: seq<Normalized<T>>): (ps: seq<real>)
    ensures |ps| == |ns| && forall i :: 0 <= i < |ns| ==> ps[i] == ns[i].probability
  {
    seq(|ns|, i requires 0 <= i < |ns| => ns[i].probability)
  }

  /** `reduce((acc, cur) => acc + cur.relativeProbability, 0)`. */
  function WeightSum<T>(xs: seq<Weighted<T>>): real {
    Sum(Weights(xs))
  }

  /**
   A distribution the program can divide by: an empty one (nothing is divided)
   or one whose weights do not sum to zero (a zero sum would give NaN).
   */
  predicate Normalizable<T>(xs: seq<Weighted<T>>) {
    |xs| == 0 || WeightSum(xs) != 0.0
  }

  /** `normalizeProbabilities`: each entry, in order, with its share of the total weight. */
  function NormalizeProbabilities<T>(xs: seq<Weighted<T>>): (r: seq<Normalized<T>>)
    requires Normalizable(xs)
    ensures |r| == |xs|
    ensures forall i :: 0 <= i < |xs| ==>
      r[i].item == xs[i].item && r[i].relativeProbability == xs[i].relativeProbability
    ensures forall i :: 0 <= i < |xs| ==> r[i].probability * WeightSum(xs) == xs[i].relativeProbability
  {
    var total := WeightSum(xs);
    seq(|xs|, i requires 0 <= i < |xs| => Normalized(xs[i].item, xs[i].relativeProbability, xs[i].relativeProbability / total))
  }

  /** The probabilities are the weights divided by their total. */
  lemma ProbabilitiesAreShares<T>(xs: seq<Weighted<T>>)
    requires |xs| > 0 && WeightSum(xs) != 0.0
    ensures Probabilities(NormalizeProbabilities(xs)) == DivideAll(Weights(xs), WeightSum(xs))
  {
  }

  /** Over the reals, the normalised probabilities sum to exactly one. */
  lemma NormalizedSumIsOne<T>(xs: seq<Weighted<T>>)
    requires |xs| > 0 && WeightSum(xs) != 0.0
    ensures Sum(Probabilities(NormalizeProbabilities(xs))) == 1.0
  {
    ProbabilitiesAreShares(xs);
    SumDivideAll(Weights(xs), WeightSum(xs));
    DivSelf(WeightSum(xs));
  }

  /** With non-negative weights and a positive total, each probability lies in [0, 1]. */
  lemma NormalizedInUnitInterval<T>(xs: seq<Weighted<T>>, i: nat)
    requires NonNegative(Weights(xs)) && WeightSum(xs) > 0.0 && i < |xs|
    ensures 0.0 <= NormalizeProbabilities(xs)[i].probability <= 1.0
  {
    TermAtMostSum(Weights(xs), i);
    assert NormalizeProbabilities(xs)[i].probability == xs[i].relativeProbability / WeightSum(xs);
    DivUnit(xs[i].relativeProbability, WeightSum(xs));
  }

  /** Every weight multiplied by the same factor. */
  function Scale<T>(xs: seq<Weighted<T>>, c: real): (r: seq<Weighted<T>>)
    ensures Weights(r) == ScaleAll(Weights(xs), c)
    ensures |r| == |xs| && forall i :: 0 <= i < |xs| ==> r[i].item == xs[i].item
  {
    var r := seq(|xs|, i requires 0 <= i < |xs| => Weighted(xs[i].item, c * xs[i].relativeProbability));
    assert forall j :: 0 <= j < |xs| ==> Weights(r)[j] == ScaleAll(Weights(xs), c)[j];
    r
  }

  /** Only the ratios of the weights matter: scaling them all leaves every probability unchanged. */
  lemma NormalizeScaleInvariant<T>(xs: seq<Weighted<T>>, c: real, i: nat)
    requires WeightSum(xs) != 0.0 && c != 0.0 && i < |xs|
    ensures Normalizable(Scale(xs, c))
    ensures NormalizeProbabilities(Scale(xs, c))[i].probability == NormalizeProbabilities(xs)[i].probability
  {
    SumScaleAll(Weights(xs), c);
    var w := xs[i].relativeProbability;
    var t := WeightSum(xs);
    DivScale(w, t, c);
    assert NormalizeProbabilities(Scale(xs, c))[i].probability == (c * w) / (c * t);
  }

  /** A single entry with a non-zero weight is certain. */
  lemma NormalizeSingle<T>(x: Weighted<T>)
    requires x.relativeProbability != 0.0
    ensures Normalizable([x])
    ensures NormalizeProbabilities([x]) == [Normalized(x.item, x.relativeProbability, 1.0)]
  {
    assert Weights([x]) == [x.relativeProbability];
    assert Sum([x.relativeProbability]) == Sum([]) + x.relativeProbability;
    DivSelf(x.relativeProbability);
  }

  // ---------------------------------------------------------------------------
  // formatBigNumber

  /** `q` whole units of `unit` is `n` rounded to the nearest unit, halves rounded up. */
  predicate RoundsTo(n: int, unit: int, q: int) {
    q * unit - unit / 2 <= n < q * unit + unit / 2
  }

  /** `s` is the canonical decimal numeral of `n`: a minus sign only for a negative `n`, and no leading zeros. */
  predicate Denotes(s: string, n: int) {
    if |s| >= 1 && s[0] == '-' then Canonical(s[1..]) && n < 0 && 0 - ParseNat(s[1..]) as int == n
    else Canonical(s) && ParseNat(s) == n
  }

  /**
   `formatBigNumber` on a whole number (it is only given rounded prices): the number
   itself below 1000, else thousands or millions rounded to the nearest whole, with
   a `k` or `m` suffix. The suffix follows `n`, not the rounded value.
   */
  function FormatBigNumber(n: int): (s: string)
    ensures n < 1000 ==> Denotes(s, n)
    ensures 1000 <= n < 1000000 ==>
      |s| >= 2 && s[|s| - 1] == 'k' && Canonical(s[..|s| - 1]) && RoundsTo(n, 1000, ParseNat(s[..|s| - 1]))
    ensures n >= 1000000 ==>
      |s| >= 2 && s[|s| - 1] == 'm' && Canonical(s[..|s| - 1]) && RoundsTo(n, 1000000, ParseNat(s[..|s| - 1]))
  {
    if n < 1000 then
      var s := IntToString(n);
      ParseIntToString(n);
      assert n < 0 ==> s[1..] == NatToString(-n);
      s
    else
      var unit := if n < 1000000 then 1000 else 1000000;
      var q := Round(n as real / unit as real);
      assert q >= 1;
      var digits := NatToString(q);
      ParseNatToString(q);
      var s := digits + (if n < 1000000 then "k" else "m");
      assert s[..|s| - 1] == digits;
      s
  }

  /** 999500 is below a million, so it prints with `k` even though it rounds to 1000 thousands. */
  lemma FormatJustBelowMillion()
    ensures FormatBigNumber(999500) == "1000k"
  {
    var q := Round(999500 as real / 1000 as real);
    assert q == 1000;
    assert NatToString(1000) == "1000" by {
      assert NatToString(1) == "1";
      assert NatToString(10) == NatToString(1) + "0";
      assert NatToString(100) == NatToString(10) + "0";
    }
  }
}
