/**
 Toggling an entry of a selection list, as the item search dialog
 (components/ItemSearchDialog.tsx) and the checkbox groups of the rarity view
 (components/RarityVisualization.tsx) both do: a selected entry is removed
 wherever it occurs, any other entry is appended.
 */
module Selection {

  /** `xs.filter((y) => y !== x)`. */
  function Without<T(==,!new)>(xs: seq<T>, x: T): (r: seq<T>)
    ensures forall y :: y in r <==> y in xs && y != x
    ensures |r| == |xs| - multiset(xs)[x]
  {
    if |xs| == 0 then []
    else
      assert xs == [xs[0]] + xs[1..];
      (if xs[0] == x then [] else [xs[0]]) + Without(xs[1..], x)
  }

  /** Filtering out an absent entry changes nothing. */
  lemma {:induction false} WithoutAbsent<T(!new)>(xs: seq<T>, x: T)
    requires x !in xs
    ensures Without(xs, x) == xs
  {
    if |xs| > 0 {
      WithoutAbsent(xs[1..], x);
      assert xs == [xs[0]] + xs[1..];
    }
  }

  /** No entry occurs twice. */
  predicate Distinct<T(==,!new)>(xs: seq<T>) {
    forall i, j :: 0 <= i < j < |xs| ==> xs[i] != xs[j]
  }

  lemma {:induction false} WithoutDistinct<T(!new)>(xs: seq<T>, x: T)
    requires Distinct(xs)
    ensures Distinct(Without(xs, x))
  {
    if |xs| > 0 {
      var tail := xs[1..];
      assert Distinct(tail) by {
        forall i, j | 0 <= i < j < |tail| ensures tail[i] != tail[j] {
          assert tail[i] == xs[i + 1] && tail[j] == xs[j + 1];
        }
      }
      WithoutDistinct(tail, x);
      var rest := Without(tail, x);
      if xs[0] != x {
        assert xs[0] !in tail by {
          forall k | 0 <= k < |tail| ensures tail[k] != xs[0] {
            assert tail[k] == xs[k + 1];
          }
        }
        var r := [xs[0]] + rest;
        assert Without(xs, x) == r;
        forall i, j | 0 <= i < j < |r| ensures r[i] != r[j] {
          if i == 0 {
            assert r[j] == rest[j - 1] && r[j] in rest;
          } else {
            assert r[i] == rest[i - 1] && r[j] == rest[j - 1];
          }
        }
      } else {
        assert Without(xs, x) == [] + rest;
      }
    }
  }

  /** `includes(x) ? filter((y) => y !== x) : [...xs, x]`. */
  function Toggle<T(==,!new)>(xs: seq<T>, x: T): (r: seq<T>)
    ensures x in r <==> x !in xs
    ensures forall y :: y != x ==> (y in r <==> y in xs)
    ensures x !in xs ==> |r| == |xs| + 1 && r[..|xs|] == xs && r[|xs|] == x
    ensures x in xs ==> |r| < |xs|
  {
    if x in xs then Without(xs, x) else xs + [x]
  }

  /** Toggling an unselected entry twice gives back the original list. */
  lemma ToggleTwice<T(!new)>(xs: seq<T>, x: T)
    requires x !in xs
    ensures Toggle(Toggle(xs, x), x) == xs
  {
    var once := xs + [x];
    assert once[..|xs|] == xs;
    assert Without(once, x) == Without(xs, x) + Without([x], x) by {
      WithoutAppend(xs, [x], x);
    }
    WithoutAbsent(xs, x);
  }

  lemma {:induction false} WithoutAppend<T(!new)>(a: seq<T>, b: seq<T>, x: T)
    ensures Without(a + b, x) == Without(a, x) + Without(b, x)
  {
    if |a| > 0 {
      WithoutAppend(a[1..], b, x);
      assert (a + b)[1..] == a[1..] + b;
      assert (a + b)[0] == a[0];
    } else {
      assert a + b == b;
    }
  }

  /** A list without repetitions stays so under toggling, and stays within any universe holding the entry. */
  lemma ToggleDistinct<T(!new)>(xs: seq<T>, x: T, universe: set<T>)
    requires Distinct(xs)
    ensures Distinct(Toggle(xs, x))
    ensures (forall y :: y in xs ==> y in universe) && x in universe ==> forall y :: y in Toggle(xs, x) ==> y in universe
  {
    if x in xs {
      WithoutDistinct(xs, x);
    } else {
      var r := xs + [x];
      forall i, j | 0 <= i < j < |r| ensures r[i] != r[j] {
        if j == |xs| {
          assert r[i] == xs[i];
        } else {
          assert r[i] == xs[i] && r[j] == xs[j];
        }
      }
    }
  }
}
