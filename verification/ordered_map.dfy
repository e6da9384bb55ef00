/**
 A JavaScript `Map` as the program uses it: entries kept in insertion order,
 `set` on a present key replacing its value in place and on a new key appending.
 The accumulation loops of the program (`m.set(k, (m.get(k) ?? 0) + v)`,
 `list = m.get(k) ?? []; list.push(v); m.set(k, list)`) are the folds
 `Accumulate` and `Group` below, each with one lemma saying what it computes.
 */
module OrderedMap {
  import opened Wrappers
  import opened Sums

  type OMap<K, V> = seq<(K, V)>

  function Keys<K, V>(m: OMap<K, V>): (ks: seq<K>)
    ensures |ks| == |m|
    ensures forall i :: 0 <= i < |m| ==> ks[i] == m[i].0
  {
    seq(|m|, i requires 0 <= i < |m| => m[i].0)
  }

  ghost predicate DistinctKeys<K, V>(m: OMap<K, V>) {
    forall i, j :: 0 <= i < j < |m| ==> m[i].0 != m[j].0
  }

  /** `Map.get`: the value of the (first) entry with key `k`. */
  function Get<K(==), V>(m: OMap<K, V>, k: K): Option<V> {
    if |m| == 0 then None
    else if m[0].0 == k then Some(m[0].1)
    else Get(m[1..], k)
  }

  lemma KeysCons<K, V>(m: OMap<K, V>)
    requires |m| > 0
    ensures Keys(m) == [m[0].0] + Keys(m[1..])
  {
  }

  /** A key is found exactly when it is listed, and then with a listed value. */
  lemma {:induction false} GetSpec<K, V>(m: OMap<K, V>, k: K)
    ensures Get(m, k).Some? <==> k in Keys(m)
    ensures Get(m, k).Some? ==> (k, Get(m, k).value) in m
  {
    if |m| > 0 {
      KeysCons(m);
      GetSpec(m[1..], k);
    }
  }

  /** `Map.set`: replace the value of `k` in place, or append a new entry. */
  function Set<K(==), V>(m: OMap<K, V>, k: K, v: V): (r: OMap<K, V>)
    ensures Get(r, k) == Some(v)
  {
    if |m| == 0 then [(k, v)]
    else if m[0].0 == k then [(k, v)] + m[1..]
    else [m[0]] + Set(m[1..], k, v)
  }

  /** `Map.set` keeps the key order, appending a new key at the end. */
  lemma {:induction false} SetKeys<K, V>(m: OMap<K, V>, k: K, v: V)
    ensures Keys(Set(m, k, v)) == if k in Keys(m) then Keys(m) else Keys(m) + [k]
  {
    if |m| == 0 {
    } else {
      KeysCons(m);
      var r := Set(m, k, v);
      KeysCons(r);
      if m[0].0 == k {
        assert r[1..] == m[1..];
      } else {
        SetKeys(m[1..], k, v);
        assert r[1..] == Set(m[1..], k, v);
      }
    }
  }

  /** `Map.set` leaves every other key's value alone. */
  lemma {:induction false} SetOther<K, V>(m: OMap<K, V>, k: K, v: V, k': K)
    requires k' != k
    ensures Get(Set(m, k, v), k') == Get(m, k')
  {
    if |m| > 0 && m[0].0 != k {
      SetOther(m[1..], k, v, k');
      assert Set(m, k, v)[1..] == Set(m[1..], k, v);
    }
  }

  lemma SetKeepsDistinct<K, V>(m: OMap<K, V>, k: K, v: V)
    requires DistinctKeys(m)
    ensures DistinctKeys(Set(m, k, v))
  {
    var r := Set(m, k, v);
    SetKeys(m, k, v);
    forall i, j | 0 <= i < j < |r|
      ensures r[i].0 != r[j].0
    {
      assert Keys(r)[i] == r[i].0 && Keys(r)[j] == r[j].0;
      if k in Keys(m) {
        assert Keys(m)[i] == m[i].0 && Keys(m)[j] == m[j].0;
      } else if j == |m| {
        assert Keys(m)[i] == m[i].0;
      } else {
        assert Keys(m)[i] == m[i].0 && Keys(m)[j] == m[j].0;
      }
    }
  }

  /** With distinct keys, `Get` finds exactly the listed entries. */
  lemma GetDistinct<K, V>(m: OMap<K, V>, k: K, v: V)
    requires DistinctKeys(m)
    ensures Get(m, k) == Some(v) <==> (k, v) in m
  {
    GetSpec(m, k);
    if (k, v) in m {
      assert k in Keys(m) by { var i :| 0 <= i < |m| && m[i] == (k, v); assert Keys(m)[i] == k; }
      var i :| 0 <= i < |m| && m[i] == (k, v);
      var w := Get(m, k).value;
      var j :| 0 <= j < |m| && m[j] == (k, w);
      assert i == j;
    }
  }

  // ---------------------------------------------------------------------------
  // Accumulating sums: `m.set(k, (m.get(k) ?? 0) + v)` over a sequence of pairs.

  function AddTo<K(==)>(m: OMap<K, real>, k: K, v: real): (r: OMap<K, real>)
    ensures Get(r, k) == Some(Get(m, k).GetOr(0.0) + v)
  {
    Set(m, k, Get(m, k).GetOr(0.0) + v)
  }

  /** The sum, in order, of the values paired with `k`. */
  function SumFor<K(==)>(pairs: seq<(K, real)>, k: K): real {
    if |pairs| == 0 then 0.0
    else SumFor(pairs[..|pairs| - 1], k) + (if pairs[|pairs| - 1].0 == k then pairs[|pairs| - 1].1 else 0.0)
  }

  /** The sum of all values. */
  function SumAll<K(==)>(pairs: seq<(K, real)>): real {
    if |pairs| == 0 then 0.0 else SumAll(pairs[..|pairs| - 1]) + pairs[|pairs| - 1].1
  }

  /** The loop `for (k, v) of pairs: m.set(k, (m.get(k) ?? 0) + v)` from an empty map. */
  function Accumulate<K(==)>(pairs: seq<(K, real)>): OMap<K, real> {
    if |pairs| == 0 then []
    else AddTo(Accumulate(pairs[..|pairs| - 1]), pairs[|pairs| - 1].0, pairs[|pairs| - 1].1)
  }

  /** Every key of the pairs gets the sum of its values; no other key appears. */
  lemma {:induction false} AccumulateGet<K>(pairs: seq<(K, real)>, k: K)
    ensures Get(Accumulate(pairs), k) == if k in Keys(pairs) then Some(SumFor(pairs, k)) else None
  {
    if |pairs| > 0 {
      var init := pairs[..|pairs| - 1];
      var last := pairs[|pairs| - 1];
      AccumulateGet(init, k);
      assert pairs == init + [last];
      KeysSnoc(init, last);
      var acc := Accumulate(init);
      if last.0 != k {
        SetOther(acc, last.0, Get(acc, last.0).GetOr(0.0) + last.1, k);
      } else if k !in Keys(init) {
        SumForAbsent(init, k);
      }
    }
  }

  lemma {:induction false} SumForAbsent<K>(pairs: seq<(K, real)>, k: K)
    requires k !in Keys(pairs)
    ensures SumFor(pairs, k) == 0.0
  {
    if |pairs| > 0 {
      var init := pairs[..|pairs| - 1];
      assert pairs == init + [pairs[|pairs| - 1]];
      KeysSnoc(init, pairs[|pairs| - 1]);
      SumForAbsent(init, k);
    }
  }

  lemma KeysSnoc<K, V>(init: OMap<K, V>, last: (K, V))
    ensures Keys(init + [last]) == Keys(init) + [last.0]
  {
  }

  lemma {:induction false} AccumulateDistinct<K>(pairs: seq<(K, real)>)
    ensures DistinctKeys(Accumulate(pairs))
  {
    if |pairs| > 0 {
      var init := pairs[..|pairs| - 1];
      AccumulateDistinct(init);
      var last := pairs[|pairs| - 1];
      var acc := Accumulate(init);
      SetKeepsDistinct(acc, last.0, Get(acc, last.0).GetOr(0.0) + last.1);
    }
  }

  /** Summing into a map loses and duplicates nothing: the values add up to the total. */
  lemma {:induction false} AccumulateTotal<K>(pairs: seq<(K, real)>)
    ensures SumAll(Accumulate(pairs)) == SumAll(pairs)
  {
    if |pairs| > 0 {
      var init := pairs[..|pairs| - 1];
      var last := pairs[|pairs| - 1];
      AccumulateTotal(init);
      var acc := Accumulate(init);
      SetTotal(acc, last.0, Get(acc, last.0).GetOr(0.0) + last.1);
    }
  }

  /** The values of the pairs, in order. */
  function Values<K, V>(m: OMap<K, V>): (vs: seq<V>)
    ensures |vs| == |m| && forall i :: 0 <= i < |m| ==> vs[i] == m[i].1
  {
    seq(|m|, i requires 0 <= i < |m| => m[i].1)
  }

  /** `SumAll` is the plain sum of the values. */
  lemma {:induction false} SumAllValues<K>(pairs: seq<(K, real)>)
    ensures SumAll(pairs) == Sum(Values(pairs))
  {
    if |pairs| > 0 {
      var init := pairs[..|pairs| - 1];
      SumAllValues(init);
      assert Values(pairs)[..|pairs| - 1] == Values(init);
    }
  }

  lemma {:induction false} SetTotal<K>(m: OMap<K, real>, k: K, v: real)
    ensures SumAll(Set(m, k, v)) == SumAll(m) - Get(m, k).GetOr(0.0) + v
  {
    if |m| > 0 {
      var tail := m[1..];
      SumAllFront(m);
      if m[0].0 == k {
        SumAllFront([(k, v)] + tail);
        assert ([(k, v)] + tail)[1..] == tail;
      } else {
        SetTotal(tail, k, v);
        var r := [m[0]] + Set(tail, k, v);
        SumAllFront(r);
        assert r[1..] == Set(tail, k, v);
      }
    }
  }

  lemma {:induction false} SumAllFront<K>(m: OMap<K, real>)
    requires |m| > 0
    ensures SumAll(m) == m[0].1 + SumAll(m[1..])
  {
    if |m| > 1 {
      var init := m[..|m| - 1];
      SumAllFront(init);
      assert init[1..] == m[1..][..|m[1..]| - 1];
    }
  }

  lemma {:induction false} SumAllAppend<K>(a: seq<(K, real)>, b: seq<(K, real)>)
    ensures SumAll(a + b) == SumAll(a) + SumAll(b)
  {
    if |b| > 0 {
      SumAllAppend(a, b[..|b| - 1]);
      assert (a + b)[..|a + b| - 1] == a + b[..|b| - 1];
    } else {
      assert a + b == a;
    }
  }

  lemma {:induction false} SumForAppend<K>(a: seq<(K, real)>, b: seq<(K, real)>, k: K)
    ensures SumFor(a + b, k) == SumFor(a, k) + SumFor(b, k)
  {
    if |b| > 0 {
      SumForAppend(a, b[..|b| - 1], k);
      assert (a + b)[..|a + b| - 1] == a + b[..|b| - 1];
    } else {
      assert a + b == a;
    }
  }

  /** In a map with distinct keys, the sum of the values paired with `k` is its one value. */
  lemma {:induction false} SumForDistinct<K>(m: OMap<K, real>, k: K)
    requires DistinctKeys(m)
    ensures SumFor(m, k) == Get(m, k).GetOr(0.0)
  {
    if |m| > 0 {
      var init := m[..|m| - 1];
      var last := m[|m| - 1];
      SumForDistinct(init, k);
      assert m == init + [last];
      GetAppend(init, last, k);
      GetSpec(init, k);
      if last.0 == k {
        assert k !in Keys(init) by {
          forall i | 0 <= i < |init| ensures Keys(init)[i] != k {
            assert m[i].0 != m[|m| - 1].0;
          }
        }
      }
    }
  }

  lemma {:induction false} GetAppend<K, V>(m: OMap<K, V>, e: (K, V), k: K)
    ensures Get(m + [e], k) == if k in Keys(m) then Get(m, k) else if e.0 == k then Some(e.1) else None
  {
    if |m| > 0 {
      GetAppend(m[1..], e, k);
      assert (m + [e])[1..] == m[1..] + [e];
    }
  }

  lemma {:induction false} KeysAppend<K, V>(a: OMap<K, V>, b: OMap<K, V>)
    ensures Keys(a + b) == Keys(a) + Keys(b)
  {
  }

  // ---------------------------------------------------------------------------
  // Grouping: `list = m.get(k) ?? []; list.push(v); m.set(k, list)` over a sequence of pairs.

  function AppendTo<K(==), V>(m: OMap<K, seq<V>>, k: K, v: V): (r: OMap<K, seq<V>>)
    ensures Get(r, k) == Some(Get(m, k).GetOr([]) + [v])
  {
    Set(m, k, Get(m, k).GetOr([]) + [v])
  }

  /** The values paired with `k`, in order. */
  function ValuesFor<K(==), V>(pairs: seq<(K, V)>, k: K): seq<V> {
    if |pairs| == 0 then []
    else ValuesFor(pairs[..|pairs| - 1], k) + (if pairs[|pairs| - 1].0 == k then [pairs[|pairs| - 1].1] else [])
  }

  function Group<K(==), V>(pairs: seq<(K, V)>): OMap<K, seq<V>> {
    if |pairs| == 0 then []
    else AppendTo(Group(pairs[..|pairs| - 1]), pairs[|pairs| - 1].0, pairs[|pairs| - 1].1)
  }

  /** Every key of the pairs gets the list of its values in order; no other key appears. */
  lemma {:induction false} GroupGet<K, V>(pairs: seq<(K, V)>, k: K)
    ensures Get(Group(pairs), k) == if k in Keys(pairs) then Some(ValuesFor(pairs, k)) else None
  {
    if |pairs| > 0 {
      var init := pairs[..|pairs| - 1];
      var last := pairs[|pairs| - 1];
      GroupGet(init, k);
      assert pairs == init + [last];
      KeysSnoc(init, last);
      var acc := Group(init);
      if last.0 != k {
        SetOther(acc, last.0, Get(acc, last.0).GetOr([]) + [last.1], k);
        assert Group(pairs) == Set(acc, last.0, Get(acc, last.0).GetOr([]) + [last.1]);
        assert Get(Group(pairs), k) == Get(acc, k);
        assert ValuesFor(pairs, k) == ValuesFor(init, k) + [];
        assert ValuesFor(pairs, k) == ValuesFor(init, k);
        assert k in Keys(pairs) <==> k in Keys(init);
      } else if k !in Keys(init) {
        ValuesForAbsent(init, k);
      }
    }
  }

  lemma {:induction false} ValuesForAbsent<K, V>(pairs: seq<(K, V)>, k: K)
    requires k !in Keys(pairs)
    ensures ValuesFor(pairs, k) == []
  {
    if |pairs| > 0 {
      var init := pairs[..|pairs| - 1];
      assert pairs == init + [pairs[|pairs| - 1]];
      KeysSnoc(init, pairs[|pairs| - 1]);
      ValuesForAbsent(init, k);
    }
  }

  lemma {:induction false} ValuesForAppend<K, V>(a: seq<(K, V)>, b: seq<(K, V)>, k: K)
    ensures ValuesFor(a + b, k) == ValuesFor(a, k) + ValuesFor(b, k)
  {
    if |b| > 0 {
      ValuesForAppend(a, b[..|b| - 1], k);
      assert (a + b)[..|a + b| - 1] == a + b[..|b| - 1];
    } else {
      assert a + b == a;
    }
  }

  /** `ValuesFor` keeps exactly the values paired with `k`. */
  lemma {:induction false} ValuesForMember<K, V>(pairs: seq<(K, V)>, k: K, v: V)
    ensures v in ValuesFor(pairs, k) <==> (k, v) in pairs
  {
    if |pairs| > 0 {
      var init := pairs[..|pairs| - 1];
      ValuesForMember(init, k, v);
      assert pairs == init + [pairs[|pairs| - 1]];
    }
  }

  // ---------------------------------------------------------------------------
  // First-wins: `m.set(k, m.get(k) ?? v)`, a present key keeping its value.

  function KeepFirst<K(==), V>(m: OMap<K, V>, k: K, v: V): (r: OMap<K, V>)
    ensures Get(r, k) == Some(Get(m, k).GetOr(v))
  {
    Set(m, k, Get(m, k).GetOr(v))
  }

  function FirstWins<K(==), V>(pairs: seq<(K, V)>): OMap<K, V> {
    if |pairs| == 0 then []
    else KeepFirst(FirstWins(pairs[..|pairs| - 1]), pairs[|pairs| - 1].0, pairs[|pairs| - 1].1)
  }

  /**
   Each key keeps the value it was first paired with; later values are ignored,
   so the map reads exactly like the list of pairs.
   */
  lemma {:induction false} FirstWinsGet<K, V>(pairs: seq<(K, V)>, k: K)
    ensures Get(FirstWins(pairs), k) == Get(pairs, k)
  {
    if |pairs| > 0 {
      var init := pairs[..|pairs| - 1];
      var last := pairs[|pairs| - 1];
      FirstWinsGet(init, k);
      assert pairs == init + [last];
      GetAppend(init, last, k);
      GetSpec(init, k);
      var acc := FirstWins(init);
      if last.0 != k {
        SetOther(acc, last.0, Get(acc, last.0).GetOr(last.1), k);
      }
    }
  }

  // ---------------------------------------------------------------------------
  // Last-wins: `m.set(k, v)` over a sequence of pairs.

  /** The value of the last pair with key `k`. */
  function LastFor<K(==), V>(pairs: seq<(K, V)>, k: K): (r: Option<V>)
    ensures r.Some? ==> (k, r.value) in pairs
  {
    if |pairs| == 0 then None
    else if pairs[|pairs| - 1].0 == k then Some(pairs[|pairs| - 1].1)
    else LastFor(pairs[..|pairs| - 1], k)
  }

  /** The loop `for (k, v) of pairs: m.set(k, v)` from an empty map. */
  function LastWins<K(==), V>(pairs: seq<(K, V)>): OMap<K, V> {
    if |pairs| == 0 then []
    else Set(LastWins(pairs[..|pairs| - 1]), pairs[|pairs| - 1].0, pairs[|pairs| - 1].1)
  }

  /** Each key ends with the value it was last paired with. */
  lemma {:induction false} LastWinsGet<K, V>(pairs: seq<(K, V)>, k: K)
    ensures Get(LastWins(pairs), k) == LastFor(pairs, k)
  {
    if |pairs| > 0 {
      var init := pairs[..|pairs| - 1];
      var last := pairs[|pairs| - 1];
      LastWinsGet(init, k);
      if last.0 != k {
        SetOther(LastWins(init), last.0, last.1, k);
      }
    }
  }

  /** A key has a last value exactly when it is paired at all. */
  lemma {:induction false} LastForSpec<K, V>(pairs: seq<(K, V)>, k: K)
    ensures LastFor(pairs, k).Some? <==> k in Keys(pairs)
  {
    if |pairs| > 0 {
      var init := pairs[..|pairs| - 1];
      assert pairs == init + [pairs[|pairs| - 1]];
      KeysSnoc(init, pairs[|pairs| - 1]);
      LastForSpec(init, k);
    }
  }

  /** The last value of `k` is the one at the last position where `k` occurs. */
  lemma {:induction false} LastForIndex<K, V>(pairs: seq<(K, V)>, k: K, j: nat)
    requires j < |pairs| && pairs[j].0 == k
    requires forall l :: j < l < |pairs| ==> pairs[l].0 != k
    ensures LastFor(pairs, k) == Some(pairs[j].1)
  {
    if j < |pairs| - 1 {
      var init := pairs[..|pairs| - 1];
      LastForIndex(init, k, j);
    }
  }

  lemma {:induction false} LastWinsDistinct<K, V>(pairs: seq<(K, V)>)
    ensures DistinctKeys(LastWins(pairs))
  {
    if |pairs| > 0 {
      LastWinsDistinct(pairs[..|pairs| - 1]);
      SetKeepsDistinct(LastWins(pairs[..|pairs| - 1]), pairs[|pairs| - 1].0, pairs[|pairs| - 1].1);
    }
  }

  // ---------------------------------------------------------------------------
  // The same folds continued from a map that already has entries.

  /** Looking a key up in a concatenation: the first part wins. */
  lemma {:induction false} GetConcat<K, V>(a: OMap<K, V>, b: OMap<K, V>, k: K)
    ensures Get(a + b, k) == if k in Keys(a) then Get(a, k) else Get(b, k)
  {
    if |a| > 0 {
      GetConcat(a[1..], b, k);
      assert (a + b)[1..] == a[1..] + b;
      KeysCons(a);
    } else {
      assert a + b == b;
    }
  }

  /** `for (k, v) of pairs: m.set(k, m.get(k) ?? v)`, starting from `m`. */
  function KeepFirstAll<K(==), V>(m: OMap<K, V>, pairs: seq<(K, V)>): OMap<K, V> {
    if |pairs| == 0 then m
    else KeepFirst(KeepFirstAll(m, pairs[..|pairs| - 1]), pairs[|pairs| - 1].0, pairs[|pairs| - 1].1)
  }

  /** Continuing a first-wins fold reads like the map followed by the new pairs. */
  lemma {:induction false} KeepFirstAllGet<K, V>(m: OMap<K, V>, pairs: seq<(K, V)>, k: K)
    ensures Get(KeepFirstAll(m, pairs), k) == Get(m + pairs, k)
  {
    if |pairs| == 0 {
      assert m + pairs == m;
    } else {
      var init := pairs[..|pairs| - 1];
      var last := pairs[|pairs| - 1];
      KeepFirstAllGet(m, init, k);
      assert m + pairs == (m + init) + [last];
      GetAppend(m + init, last, k);
      GetSpec(m + init, k);
      var acc := KeepFirstAll(m, init);
      if last.0 != k {
        SetOther(acc, last.0, Get(acc, last.0).GetOr(last.1), k);
      }
    }
  }

  /** `for (k, v) of pairs: m.set(k, (m.get(k) ?? 0) + v)`, starting from `m`. */
  function AddAll<K(==)>(m: OMap<K, real>, pairs: seq<(K, real)>): OMap<K, real> {
    if |pairs| == 0 then m
    else AddTo(AddAll(m, pairs[..|pairs| - 1]), pairs[|pairs| - 1].0, pairs[|pairs| - 1].1)
  }

  /** Continuing a summing fold adds each key's new values to what it already had. */
  lemma {:induction false} AddAllGet<K>(m: OMap<K, real>, pairs: seq<(K, real)>, k: K)
    ensures Get(AddAll(m, pairs), k) ==
      if k in Keys(m) || k in Keys(pairs) then Some(Get(m, k).GetOr(0.0) + SumFor(pairs, k)) else None
  {
    GetSpec(m, k);
    if |pairs| > 0 {
      var init := pairs[..|pairs| - 1];
      var last := pairs[|pairs| - 1];
      AddAllGet(m, init, k);
      assert pairs == init + [last];
      KeysSnoc(init, last);
      var acc := AddAll(m, init);
      if last.0 != k {
        SetOther(acc, last.0, Get(acc, last.0).GetOr(0.0) + last.1, k);
      } else if !(k in Keys(m) || k in Keys(init)) {
        SumForAbsent(init, k);
      }
    }
  }
}
