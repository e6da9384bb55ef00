/**
 `Array.prototype.sort` with a descending numeric comparator (`(a, b) => key(b) - key(a)`),
 which the language requires to be stable, and `Array.prototype.slice`.
 */
module Sorting {

  /** Non-increasing under `key`. */
  ghost predicate SortedDesc<T>(xs: seq<T>, key: T -> real) {
    forall i, j :: 0 <= i < j < |xs| ==> key(xs[i]) >= key(xs[j])
  }

  /** Puts `x` before the first element whose key is not greater than its own. */
  function Insert<T>(x: T, ys: seq<T>, key: T -> real): (r: seq<T>)
    ensures multiset(r) == multiset(ys) + multiset{x}
  {
    if |ys| == 0 then [x]
    else if key(ys[0]) > key(x) then
      assert ys == [ys[0]] + ys[1..];
      [ys[0]] + Insert(x, ys[1..], key)
    else [x] + ys
  }

  lemma {:induction false} InsertSorted<T>(x: T, ys: seq<T>, key: T -> real)
    requires SortedDesc(ys, key)
    ensures SortedDesc(Insert(x, ys, key), key)
  {
    if |ys| > 0 && key(ys[0]) > key(x) {
      var tail := ys[1..];
      InsertSorted(x, tail, key);
      var r := Insert(x, ys, key);
      var rest := Insert(x, tail, key);
      assert r == [ys[0]] + rest;
      forall j | 0 <= j < |rest| ensures key(rest[j]) <= key(ys[0]) {
        assert rest[j] in multiset(rest);
        assert rest[j] in multiset(tail) || rest[j] == x;
        if rest[j] != x {
          var k :| 0 <= k < |tail| && tail[k] == rest[j];
          assert ys[k + 1] == tail[k];
        }
      }
    }
  }

  /** The stable descending sort: a permutation of `xs`, ordered by `key` from largest to smallest. */
  function SortDesc<T>(xs: seq<T>, key: T -> real): (r: seq<T>)
    ensures multiset(r) == multiset(xs)
    ensures |r| == |xs|
  {
    if |xs| == 0 then []
    else
      assert xs == [xs[0]] + xs[1..];
      Insert(xs[0], SortDesc(xs[1..], key), key)
  }

  lemma {:induction false} SortDescSorted<T>(xs: seq<T>, key: T -> real)
    ensures SortedDesc(SortDesc(xs, key), key)
  {
    if |xs| > 0 {
      SortDescSorted(xs[1..], key);
      InsertSorted(xs[0], SortDesc(xs[1..], key), key);
    }
  }

  /** The elements whose key is `k`, in order. */
  function WithKey<T>(xs: seq<T>, key: T -> real, k: real): (r: seq<T>)
    ensures forall i :: 0 <= i < |r| ==> key(r[i]) == k
  {
    if |xs| == 0 then []
    else (if key(xs[0]) == k then [xs[0]] else []) + WithKey(xs[1..], key, k)
  }

  lemma WithKeyCons<T>(a: T, t: seq<T>, key: T -> real, k: real)
    ensures WithKey([a] + t, key, k) == (if key(a) == k then [a] else []) + WithKey(t, key, k)
  {
    assert ([a] + t)[0] == a && ([a] + t)[1..] == t;
  }

  lemma {:induction false} InsertWithKey<T>(x: T, ys: seq<T>, key: T -> real, k: real)
    ensures WithKey(Insert(x, ys, key), key, k) == (if key(x) == k then [x] else []) + WithKey(ys, key, k)
  {
    var pre := if key(x) == k then [x] else [];
    if |ys| == 0 {
      WithKeyCons(x, [], key, k);
      assert [x] + [] == [x];
    } else if key(ys[0]) > key(x) {
      var rest := Insert(x, ys[1..], key);
      var head := if key(ys[0]) == k then [ys[0]] else [];
      assert head == [] || pre == [];
      calc {
        WithKey(Insert(x, ys, key), key, k);
        { assert Insert(x, ys, key) == [ys[0]] + rest; }
        WithKey([ys[0]] + rest, key, k);
        { WithKeyCons(ys[0], rest, key, k); }
        head + WithKey(rest, key, k);
        { InsertWithKey(x, ys[1..], key, k); }
        head + (pre + WithKey(ys[1..], key, k));
        pre + (head + WithKey(ys[1..], key, k));
        { WithKeyCons(ys[0], ys[1..], key, k); assert [ys[0]] + ys[1..] == ys; }
        pre + WithKey(ys, key, k);
      }
    } else {
      assert Insert(x, ys, key) == [x] + ys;
      WithKeyCons(x, ys, key, k);
    }
  }

  /**
   Stability: the elements sharing any one key keep their original relative order.
   Together with the permutation and the ordering this pins the result down.
   */
  lemma {:induction false} SortDescStable<T>(xs: seq<T>, key: T -> real, k: real)
    ensures WithKey(SortDesc(xs, key), key, k) == WithKey(xs, key, k)
  {
    if |xs| > 0 {
      SortDescStable(xs[1..], key, k);
      InsertWithKey(xs[0], SortDesc(xs[1..], key), key, k);
    }
  }

  /** Where `slice` starts or ends for an index argument: negative counts from the end; both are clamped. */
  function SliceIndex(i: int, len: nat): (r: nat)
    ensures r <= len
    ensures 0 <= i <= len ==> r == i
    ensures i > len ==> r == len
    ensures i < 0 ==> r == if len + i < 0 then 0 else len + i
  {
    if i < 0 then (if len + i < 0 then 0 else len + i)
    else if i > len then len
    else i
  }

  /** `xs.slice(start, end)`: the elements from `start` up to, not including, `end`; empty when `end` comes first. */
  function Slice<T>(xs: seq<T>, start: int, end: int): (r: seq<T>)
    ensures 0 <= start <= end <= |xs| ==> r == xs[start..end]
    ensures 0 <= end <= start ==> r == []
  {
    var s := SliceIndex(start, |xs|);
    var e := SliceIndex(end, |xs|);
    if s <= e then xs[s..e] else []
  }
}
