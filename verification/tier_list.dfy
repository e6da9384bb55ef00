/**
 The tier list (components/TierList.tsx): expected spawn counts summed over the
 selected maps, joined with market metadata, filtered by price per slot and item
 type, and bucketed into tiers by where each count falls between the smallest and
 the largest count.
 */
module TierList {
  import opened Wrappers
  import opened Sums
  import opened OrderedMap
  import opened Locations
  import opened Sorting
  import opened Items

  // ---------------------------------------------------------------------------
  // Combined counts over the selected maps

  /** Every `(item, count)` entry of the selected maps that have data, map after map. */
  function SelectedPairs<V>(selected: seq<Location>, perMap: map<Location, OMap<string, V>>): seq<(string, V)> {
    if |selected| == 0 then []
    else
      var l := selected[|selected| - 1];
      SelectedPairs(selected[..|selected| - 1], perMap) + (if l in perMap then perMap[l] else [])
  }

  /** `averageSpawns`: `set(item, (get(item) ?? 0) + count)` over the selected maps' entries. */
  function CombinedSpawns(selected: seq<Location>, perMap: map<Location, OMap<string, real>>): (r: OMap<string, real>)
    ensures DistinctKeys(r)
  {
    AccumulateDistinct(SelectedPairs(selected, perMap));
    Accumulate(SelectedPairs(selected, perMap))
  }

  /** An item's count on one map; a map without data contributes nothing. */
  function CountOn(perMap: map<Location, OMap<string, real>>, l: Location, item: string): real {
    if l in perMap then Get(perMap[l], item).GetOr(0.0) else 0.0
  }

  /** An item's count on each selected map, in selection order. */
  function CountsOn(selected: seq<Location>, perMap: map<Location, OMap<string, real>>, item: string): (cs: seq<real>)
    ensures |cs| == |selected| && forall i :: 0 <= i < |selected| ==> cs[i] == CountOn(perMap, selected[i], item)
  {
    seq(|selected|, i requires 0 <= i < |selected| => CountOn(perMap, selected[i], item))
  }

  ghost predicate AllDistinct(perMap: map<Location, OMap<string, real>>) {
    forall l :: l in perMap ==> DistinctKeys(perMap[l])
  }

  /** Some selected map with data lists the item. */
  ghost predicate ListedOnSome<V>(selected: seq<Location>, perMap: map<Location, OMap<string, V>>, item: string) {
    exists i :: 0 <= i < |selected| && selected[i] in perMap && item in Keys(perMap[selected[i]])
  }

  lemma {:induction false} SelectedPairsSum(selected: seq<Location>, perMap: map<Location, OMap<string, real>>, item: string)
    requires AllDistinct(perMap)
    ensures SumFor(SelectedPairs(selected, perMap), item) == Sum(CountsOn(selected, perMap, item))
  {
    if |selected| > 0 {
      var init := selected[..|selected| - 1];
      var l := selected[|selected| - 1];
      SelectedPairsSum(init, perMap, item);
      var tail := if l in perMap then perMap[l] else [];
      SumForAppend(SelectedPairs(init, perMap), tail, item);
      if l in perMap {
        SumForDistinct(perMap[l], item);
      }
      assert CountsOn(selected, perMap, item)[..|selected| - 1] == CountsOn(init, perMap, item);
    }
  }

  lemma {:induction false} SelectedPairsKeys<V>(selected: seq<Location>, perMap: map<Location, OMap<string, V>>, item: string)
    ensures item in Keys(SelectedPairs(selected, perMap)) <==> ListedOnSome(selected, perMap, item)
  {
    if |selected| > 0 {
      var init := selected[..|selected| - 1];
      var l := selected[|selected| - 1];
      SelectedPairsKeys(init, perMap, item);
      var tail := if l in perMap then perMap[l] else [];
      KeysAppend(SelectedPairs(init, perMap), tail);
      if ListedOnSome(selected, perMap, item) && !(l in perMap && item in Keys(perMap[l])) {
        var i :| 0 <= i < |selected| && selected[i] in perMap && item in Keys(perMap[selected[i]]);
        assert init[i] == selected[i];
      }
      if ListedOnSome(init, perMap, item) {
        var i :| 0 <= i < |init| && init[i] in perMap && item in Keys(perMap[init[i]]);
        assert selected[i] == init[i];
      }
    }
  }

  /**
   An item's combined count is the sum of its counts over the selected maps; maps
   without data, or without the item, add nothing. The item has an entry exactly
   when some selected map with data lists it.
   */
  lemma CombinedSpawnsGet(selected: seq<Location>, perMap: map<Location, OMap<string, real>>, item: string)
    requires AllDistinct(perMap)
    ensures Get(CombinedSpawns(selected, perMap), item).Some? <==> ListedOnSome(selected, perMap, item)
    ensures Get(CombinedSpawns(selected, perMap), item).GetOr(0.0) == Sum(CountsOn(selected, perMap, item))
  {
    var pairs := SelectedPairs(selected, perMap);
    AccumulateGet(pairs, item);
    SelectedPairsSum(selected, perMap, item);
    SelectedPairsKeys(selected, perMap, item);
    if item !in Keys(pairs) {
      SumForAbsent(pairs, item);
    }
  }

  // ---------------------------------------------------------------------------
  // Joining with metadata

  /** `FrontendItemData`: the metadata with the combined count and the price per slot. */
  datatype TierItem = TierItem(info: ItemInfo, averageCount: real, pricePerSlot: int)

  function Enriched(info: ItemInfo, count: real): (x: TierItem)
    requires info.width > 0.0 && info.height > 0.0
    ensures x.info == info && x.averageCount == count
  {
    TierItem(info, count, PricePerSlot(info))
  }

  /** `averageSpawnsWithMetadata`: the counted items that have metadata, in count order. */
  function WithMetadata(spawns: OMap<string, real>, catalog: Catalog): (r: seq<TierItem>)
    requires Measured(catalog)
    ensures |r| <= |spawns|
  {
    if |spawns| == 0 then []
    else
      var last := spawns[|spawns| - 1];
      WithMetadata(spawns[..|spawns| - 1], catalog)
        + (if last.0 in catalog then [Enriched(catalog[last.0], last.1)] else [])
  }

  /**
   An item survives the join exactly when it has metadata, and then carries that
   metadata, its count and the rounded price per slot.
   */
  lemma {:induction false} WithMetadataMember(spawns: OMap<string, real>, catalog: Catalog, x: TierItem)
    requires Measured(catalog)
    ensures x in WithMetadata(spawns, catalog) <==>
      exists j :: 0 <= j < |spawns| && spawns[j].0 in catalog && x == Enriched(catalog[spawns[j].0], spawns[j].1)
  {
    if |spawns| > 0 {
      var init := spawns[..|spawns| - 1];
      var last := spawns[|spawns| - 1];
      WithMetadataMember(init, catalog, x);
      if exists j :: 0 <= j < |spawns| && spawns[j].0 in catalog && x == Enriched(catalog[spawns[j].0], spawns[j].1) {
        var j :| 0 <= j < |spawns| && spawns[j].0 in catalog && x == Enriched(catalog[spawns[j].0], spawns[j].1);
        if j < |init| {
          assert init[j] == spawns[j];
        }
      }
      if exists j :: 0 <= j < |init| && init[j].0 in catalog && x == Enriched(catalog[init[j].0], init[j].1) {
        var j :| 0 <= j < |init| && init[j].0 in catalog && x == Enriched(catalog[init[j].0], init[j].1);
        assert spawns[j] == init[j];
      }
    }
  }

  // ---------------------------------------------------------------------------
  // Filtering and tier boundaries

  predicate Kept(x: TierItem, minPricePerSlot: real, allowed: seq<string>) {
    x.pricePerSlot as real >= minPricePerSlot && HasAllowedType(x.info.types, allowed)
  }

  /** `filteredItems`: the items priced at least `minPricePerSlot` per slot with an allowed type, in order. */
  function Filtered(items: seq<TierItem>, minPricePerSlot: real, allowed: seq<string>): (r: seq<TierItem>)
    ensures |r| <= |items|
    ensures forall x :: x in r <==> x in items && Kept(x, minPricePerSlot, allowed)
  {
    if |items| == 0 then []
    else
      var last := items[|items| - 1];
      var init := items[..|items| - 1];
      assert items == init + [last];
      Filtered(init, minPricePerSlot, allowed) + (if Kept(last, minPricePerSlot, allowed) then [last] else [])
  }

  function Counts(items: seq<TierItem>): (cs: seq<real>)
    ensures |cs| == |items| && forall i :: 0 <= i < |items| ==> cs[i] == items[i].averageCount
  {
    seq(|items|, i requires 0 <= i < |items| => items[i].averageCount)
  }

  /** `Math.max(...xs)` of a non-empty list. */
  function MaxOf(xs: seq<real>): (m: real)
    requires |xs| > 0
    ensures (forall i :: 0 <= i < |xs| ==> xs[i] <= m) && exists i :: 0 <= i < |xs| && xs[i] == m
  {
    if |xs| == 1 then xs[0]
    else
      var m := MaxOf(xs[..|xs| - 1]);
      assert forall i :: 0 <= i < |xs| - 1 ==> xs[..|xs| - 1][i] == xs[i];
      if xs[|xs| - 1] > m then xs[|xs| - 1] else m
  }

  /** `Math.min(...xs)` of a non-empty list. */
  function MinOf(xs: seq<real>): (m: real)
    requires |xs| > 0
    ensures (forall i :: 0 <= i < |xs| ==> m <= xs[i]) && exists i :: 0 <= i < |xs| && xs[i] == m
  {
    if |xs| == 1 then xs[0]
    else
      var m := MinOf(xs[..|xs| - 1]);
      assert forall i :: 0 <= i < |xs| - 1 ==> xs[..|xs| - 1][i] == xs[i];
      if xs[|xs| - 1] < m then xs[|xs| - 1] else m
  }

  /** `max - (max - min) * percentile`. */
  function Boundary(max: real, min: real, percentile: real): real {
    max - (max - min) * percentile
  }

  function Boundaries(max: real, min: real, percentiles: seq<real>): (bs: seq<real>)
    ensures |bs| == |percentiles| && forall i :: 0 <= i < |bs| ==> bs[i] == Boundary(max, min, percentiles[i])
  {
    seq(|percentiles|, i requires 0 <= i < |percentiles| => Boundary(max, min, percentiles[i]))
  }

  /**
   A larger percentile gives a boundary no higher, the first percentile 0 gives the
   largest count and percentile 1 the smallest.
   */
  lemma BoundaryMonotone(max: real, min: real, p: real, q: real)
    requires min <= max && p <= q
    ensures Boundary(max, min, q) <= Boundary(max, min, p)
    ensures Boundary(max, min, 1.0) == min && Boundary(max, min, 0.0) == max
  {
    assert (max - min) * (q - p) >= 0.0;
  }

  // ---------------------------------------------------------------------------
  // Bucketing

  /** `tierBoundaries.findIndex((boundary) => count >= boundary)`, with `None` for -1. */
  function TierIndex(bs: seq<real>, count: real): (r: Option<nat>)
    ensures r.Some? ==> r.value < |bs| && bs[r.value] <= count
    ensures r.Some? ==> forall k :: 0 <= k < r.value ==> bs[k] > count
    ensures r.None? <==> forall k :: 0 <= k < |bs| ==> bs[k] > count
  {
    if |bs| == 0 then None
    else if bs[0] <= count then Some(0)
    else
      assert forall k :: 1 <= k < |bs| ==> bs[k] == bs[1..][k - 1];
      match TierIndex(bs[1..], count)
      case Some(i) => Some(i + 1)
      case None => None
  }

  /** One step of the `reduce`: push the item onto its tier, or drop it when it has none. */
  function Place(tiers: seq<seq<TierItem>>, x: TierItem, bs: seq<real>): (r: seq<seq<TierItem>>)
    requires |tiers| == |bs|
    ensures |r| == |bs|
  {
    match TierIndex(bs, x.averageCount)
    case Some(i) => tiers[i := tiers[i] + [x]]
    case None => tiers
  }

  function EmptyTiers(n: nat): (r: seq<seq<TierItem>>)
    ensures |r| == n && forall i :: 0 <= i < n ==> r[i] == []
  {
    seq(n, _ => [])
  }

  /** The `reduce` over the items, starting from one empty tier per boundary. */
  function Bucket(xs: seq<TierItem>, bs: seq<real>): (r: seq<seq<TierItem>>)
    ensures |r| == |bs|
  {
    if |xs| == 0 then EmptyTiers(|bs|)
    else Place(Bucket(xs[..|xs| - 1], bs), xs[|xs| - 1], bs)
  }

  /** The reference: the items whose first boundary met is the `i`-th, in order. */
  function InTier(xs: seq<TierItem>, bs: seq<real>, i: nat): (r: seq<TierItem>)
    ensures forall x :: x in r <==> x in xs && TierIndex(bs, x.averageCount) == Some(i)
  {
    if |xs| == 0 then []
    else
      var init := xs[..|xs| - 1];
      var last := xs[|xs| - 1];
      assert xs == init + [last];
      InTier(init, bs, i) + (if TierIndex(bs, last.averageCount) == Some(i) then [last] else [])
  }

  /** Tier `i` holds, in order, exactly the items whose first boundary met is the `i`-th. */
  lemma {:induction false} BucketInTier(xs: seq<TierItem>, bs: seq<real>, i: nat)
    requires i < |bs|
    ensures Bucket(xs, bs)[i] == InTier(xs, bs, i)
  {
    if |xs| > 0 {
      BucketInTier(xs[..|xs| - 1], bs, i);
    }
  }

  /** All the items of all the tiers, with multiplicity. */
  ghost function Union(ts: seq<seq<TierItem>>): multiset<TierItem> {
    if |ts| == 0 then multiset{} else Union(ts[..|ts| - 1]) + multiset(ts[|ts| - 1])
  }

  lemma {:induction false} UnionPush(ts: seq<seq<TierItem>>, i: nat, x: TierItem)
    requires i < |ts|
    ensures Union(ts[i := ts[i] + [x]]) == Union(ts) + multiset{x}
  {
    var us := ts[i := ts[i] + [x]];
    var n := |ts| - 1;
    if i == n {
      assert us[..n] == ts[..n];
    } else {
      UnionPush(ts[..n], i, x);
      assert us[..n] == ts[..n][i := ts[i] + [x]];
    }
  }

  lemma {:induction false} UnionEmpty(n: nat)
    ensures Union(EmptyTiers(n)) == multiset{}
  {
    if n > 0 {
      UnionEmpty(n - 1);
      assert EmptyTiers(n)[..n - 1] == EmptyTiers(n - 1);
    }
  }

  lemma BucketStep(xs: seq<TierItem>, bs: seq<real>)
    requires |xs| > 0 && TierIndex(bs, xs[|xs| - 1].averageCount).Some?
    ensures Union(Bucket(xs, bs)) == Union(Bucket(xs[..|xs| - 1], bs)) + multiset{xs[|xs| - 1]}
  {
    var ts := Bucket(xs[..|xs| - 1], bs);
    var x := xs[|xs| - 1];
    UnionPush(ts, TierIndex(bs, x.averageCount).value, x);
  }

  /** When every item meets some boundary, the tiers hold every item exactly once. */
  lemma {:induction false} BucketUnion(xs: seq<TierItem>, bs: seq<real>)
    requires forall x :: x in xs ==> TierIndex(bs, x.averageCount).Some?
    ensures Union(Bucket(xs, bs)) == multiset(xs)
  {
    if |xs| == 0 {
      UnionEmpty(|bs|);
    } else {
      var init := xs[..|xs| - 1];
      BucketUnion(init, bs);
      BucketStep(xs, bs);
      assert xs == init + [xs[|xs| - 1]];
    }
  }

  // ---------------------------------------------------------------------------
  // The tiers

  function CountKey(x: TierItem): real {
    x.averageCount
  }

  function PriceKey(x: TierItem): real {
    x.pricePerSlot as real
  }

  /** The boundaries of the filtered items: `max - (max - min) * percentile` for each tier. */
  function TierBoundaries(kept: seq<TierItem>, percentiles: seq<real>): (bs: seq<real>)
    requires |kept| > 0
    ensures |bs| == |percentiles|
  {
    Boundaries(MaxOf(Counts(kept)), MinOf(Counts(kept)), percentiles)
  }

  function SortTiers(ts: seq<seq<TierItem>>): (r: seq<seq<TierItem>>)
    ensures |r| == |ts| && forall i :: 0 <= i < |ts| ==> r[i] == SortDesc(ts[i], PriceKey)
  {
    seq(|ts|, i requires 0 <= i < |ts| => SortDesc(ts[i], PriceKey))
  }

  /**
   `tiers`: the filtered items sorted by count from most to least, bucketed by the
   first boundary their count meets, and each tier sorted by price per slot from
   highest to lowest. With nothing left after filtering every tier is empty.
   */
  function Tiers(items: seq<TierItem>, minPricePerSlot: real, allowed: seq<string>, percentiles: seq<real>)
    : (r: seq<seq<TierItem>>)
    ensures |r| == |percentiles|
  {
    var kept := Filtered(items, minPricePerSlot, allowed);
    if |kept| == 0 then EmptyTiers(|percentiles|)
    else SortTiers(Bucket(SortDesc(kept, CountKey), TierBoundaries(kept, percentiles)))
  }

  /** Membership in an item list sorted by a key is membership in the list. */
  lemma SortDescMember(xs: seq<TierItem>, key: TierItem -> real, x: TierItem)
    ensures x in SortDesc(xs, key) <==> x in xs
  {
    assert x in SortDesc(xs, key) <==> x in multiset(SortDesc(xs, key));
  }

  /**
   An item is in tier `i` exactly when it passes the filter and the `i`-th boundary
   is the first one its count meets.
   */
  lemma TiersMember(items: seq<TierItem>, minPricePerSlot: real, allowed: seq<string>, percentiles: seq<real>, i: nat, x: TierItem)
    requires i < |percentiles|
    ensures var kept := Filtered(items, minPricePerSlot, allowed);
      x in Tiers(items, minPricePerSlot, allowed, percentiles)[i] <==>
        x in items && Kept(x, minPricePerSlot, allowed) && TierIndex(TierBoundaries(kept, percentiles), x.averageCount) == Some(i)
  {
    var kept := Filtered(items, minPricePerSlot, allowed);
    if |kept| > 0 {
      var bs := TierBoundaries(kept, percentiles);
      var sorted := SortDesc(kept, CountKey);
      BucketInTier(sorted, bs, i);
      SortDescMember(Bucket(sorted, bs)[i], PriceKey, x);
      SortDescMember(kept, CountKey, x);
    }
  }

  /** Every tier lists its items by price per slot, highest first. */
  lemma TiersSortedByPrice(items: seq<TierItem>, minPricePerSlot: real, allowed: seq<string>, percentiles: seq<real>, i: nat)
    requires i < |percentiles|
    ensures SortedDesc(Tiers(items, minPricePerSlot, allowed, percentiles)[i], PriceKey)
  {
    var kept := Filtered(items, minPricePerSlot, allowed);
    if |kept| > 0 {
      SortDescSorted(Bucket(SortDesc(kept, CountKey), TierBoundaries(kept, percentiles))[i], PriceKey);
    }
  }

  /** A percentile of 1 yields the smallest count as a boundary, which every filtered item meets. */
  lemma AllPlaced(kept: seq<TierItem>, percentiles: seq<real>, x: TierItem)
    requires |kept| > 0 && 1.0 in percentiles && x in kept
    ensures TierIndex(TierBoundaries(kept, percentiles), x.averageCount).Some?
  {
    var bs := TierBoundaries(kept, percentiles);
    var counts := Counts(kept);
    var j :| 0 <= j < |percentiles| && percentiles[j] == 1.0;
    var k :| 0 <= k < |kept| && kept[k] == x;
    BoundaryMonotone(MaxOf(counts), MinOf(counts), 1.0, 1.0);
    assert bs[j] == MinOf(counts) <= counts[k];
  }

  /**
   With a percentile of 1 among the tiers, every filtered item lands in exactly one
   tier: together the tiers hold the filtered items, each once.
   */
  lemma TiersPartition(items: seq<TierItem>, minPricePerSlot: real, allowed: seq<string>, percentiles: seq<real>)
    requires 1.0 in percentiles
    ensures Union(Tiers(items, minPricePerSlot, allowed, percentiles)) == multiset(Filtered(items, minPricePerSlot, allowed))
  {
    var kept := Filtered(items, minPricePerSlot, allowed);
    if |kept| == 0 {
      UnionEmpty(|percentiles|);
    } else {
      var bs := TierBoundaries(kept, percentiles);
      var sorted := SortDesc(kept, CountKey);
      forall x | x in sorted ensures TierIndex(bs, x.averageCount).Some? {
        SortDescMember(kept, CountKey, x);
        AllPlaced(kept, percentiles, x);
      }
      BucketUnion(sorted, bs);
      UnionSorted(Bucket(sorted, bs));
    }
  }

  lemma {:induction false} UnionSorted(ts: seq<seq<TierItem>>)
    ensures Union(SortTiers(ts)) == Union(ts)
  {
    if |ts| > 0 {
      UnionSorted(ts[..|ts| - 1]);
      assert SortTiers(ts)[..|ts| - 1] == SortTiers(ts[..|ts| - 1]);
    }
  }

  // ---------------------------------------------------------------------------
  // The configuration and the view

  /** The initial price floor. */
  const DefaultMinPricePerSlot: real := 15000.0

  /** The initially allowed item types. */
  const DefaultAllowedTypes: seq<string> := ["barter", "keys", "meds", "provisions", "mods"]

  /** Common, Uncommon, Rare, Epic and Legendary. */
  const TierPercentiles: seq<real> := [0.85, 0.95, 0.975, 0.985, 1.0]

  /** The default tiers place every item that passes the default filter exactly once. */
  lemma DefaultTiersPartition(items: seq<TierItem>)
    ensures Union(Tiers(items, DefaultMinPricePerSlot, DefaultAllowedTypes, TierPercentiles))
      == multiset(Filtered(items, DefaultMinPricePerSlot, DefaultAllowedTypes))
  {
    assert TierPercentiles[4] == 1.0;
    TiersPartition(items, DefaultMinPricePerSlot, DefaultAllowedTypes, TierPercentiles);
  }

  /** How many items a tier shows. */
  const ItemsShown: nat := 40

  /** `items.slice(0, 40)`: a tier shows its first 40 items, or all of them when it has fewer. */
  function ItemsToShow(tier: seq<TierItem>): (r: seq<TierItem>)
    ensures |r| == if |tier| < ItemsShown then |tier| else ItemsShown
    ensures r <= tier
  {
    Slice(tier, 0, ItemsShown)
  }
}
