/**
 The first version of the tier list (App.tsx). It merges the per-map container
 counts and per-container item tables of the selected maps, weights each item
 by its container's count, keeps the items worth at least a minimum, cuts the
 list, sorted by count, at fixed percentiles of its length, and trims every tier
 to its most expensive items.

 Each merge is written `m.set(k, m.get(k) ?? 0 + v)`, which parses as
 `m.get(k) ?? (0 + v)`: the first value met for a key is kept and later ones are
 ignored. The `AsWritten` members model that; the members without the suffix
 sum, as the other pipelines of the program do.
 */
module AppTiers {
  import opened Wrappers
  import opened Sums
  import opened OrderedMap
  import opened Locations
  import opened Sorting
  import opened Items
  import opened TierList
  import opened LootRarity

  // ---------------------------------------------------------------------------
  // Merging the selected maps

  /** The value of `key` on the first selected map with data that lists it. */
  function FirstOn<V>(selected: seq<Location>, perMap: map<Location, OMap<string, V>>, key: string): Option<V> {
    if |selected| == 0 then None
    else
      match FirstOn(selected[..|selected| - 1], perMap, key)
      case Some(v) => Some(v)
      case None =>
        var l := selected[|selected| - 1];
        if l in perMap then Get(perMap[l], key) else None
  }

  lemma {:induction false} SelectedPairsFirst<V>(selected: seq<Location>, perMap: map<Location, OMap<string, V>>, key: string)
    ensures Get(SelectedPairs(selected, perMap), key) == FirstOn(selected, perMap, key)
  {
    if |selected| > 0 {
      var init := selected[..|selected| - 1];
      var l := selected[|selected| - 1];
      SelectedPairsFirst(init, perMap, key);
      var tail := if l in perMap then perMap[l] else [];
      GetConcat(SelectedPairs(init, perMap), tail, key);
      GetSpec(SelectedPairs(init, perMap), key);
    }
  }

  /** `averageContainers` as written: `get(c) ?? 0 + count`, so the first count wins. */
  function MergedContainersAsWritten(selected: seq<Location>, containersPerMap: map<Location, OMap<string, real>>)
    : OMap<string, real>
  {
    FirstWins(SelectedPairs(selected, containersPerMap))
  }

  /** A container's merged count is its count on the first selected map that has it; later maps are ignored. */
  lemma MergedContainersFirst(selected: seq<Location>, containersPerMap: map<Location, OMap<string, real>>, c: string)
    ensures Get(MergedContainersAsWritten(selected, containersPerMap), c) == FirstOn(selected, containersPerMap, c)
  {
    FirstWinsGet(SelectedPairs(selected, containersPerMap), c);
    SelectedPairsFirst(selected, containersPerMap, c);
  }

  /**
   Two maps with a count for the same container: the merge as written keeps the
   first count, where the sum over the maps is 3.
   */
  lemma FirstCountKept()
    ensures var perMap := map[Customs := [("crate", 1.0)], Woods := [("crate", 2.0)]];
      Get(MergedContainersAsWritten([Customs, Woods], perMap), "crate") == Some(1.0)
      && Get(CombinedSpawns([Customs, Woods], perMap), "crate") == Some(3.0)
  {
    var perMap := map[Customs := [("crate", 1.0)], Woods := [("crate", 2.0)]];
    MergedContainersFirst([Customs, Woods], perMap, "crate");
    assert [Customs, Woods][..1] == [Customs];
    assert [Customs][..0] == [];
    CombinedSpawnsGet([Customs, Woods], perMap, "crate");
    assert Keys(perMap[Customs]) == ["crate"];
    assert ListedOnSome([Customs, Woods], perMap, "crate");
    var cs := CountsOn([Customs, Woods], perMap, "crate");
    assert cs == [1.0, 2.0];
    assert cs[..1] == [1.0];
    assert [1.0][..0] == [];
  }

  /** The entries of every table listed under container `c`, in order. */
  function TablesNamed(entries: seq<(string, OMap<string, real>)>, c: string): OMap<string, real> {
    if |entries| == 0 then []
    else
      var last := entries[|entries| - 1];
      TablesNamed(entries[..|entries| - 1], c) + (if last.0 == c then last.1 else [])
  }

  /**
   `averageItemsPerContainer` as written: each container gets a table the first
   time it is met, and each of its items keeps the first probability met.
   */
  function MergedTablesAsWritten(entries: seq<(string, OMap<string, real>)>): OMap<string, OMap<string, real>> {
    if |entries| == 0 then []
    else
      var acc := MergedTablesAsWritten(entries[..|entries| - 1]);
      var e := entries[|entries| - 1];
      Set(acc, e.0, KeepFirstAll(Get(acc, e.0).GetOr([]), e.1))
  }

  /** The per-container merge that sums an item's probabilities over all tables of the container. */
  function MergedTables(entries: seq<(string, OMap<string, real>)>): OMap<string, OMap<string, real>> {
    if |entries| == 0 then []
    else
      var acc := MergedTables(entries[..|entries| - 1]);
      var e := entries[|entries| - 1];
      Set(acc, e.0, AddAll(Get(acc, e.0).GetOr([]), e.1))
  }

  /**
   Every listed container has a merged table, and in it each item has the first
   probability any table of that container gives it.
   */
  lemma {:induction false} MergedTablesAsWrittenGet(entries: seq<(string, OMap<string, real>)>, c: string, item: string)
    ensures Get(MergedTablesAsWritten(entries), c).Some? <==> c in Keys(entries)
    ensures Get(Get(MergedTablesAsWritten(entries), c).GetOr([]), item) == Get(TablesNamed(entries, c), item)
  {
    if |entries| > 0 {
      var init := entries[..|entries| - 1];
      var e := entries[|entries| - 1];
      MergedTablesAsWrittenGet(init, c, item);
      assert entries == init + [e];
      KeysSnoc(init, e);
      var acc := MergedTablesAsWritten(init);
      var prev := Get(acc, e.0).GetOr([]);
      var named := TablesNamed(init, c);
      if e.0 == c {
        KeepFirstAllGet(prev, e.1, item);
        GetConcat(prev, e.1, item);
        GetConcat(named, e.1, item);
        GetSpec(prev, item);
        GetSpec(named, item);
      } else {
        SetOther(acc, e.0, KeepFirstAll(prev, e.1), c);
        assert Get(MergedTablesAsWritten(entries), c) == Get(acc, c);
        assert TablesNamed(entries, c) == named + [];
        assert named + [] == named;
      }
    }
  }

  /**
   Every listed container has a merged table, and in it each item's probability is
   the sum of the probabilities all tables of that container give it.
   */
  lemma {:induction false} MergedTablesGet(entries: seq<(string, OMap<string, real>)>, c: string, item: string)
    ensures Get(MergedTables(entries), c).Some? <==> c in Keys(entries)
    ensures Get(Get(MergedTables(entries), c).GetOr([]), item).GetOr(0.0) == SumFor(TablesNamed(entries, c), item)
  {
    if |entries| > 0 {
      var init := entries[..|entries| - 1];
      var e := entries[|entries| - 1];
      MergedTablesGet(init, c, item);
      assert entries == init + [e];
      KeysSnoc(init, e);
      var acc := MergedTables(init);
      var prev := Get(acc, e.0).GetOr([]);
      if e.0 == c {
        AddAllGet(prev, e.1, item);
        SumForAppend(TablesNamed(init, c), e.1, item);
        if !(item in Keys(prev) || item in Keys(e.1)) {
          SumForAbsent(e.1, item);
          GetSpec(prev, item);
        }
      } else {
        SetOther(acc, e.0, AddAll(prev, e.1), c);
        assert Get(MergedTables(entries), c) == Get(acc, c);
        assert TablesNamed(entries, c) == TablesNamed(init, c) + [];
        assert TablesNamed(init, c) + [] == TablesNamed(init, c);
      }
    }
  }

  // ---------------------------------------------------------------------------
  // Weighting items by container counts

  /** What one merged container adds: its items scaled by its count, unless the count is missing or zero. */
  function AppContributionsOf(entry: (string, OMap<string, real>), containers: OMap<string, real>): seq<(string, real)> {
    match Get(containers, entry.0)
    case Some(w) => if w != 0.0 then WeightedBy(entry.1, w) else []
    case None => []
  }

  function AppContributions(merged: OMap<string, OMap<string, real>>, containers: OMap<string, real>): seq<(string, real)> {
    if |merged| == 0 then []
    else AppContributions(merged[..|merged| - 1], containers) + AppContributionsOf(merged[|merged| - 1], containers)
  }

  /** `averageItems` as written: `get(item) ?? 0 + count * containerCount`, so the first contribution wins. */
  function AverageItemsAsWritten(merged: OMap<string, OMap<string, real>>, containers: OMap<string, real>): OMap<string, real> {
    FirstWins(AppContributions(merged, containers))
  }

  /** `averageItems` with the contributions summed. */
  function AverageItems(merged: OMap<string, OMap<string, real>>, containers: OMap<string, real>): (r: OMap<string, real>)
    ensures DistinctKeys(r)
  {
    AccumulateDistinct(AppContributions(merged, containers));
    Accumulate(AppContributions(merged, containers))
  }

  /** A container's count: zero when it has none. */
  function CountOf(containers: OMap<string, real>, c: string): real {
    Get(containers, c).GetOr(0.0)
  }

  function Times(p: real, w: real): real {
    p * w
  }

  /** The contribution of one merged container to an item: the item's probability in the table times the count. */
  function ContributionOf(entry: (string, OMap<string, real>), containers: OMap<string, real>, item: string): Option<real> {
    match Get(containers, entry.0)
    case Some(w) =>
      if w == 0.0 then None
      else (match Get(entry.1, item)
        case Some(p) => Some(Times(p, w))
        case None => None)
    case None => None
  }

  /** The contribution of the first merged container that contributes to the item. */
  function FirstContribution(merged: OMap<string, OMap<string, real>>, containers: OMap<string, real>, item: string): Option<real> {
    if |merged| == 0 then None
    else
      match FirstContribution(merged[..|merged| - 1], containers, item)
      case Some(v) => Some(v)
      case None => ContributionOf(merged[|merged| - 1], containers, item)
  }

  lemma {:induction false} GetWeightedBy(tbl: ItemTable, w: real, item: string)
    ensures Get(WeightedBy(tbl, w), item).Some? == Get(tbl, item).Some?
    ensures Get(tbl, item).Some? ==> Get(WeightedBy(tbl, w), item).value == Get(tbl, item).value * w
  {
    if |tbl| > 0 {
      var ws := WeightedBy(tbl, w);
      var rest := WeightedBy(tbl[1..], w);
      assert ws[0].0 == tbl[0].0 && ws[0].1 == tbl[0].1 * w;
      assert ws[1..] == rest by {
        forall j | 0 <= j < |rest| ensures ws[1..][j] == rest[j] {
          assert ws[1..][j].0 == rest[j].0 && ws[1..][j].1 == rest[j].1;
        }
      }
      GetWeightedBy(tbl[1..], w, item);
    }
  }

  lemma GetAppContributionsOf(e: (string, OMap<string, real>), containers: OMap<string, real>, item: string)
    ensures Get(AppContributionsOf(e, containers), item) == ContributionOf(e, containers, item)
  {
    match Get(containers, e.0)
    case Some(w) =>
      if w != 0.0 {
        GetWeightedBy(e.1, w, item);
        var got := Get(WeightedBy(e.1, w), item);
        if got.Some? {
          assert Get(e.1, item).Some?;
          var v := Get(e.1, item).value;
          assert got.value == v * w;
          assert Times(v, w) == v * w;
          assert got == Some(Times(v, w));
        }
      }
    case None =>
  }

  lemma {:induction false} AppContributionsFirst(merged: OMap<string, OMap<string, real>>, containers: OMap<string, real>, item: string)
    ensures Get(AppContributions(merged, containers), item) == FirstContribution(merged, containers, item)
  {
    if |merged| > 0 {
      var init := merged[..|merged| - 1];
      var e := merged[|merged| - 1];
      AppContributionsFirst(init, containers, item);
      GetConcat(AppContributions(init, containers), AppContributionsOf(e, containers), item);
      GetSpec(AppContributions(init, containers), item);
      GetAppContributionsOf(e, containers, item);
    }
  }

  /**
   As written, an item's count is the contribution of the first container, in
   merge order, whose count is present and non-zero and whose table lists it.
   */
  lemma AverageItemsAsWrittenGet(merged: OMap<string, OMap<string, real>>, containers: OMap<string, real>, item: string)
    ensures Get(AverageItemsAsWritten(merged, containers), item) == FirstContribution(merged, containers, item)
  {
    FirstWinsGet(AppContributions(merged, containers), item);
    AppContributionsFirst(merged, containers, item);
  }

  /** One merged container's share of an item: the item's probability in its table times the container's count. */
  function Term(e: (string, OMap<string, real>), containers: OMap<string, real>, item: string): real {
    SumFor(e.1, item) * CountOf(containers, e.0)
  }

  /** Each merged container's share of the item, in merge order. */
  function ContributionTerms(merged: OMap<string, OMap<string, real>>, containers: OMap<string, real>, item: string)
    : (ts: seq<real>)
    ensures |ts| == |merged|
    ensures forall i :: 0 <= i < |merged| ==> ts[i] == Term(merged[i], containers, item)
  {
    seq(|merged|, i requires 0 <= i < |merged| => Term(merged[i], containers, item))
  }

  lemma SumForAppContributionsOf(e: (string, OMap<string, real>), containers: OMap<string, real>, item: string)
    ensures SumFor(AppContributionsOf(e, containers), item) == Term(e, containers, item)
  {
    match Get(containers, e.0)
    case Some(w) =>
      if w != 0.0 {
        SumForWeighted(e.1, w, item);
      }
    case None =>
  }

  lemma {:induction false} AppContributionsSum(merged: OMap<string, OMap<string, real>>, containers: OMap<string, real>, item: string)
    ensures SumFor(AppContributions(merged, containers), item) == Sum(ContributionTerms(merged, containers, item))
  {
    if |merged| > 0 {
      var init := merged[..|merged| - 1];
      var e := merged[|merged| - 1];
      AppContributionsSum(init, containers, item);
      SumForAppend(AppContributions(init, containers), AppContributionsOf(e, containers), item);
      SumForAppContributionsOf(e, containers, item);
      var ts := ContributionTerms(merged, containers, item);
      assert ts[..|merged| - 1] == ContributionTerms(init, containers, item) by {
        forall i | 0 <= i < |init| ensures ts[i] == ContributionTerms(init, containers, item)[i] {
          assert merged[i] == init[i];
        }
      }
    }
  }

  /**
   Summed, an item's count is the sum over merged containers of its probability in
   the container's table times the container's count; a container with a missing or
   zero count adds nothing.
   */
  lemma AverageItemsGet(merged: OMap<string, OMap<string, real>>, containers: OMap<string, real>, item: string)
    ensures Get(AverageItems(merged, containers), item).GetOr(0.0) == Sum(ContributionTerms(merged, containers, item))
  {
    var pairs := AppContributions(merged, containers);
    AccumulateGet(pairs, item);
    AppContributionsSum(merged, containers, item);
    if item !in Keys(pairs) {
      SumForAbsent(pairs, item);
    }
  }

  // ---------------------------------------------------------------------------
  // Metadata and price filter

  /** `{ count, metadata }`. */
  datatype AppItem = AppItem(count: real, metadata: ItemInfo)

  /** `averageItemsWithMetadata` before the filter: the counted items that have metadata, in order. */
  function AppWithMetadata(items: OMap<string, real>, catalog: Catalog): (r: seq<AppItem>)
    ensures |r| <= |items|
  {
    if |items| == 0 then []
    else
      var last := items[|items| - 1];
      AppWithMetadata(items[..|items| - 1], catalog) + (if last.0 in catalog then [AppItem(last.1, catalog[last.0])] else [])
  }

  /** `lastLowPrice * count >= minPricePerSlot`: the expected value, not the price per slot, is compared. */
  predicate Worth(x: AppItem, minPricePerSlot: real) {
    x.metadata.lastLowPrice * x.count >= minPricePerSlot
  }

  function WorthFilter(xs: seq<AppItem>, minPricePerSlot: real): (r: seq<AppItem>)
    ensures |r| <= |xs|
  {
    if |xs| == 0 then []
    else
      var last := xs[|xs| - 1];
      WorthFilter(xs[..|xs| - 1], minPricePerSlot) + (if Worth(last, minPricePerSlot) then [last] else [])
  }

  /** `averageItemsWithMetadata`. */
  function AverageItemsWithMetadata(items: OMap<string, real>, catalog: Catalog, minPricePerSlot: real): seq<AppItem> {
    WorthFilter(AppWithMetadata(items, catalog), minPricePerSlot)
  }

  lemma {:induction false} WorthFilterMember(xs: seq<AppItem>, minPricePerSlot: real, x: AppItem)
    ensures x in WorthFilter(xs, minPricePerSlot) <==> x in xs && Worth(x, minPricePerSlot)
  {
    if |xs| > 0 {
      WorthFilterMember(xs[..|xs| - 1], minPricePerSlot, x);
      assert xs == xs[..|xs| - 1] + [xs[|xs| - 1]];
    }
  }

  lemma {:induction false} AppWithMetadataMember(items: OMap<string, real>, catalog: Catalog, x: AppItem)
    ensures x in AppWithMetadata(items, catalog) <==>
      exists j :: 0 <= j < |items| && items[j].0 in catalog && x == AppItem(items[j].1, catalog[items[j].0])
  {
    if |items| > 0 {
      var init := items[..|items| - 1];
      AppWithMetadataMember(init, catalog, x);
      if exists j :: 0 <= j < |items| && items[j].0 in catalog && x == AppItem(items[j].1, catalog[items[j].0]) {
        var j :| 0 <= j < |items| && items[j].0 in catalog && x == AppItem(items[j].1, catalog[items[j].0]);
        if j < |init| {
          assert init[j] == items[j];
        }
      }
      if exists j :: 0 <= j < |init| && init[j].0 in catalog && x == AppItem(init[j].1, catalog[init[j].0]) {
        var j :| 0 <= j < |init| && init[j].0 in catalog && x == AppItem(init[j].1, catalog[init[j].0]);
        assert items[j] == init[j];
      }
    }
  }

  /**
   An item is kept exactly when it has metadata and its last low price times its
   count reaches the minimum; it then carries its count and metadata.
   */
  lemma AverageItemsWithMetadataMember(items: OMap<string, real>, catalog: Catalog, minPricePerSlot: real, x: AppItem)
    ensures x in AverageItemsWithMetadata(items, catalog, minPricePerSlot) <==>
      Worth(x, minPricePerSlot) &&
      exists j :: 0 <= j < |items| && items[j].0 in catalog && x == AppItem(items[j].1, catalog[items[j].0])
  {
    WorthFilterMember(AppWithMetadata(items, catalog), minPricePerSlot, x);
    AppWithMetadataMember(items, catalog, x);
  }

  // ---------------------------------------------------------------------------
  // Percentile tiers

  function ByCount(x: AppItem): real {
    x.count
  }

  function ByPrice(x: AppItem): real {
    x.metadata.lastLowPrice
  }

  /** `Math.floor(p * n)`. */
  function Cut(p: real, n: nat): int {
    (p * n as real).Floor
  }

  /** Where tier `i` starts: `Math.floor((percentiles[i - 1] ?? 0) * n)`. */
  function StartCut(ps: seq<real>, i: nat, n: nat): int
    requires i <= |ps|
  {
    if i == 0 then 0 else Cut(ps[i - 1], n)
  }

  /** `itemsGroupedByTier`: tier `i` is the slice of the sorted items from `StartCut` to `Math.floor(p_i * n)`. */
  function GroupedByTier(sorted: seq<AppItem>, ps: seq<real>): (r: seq<seq<AppItem>>)
    ensures |r| == |ps|
  {
    seq(|ps|, i requires 0 <= i < |ps| => Slice(sorted, StartCut(ps, i, |sorted|), Cut(ps[i], |sorted|)))
  }

  /** Percentiles that cut the whole list: within [0, 1], non-decreasing, the last one 1. */
  predicate CoveringPercentiles(ps: seq<real>) {
    && |ps| > 0
    && (forall i :: 0 <= i < |ps| ==> 0.0 <= ps[i] <= 1.0)
    && (forall i, j :: 0 <= i < j < |ps| ==> ps[i] <= ps[j])
    && ps[|ps| - 1] == 1.0
  }

  lemma CutMonotone(p: real, q: real, n: nat)
    requires 0.0 <= p <= q <= 1.0
    ensures 0 <= Cut(p, n) <= Cut(q, n) <= n
  {
    assert (q - p) * n as real >= 0.0;
    assert (1.0 - q) * n as real >= 0.0;
    assert p * n as real >= 0.0;
  }

  function Concat<T>(ts: seq<seq<T>>): seq<T> {
    if |ts| == 0 then [] else Concat(ts[..|ts| - 1]) + ts[|ts| - 1]
  }

  lemma {:induction false} GroupedPrefix(sorted: seq<AppItem>, ps: seq<real>, k: nat)
    requires CoveringPercentiles(ps) && k <= |ps|
    ensures 0 <= StartCut(ps, k, |sorted|) <= |sorted|
    ensures Concat(GroupedByTier(sorted, ps)[..k]) == sorted[..StartCut(ps, k, |sorted|)]
  {
    var n := |sorted|;
    var r := GroupedByTier(sorted, ps);
    if k == 0 {
      assert r[..0] == [];
    } else {
      GroupedPrefix(sorted, ps, k - 1);
      assert r[..k][..k - 1] == r[..k - 1];
      if k >= 2 {
        CutMonotone(ps[k - 2], ps[k - 1], n);
      } else {
        CutMonotone(0.0, ps[0], n);
      }
      assert r[k - 1] == sorted[StartCut(ps, k - 1, n)..StartCut(ps, k, n)];
    }
  }

  /**
   With covering percentiles the tiers are consecutive slices of the sorted list
   that together are the whole list: no item is lost or repeated.
   */
  lemma GroupedByTierCovers(sorted: seq<AppItem>, ps: seq<real>)
    requires CoveringPercentiles(ps)
    ensures Concat(GroupedByTier(sorted, ps)) == sorted
  {
    GroupedPrefix(sorted, ps, |ps|);
    assert GroupedByTier(sorted, ps)[..|ps|] == GroupedByTier(sorted, ps);
    assert (1.0 * |sorted| as real).Floor == |sorted|;
  }

  /** `tier.sort(by lastLowPrice, highest first).slice(0, itemsPerTier)`. */
  function Trimmed(tier: seq<AppItem>, itemsPerTier: int): (r: seq<AppItem>)
    ensures 0 <= itemsPerTier ==> |r| == if itemsPerTier < |tier| then itemsPerTier else |tier|
    ensures multiset(r) <= multiset(tier)
  {
    var s := SortDesc(tier, ByPrice);
    var r := Slice(s, 0, itemsPerTier);
    assert s == r + s[|r|..];
    r
  }

  /** A trimmed tier lists its items by last low price, highest first. */
  lemma TrimmedSorted(tier: seq<AppItem>, itemsPerTier: int)
    ensures SortedDesc(Trimmed(tier, itemsPerTier), ByPrice)
  {
    SortDescSorted(tier, ByPrice);
  }

  /**
   The trim keeps the most expensive items of the tier: no item it cuts has a
   higher last low price than an item it keeps.
   */
  lemma TrimmedKeepsMostExpensive(tier: seq<AppItem>, itemsPerTier: int)
    ensures PricedAtLeast(multiset(Trimmed(tier, itemsPerTier)), multiset(tier) - multiset(Trimmed(tier, itemsPerTier)))
  {
    var s := SortDesc(tier, ByPrice);
    var r := Trimmed(tier, itemsPerTier);
    assert r == s[..|r|];
    SortDescSorted(tier, ByPrice);
    assert s == r + s[|r|..];
    assert multiset(tier) - multiset(r) == multiset(s[|r|..]);
    SortedPrefixPricedAtLeast(s, |r|);
  }

  /** Every item of `kept` costs at least as much as every item of `cut`. */
  ghost predicate PricedAtLeast(kept: multiset<AppItem>, cut: multiset<AppItem>) {
    forall x, y :: x in kept && y in cut ==> ByPrice(x) >= ByPrice(y)
  }

  lemma SortedPrefixPricedAtLeast(s: seq<AppItem>, n: nat)
    requires n <= |s|
    requires SortedDesc(s, ByPrice)
    ensures PricedAtLeast(multiset(s[..n]), multiset(s[n..]))
  {
    forall x, y | x in multiset(s[..n]) && y in multiset(s[n..]) ensures ByPrice(x) >= ByPrice(y) {
      var i :| 0 <= i < n && s[..n][i] == x;
      var j :| 0 <= j < |s| - n && s[n..][j] == y;
      assert s[i] == x && s[n + j] == y;
    }
  }

  /** `trimmedAndSortedTiers` over `itemsGroupedByTier` over the items sorted by count, highest first. */
  function AppTierList(items: seq<AppItem>, ps: seq<real>, itemsPerTier: int): (r: seq<seq<AppItem>>)
    ensures |r| == |ps|
  {
    var grouped := GroupedByTier(SortDesc(items, ByCount), ps);
    seq(|grouped|, i requires 0 <= i < |grouped| => Trimmed(grouped[i], itemsPerTier))
  }

  /**
   Every shown item comes from the tier its count rank puts it in; no tier shows
   more than `itemsPerTier`, and those shown are the tier's most expensive, highest first.
   */
  lemma AppTierListSpec(items: seq<AppItem>, ps: seq<real>, itemsPerTier: nat, i: nat)
    requires i < |ps|
    ensures |AppTierList(items, ps, itemsPerTier)[i]| <= itemsPerTier
    ensures multiset(AppTierList(items, ps, itemsPerTier)[i]) <= multiset(GroupedByTier(SortDesc(items, ByCount), ps)[i])
    ensures SortedDesc(AppTierList(items, ps, itemsPerTier)[i], ByPrice)
    ensures PricedAtLeast(multiset(AppTierList(items, ps, itemsPerTier)[i]),
      multiset(GroupedByTier(SortDesc(items, ByCount), ps)[i]) - multiset(AppTierList(items, ps, itemsPerTier)[i]))
  {
    TrimmedSorted(GroupedByTier(SortDesc(items, ByCount), ps)[i], itemsPerTier);
    TrimmedKeepsMostExpensive(GroupedByTier(SortDesc(items, ByCount), ps)[i], itemsPerTier);
  }

  /** The initial value floor. */
  const AppMinPricePerSlot: real := 1000.0

  /** 0-40%, 41-70%, 71-85%, 86-95% and 96-100% of the items by count. */
  const AppPercentiles: seq<real> := [0.4, 0.7, 0.85, 0.95, 1.0]

  const ItemsPerTier: int := 20

  /** The default percentiles split the sorted items into five consecutive tiers covering all of them. */
  lemma AppPercentilesCover(items: seq<AppItem>)
    ensures Concat(GroupedByTier(SortDesc(items, ByCount), AppPercentiles)) == SortDesc(items, ByCount)
  {
    GroupedByTierCovers(SortDesc(items, ByCount), AppPercentiles);
  }

  // ---------------------------------------------------------------------------
  // The whole page

  /**
   The tier list of the page with the merges summed: the selected maps' item
   tables merged per container, each item weighted by its container's summed
   count, kept when worth the minimum, grouped by count rank and trimmed by price.
   */
  function AppTiersFor(
    selected: seq<Location>,
    containersPerMap: map<Location, OMap<string, real>>,
    tablesPerMap: map<Location, OMap<string, OMap<string, real>>>,
    catalog: Catalog, minPricePerSlot: real, ps: seq<real>, itemsPerTier: int
  ): (r: seq<seq<AppItem>>)
    ensures |r| == |ps|
  {
    var items := AverageItems(MergedTables(SelectedPairs(selected, tablesPerMap)), CombinedSpawns(selected, containersPerMap));
    AppTierList(AverageItemsWithMetadata(items, catalog, minPricePerSlot), ps, itemsPerTier)
  }

  lemma SliceMember<T>(xs: seq<T>, start: int, end: int, x: T)
    requires x in Slice(xs, start, end)
    ensures x in xs
  {
    var s := SliceIndex(start, |xs|);
    var e := SliceIndex(end, |xs|);
    var k :| 0 <= k < |xs[s..e]| && xs[s..e][k] == x;
    assert xs[s + k] == x;
  }

  /**
   Every item a tier shows is worth the minimum, and is the catalog entry of an
   item whose summed expected count it carries.
   */
  lemma AppTiersShowWorth(
    selected: seq<Location>,
    containersPerMap: map<Location, OMap<string, real>>,
    tablesPerMap: map<Location, OMap<string, OMap<string, real>>>,
    catalog: Catalog, minPricePerSlot: real, ps: seq<real>, itemsPerTier: nat, i: nat, x: AppItem
  )
    requires i < |ps|
    requires x in AppTiersFor(selected, containersPerMap, tablesPerMap, catalog, minPricePerSlot, ps, itemsPerTier)[i]
    ensures Worth(x, minPricePerSlot)
    ensures var items := AverageItems(MergedTables(SelectedPairs(selected, tablesPerMap)), CombinedSpawns(selected, containersPerMap));
      exists id :: id in catalog && x.metadata == catalog[id] && Get(items, id) == Some(x.count)
  {
    var items := AverageItems(MergedTables(SelectedPairs(selected, tablesPerMap)), CombinedSpawns(selected, containersPerMap));
    var kept := AverageItemsWithMetadata(items, catalog, minPricePerSlot);
    var sorted := SortDesc(kept, ByCount);
    var grouped := GroupedByTier(sorted, ps);
    AppTierListSpec(kept, ps, itemsPerTier, i);
    var shown := AppTierList(kept, ps, itemsPerTier)[i];
    assert x in multiset(shown);
    assert x in multiset(grouped[i]);
    SliceMember(sorted, StartCut(ps, i, |sorted|), Cut(ps[i], |sorted|), x);
    assert x in multiset(sorted);
    assert x in kept;
    AverageItemsWithMetadataMember(items, catalog, minPricePerSlot, x);
    var j :| 0 <= j < |items| && items[j].0 in catalog && x == AppItem(items[j].1, catalog[items[j].0]);
    GetDistinct(items, items[j].0, items[j].1);
  }
}
