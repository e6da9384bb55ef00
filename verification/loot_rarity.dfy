/**
 The loot-probability pipeline (mapper/loot-data-to-rarity.ts): for each map, the
 expected number of each item found in its static containers.

 1. Container weights: per translated container name, the summed spawn
    probability of its placed containers (`getAverageContainers`).
 2. Item tables: per translated container name, each template id's normalised
    probability (`getAverageItemsPerContainer`).
 3. Expected spawns: per item, the sum over weighted names that have a table of
    weight × probability (`mapLootDataToAverageSpawnsPerMap`).
 */
module LootRarity {
  import opened Wrappers
  import opened Sums
  import opened Display
  import opened OrderedMap
  import opened Translations
  import opened Locations
  import opened LootData

  type ItemTable = OMap<string, real>

  // ---------------------------------------------------------------------------
  // Container weights

  /** Each placed container as `(translated name, probability)`, in order. */
  function ContainerWeights(ss: StaticSpawns, t: Translations): (ps: seq<(string, real)>)
    ensures |ps| == |ss.staticContainers|
    ensures forall i :: 0 <= i < |ps| ==>
      ps[i] == (Translate(t, ss.staticContainers[i].tpl), ss.staticContainers[i].probability)
  {
    seq(|ss.staticContainers|, i requires 0 <= i < |ss.staticContainers| =>
      (Translate(t, ss.staticContainers[i].tpl), ss.staticContainers[i].probability))
  }

  /** `getAverageContainers`. */
  function AverageContainers(ss: StaticSpawns, t: Translations): (w: OMap<string, real>)
    ensures DistinctKeys(w)
  {
    AccumulateDistinct(ContainerWeights(ss, t));
    Accumulate(ContainerWeights(ss, t))
  }

  /**
   A name has a weight exactly when some container translates to it, and the
   weight is the sum of those containers' probabilities. An untranslated id is
   its own name.
   */
  lemma AverageContainersGet(ss: StaticSpawns, t: Translations, name: string)
    ensures Get(AverageContainers(ss, t), name).Some? <==>
      exists i :: 0 <= i < |ss.staticContainers| && Translate(t, ss.staticContainers[i].tpl) == name
    ensures Get(AverageContainers(ss, t), name).Some? ==>
      Get(AverageContainers(ss, t), name).value == SumFor(ContainerWeights(ss, t), name)
  {
    var ps := ContainerWeights(ss, t);
    AccumulateGet(ps, name);
    if name in Keys(ps) {
      var i :| 0 <= i < |ps| && Keys(ps)[i] == name;
    }
    if exists i :: 0 <= i < |ss.staticContainers| && Translate(t, ss.staticContainers[i].tpl) == name {
      var i :| 0 <= i < |ss.staticContainers| && Translate(t, ss.staticContainers[i].tpl) == name;
      assert Keys(ps)[i] == name;
    }
  }

  /** The spawn probabilities of the placed containers, in order. */
  function ContainerProbabilities(ss: StaticSpawns): (ps: seq<real>)
    ensures |ps| == |ss.staticContainers|
    ensures forall i :: 0 <= i < |ps| ==> ps[i] == ss.staticContainers[i].probability
  {
    seq(|ss.staticContainers|, i requires 0 <= i < |ss.staticContainers| => ss.staticContainers[i].probability)
  }

  /** Nothing is lost or counted twice: the weights add up to the total container probability. */
  lemma AverageContainersTotal(ss: StaticSpawns, t: Translations)
    ensures Sum(Values(AverageContainers(ss, t))) == Sum(ContainerProbabilities(ss))
  {
    var ps := ContainerWeights(ss, t);
    AccumulateTotal(ps);
    SumAllValues(ps);
    SumAllValues(Accumulate(ps));
    assert Values(ps) == ContainerProbabilities(ss);
  }

  // ---------------------------------------------------------------------------
  // Item tables

  /** A normalised distribution as `(tpl, probability)` pairs, in order. */
  function ProbabilityPairs(dist: seq<Weighted<string>>): (ps: seq<(string, real)>)
    requires Normalizable(dist)
    ensures |ps| == |dist|
    ensures forall i :: 0 <= i < |ps| ==>
      ps[i].0 == dist[i].item && ps[i].1 == NormalizeProbabilities(dist)[i].probability
  {
    var n := NormalizeProbabilities(dist);
    seq(|n|, i requires 0 <= i < |n| => (n[i].item, n[i].probability))
  }

  /** One container's table: `averageItems.set(item.tpl, item.probability)` over the normalised distribution. */
  function TableOf(dist: seq<Weighted<string>>): (tbl: ItemTable)
    requires Normalizable(dist)
    ensures DistinctKeys(tbl)
  {
    LastWinsDistinct(ProbabilityPairs(dist));
    LastWins(ProbabilityPairs(dist))
  }

  /**
   A template id listed in the distribution maps to its normalised probability;
   listed twice, it keeps the probability of its last listing. Unlisted ids are absent.
   */
  lemma ItemTableGet(dist: seq<Weighted<string>>, tpl: string, j: nat)
    requires Normalizable(dist) && j < |dist| && dist[j].item == tpl
    requires forall l :: j < l < |dist| ==> dist[l].item != tpl
    ensures Get(TableOf(dist), tpl) == Some(NormalizeProbabilities(dist)[j].probability)
  {
    LastWinsGet(ProbabilityPairs(dist), tpl);
    LastForIndex(ProbabilityPairs(dist), tpl, j);
  }

  lemma ItemTableAbsent(dist: seq<Weighted<string>>, tpl: string)
    requires Normalizable(dist)
    requires forall l :: 0 <= l < |dist| ==> dist[l].item != tpl
    ensures Get(TableOf(dist), tpl) == None
  {
    var ps := ProbabilityPairs(dist);
    LastWinsGet(ps, tpl);
    LastForSpec(ps, tpl);
  }

  /** Each container id as `(translated name, its item table)`, in order. */
  function ContainerTables(content: ContainerContent, t: Translations): (ps: seq<(string, ItemTable)>)
    requires WellWeighted(content)
    ensures |ps| == |content|
    ensures forall i :: 0 <= i < |ps| ==>
      ps[i] == (Translate(t, content[i].0), TableOf(content[i].1))
  {
    seq(|content|, i requires 0 <= i < |content| && WellWeighted(content) =>
      (Translate(t, content[i].0), TableOf(content[i].1)))
  }

  /** `getAverageItemsPerContainer`. */
  function AverageItemsPerContainer(content: ContainerContent, t: Translations): (tables: OMap<string, ItemTable>)
    requires WellWeighted(content)
    ensures DistinctKeys(tables)
  {
    LastWinsDistinct(ContainerTables(content, t));
    LastWins(ContainerTables(content, t))
  }

  /**
   Container ids that translate to the same name do not merge: the name keeps the
   table of the last of them.
   */
  lemma AverageItemsPerContainerGet(content: ContainerContent, t: Translations, name: string, j: nat)
    requires WellWeighted(content) && j < |content| && Translate(t, content[j].0) == name
    requires forall l :: j < l < |content| ==> Translate(t, content[l].0) != name
    ensures Get(AverageItemsPerContainer(content, t), name) == Some(TableOf(content[j].1))
  {
    LastWinsGet(ContainerTables(content, t), name);
    LastForIndex(ContainerTables(content, t), name, j);
  }

  // ---------------------------------------------------------------------------
  // Expected spawns

  /** One table's items with their probabilities multiplied by the container weight. */
  function WeightedBy(tbl: ItemTable, w: real): (ps: seq<(string, real)>)
    ensures |ps| == |tbl|
    ensures forall j :: 0 <= j < |tbl| ==> ps[j].0 == tbl[j].0 && ps[j].1 == tbl[j].1 * w
  {
    seq(|tbl|, j requires 0 <= j < |tbl| => (tbl[j].0, tbl[j].1 * w))
  }

  /** What one weighted container name adds: its table's items scaled by its weight, if it has a table. */
  function ContributionsOf(entry: (string, real), tables: OMap<string, ItemTable>): seq<(string, real)> {
    match Get(tables, entry.0)
    case Some(tbl) => WeightedBy(tbl, entry.1)
    case None => []
  }

  /**
   Every `(item, probability × weight)` contribution, in loop order: weighted names
   without a table contribute nothing.
   */
  function Contributions(weights: OMap<string, real>, tables: OMap<string, ItemTable>): seq<(string, real)> {
    if |weights| == 0 then []
    else Contributions(weights[..|weights| - 1], tables) + ContributionsOf(weights[|weights| - 1], tables)
  }

  /** The inner loops of `mapLootDataToAverageSpawnsPerMap` for one map. */
  function ExpectedSpawns(weights: OMap<string, real>, tables: OMap<string, ItemTable>): (r: OMap<string, real>)
    ensures DistinctKeys(r)
  {
    AccumulateDistinct(Contributions(weights, tables));
    Accumulate(Contributions(weights, tables))
  }

  /** What one weighted container name adds to the expected count of `item`. */
  function ExpectedOf(entry: (string, real), tables: OMap<string, ItemTable>, item: string): real {
    match Get(tables, entry.0)
    case Some(tbl) => Get(tbl, item).GetOr(0.0) * entry.1
    case None => 0.0
  }

  /** The expected count of `item`: Σ weight × probability over weighted names with a table. */
  function ExpectedFor(weights: OMap<string, real>, tables: OMap<string, ItemTable>, item: string): real {
    if |weights| == 0 then 0.0
    else ExpectedFor(weights[..|weights| - 1], tables, item) + ExpectedOf(weights[|weights| - 1], tables, item)
  }

  /** Every table has one entry per template id, as `ItemTable` guarantees. */
  ghost predicate TablesDistinct(tables: OMap<string, ItemTable>) {
    forall i :: 0 <= i < |tables| ==> DistinctKeys(tables[i].1)
  }

  lemma GetInTablesDistinct(tables: OMap<string, ItemTable>, name: string)
    requires TablesDistinct(tables) && Get(tables, name).Some?
    ensures DistinctKeys(Get(tables, name).value)
  {
    GetSpec(tables, name);
  }

  /** Within one table, an item's contribution is its probability times the weight. */
  /** Weighting commutes with dropping the last entry. */
  lemma WeightedByInit(tbl: ItemTable, w: real)
    requires |tbl| > 0
    ensures WeightedBy(tbl, w)[..|tbl| - 1] == WeightedBy(tbl[..|tbl| - 1], w)
  {
    var ws := WeightedBy(tbl, w)[..|tbl| - 1];
    var vs := WeightedBy(tbl[..|tbl| - 1], w);
    forall j | 0 <= j < |tbl| - 1 ensures ws[j].0 == vs[j].0 && ws[j].1 == vs[j].1 {
      var t := tbl[..|tbl| - 1][j];
      assert t == tbl[j];
      assert ws[j].1 == tbl[j].1 * w && vs[j].1 == t.1 * w;
    }
  }

  /** What the last weighted entry adds for `item`: the last entry's share times the weight. */
  lemma WeightedByLast(tbl: ItemTable, w: real, item: string)
    requires |tbl| > 0
    ensures var ws := WeightedBy(tbl, w); var n := |tbl|;
      (if ws[n - 1].0 == item then ws[n - 1].1 else 0.0) == (if tbl[n - 1].0 == item then tbl[n - 1].1 else 0.0) * w
  {
  }

  lemma {:induction false} SumForWeighted(tbl: ItemTable, w: real, item: string)
    ensures SumFor(WeightedBy(tbl, w), item) == SumFor(tbl, item) * w
  {
    if |tbl| > 0 {
      var n := |tbl|;
      var ws := WeightedBy(tbl, w);
      var init := tbl[..n - 1];
      var lastT := if tbl[n - 1].0 == item then tbl[n - 1].1 else 0.0;
      calc {
        SumFor(ws, item);
        { WeightedByLast(tbl, w, item); }
        SumFor(ws[..n - 1], item) + lastT * w;
        { WeightedByInit(tbl, w); }
        SumFor(WeightedBy(init, w), item) + lastT * w;
        { SumForWeighted(init, w, item); }
        SumFor(init, item) * w + lastT * w;
        { MulAdd(w, SumFor(init, item), lastT); }
        (SumFor(init, item) + lastT) * w;
      }
    }
  }

  lemma SumForContributionsOf(entry: (string, real), tables: OMap<string, ItemTable>, item: string)
    requires TablesDistinct(tables)
    ensures SumFor(ContributionsOf(entry, tables), item) == ExpectedOf(entry, tables, item)
  {
    match Get(tables, entry.0)
    case Some(tbl) =>
      SumForWeighted(tbl, entry.1, item);
      GetInTablesDistinct(tables, entry.0);
      SumForDistinct(tbl, item);
    case None =>
  }

  /** The expected count of every item is its `ExpectedFor` sum; unlisted items read as 0. */
  lemma {:induction false} ExpectedSpawnsGet(weights: OMap<string, real>, tables: OMap<string, ItemTable>, item: string)
    requires TablesDistinct(tables)
    ensures Get(ExpectedSpawns(weights, tables), item).GetOr(0.0) == ExpectedFor(weights, tables, item)
  {
    var cs := Contributions(weights, tables);
    AccumulateGet(cs, item);
    SumForAbsentOrGet(cs, item);
    ContributionsSum(weights, tables, item);
  }

  /** Every value of the map is at least zero. */
  predicate NonNegativeValues(m: OMap<string, real>) {
    forall i :: 0 <= i < |m| ==> m[i].1 >= 0.0
  }

  /** Every probability of every table is at least zero. */
  predicate NonNegativeTables(tables: OMap<string, ItemTable>) {
    forall i :: 0 <= i < |tables| ==> NonNegativeValues(tables[i].1)
  }

  lemma GetNonNegative(m: OMap<string, real>, k: string)
    requires NonNegativeValues(m)
    ensures Get(m, k).GetOr(0.0) >= 0.0
  {
    GetSpec(m, k);
    if Get(m, k).Some? {
      var i :| 0 <= i < |m| && m[i] == (k, Get(m, k).value);
    }
  }

  lemma ExpectedOfNonNegative(entry: (string, real), tables: OMap<string, ItemTable>, item: string)
    requires entry.1 >= 0.0 && NonNegativeTables(tables)
    ensures ExpectedOf(entry, tables, item) >= 0.0
  {
    match Get(tables, entry.0)
    case Some(tbl) =>
      GetSpec(tables, entry.0);
      var i :| 0 <= i < |tables| && tables[i] == (entry.0, tbl);
      assert NonNegativeValues(tables[i].1);
      GetNonNegative(tbl, item);
      var p := Get(tbl, item).GetOr(0.0);
      assert p * entry.1 >= 0.0;
    case None =>
  }

  /**
   With non-negative container weights and item probabilities, no item has a
   negative expected count: each term is a product of two non-negative numbers.
   */
  lemma {:induction false} ExpectedForNonNegative(weights: OMap<string, real>, tables: OMap<string, ItemTable>, item: string)
    requires NonNegativeValues(weights) && NonNegativeTables(tables)
    ensures ExpectedFor(weights, tables, item) >= 0.0
  {
    if |weights| > 0 {
      var init := weights[..|weights| - 1];
      assert NonNegativeValues(init) by {
        forall i | 0 <= i < |init| ensures init[i].1 >= 0.0 {
          assert init[i] == weights[i];
        }
      }
      ExpectedForNonNegative(init, tables, item);
      ExpectedOfNonNegative(weights[|weights| - 1], tables, item);
    }
  }

  /** The stored expected count of every item is at least zero, given non-negative inputs. */
  lemma ExpectedSpawnsNonNegative(weights: OMap<string, real>, tables: OMap<string, ItemTable>, item: string)
    requires NonNegativeValues(weights) && NonNegativeTables(tables) && TablesDistinct(tables)
    ensures Get(ExpectedSpawns(weights, tables), item).GetOr(0.0) >= 0.0
  {
    ExpectedForNonNegative(weights, tables, item);
    ExpectedSpawnsGet(weights, tables, item);
  }

  lemma SumForAbsentOrGet(pairs: seq<(string, real)>, k: string)
    ensures (if k in Keys(pairs) then SumFor(pairs, k) else 0.0) == SumFor(pairs, k)
  {
    if k !in Keys(pairs) {
      SumForAbsent(pairs, k);
    }
  }

  lemma {:induction false} ContributionsSum(weights: OMap<string, real>, tables: OMap<string, ItemTable>, item: string)
    requires TablesDistinct(tables)
    ensures SumFor(Contributions(weights, tables), item) == ExpectedFor(weights, tables, item)
  {
    if |weights| > 0 {
      var init := weights[..|weights| - 1];
      var last := weights[|weights| - 1];
      ContributionsSum(init, tables, item);
      SumForAppend(Contributions(init, tables), ContributionsOf(last, tables), item);
      SumForContributionsOf(last, tables, item);
    }
  }

  /** An item has an expected count exactly when some weighted name has a table listing it. */
  lemma {:induction false} ContributionsKeys(weights: OMap<string, real>, tables: OMap<string, ItemTable>, item: string)
    ensures item in Keys(Contributions(weights, tables)) <==>
      exists i :: 0 <= i < |weights| && Listed(weights[i].0, tables, item)
  {
    if |weights| > 0 {
      var init := weights[..|weights| - 1];
      var last := weights[|weights| - 1];
      ContributionsKeys(init, tables, item);
      KeysAppend(Contributions(init, tables), ContributionsOf(last, tables));
      assert item in Keys(ContributionsOf(last, tables)) <==> Listed(last.0, tables, item) by {
        match Get(tables, last.0)
        case Some(tbl) =>
          assert Keys(WeightedBy(tbl, last.1)) == Keys(tbl);
        case None =>
      }
      if exists i :: 0 <= i < |weights| && Listed(weights[i].0, tables, item) {
        var i :| 0 <= i < |weights| && Listed(weights[i].0, tables, item);
        if i < |init| {
          assert init[i] == weights[i];
        }
      }
      if exists i :: 0 <= i < |init| && Listed(init[i].0, tables, item) {
        var i :| 0 <= i < |init| && Listed(init[i].0, tables, item);
        assert weights[i] == init[i];
      }
    }
  }

  /** `name` has a table and that table lists `item`. */
  predicate Listed(name: string, tables: OMap<string, ItemTable>, item: string) {
    Get(tables, name).Some? && item in Keys(Get(tables, name).value)
  }

  // ---------------------------------------------------------------------------
  // One map, and all maps

  /** The item tables built from well-weighted content each have one entry per id. */
  lemma AverageItemsTablesDistinct(content: ContainerContent, t: Translations)
    requires WellWeighted(content)
    ensures TablesDistinct(AverageItemsPerContainer(content, t))
  {
    var tables := AverageItemsPerContainer(content, t);
    var ps := ContainerTables(content, t);
    forall i | 0 <= i < |tables| ensures DistinctKeys(tables[i].1) {
      GetDistinct(tables, tables[i].0, tables[i].1);
      assert tables[i] in tables;
      LastWinsGet(ps, tables[i].0);
      var m :| 0 <= m < |ps| && ps[m] == (tables[i].0, tables[i].1);
    }
  }

  /** The expected spawns of one map from its static containers and container content. */
  function SpawnsForMap(ss: StaticSpawns, content: ContainerContent, t: Translations): (r: OMap<string, real>)
    requires WellWeighted(content)
    ensures DistinctKeys(r)
  {
    ExpectedSpawns(AverageContainers(ss, t), AverageItemsPerContainer(content, t))
  }

  /**
   Each item's expected count on a map is the sum, over the container names with a
   weight, of weight × the item's probability in that name's table; items that no
   weighted table lists are absent.
   */
  lemma SpawnsForMapGet(ss: StaticSpawns, content: ContainerContent, t: Translations, item: string)
    requires WellWeighted(content)
    ensures Get(SpawnsForMap(ss, content, t), item).GetOr(0.0) ==
      ExpectedFor(AverageContainers(ss, t), AverageItemsPerContainer(content, t), item)
    ensures var weights := AverageContainers(ss, t);
      Get(SpawnsForMap(ss, content, t), item).Some? <==>
      exists i :: 0 <= i < |weights| && Listed(weights[i].0, AverageItemsPerContainer(content, t), item)
  {
    var weights := AverageContainers(ss, t);
    var tables := AverageItemsPerContainer(content, t);
    AverageItemsTablesDistinct(content, t);
    ExpectedSpawnsGet(weights, tables, item);
    AccumulateGet(Contributions(weights, tables), item);
    ContributionsKeys(weights, tables, item);
  }

  /** Content for every map: the per-location input of `mapLootDataToAverageSpawnsPerMap`. */
  predicate AllWellWeighted(contentPerMap: map<Location, ContainerContent>) {
    forall l :: l in contentPerMap ==> WellWeighted(contentPerMap[l])
  }

  /** Content well weighted on every map that also has static spawns: the maps the mapper reads. */
  predicate WellWeightedWhereUsed(staticPerMap: map<Location, StaticSpawns>, contentPerMap: map<Location, ContainerContent>) {
    forall l :: l in staticPerMap && l in contentPerMap ==> WellWeighted(contentPerMap[l])
  }

  /**
   `mapLootDataToAverageSpawnsPerMap`: a map is skipped unless both its static
   spawns and its container content are present.
   */
  function MapLootDataToAverageSpawnsPerMap(
    staticPerMap: map<Location, StaticSpawns>,
    contentPerMap: map<Location, ContainerContent>,
    t: Translations
  ): (r: map<Location, OMap<string, real>>)
    requires WellWeightedWhereUsed(staticPerMap, contentPerMap)
    ensures forall l :: l in r <==> l in staticPerMap && l in contentPerMap
    ensures forall l :: l in r ==> DistinctKeys(r[l])
  {
    map l | l in staticPerMap && l in contentPerMap :: SpawnsForMap(staticPerMap[l], contentPerMap[l], t)
  }
}
