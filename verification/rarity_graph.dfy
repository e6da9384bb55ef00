/**
 The rarity graph (components/RarityGraph.tsx): the expected count of every item
 over the selected maps, counting only the selected container names, plotted as
 price per slot against rarity, `1 / count`.
 */
module RarityGraph {
  import opened Wrappers
  import opened Sums
  import opened OrderedMap
  import opened Locations
  import opened Items
  import opened LootRarity

  // ---------------------------------------------------------------------------
  // Expected counts over the selection

  /** The counts of the selected container names, in order: `if (!containers.includes(container)) continue`. */
  function SelectedWeights(weights: OMap<string, real>, containers: seq<string>): (r: OMap<string, real>)
    ensures forall e :: e in r <==> e in weights && e.0 in containers
  {
    if |weights| == 0 then []
    else
      var init := weights[..|weights| - 1];
      var last := weights[|weights| - 1];
      assert weights == init + [last];
      SelectedWeights(init, containers) + (if last.0 in containers then [last] else [])
  }

  /** When every listed name is selected, the filter keeps the whole list as it is. */
  lemma {:induction false} SelectedWeightsAll(weights: OMap<string, real>, containers: seq<string>)
    requires forall i :: 0 <= i < |weights| ==> weights[i].0 in containers
    ensures SelectedWeights(weights, containers) == weights
  {
    if |weights| > 0 {
      var init := weights[..|weights| - 1];
      SelectedWeightsAll(init, containers);
      assert weights == init + [weights[|weights| - 1]];
    }
  }

  /** The pairs one map adds; a map missing either snapshot adds none. */
  function MapContributions(
    l: Location,
    containersPerMap: map<Location, OMap<string, real>>,
    itemsPerMap: map<Location, OMap<string, ItemTable>>,
    containers: seq<string>
  ): seq<(string, real)>
  {
    if l in containersPerMap && l in itemsPerMap then Contributions(SelectedWeights(containersPerMap[l], containers), itemsPerMap[l])
    else []
  }

  function RarityPairs(
    maps: seq<Location>,
    containersPerMap: map<Location, OMap<string, real>>,
    itemsPerMap: map<Location, OMap<string, ItemTable>>,
    containers: seq<string>
  ): seq<(string, real)>
  {
    if |maps| == 0 then []
    else
      RarityPairs(maps[..|maps| - 1], containersPerMap, itemsPerMap, containers)
        + MapContributions(maps[|maps| - 1], containersPerMap, itemsPerMap, containers)
  }

  /** `averageSpawnsPerItem`: `(get(item) ?? 0) + itemCount * containerCount` over maps, selected containers and items. */
  function AverageSpawnsPerItem(
    maps: seq<Location>,
    containersPerMap: map<Location, OMap<string, real>>,
    itemsPerMap: map<Location, OMap<string, ItemTable>>,
    containers: seq<string>
  ): (r: OMap<string, real>)
    ensures DistinctKeys(r)
  {
    AccumulateDistinct(RarityPairs(maps, containersPerMap, itemsPerMap, containers));
    Accumulate(RarityPairs(maps, containersPerMap, itemsPerMap, containers))
  }

  /** What an entry adds when its name is selected, and nothing otherwise. */
  function SelectedTerm(e: (string, real), tables: OMap<string, ItemTable>, containers: seq<string>, item: string): real {
    if e.0 in containers then ExpectedOf(e, tables, item) else 0.0
  }

  function SelectedTerms(weights: OMap<string, real>, tables: OMap<string, ItemTable>, containers: seq<string>, item: string)
    : (ts: seq<real>)
    ensures |ts| == |weights| && forall i :: 0 <= i < |weights| ==> ts[i] == SelectedTerm(weights[i], tables, containers, item)
  {
    seq(|weights|, i requires 0 <= i < |weights| => SelectedTerm(weights[i], tables, containers, item))
  }

  /**
   The expected count over the selected names is the sum over all names of the
   count times the item's probability, a name outside the selection adding nothing.
   */
  lemma {:induction false} SelectedExpected(weights: OMap<string, real>, tables: OMap<string, ItemTable>, containers: seq<string>, item: string)
    ensures ExpectedFor(SelectedWeights(weights, containers), tables, item) == Sum(SelectedTerms(weights, tables, containers, item))
  {
    if |weights| > 0 {
      var init := weights[..|weights| - 1];
      var last := weights[|weights| - 1];
      SelectedExpected(init, tables, containers, item);
      var ts := SelectedTerms(weights, tables, containers, item);
      assert ts[..|weights| - 1] == SelectedTerms(init, tables, containers, item) by {
        forall i | 0 <= i < |init| ensures ts[i] == SelectedTerms(init, tables, containers, item)[i] {
          assert weights[i] == init[i];
        }
      }
      var sel := SelectedWeights(init, containers);
      if last.0 in containers {
        assert SelectedWeights(weights, containers) == sel + [last];
        assert (sel + [last])[..|sel|] == sel;
      } else {
        assert SelectedWeights(weights, containers) == sel + [];
        assert sel + [] == sel;
      }
    }
  }

  /** One map's expected count of the item; a map missing either snapshot counts 0. */
  function MapExpected(
    l: Location,
    containersPerMap: map<Location, OMap<string, real>>,
    itemsPerMap: map<Location, OMap<string, ItemTable>>,
    containers: seq<string>,
    item: string
  ): real
  {
    if l in containersPerMap && l in itemsPerMap then ExpectedFor(SelectedWeights(containersPerMap[l], containers), itemsPerMap[l], item)
    else 0.0
  }

  function MapExpectations(
    maps: seq<Location>,
    containersPerMap: map<Location, OMap<string, real>>,
    itemsPerMap: map<Location, OMap<string, ItemTable>>,
    containers: seq<string>,
    item: string
  ): (es: seq<real>)
    ensures |es| == |maps| && forall i :: 0 <= i < |maps| ==> es[i] == MapExpected(maps[i], containersPerMap, itemsPerMap, containers, item)
  {
    seq(|maps|, i requires 0 <= i < |maps| => MapExpected(maps[i], containersPerMap, itemsPerMap, containers, item))
  }

  lemma {:induction false} RarityPairsSum(
    maps: seq<Location>,
    containersPerMap: map<Location, OMap<string, real>>,
    itemsPerMap: map<Location, OMap<string, ItemTable>>,
    containers: seq<string>,
    item: string
  )
    requires forall l :: l in itemsPerMap ==> TablesDistinct(itemsPerMap[l])
    ensures SumFor(RarityPairs(maps, containersPerMap, itemsPerMap, containers), item)
      == Sum(MapExpectations(maps, containersPerMap, itemsPerMap, containers, item))
  {
    if |maps| > 0 {
      var init := maps[..|maps| - 1];
      var l := maps[|maps| - 1];
      RarityPairsSum(init, containersPerMap, itemsPerMap, containers, item);
      SumForAppend(RarityPairs(init, containersPerMap, itemsPerMap, containers),
        MapContributions(l, containersPerMap, itemsPerMap, containers), item);
      if l in containersPerMap && l in itemsPerMap {
        ContributionsSum(SelectedWeights(containersPerMap[l], containers), itemsPerMap[l], item);
      }
      var es := MapExpectations(maps, containersPerMap, itemsPerMap, containers, item);
      assert es[..|maps| - 1] == MapExpectations(init, containersPerMap, itemsPerMap, containers, item);
    }
  }

  /**
   An item's expected count is the sum, over the selected maps that have both
   snapshots, of its expected count from the selected container names there.
   */
  lemma AverageSpawnsPerItemGet(
    maps: seq<Location>,
    containersPerMap: map<Location, OMap<string, real>>,
    itemsPerMap: map<Location, OMap<string, ItemTable>>,
    containers: seq<string>,
    item: string
  )
    requires forall l :: l in itemsPerMap ==> TablesDistinct(itemsPerMap[l])
    ensures Get(AverageSpawnsPerItem(maps, containersPerMap, itemsPerMap, containers), item).GetOr(0.0)
      == Sum(MapExpectations(maps, containersPerMap, itemsPerMap, containers, item))
  {
    var pairs := RarityPairs(maps, containersPerMap, itemsPerMap, containers);
    AccumulateGet(pairs, item);
    SumForAbsentOrGet(pairs, item);
    RarityPairsSum(maps, containersPerMap, itemsPerMap, containers, item);
  }

  // ---------------------------------------------------------------------------
  // Plotted items

  /** `1 / averageCount`; a zero count gives JavaScript's `Infinity`, here `None`. */
  function Rarity(count: real): (r: Option<real>)
    ensures r.Some? <==> count != 0.0
    ensures r.Some? ==> r.value * count == 1.0
  {
    if count == 0.0 then None else Some(1.0 / count)
  }

  /** `FrontendItemData` of the graph: the metadata with a rarity and a price per slot. */
  datatype GraphItem = GraphItem(info: ItemInfo, rarity: Option<real>, pricePerSlot: int)

  function GraphItemOf(info: ItemInfo, count: real): (x: GraphItem)
    requires info.width > 0.0 && info.height > 0.0
    ensures x.info == info && x.rarity == Rarity(count)
  {
    GraphItem(info, Rarity(count), PricePerSlot(info))
  }

  /** `pricePerSlot > minimumPricePerSlot` (strictly) and one of the item's types is selected. */
  predicate Plotted(x: GraphItem, minimumPricePerSlot: real, itemTypes: seq<string>) {
    x.pricePerSlot as real > minimumPricePerSlot && HasAllowedType(x.info.types, itemTypes)
  }

  /** `averageSpawnsWithMetadata` of the graph: the items with metadata that pass the price and type tests, in order. */
  function GraphItems(spawns: OMap<string, real>, catalog: Catalog, minimumPricePerSlot: real, itemTypes: seq<string>)
    : (r: seq<GraphItem>)
    requires Measured(catalog)
    ensures |r| <= |spawns|
  {
    if |spawns| == 0 then []
    else
      var last := spawns[|spawns| - 1];
      GraphItems(spawns[..|spawns| - 1], catalog, minimumPricePerSlot, itemTypes)
        + (if last.0 in catalog && Plotted(GraphItemOf(catalog[last.0], last.1), minimumPricePerSlot, itemTypes)
           then [GraphItemOf(catalog[last.0], last.1)] else [])
  }

  /**
   An item is plotted exactly when it has metadata, its price per slot is strictly
   above the minimum and one of its types is selected; it carries `1 / count`.
   */
  lemma {:induction false} GraphItemsMember(spawns: OMap<string, real>, catalog: Catalog, minimumPricePerSlot: real, itemTypes: seq<string>, x: GraphItem)
    requires Measured(catalog)
    ensures x in GraphItems(spawns, catalog, minimumPricePerSlot, itemTypes) <==>
      Plotted(x, minimumPricePerSlot, itemTypes) &&
      exists j :: 0 <= j < |spawns| && spawns[j].0 in catalog && x == GraphItemOf(catalog[spawns[j].0], spawns[j].1)
  {
    if |spawns| > 0 {
      var init := spawns[..|spawns| - 1];
      GraphItemsMember(init, catalog, minimumPricePerSlot, itemTypes, x);
      if exists j :: 0 <= j < |spawns| && spawns[j].0 in catalog && x == GraphItemOf(catalog[spawns[j].0], spawns[j].1) {
        var j :| 0 <= j < |spawns| && spawns[j].0 in catalog && x == GraphItemOf(catalog[spawns[j].0], spawns[j].1);
        if j < |init| {
          assert init[j] == spawns[j];
        }
      }
      if exists j :: 0 <= j < |init| && init[j].0 in catalog && x == GraphItemOf(catalog[init[j].0], init[j].1) {
        var j :| 0 <= j < |init| && init[j].0 in catalog && x == GraphItemOf(catalog[init[j].0], init[j].1);
        assert spawns[j] == init[j];
      }
    }
  }

  // ---------------------------------------------------------------------------
  // Selecting an item

  /** `onItemClick`: clicking the selected item clears the selection; clicking another selects it. */
  function OnItemClick(selected: Option<string>, clicked: string): (r: Option<string>)
    ensures r.None? <==> selected == Some(clicked)
    ensures r.Some? ==> r.value == clicked
  {
    if selected == Some(clicked) then None else Some(clicked)
  }

  /** Two clicks on the same item leave it selected exactly when it was selected before. */
  lemma ClickTwice(selected: Option<string>, clicked: string)
    ensures OnItemClick(OnItemClick(selected, clicked), clicked) == if selected == Some(clicked) then selected else None
  {
  }
}
