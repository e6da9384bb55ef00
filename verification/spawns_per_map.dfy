/**
 The signal stores that hold the same pipeline as `mapLootDataToAverageSpawnsPerMap`,
 split into per-map snapshots (store/query/spawns-per-map.ts and
 store/computed/spawns-per-map.ts, which compute the first two snapshots
 identically), and the inverted snapshot `containersForItemPerMap`
 (store/computed/containers-for-item.ts).
 */
module SpawnsPerMap {
  import opened Wrappers
  import opened OrderedMap
  import opened Translations
  import opened Locations
  import opened LootData
  import opened LootRarity

  /** `averageContainersPerMap`: the container weights of every map with static spawns. */
  function AverageContainersPerMap(staticPerMap: map<Location, StaticSpawns>, t: Translations)
    : (r: map<Location, OMap<string, real>>)
    ensures r.Keys == staticPerMap.Keys
    ensures forall l :: l in r ==> DistinctKeys(r[l])
  {
    map l | l in staticPerMap :: AverageContainers(staticPerMap[l], t)
  }

  /** `averageItemsPerContainerPerMap`: the item tables of every map with container content. */
  function AverageItemsPerContainerPerMap(contentPerMap: map<Location, ContainerContent>, t: Translations)
    : (r: map<Location, OMap<string, ItemTable>>)
    requires AllWellWeighted(contentPerMap)
    ensures r.Keys == contentPerMap.Keys
    ensures forall l :: l in r ==> DistinctKeys(r[l]) && TablesDistinct(r[l])
  {
    forall l | l in contentPerMap ensures TablesDistinct(AverageItemsPerContainer(contentPerMap[l], t)) {
      AverageItemsTablesDistinct(contentPerMap[l], t);
    }
    map l | l in contentPerMap :: AverageItemsPerContainer(contentPerMap[l], t)
  }

  /** `averageSpawnsPerMap`: expected spawns of every map present in both snapshots. */
  function AverageSpawnsPerMap(
    containersPerMap: map<Location, OMap<string, real>>,
    itemsPerMap: map<Location, OMap<string, ItemTable>>
  ): (r: map<Location, OMap<string, real>>)
    ensures r.Keys == containersPerMap.Keys * itemsPerMap.Keys
    ensures forall l :: l in r ==> DistinctKeys(r[l])
  {
    map l | l in containersPerMap && l in itemsPerMap :: ExpectedSpawns(containersPerMap[l], itemsPerMap[l])
  }

  /**
   The stores compose the same per-location computations as the mapper, so
   chaining the three snapshots gives the mapper's result. This holds by unfolding
   the definitions; it records that the two code paths coincide.
   */
  lemma SnapshotsAgreeWithMapper(
    staticPerMap: map<Location, StaticSpawns>,
    contentPerMap: map<Location, ContainerContent>,
    t: Translations
  )
    requires AllWellWeighted(contentPerMap)
    ensures AverageSpawnsPerMap(AverageContainersPerMap(staticPerMap, t), AverageItemsPerContainerPerMap(contentPerMap, t))
      == MapLootDataToAverageSpawnsPerMap(staticPerMap, contentPerMap, t)
  {
  }

  // ---------------------------------------------------------------------------
  // Containers for an item

  /** `{ container, average }`: a container name and the item's probability in its table. */
  datatype Share = Share(container: string, average: real)

  /** One container's table as `(item, share)` pairs, in the table's order. */
  function InvertOne(container: string, tbl: ItemTable): (ps: seq<(string, Share)>)
    ensures |ps| == |tbl|
    ensures forall j :: 0 <= j < |tbl| ==> ps[j].0 == tbl[j].0 && ps[j].1 == Share(container, tbl[j].1)
  {
    if |tbl| == 0 then []
    else InvertOne(container, tbl[..|tbl| - 1]) + [(tbl[|tbl| - 1].0, Share(container, tbl[|tbl| - 1].1))]
  }

  /** Every `(item, share)` pair of the nested loops, in loop order. */
  function Inverted(tables: OMap<string, ItemTable>): seq<(string, Share)> {
    if |tables| == 0 then []
    else Inverted(tables[..|tables| - 1]) + InvertOne(tables[|tables| - 1].0, tables[|tables| - 1].1)
  }

  /** The inverted snapshot of one map: per item, the containers whose table lists it. */
  function ContainersForItem(tables: OMap<string, ItemTable>): (r: OMap<string, seq<Share>>)
    ensures forall item :: Get(r, item).Some? ==> |Get(r, item).value| > 0
  {
    var r := Group(Inverted(tables));
    forall item | Get(r, item).Some? ensures |Get(r, item).value| > 0 {
      GroupGet(Inverted(tables), item);
      var i :| 0 <= i < |Inverted(tables)| && Keys(Inverted(tables))[i] == item;
      ValuesForMember(Inverted(tables), item, Inverted(tables)[i].1);
    }
    r
  }

  /** `containersForItemPerMap`: the inversion of every map's item tables. */
  function ContainersForItemPerMap(itemsPerMap: map<Location, OMap<string, ItemTable>>)
    : (r: map<Location, OMap<string, seq<Share>>>)
    ensures r.Keys == itemsPerMap.Keys
  {
    map l | l in itemsPerMap :: ContainersForItem(itemsPerMap[l])
  }

  /** An `(item, share)` pair arises exactly from a container whose table pairs the item with that probability. */
  lemma {:induction false} InvertedMember(tables: OMap<string, ItemTable>, item: string, s: Share)
    ensures (item, s) in Inverted(tables) <==>
      exists i :: 0 <= i < |tables| && tables[i].0 == s.container && (item, s.average) in tables[i].1
  {
    if |tables| > 0 {
      var init := tables[..|tables| - 1];
      var last := tables[|tables| - 1];
      InvertedMember(init, item, s);
      var one := InvertOne(last.0, last.1);
      assert (item, s) in one <==> last.0 == s.container && (item, s.average) in last.1 by {
        if (item, s) in one {
          var j :| 0 <= j < |one| && one[j] == (item, s);
          assert last.1[j] == (item, s.average);
        }
        if last.0 == s.container && (item, s.average) in last.1 {
          var j :| 0 <= j < |last.1| && last.1[j] == (item, s.average);
          assert one[j] == (item, s);
        }
      }
      if exists i :: 0 <= i < |tables| && tables[i].0 == s.container && (item, s.average) in tables[i].1 {
        var i :| 0 <= i < |tables| && tables[i].0 == s.container && (item, s.average) in tables[i].1;
        if i < |init| {
          assert init[i] == tables[i];
        }
      }
      if exists i :: 0 <= i < |init| && init[i].0 == s.container && (item, s.average) in init[i].1 {
        var i :| 0 <= i < |init| && init[i].0 == s.container && (item, s.average) in init[i].1;
        assert tables[i] == init[i];
      }
    }
  }

  /**
   Inversion loses nothing and invents nothing: a share appears in an item's list
   exactly when that container's table lists the item with that probability.
   */
  lemma ContainersForItemMember(tables: OMap<string, ItemTable>, item: string, s: Share)
    ensures (Get(ContainersForItem(tables), item).Some? && s in Get(ContainersForItem(tables), item).value) <==>
      exists i :: 0 <= i < |tables| && tables[i].0 == s.container && (item, s.average) in tables[i].1
  {
    GroupGet(Inverted(tables), item);
    ValuesForMember(Inverted(tables), item, s);
    InvertedMember(tables, item, s);
    if (item, s) in Inverted(tables) {
      var i :| 0 <= i < |Inverted(tables)| && Inverted(tables)[i] == (item, s);
      assert Keys(Inverted(tables))[i] == item;
    }
  }

  /**
   The reference list: for each container in order whose table lists the item, one
   share carrying the item's probability there.
   */
  function SharesFor(tables: OMap<string, ItemTable>, item: string): (r: seq<Share>)
    ensures |r| <= |tables|
  {
    if |tables| == 0 then []
    else
      var last := tables[|tables| - 1];
      SharesFor(tables[..|tables| - 1], item)
        + match Get(last.1, item)
          case Some(p) => [Share(last.0, p)]
          case None => []
  }

  lemma {:induction false} DistinctKeysPrefix<V>(m: OMap<string, V>, n: nat)
    requires DistinctKeys(m) && n <= |m|
    ensures DistinctKeys(m[..n])
  {
  }

  /** With one entry per item in the table, a container contributes at most one share to an item's list. */
  lemma {:induction false} ValuesForInvertOne(container: string, tbl: ItemTable, item: string)
    requires DistinctKeys(tbl)
    ensures ValuesFor(InvertOne(container, tbl), item) ==
      match Get(tbl, item)
      case Some(p) => [Share(container, p)]
      case None => []
  {
    if |tbl| > 0 {
      var init := tbl[..|tbl| - 1];
      var last := tbl[|tbl| - 1];
      DistinctKeysPrefix(tbl, |tbl| - 1);
      ValuesForInvertOne(container, init, item);
      assert InvertOne(container, tbl)[..|tbl| - 1] == InvertOne(container, init);
      assert tbl == init + [last];
      GetAppend(init, last, item);
      var one := InvertOne(container, tbl);
      assert ValuesFor(one, item) ==
        ValuesFor(InvertOne(container, init), item) + (if last.0 == item then [Share(container, last.1)] else []);
      if last.0 == item {
        assert item !in Keys(init) by {
          forall i | 0 <= i < |init| ensures Keys(init)[i] != item {
            assert tbl[i].0 != tbl[|tbl| - 1].0;
          }
        }
      }
      GetSpec(init, item);
    }
  }

  /**
   With distinct item tables, each item's list holds one share per container that
   lists the item, in container order, carrying the item's probability there.
   */
  lemma {:induction false} ContainersForItemOrder(tables: OMap<string, ItemTable>, item: string)
    requires TablesDistinct(tables)
    ensures Get(ContainersForItem(tables), item).GetOr([]) == SharesFor(tables, item)
  {
    GroupGet(Inverted(tables), item);
    InvertedSharesFor(tables, item);
    if item !in Keys(Inverted(tables)) {
      ValuesForAbsent(Inverted(tables), item);
    }
  }

  lemma {:induction false} InvertedSharesFor(tables: OMap<string, ItemTable>, item: string)
    requires TablesDistinct(tables)
    ensures ValuesFor(Inverted(tables), item) == SharesFor(tables, item)
  {
    if |tables| > 0 {
      var init := tables[..|tables| - 1];
      var last := tables[|tables| - 1];
      assert TablesDistinct(init);
      InvertedSharesFor(init, item);
      ValuesForAppend(Inverted(init), InvertOne(last.0, last.1), item);
      ValuesForInvertOne(last.0, last.1, item);
    }
  }
}
