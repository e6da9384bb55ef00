/**
 The rarity view's controls (components/RarityVisualization.tsx): checkbox groups
 for maps and item types, each with a select-all button, and the container names
 the graph counts, which are all those of the selected maps.
 */
module RarityVisualization {
  import opened OrderedMap
  import opened Locations
  import opened Selection
  import opened LootRarity
  import opened RarityGraph

  // ---------------------------------------------------------------------------
  // Checkbox groups

  /** `shouldSelectAll`: the button offers to select all unless the selection is as long as the full list. */
  predicate ShouldSelectAll<T>(selected: seq<T>, all: seq<T>) {
    |selected| != |all|
  }

  /** The select-all button: everything while it offers to select all, otherwise nothing. */
  function SelectAll<T>(selected: seq<T>, all: seq<T>): (r: seq<T>)
    ensures ShouldSelectAll(selected, all) ==> r == all
    ensures !ShouldSelectAll(selected, all) ==> r == []
  {
    if ShouldSelectAll(selected, all) then all else []
  }

  /** On a non-empty list, pressing the button flips what it offers next. */
  lemma SelectAllFlips<T>(selected: seq<T>, all: seq<T>)
    requires |all| > 0
    ensures ShouldSelectAll(SelectAll(selected, all), all) <==> !ShouldSelectAll(selected, all)
  {
  }

  /** A checkbox change: `onItemCheckboxChange` toggles the entry. */
  function CheckboxChange<T(==,!new)>(selected: seq<T>, item: T): (r: seq<T>)
    ensures item in r <==> item !in selected
    ensures forall y :: y != item ==> (y in r <==> y in selected)
  {
    Toggle(selected, item)
  }

  function Elements<T(!new)>(xs: seq<T>): (s: set<T>)
    ensures forall x :: x in s <==> x in xs
  {
    set x | x in xs
  }

  lemma {:induction false} DistinctCard<T(!new)>(xs: seq<T>)
    requires Distinct(xs)
    ensures |Elements(xs)| == |xs|
  {
    if |xs| > 0 {
      var tail := xs[1..];
      assert Distinct(tail) by {
        forall i, j | 0 <= i < j < |tail| ensures tail[i] != tail[j] {
          assert tail[i] == xs[i + 1] && tail[j] == xs[j + 1];
        }
      }
      DistinctCard(tail);
      assert xs[0] !in Elements(tail) by {
        forall k | 0 <= k < |tail| ensures tail[k] != xs[0] {
          assert tail[k] == xs[k + 1];
        }
      }
      assert Elements(xs) == {xs[0]} + Elements(tail) by {
        assert xs == [xs[0]] + tail;
      }
    }
  }

  /** A subset as large as its superset is all of it. */
  lemma SubsetSameCard<T>(a: set<T>, b: set<T>)
    requires a <= b && |a| == |b|
    ensures a == b
  {
    var rest := b - a;
    assert b == a + rest && a * rest == {};
    assert |rest| == 0;
    assert rest == {};
  }

  /**
   For a selection made by toggling entries of the full list (no repetitions, all
   listed), the button offers to deselect exactly when every entry is selected.
   */
  lemma ShouldSelectAllIffIncomplete<T(!new)>(selected: seq<T>, all: seq<T>)
    requires Distinct(selected) && Distinct(all)
    requires forall x :: x in selected ==> x in all
    ensures !ShouldSelectAll(selected, all) <==> forall x :: x in all ==> x in selected
  {
    DistinctCard(selected);
    DistinctCard(all);
    assert Elements(selected) <= Elements(all);
    if |selected| == |all| {
      SubsetSameCard(Elements(selected), Elements(all));
      forall x | x in all ensures x in selected {
        assert x in Elements(all);
      }
    }
    if forall x :: x in all ==> x in selected {
      assert Elements(all) == Elements(selected);
    }
  }

  // ---------------------------------------------------------------------------
  // Containers counted by the graph

  /** `possibleContainers`: each selected map's container names in turn; a map without counts adds none. */
  function PossibleContainers(maps: seq<Location>, containersPerMap: map<Location, OMap<string, real>>): (r: seq<string>)
  {
    if |maps| == 0 then []
    else
      var l := maps[|maps| - 1];
      PossibleContainers(maps[..|maps| - 1], containersPerMap)
        + (if l in containersPerMap then Keys(containersPerMap[l]) else [])
  }

  lemma {:induction false} PossibleContainersMember(maps: seq<Location>, containersPerMap: map<Location, OMap<string, real>>, c: string)
    ensures c in PossibleContainers(maps, containersPerMap) <==>
      exists l :: l in maps && l in containersPerMap && c in Keys(containersPerMap[l])
  {
    if |maps| > 0 {
      var init := maps[..|maps| - 1];
      PossibleContainersMember(init, containersPerMap, c);
      assert maps == init + [maps[|maps| - 1]];
    }
  }

  /**
   The offered names come from one store (`store/computed`, over `store/data`) and
   the graph's weights from another (`store/query`, over `store/loot-data`). When
   the first lists, for a selected map, every container the second weights there,
   the graph counts every container of that map: the container filter changes
   nothing.
   */
  lemma GraphCountsAllContainers(
    maps: seq<Location>,
    offered: map<Location, OMap<string, real>>,
    weighted: map<Location, OMap<string, real>>,
    itemsPerMap: map<Location, OMap<string, ItemTable>>,
    l: Location,
    item: string
  )
    requires l in maps && l in weighted && l in itemsPerMap
    requires l in offered && forall c :: c in Keys(weighted[l]) ==> c in Keys(offered[l])
    ensures MapExpected(l, weighted, itemsPerMap, PossibleContainers(maps, offered), item)
      == ExpectedFor(weighted[l], itemsPerMap[l], item)
  {
    var weights := weighted[l];
    var containers := PossibleContainers(maps, offered);
    forall i | 0 <= i < |weights| ensures weights[i].0 in containers {
      assert Keys(weights)[i] == weights[i].0;
      PossibleContainersMember(maps, offered, weights[i].0);
    }
    SelectedWeightsAll(weights, containers);
  }
}
