/**
 The loot data of one map as the program reads it (model/loot-data.ts,
 model/container-data.ts): the static containers placed on the map, and for each
 container type the relative weights of the items it can hold.
 */
module LootData {
  import opened Display

  /**
   A placed container: the chance that it spawns and the template id of its
   container item (`template.Items[0]._tpl`; the type allows exactly one item).
   */
  datatype StaticContainer = StaticContainer(probability: real, tpl: string)

  /** `staticContainers`; the unused `staticWeapons` and `staticForced` are not modelled. */
  datatype StaticSpawns = StaticSpawns(staticContainers: seq<StaticContainer>)

  /**
   `Object.entries(containerContent)`: per container id, its `itemDistribution`
   as weighted template ids. The unused `itemcountDistribution` is not modelled.
   */
  type ContainerContent = seq<(string, seq<Weighted<string>>)>

  /** Content whose every item distribution can be normalised (no zero total). */
  predicate WellWeighted(content: ContainerContent) {
    forall i :: 0 <= i < |content| ==> Normalizable(content[i].1)
  }
}
