/**
 Loose loot (fetcher/fetch-loose-loot.ts, model/loose-loot.ts): the spawnpoints of a
 map, each with the chance that anything spawns there and the chance of each item.
 An item's chance is its normalised share of the spawnpoint's distribution times
 the spawnpoint's own chance.
 */
module LooseLoot {
  import opened Wrappers
  import opened Common
  import opened Sums
  import opened Display
  import opened Locations

  /** A `template.Items` entry: an item instance id and its template id. */
  datatype RawTemplateItem = RawTemplateItem(id: string, tpl: string)

  /** `[x, y, z]` of the data files, where `y` is the height. */
  datatype RawPosition = RawPosition(x: real, y: real, z: real)

  /**
   A raw spawnpoint: its chance, its template's id, position and items, and the
   relative weights of the item instances (by `composedKey.key`).
   */
  datatype RawSpawnpoint = RawSpawnpoint(
    probability: real,
    templateId: string,
    position: RawPosition,
    items: seq<RawTemplateItem>,
    distribution: seq<Weighted<string>>)

  datatype LooseLootItem = LooseLootItem(tpl: string, probability: real)

  datatype LooseLootSpawnpoint = LooseLootSpawnpoint(position: PointWithHeight, probability: real, items: seq<LooseLootItem>)

  /** `Items.find((i) => i._id === key)?._tpl`. */
  function FindTpl(items: seq<RawTemplateItem>, key: string): Option<string> {
    if |items| == 0 then None
    else if items[0].id == key then Some(items[0].tpl)
    else FindTpl(items[1..], key)
  }

  /** The template id of the first instance with that id; none when no instance has it. */
  lemma {:induction false} FindTplSpec(items: seq<RawTemplateItem>, key: string)
    ensures FindTpl(items, key).None? <==> forall i :: 0 <= i < |items| ==> items[i].id != key
    ensures FindTpl(items, key).Some? ==> exists i :: (0 <= i < |items| && items[i].id == key
      && items[i].tpl == FindTpl(items, key).value && forall j :: 0 <= j < i ==> items[j].id != key)
  {
    if |items| > 0 && items[0].id != key {
      FindTplSpec(items[1..], key);
      assert forall i :: 1 <= i < |items| ==> items[i] == items[1..][i - 1];
      if FindTpl(items, key).Some? {
        var i :| 0 <= i < |items[1..]| && items[1..][i].id == key && items[1..][i].tpl == FindTpl(items, key).value
          && forall j :: 0 <= j < i ==> items[1..][j].id != key;
        assert items[i + 1].id == key;
      }
    }
  }

  /** `if (!itemTpl) continue`: a missing or empty template id skips the entry. */
  predicate Found(items: seq<RawTemplateItem>, key: string) {
    FindTpl(items, key).Some? && FindTpl(items, key).value != ""
  }

  /** `{ tpl, probability: item.probability * spawnpoint.probability }`. */
  function ItemOf(tpl: string, share: real, p: real): (it: LooseLootItem)
    ensures it.tpl == tpl && it.probability == share * p
  {
    LooseLootItem(tpl, share * p)
  }

  /** The entries of a normalised distribution that survive the lookup, as `(tpl, share)`, in order. */
  function Kept(ns: seq<Normalized<string>>, items: seq<RawTemplateItem>): (k: seq<(string, real)>)
    ensures |k| <= |ns|
    ensures forall i :: 0 <= i < |k| ==> k[i].0 != ""
  {
    if |ns| == 0 then []
    else
      var last := ns[|ns| - 1];
      Kept(ns[..|ns| - 1], items) + if Found(items, last.item) then [(FindTpl(items, last.item).value, last.probability)] else []
  }

  /** The items pushed for a normalised distribution, their share scaled by the spawnpoint chance `p`. */
  function LooseItems(ns: seq<Normalized<string>>, items: seq<RawTemplateItem>, p: real): (r: seq<LooseLootItem>)
    ensures |r| == |Kept(ns, items)|
    ensures forall i :: 0 <= i < |r| ==> r[i] == ItemOf(Kept(ns, items)[i].0, Kept(ns, items)[i].1, p)
  {
    var k := Kept(ns, items);
    seq(|k|, i requires 0 <= i < |k| => ItemOf(k[i].0, k[i].1, p))
  }

  /** The normalised shares of the kept entries. */
  function KeptShares(ns: seq<Normalized<string>>, items: seq<RawTemplateItem>): (ws: seq<real>)
    ensures |ws| == |Kept(ns, items)| && forall i :: 0 <= i < |ws| ==> ws[i] == Kept(ns, items)[i].1
  {
    var k := Kept(ns, items);
    seq(|k|, i requires 0 <= i < |k| => k[i].1)
  }

  /** `mapRawLooseLootToLooseLoot` for one spawnpoint: `z` becomes `y` and `y` the height. */
  function MapSpawnpoint(sp: RawSpawnpoint): (r: LooseLootSpawnpoint)
    requires Normalizable(sp.distribution)
    ensures r.position == PointWithHeight(sp.position.x, sp.position.z, sp.position.y)
    ensures r.probability == sp.probability
    ensures |r.items| <= |sp.distribution|
  {
    LooseLootSpawnpoint(
      PointWithHeight(sp.position.x, sp.position.z, sp.position.y),
      sp.probability,
      LooseItems(NormalizeProbabilities(sp.distribution), sp.items, sp.probability))
  }

  predicate AllNormalizable(data: seq<RawSpawnpoint>) {
    forall i :: 0 <= i < |data| ==> Normalizable(data[i].distribution)
  }

  /** `mapRawLooseLootToLooseLoot`: every spawnpoint, in order. */
  function MapRawLooseLoot(data: seq<RawSpawnpoint>): (r: seq<LooseLootSpawnpoint>)
    requires AllNormalizable(data)
    ensures |r| == |data|
    ensures forall i :: 0 <= i < |data| ==> r[i] == MapSpawnpoint(data[i])
  {
    seq(|data|, i requires 0 <= i < |data| && AllNormalizable(data) => MapSpawnpoint(data[i]))
  }

  /**
   `fetchLooseLootPerMap`: every location's file, in enum order; a location whose
   file cannot be fetched or parsed makes the whole fetch fail.
   */
  function LooseLootPerMap(responses: map<Location, seq<RawSpawnpoint>>): (r: Option<map<Location, seq<LooseLootSpawnpoint>>>)
    requires forall l :: l in responses ==> AllNormalizable(responses[l])
    ensures r.Some? <==> forall l: Location :: l in responses
    ensures r.Some? ==> forall l :: l in r.value && r.value[l] == MapRawLooseLoot(responses[l])
  {
    if forall l: Location :: l in responses then
      Some(map l | l in responses :: MapRawLooseLoot(responses[l]))
    else None
  }

  // ---------------------------------------------------------------------------
  // Chances

  function ItemProbabilities(items: seq<LooseLootItem>): (ps: seq<real>)
    ensures |ps| == |items| && forall k :: 0 <= k < |items| ==> ps[k] == items[k].probability
  {
    seq(|items|, k requires 0 <= k < |items| => items[k].probability)
  }

  /** Each kept item's chance is its share scaled by the spawnpoint's chance. */
  lemma LooseItemsTotal(ns: seq<Normalized<string>>, items: seq<RawTemplateItem>, p: real)
    ensures Sum(ItemProbabilities(LooseItems(ns, items, p))) == p * Sum(KeptShares(ns, items))
  {
    var ws := KeptShares(ns, items);
    assert ItemProbabilities(LooseItems(ns, items, p)) == ScaleAll(ws, p) by {
      forall i | 0 <= i < |ws| ensures ItemProbabilities(LooseItems(ns, items, p))[i] == ScaleAll(ws, p)[i] {}
    }
    SumScaleAll(ws, p);
  }

  /** Dropping entries can only lower the total share; keeping all of them keeps it. */
  lemma {:induction false} KeptSharesBound(ns: seq<Normalized<string>>, items: seq<RawTemplateItem>)
    requires NonNegative(Probabilities(ns))
    ensures Sum(KeptShares(ns, items)) <= Sum(Probabilities(ns))
    ensures (forall k :: 0 <= k < |ns| ==> Found(items, ns[k].item)) ==>
      Sum(KeptShares(ns, items)) == Sum(Probabilities(ns))
  {
    if |ns| > 0 {
      var init := ns[..|ns| - 1];
      var last := ns[|ns| - 1];
      assert Probabilities(ns) == Probabilities(init) + [last.probability];
      assert NonNegative(Probabilities(init)) by {
        forall k | 0 <= k < |init| ensures Probabilities(init)[k] >= 0.0 {
          assert Probabilities(init)[k] == Probabilities(ns)[k];
        }
      }
      KeptSharesBound(init, items);
      SumAppend(Probabilities(init), [last.probability]);
      var tailShares := if Found(items, last.item) then [last.probability] else [];
      assert KeptShares(ns, items) == KeptShares(init, items) + tailShares by {
        var tailKept := if Found(items, last.item) then [(FindTpl(items, last.item).value, last.probability)] else [];
        assert Kept(ns, items) == Kept(init, items) + tailKept;
      }
      SumAppend(KeptShares(init, items), tailShares);
      assert Sum([last.probability]) == Sum([]) + last.probability;
      assert last.probability == Probabilities(ns)[|ns| - 1];
    }
  }

  /** The normalised shares of non-negative weights with a positive total are non-negative. */
  lemma NormalizedNonNegative(dist: seq<Weighted<string>>)
    requires NonNegative(Weights(dist)) && WeightSum(dist) > 0.0
    ensures NonNegative(Probabilities(NormalizeProbabilities(dist)))
  {
    var ns := NormalizeProbabilities(dist);
    forall k | 0 <= k < |ns| ensures Probabilities(ns)[k] >= 0.0 {
      NormalizedInUnitInterval(dist, k);
    }
  }

  /** Kept items of a distribution of shares summing to one are together at most as likely as `p`. */
  lemma KeptItemsBound(ns: seq<Normalized<string>>, items: seq<RawTemplateItem>, p: real)
    requires NonNegative(Probabilities(ns)) && Sum(Probabilities(ns)) == 1.0 && p >= 0.0
    ensures Sum(ItemProbabilities(LooseItems(ns, items, p))) <= p
    ensures (forall k :: 0 <= k < |ns| ==> Found(items, ns[k].item)) ==>
      Sum(ItemProbabilities(LooseItems(ns, items, p))) == p
  {
    LooseItemsTotal(ns, items, p);
    KeptSharesBound(ns, items);
    MulAtMostOne(Sum(KeptShares(ns, items)), p);
  }

  /**
   With non-negative weights and chance, a spawnpoint's items are together at most
   as likely as the spawnpoint itself, and exactly as likely when every entry of the
   distribution names an instance of the template.
   */
  lemma SpawnpointItemsBound(sp: RawSpawnpoint)
    requires NonNegative(Weights(sp.distribution)) && WeightSum(sp.distribution) > 0.0 && sp.probability >= 0.0
    ensures Sum(ItemProbabilities(MapSpawnpoint(sp).items)) <= sp.probability
    ensures (forall k :: 0 <= k < |sp.distribution| ==> Found(sp.items, sp.distribution[k].item)) ==>
      Sum(ItemProbabilities(MapSpawnpoint(sp).items)) == sp.probability
  {
    var ns := NormalizeProbabilities(sp.distribution);
    NormalizedNonNegative(sp.distribution);
    assert |sp.distribution| > 0;
    NormalizedSumIsOne(sp.distribution);
    KeptItemsBound(ns, sp.items, sp.probability);
    assert (forall k :: 0 <= k < |sp.distribution| ==> Found(sp.items, sp.distribution[k].item)) ==>
      (forall k :: 0 <= k < |ns| ==> Found(sp.items, ns[k].item));
  }
}
