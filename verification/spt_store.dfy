/**
 The store that reads the bundled SPT data files directly (stores/spt-data.store.ts):
 per map, the imported `staticContainers.json` and `staticLoot.json`, checked by
 `isRawContainers` / `isRawLoot` and then folded into per-name sums.

 A dynamic `import` is a parameter: `None` when the file cannot be imported.
 Reading a field of a record the guard let through unchecked (the guards look at
 one element only) is modelled by decoders that return `None` on a malformed
 element; that `None` stands for a run that throws or yields `NaN`/`undefined`
 keys, which the model does not follow further.
 */
module SptStore {
  import opened Wrappers
  import opened Json
  import opened Guards
  import opened Sums
  import opened Display
  import opened OrderedMap
  import opened Translations
  import opened Locations
  import opened LootData
  import opened LootRarity

  // ---------------------------------------------------------------------------
  // Static containers

  /** What the reducer reads of one container: `probability` and `template.Items[0]._tpl`. */
  function DecodeRawContainer(c: Json): (r: Option<StaticContainer>)
    ensures r.Some? ==> Member(c, "probability") == Some(JNum(r.value.probability))
  {
    match (Member(c, "probability"), Member(c, "template"))
    case (Some(JNum(p)), Some(tmpl)) =>
      (match Member(tmpl, "Items")
       case Some(JArr(items)) =>
         if |items| >= 1 && Member(items[0], "_tpl").Some? && Member(items[0], "_tpl").value.JStr?
         then Some(StaticContainer(p, Member(items[0], "_tpl").value.s))
         else None
       case _ => None)
    case _ => None
  }

  /** Every element decoded, in order, or `None` when one of them is malformed. */
  function DecodeRawContainers(cs: seq<Json>): (r: Option<seq<StaticContainer>>)
    ensures r.Some? <==> forall i :: 0 <= i < |cs| ==> DecodeRawContainer(cs[i]).Some?
    ensures r.Some? ==> |r.value| == |cs| && forall i :: 0 <= i < |cs| ==> DecodeRawContainer(cs[i]) == Some(r.value[i])
  {
    if |cs| == 0 then Some([])
    else
      match (DecodeRawContainer(cs[0]), DecodeRawContainers(cs[1..]))
      case (Some(c), Some(rest)) =>
        assert forall i :: 1 <= i < |cs| ==> cs[i] == cs[1..][i - 1];
        Some([c] + rest)
      case (None, _) => None
      case (_, None) =>
        assert forall i :: 1 <= i < |cs| ==> cs[i] == cs[1..][i - 1];
        None
  }

  /** The static spawns of an accepted file whose every container can be read. */
  function DecodeStaticSpawns(v: Json): Option<StaticSpawns> {
    match Member(v, "staticContainers")
    case Some(JArr(cs)) =>
      (match DecodeRawContainers(cs)
       case Some(containers) => Some(StaticSpawns(containers))
       case None => None)
    case _ => None
  }

  /**
   `getAverageContainersForMap` as written: whatever the `try` block returns or
   throws, the `finally` block's `return signal(new Map())` replaces it.
   */
  function AverageContainersForMapAsWritten(imported: Option<Json>, t: Translations): OMap<string, real> {
    []
  }

  /**
   `getAverageContainersForMap` with the result of the `try` block kept: the
   per-name sums of an accepted file, an empty map after a failed import or a
   failed check; `None` when the reducer would read a malformed container.
   */
  function AverageContainersForMap(imported: Option<Json>, t: Translations): (r: Option<OMap<string, real>>)
    ensures imported.None? ==> r == Some([])
    ensures imported.Some? && IsRawContainers(imported.value) != Accepted ==> r == Some([])
    ensures r.Some? && r.value != [] ==>
      imported.Some? && IsRawContainers(imported.value) == Accepted && DecodeStaticSpawns(imported.value).Some?
    ensures imported.Some? && IsRawContainers(imported.value) == Accepted && DecodeStaticSpawns(imported.value).Some? ==>
      r == Some(AverageContainers(DecodeStaticSpawns(imported.value).value, t))
    ensures r.None? <==>
      imported.Some? && IsRawContainers(imported.value) == Accepted && DecodeStaticSpawns(imported.value).None?
  {
    match imported
    case None => Some([])
    case Some(v) =>
      if IsRawContainers(v) != Accepted then Some([])
      else match DecodeStaticSpawns(v)
        case Some(ss) => Some(AverageContainers(ss, t))
        case None => None
  }

  /** A `staticContainers.json` holding the given containers. */
  function EncodeStaticSpawns(ss: StaticSpawns): Json {
    JObj([("staticContainers", JArr(seq(|ss.staticContainers|, i requires 0 <= i < |ss.staticContainers| =>
      EncodeRawContainer(ss.staticContainers[i].probability, ss.staticContainers[i].tpl))))])
  }

  lemma DecodeEncodedContainer(c: StaticContainer)
    ensures DecodeRawContainer(EncodeRawContainer(c.probability, c.tpl)) == Some(c)
  {
    var e := EncodeRawContainer(c.probability, c.tpl);
    LookupCons(e.fields[0], e.fields[1..], "template");
    assert e.fields == [e.fields[0]] + e.fields[1..];
  }

  /** A file of well-formed containers is accepted and decodes to exactly those containers. */
  lemma StaticSpawnsRoundTrip(ss: StaticSpawns)
    requires |ss.staticContainers| > 0
    ensures IsRawContainers(EncodeStaticSpawns(ss)) == Accepted
    ensures DecodeStaticSpawns(EncodeStaticSpawns(ss)) == Some(ss)
  {
    var cs := Member(EncodeStaticSpawns(ss), "staticContainers").value.elems;
    RawContainerEncodingAccepted(ss.staticContainers[0].probability, ss.staticContainers[0].tpl);
    forall i | 0 <= i < |cs| ensures DecodeRawContainer(cs[i]) == Some(ss.staticContainers[i]) {
      DecodeEncodedContainer(ss.staticContainers[i]);
    }
    assert DecodeRawContainers(cs).value == ss.staticContainers;
  }

  /**
   With the `try` result kept, a well-formed file gives exactly the per-name sums
   of `getAverageContainers`.
   */
  lemma AverageContainersForMapEncoded(ss: StaticSpawns, t: Translations)
    requires |ss.staticContainers| > 0
    ensures AverageContainersForMap(Some(EncodeStaticSpawns(ss)), t) == Some(AverageContainers(ss, t))
  {
    StaticSpawnsRoundTrip(ss);
  }

  /**
   The `finally` return discards every map's data: one container of probability 1
   gives an empty map as written, and a one-entry map once the `try` result is kept.
   */
  lemma FinallyDiscardsContainers()
    ensures var v := EncodeStaticSpawns(StaticSpawns([StaticContainer(1.0, "crate")]));
      AverageContainersForMapAsWritten(Some(v), []) == []
      && AverageContainersForMap(Some(v), []) == Some([("crate", 1.0)])
  {
    var ss := StaticSpawns([StaticContainer(1.0, "crate")]);
    AverageContainersForMapEncoded(ss, []);
    AverageContainersGet(ss, [], "crate");
    assert ContainerWeights(ss, []) == [("crate", 1.0)];
    assert Accumulate(ContainerWeights(ss, [])) == [("crate", 1.0)];
  }

  /**
   `getAverageContainersPerMap`: an entry for every location, in enum order, each
   the (as-written, hence empty) result of `getAverageContainersForMap`.
   */
  function AverageContainersPerMapAsWritten(imports: map<Location, Json>, t: Translations)
    : (r: map<Location, OMap<string, real>>)
    ensures forall l :: l in r && r[l] == []
  {
    forall l ensures l in AllLocations {
      AllLocationsComplete(l);
    }
    map l | l in AllLocations :: AverageContainersForMapAsWritten(if l in imports then Some(imports[l]) else None, t)
  }

  /**
   `getAverageContainersPerMap` with the `try` result kept: an entry for every
   location, the per-name sums of the maps whose file was imported and accepted,
   an empty map for the others.
   */
  function AverageContainersPerMap(imports: map<Location, Json>, t: Translations)
    : (r: map<Location, Option<OMap<string, real>>>)
    ensures forall l :: l in r
    ensures forall l :: l !in imports ==> r[l] == Some([])
    ensures forall l :: l in imports && IsRawContainers(imports[l]) != Accepted ==> r[l] == Some([])
  {
    forall l ensures l in AllLocations {
      AllLocationsComplete(l);
    }
    map l | l in AllLocations :: AverageContainersForMap(if l in imports then Some(imports[l]) else None, t)
  }

  /** A map whose file holds the given containers gets their per-name sums, which the as-written store drops. */
  lemma AverageContainersPerMapEncoded(imports: map<Location, Json>, t: Translations, l: Location, ss: StaticSpawns)
    requires |ss.staticContainers| > 0
    requires l in imports && imports[l] == EncodeStaticSpawns(ss)
    ensures AverageContainersPerMap(imports, t)[l] == Some(AverageContainers(ss, t))
    ensures AverageContainersPerMapAsWritten(imports, t)[l] == []
  {
    AverageContainersForMapEncoded(ss, t);
  }

  // ---------------------------------------------------------------------------
  // Static loot

  /** The maps whose loot file was imported and passed `isRawLoot`; the others are only logged. */
  function LoadedLoot(imports: map<Location, Json>): (r: map<Location, Json>)
    ensures forall l :: l in r <==> l in imports && IsRawLoot(imports[l]) == Accepted
    ensures forall l :: l in r ==> r[l] == imports[l]
  {
    map l | l in imports && IsRawLoot(imports[l]) == Accepted :: imports[l]
  }

  /** One `{ tpl, relativeProbability }` entry of an `itemDistribution`. */
  function DecodeWeighted(e: Json): Option<Weighted<string>> {
    match (Member(e, "tpl"), Member(e, "relativeProbability"))
    case (Some(JStr(tpl)), Some(JNum(p))) => Some(Weighted(tpl, p))
    case _ => None
  }

  function DecodeWeightedAll(es: seq<Json>): (r: Option<seq<Weighted<string>>>)
    ensures r.Some? <==> forall i :: 0 <= i < |es| ==> DecodeWeighted(es[i]).Some?
    ensures r.Some? ==> |r.value| == |es| && forall i :: 0 <= i < |es| ==> DecodeWeighted(es[i]) == Some(r.value[i])
  {
    if |es| == 0 then Some([])
    else
      match (DecodeWeighted(es[0]), DecodeWeightedAll(es[1..]))
      case (Some(w), Some(rest)) =>
        assert forall i :: 1 <= i < |es| ==> es[i] == es[1..][i - 1];
        Some([w] + rest)
      case (None, _) => None
      case (_, None) =>
        assert forall i :: 1 <= i < |es| ==> es[i] == es[1..][i - 1];
        None
  }

  /** The `itemDistribution` of one container's loot entry. */
  function DecodeDistribution(x: Json): Option<seq<Weighted<string>>> {
    match Member(x, "itemDistribution")
    case Some(JArr(es)) => DecodeWeightedAll(es)
    case _ => None
  }

  /** The distributions of every value of a loot file, in order. */
  function DecodeDistributions(xs: seq<Json>): (r: Option<seq<seq<Weighted<string>>>>)
    ensures r.Some? <==> forall i :: 0 <= i < |xs| ==> DecodeDistribution(xs[i]).Some?
    ensures r.Some? ==> |r.value| == |xs| && forall i :: 0 <= i < |xs| ==> DecodeDistribution(xs[i]) == Some(r.value[i])
  {
    if |xs| == 0 then Some([])
    else
      match (DecodeDistribution(xs[0]), DecodeDistributions(xs[1..]))
      case (Some(d), Some(rest)) =>
        assert forall i :: 1 <= i < |xs| ==> xs[i] == xs[1..][i - 1];
        Some([d] + rest)
      case (None, _) => None
      case (_, None) =>
        assert forall i :: 1 <= i < |xs| ==> xs[i] == xs[1..][i - 1];
        None
  }

  predicate AllNormalizable(dists: seq<seq<Weighted<string>>>) {
    forall i :: 0 <= i < |dists| ==> Normalizable(dists[i])
  }

  /** One distribution's normalised entries as `(translated item name, probability)`. */
  function NamedProbabilities(d: seq<Weighted<string>>, t: Translations): (ps: seq<(string, real)>)
    requires Normalizable(d)
    ensures |ps| == |d|
    ensures forall j :: 0 <= j < |d| ==>
      ps[j].0 == Translate(t, d[j].item) && ps[j].1 == NormalizeProbabilities(d)[j].probability
  {
    var n := NormalizeProbabilities(d);
    seq(|n|, j requires 0 <= j < |n| => (Translate(t, n[j].item), n[j].probability))
  }

  /** Every normalised entry of every container, in loop order. */
  function LootPairs(dists: seq<seq<Weighted<string>>>, t: Translations): seq<(string, real)>
    requires AllNormalizable(dists)
  {
    if |dists| == 0 then []
    else LootPairs(dists[..|dists| - 1], t) + NamedProbabilities(dists[|dists| - 1], t)
  }

  /**
   The loop body of the computed `averageItemsPerContainerPerMap` for one map: per
   translated item name, the sum of its probabilities over all containers (the
   containers themselves are not kept apart).
   */
  function SummedItems(dists: seq<seq<Weighted<string>>>, t: Translations): (r: OMap<string, real>)
    requires AllNormalizable(dists)
    ensures DistinctKeys(r)
  {
    AccumulateDistinct(LootPairs(dists, t));
    Accumulate(LootPairs(dists, t))
  }

  /** The containers that can hold anything at all. */
  function NonEmptyCount(dists: seq<seq<Weighted<string>>>): (n: nat)
    ensures n <= |dists|
  {
    if |dists| == 0 then 0
    else NonEmptyCount(dists[..|dists| - 1]) + (if |dists[|dists| - 1]| > 0 then 1 else 0)
  }

  lemma NamedProbabilitiesTotal(d: seq<Weighted<string>>, t: Translations)
    requires Normalizable(d)
    ensures SumAll(NamedProbabilities(d, t)) == if |d| > 0 then 1.0 else 0.0
  {
    var ps := NamedProbabilities(d, t);
    SumAllValues(ps);
    if |d| > 0 {
      assert Values(ps) == Probabilities(NormalizeProbabilities(d));
      NormalizedSumIsOne(d);
    }
  }

  /**
   Each container's probabilities add up to one, so the summed table of a map adds
   up to the number of containers that can hold an item: an expected item count
   per container slot, not a probability.
   */
  lemma {:induction false} SummedItemsTotal(dists: seq<seq<Weighted<string>>>, t: Translations)
    requires AllNormalizable(dists)
    ensures Sum(Values(SummedItems(dists, t))) == NonEmptyCount(dists) as real
  {
    AccumulateTotal(LootPairs(dists, t));
    SumAllValues(SummedItems(dists, t));
    LootPairsTotal(dists, t);
  }

  lemma {:induction false} LootPairsTotal(dists: seq<seq<Weighted<string>>>, t: Translations)
    requires AllNormalizable(dists)
    ensures SumAll(LootPairs(dists, t)) == NonEmptyCount(dists) as real
  {
    if |dists| > 0 {
      var init := dists[..|dists| - 1];
      var last := dists[|dists| - 1];
      LootPairsTotal(init, t);
      SumAllAppend(LootPairs(init, t), NamedProbabilities(last, t));
      NamedProbabilitiesTotal(last, t);
    }
  }

  /** One distribution's entries seen from `name`: the normalised probability of each entry that translates to it, else 0. */
  function NameShares(d: seq<Weighted<string>>, t: Translations, name: string): (ts: seq<real>)
    requires Normalizable(d)
    ensures |ts| == |d|
    ensures forall j :: 0 <= j < |d| ==>
      ts[j] == if Translate(t, d[j].item) == name then NormalizeProbabilities(d)[j].probability else 0.0
  {
    var n := NormalizeProbabilities(d);
    seq(|d|, j requires 0 <= j < |d| => if Translate(t, d[j].item) == name then n[j].probability else 0.0)
  }

  /** Per distribution, the total share of `name`. */
  function NameTotals(dists: seq<seq<Weighted<string>>>, t: Translations, name: string): (ts: seq<real>)
    requires AllNormalizable(dists)
    ensures |ts| == |dists|
    ensures forall i :: 0 <= i < |dists| ==> ts[i] == Sum(NameShares(dists[i], t, name))
  {
    seq(|dists|, i requires 0 <= i < |dists| => Sum(NameShares(dists[i], t, name)))
  }

  /** Some entry of some distribution translates to `name`. */
  ghost predicate Names(dists: seq<seq<Weighted<string>>>, t: Translations, name: string) {
    exists i, j :: 0 <= i < |dists| && 0 <= j < |dists[i]| && Translate(t, dists[i][j].item) == name
  }

  lemma {:induction false} SumForNamed(d: seq<Weighted<string>>, t: Translations, name: string, k: nat)
    requires Normalizable(d)
    requires k <= |d|
    ensures SumFor(NamedProbabilities(d, t)[..k], name) == Sum(NameShares(d, t, name)[..k])
  {
    if k > 0 {
      SumForNamed(d, t, name, k - 1);
      assert NamedProbabilities(d, t)[..k][..k - 1] == NamedProbabilities(d, t)[..k - 1];
      assert NameShares(d, t, name)[..k][..k - 1] == NameShares(d, t, name)[..k - 1];
    }
  }

  lemma {:induction false} LootPairsSumFor(dists: seq<seq<Weighted<string>>>, t: Translations, name: string)
    requires AllNormalizable(dists)
    ensures SumFor(LootPairs(dists, t), name) == Sum(NameTotals(dists, t, name))
  {
    if |dists| > 0 {
      var init := dists[..|dists| - 1];
      var last := dists[|dists| - 1];
      LootPairsSumFor(init, t, name);
      SumForAppend(LootPairs(init, t), NamedProbabilities(last, t), name);
      SumForNamed(last, t, name, |last|);
      assert NamedProbabilities(last, t)[..|last|] == NamedProbabilities(last, t);
      assert NameShares(last, t, name)[..|last|] == NameShares(last, t, name);
      assert NameTotals(dists, t, name)[..|dists| - 1] == NameTotals(init, t, name);
    }
  }

  lemma {:induction false} LootPairsKeys(dists: seq<seq<Weighted<string>>>, t: Translations, name: string)
    requires AllNormalizable(dists)
    ensures name in Keys(LootPairs(dists, t)) <==> Names(dists, t, name)
  {
    if |dists| > 0 {
      var init := dists[..|dists| - 1];
      var last := dists[|dists| - 1];
      var ps := NamedProbabilities(last, t);
      LootPairsKeys(init, t, name);
      KeysAppend(LootPairs(init, t), ps);
      if name in Keys(ps) {
        var j :| 0 <= j < |ps| && Keys(ps)[j] == name;
        assert Translate(t, dists[|dists| - 1][j].item) == name;
      }
      if Names(dists, t, name) {
        var i, j :| 0 <= i < |dists| && 0 <= j < |dists[i]| && Translate(t, dists[i][j].item) == name;
        if i < |dists| - 1 {
          assert init[i] == dists[i];
        } else {
          assert Keys(ps)[j] == name;
        }
      }
      if Names(init, t, name) {
        var i, j :| 0 <= i < |init| && 0 <= j < |init[i]| && Translate(t, init[i][j].item) == name;
        assert dists[i] == init[i];
      }
    }
  }

  /**
   Per item name, one map's summed table holds the sum, over every container and
   every entry whose template translates to that name, of the entry's normalised
   probability; a name has an entry exactly when some template translates to it.
   */
  lemma SummedItemsGet(dists: seq<seq<Weighted<string>>>, t: Translations, name: string)
    requires AllNormalizable(dists)
    ensures Get(SummedItems(dists, t), name).Some? <==> Names(dists, t, name)
    ensures Get(SummedItems(dists, t), name).GetOr(0.0) == Sum(NameTotals(dists, t, name))
  {
    var pairs := LootPairs(dists, t);
    AccumulateGet(pairs, name);
    LootPairsSumFor(dists, t, name);
    LootPairsKeys(dists, t, name);
    if name !in Keys(pairs) {
      SumForAbsent(pairs, name);
    }
  }

  /**
   One loaded map's summed items, or `None` when a value of the file cannot be read
   as a distribution or has a zero total (the run would throw or produce `NaN`).
   */
  function SummedItemsForMap(v: Json, t: Translations): (r: Option<OMap<string, real>>)
    requires IsObject(v)
    ensures r.Some? <==> DecodeDistributions(ObjectValues(v)).Some? && AllNormalizable(DecodeDistributions(ObjectValues(v)).value)
  {
    match DecodeDistributions(ObjectValues(v))
    case Some(dists) => if AllNormalizable(dists) then Some(SummedItems(dists, t)) else None
    case None => None
  }

  /**
   `getAverageItemsPerContainerPerMap`: one entry per loaded map. All maps are
   summed inside one `computed`, so a `None` on any location means that the whole
   computation throws and no location's sums can be read.
   */
  function AverageItemsPerMap(imports: map<Location, Json>, t: Translations)
    : (r: map<Location, Option<OMap<string, real>>>)
    ensures r.Keys == LoadedLoot(imports).Keys
  {
    var loaded := LoadedLoot(imports);
    forall l | l in loaded ensures IsObject(loaded[l]) {
      assert IsRawLoot(imports[l]) == Accepted;
    }
    map l | l in loaded :: SummedItemsForMap(loaded[l], t)
  }

  /** One `{ tpl, relativeProbability }` entry as the data files hold it. */
  function EncodeWeighted(w: Weighted<string>): Json {
    JObj([("tpl", JStr(w.item)), ("relativeProbability", JNum(w.relativeProbability))])
  }

  /** One container's loot entry, with an empty `itemcountDistribution`. */
  function EncodeLootValue(d: seq<Weighted<string>>): Json {
    JObj([("itemcountDistribution", JArr([])),
          ("itemDistribution", JArr(seq(|d|, i requires 0 <= i < |d| => EncodeWeighted(d[i]))))])
  }

  lemma DecodeEncodedWeighted(w: Weighted<string>)
    ensures DecodeWeighted(EncodeWeighted(w)) == Some(w)
  {
    var e := EncodeWeighted(w);
    LookupCons(e.fields[0], e.fields[1..], "relativeProbability");
    assert e.fields == [e.fields[0]] + e.fields[1..];
  }

  /** An encoded loot entry passes the element check and decodes to its distribution. */
  lemma LootValueRoundTrip(d: seq<Weighted<string>>)
    ensures RawLootValueCheck(EncodeLootValue(d)) == Accepted
    ensures DecodeDistribution(EncodeLootValue(d)) == Some(d)
  {
    var x := EncodeLootValue(d);
    LookupCons(x.fields[0], x.fields[1..], "itemDistribution");
    assert x.fields == [x.fields[0]] + x.fields[1..];
    var es := Member(x, "itemDistribution").value.elems;
    forall i | 0 <= i < |es| ensures DecodeWeighted(es[i]) == Some(d[i]) {
      DecodeEncodedWeighted(d[i]);
    }
    assert DecodeWeightedAll(es).value == d;
  }

  /** A loot file of well-formed entries is loaded, whatever its container ids. */
  lemma EncodedLootLoaded(imports: map<Location, Json>, l: Location, id: string, d: seq<Weighted<string>>,
                          rest: seq<(string, Json)>)
    requires l in imports && imports[l] == JObj([(id, EncodeLootValue(d))] + rest)
    ensures l in LoadedLoot(imports)
  {
    LootValueRoundTrip(d);
    assert ObjectValues(imports[l])[0] == EncodeLootValue(d);
  }
}
