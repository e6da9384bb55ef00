/**
 The runtime shape checks applied to imported JSON (model/loot-data.ts,
 model/item-metadata.ts, stores/spt-data.store.ts). Each is paired with an
 encoder of the shape it stands for, and the checks are proved to accept the
 encodings.

 JavaScript's `'key' in v` throws a TypeError when `v` is a primitive or null;
 the two checks that can reach such an `in` return `Threw` then.
 */
module Guards {
  import opened Wrappers
  import opened Json

  datatype GuardOutcome = Accepted | Rejected | Threw

  function FromBool(b: bool): GuardOutcome {
    if b then Accepted else Rejected
  }

  // ---------------------------------------------------------------------------
  // model/loot-data.ts

  /** `isStaticSpawnms`: an object whose `staticContainers` is an array, elements unchecked. */
  predicate IsStaticSpawns(v: Json) {
    IsObject(v) && Member(v, "staticContainers").Some? && Member(v, "staticContainers").value.JArr?
  }

  /** `isContainerContent`: any object or array. */
  predicate IsContainerContent(v: Json) {
    IsObject(v)
  }

  /** The elements of `staticContainers` are not inspected: any array, the empty one included, passes, whatever follows it. */
  lemma StaticSpawnsAcceptsAnyElements(elems: seq<Json>, extra: seq<(string, Json)>)
    ensures IsStaticSpawns(JObj([("staticContainers", JArr(elems))] + extra))
    ensures IsStaticSpawns(JObj([("staticContainers", JArr([]))] + extra))
  {
    LookupCons(("staticContainers", JArr(elems)), extra, "staticContainers");
    LookupCons(("staticContainers", JArr([])), extra, "staticContainers");
  }

  /** Null and primitives fail both loot-data checks; every object and array passes `isContainerContent`. */
  lemma LootDataGuardsOnPrimitives(v: Json)
    ensures IsContainerContent(v) <==> !(v.JNull? || v.JBool? || v.JNum? || v.JStr?)
    ensures v.JNull? || v.JBool? || v.JNum? || v.JStr? ==> !IsStaticSpawns(v)
  {
  }

  // ---------------------------------------------------------------------------
  // model/item-metadata.ts

  /** The fields `isItemMetadata` checks; `types` is any array, its elements unchecked. */
  datatype ItemMetadata = ItemMetadata(id: string, name: string, shortName: string, iconLink: string, types: seq<Json>)

  predicate IsStringMember(v: Json, key: string) {
    Member(v, key).Some? && Member(v, key).value.JStr?
  }

  /** `isItemMetadata`. */
  predicate IsItemMetadata(v: Json) {
    IsObject(v)
    && IsStringMember(v, "id") && IsStringMember(v, "name") && IsStringMember(v, "shortName")
    && IsStringMember(v, "iconLink")
    && Member(v, "types").Some? && Member(v, "types").value.JArr?
  }

  /** Reading the checked fields of a value. */
  function DecodeItemMetadata(v: Json): (r: Option<ItemMetadata>)
    ensures r.Some? <==> IsItemMetadata(v)
    ensures r.Some? ==>
      Member(v, "id") == Some(JStr(r.value.id))
      && Member(v, "shortName") == Some(JStr(r.value.shortName))
      && Member(v, "types") == Some(JArr(r.value.types))
  {
    if IsItemMetadata(v) then
      Some(ItemMetadata(
        Member(v, "id").value.s, Member(v, "name").value.s, Member(v, "shortName").value.s,
        Member(v, "iconLink").value.s, Member(v, "types").value.elems))
    else None
  }

  /** The metadata record as the API sends it, with any `extra` fields after the checked ones. */
  function EncodeItemMetadata(m: ItemMetadata, extra: seq<(string, Json)>): Json {
    JObj([("id", JStr(m.id)), ("name", JStr(m.name)), ("shortName", JStr(m.shortName)),
          ("iconLink", JStr(m.iconLink)), ("types", JArr(m.types))] + extra)
  }

  /** The field at position `i` is the one found when no earlier field has its name. */
  lemma {:induction false} LookupAt(fields: seq<(string, Json)>, i: nat, key: string)
    requires i < |fields| && fields[i].0 == key
    requires forall j :: 0 <= j < i ==> fields[j].0 != key
    ensures Lookup(fields, key) == Some(fields[i].1)
  {
    if i > 0 {
      LookupAt(fields[1..], i - 1, key);
    }
  }

  /** The encoded record's checked fields hold the record's values. */
  lemma EncodedMembers(m: ItemMetadata, extra: seq<(string, Json)>)
    ensures var v := EncodeItemMetadata(m, extra);
      && Member(v, "id") == Some(JStr(m.id)) && Member(v, "name") == Some(JStr(m.name))
      && Member(v, "shortName") == Some(JStr(m.shortName)) && Member(v, "iconLink") == Some(JStr(m.iconLink))
      && Member(v, "types") == Some(JArr(m.types))
  {
    var v := EncodeItemMetadata(m, extra);
    var fs := v.fields;
    assert Member(v, "id") == Some(JStr(m.id)) by {
      assert fs[0] == ("id", JStr(m.id));
      LookupAt(fs, 0, "id");
    }
    assert Member(v, "name") == Some(JStr(m.name)) by {
      assert fs[0].0 == "id" && fs[1] == ("name", JStr(m.name));
      assert |"id"| != |"name"|;
      LookupAt(fs, 1, "name");
    }
    assert Member(v, "shortName") == Some(JStr(m.shortName)) by {
      assert fs[0].0 == "id" && fs[1].0 == "name" && fs[2] == ("shortName", JStr(m.shortName));
      assert |"id"| != |"shortName"| && |"name"| != |"shortName"|;
      LookupAt(fs, 2, "shortName");
    }
    assert Member(v, "iconLink") == Some(JStr(m.iconLink)) by {
      assert fs[0].0 == "id" && fs[1].0 == "name" && fs[2].0 == "shortName" && fs[3] == ("iconLink", JStr(m.iconLink));
      assert |"id"| != |"iconLink"| && |"name"| != |"iconLink"| && |"shortName"| != |"iconLink"|;
      LookupAt(fs, 3, "iconLink");
    }
    assert Member(v, "types") == Some(JArr(m.types)) by {
      assert fs[0].0 == "id" && fs[1].0 == "name" && fs[2].0 == "shortName" && fs[3].0 == "iconLink";
      assert fs[4] == ("types", JArr(m.types));
      assert |"id"| != |"types"| && |"name"| != |"types"| && |"shortName"| != |"types"| && |"iconLink"| != |"types"|;
      LookupAt(fs, 4, "types");
    }
  }

  /** The fields the metadata check and decoder read. */
  const ItemMetadataKeys: seq<string> := ["id", "name", "shortName", "iconLink", "types"]

  /**
   Every encoded record passes the check and decodes back, whatever other fields it
   carries. A parsed object has one value per key, so the extra fields do not
   repeat the record's own.
   */
  lemma ItemMetadataRoundTrip(m: ItemMetadata, extra: seq<(string, Json)>)
    requires forall i :: 0 <= i < |extra| ==> extra[i].0 !in ItemMetadataKeys
    ensures IsItemMetadata(EncodeItemMetadata(m, extra))
    ensures DecodeItemMetadata(EncodeItemMetadata(m, extra)) == Some(m)
  {
    EncodedMembers(m, extra);
  }

  /** A required field that is missing, or not of its type, makes the check fail. */
  lemma ItemMetadataNeedsEveryField(v: Json)
    requires Member(v, "id").None? || !Member(v, "id").value.JStr?
      || Member(v, "types").None? || !Member(v, "types").value.JArr?
    ensures !IsItemMetadata(v)
  {
  }

  // ---------------------------------------------------------------------------
  // stores/spt-data.store.ts: isRawContainers

  /** One element of `template.Items`: an object with a string `_tpl`. */
  predicate IsRawItem(item: Json) {
    IsObject(item) && IsStringMember(item, "_tpl")
  }

  /**
   The callback of `staticContainers.some(...)`: a numeric `probability`, a
   `template` of type object whose `Items` is an array of `IsRawItem`s. A `null`
   template passes `typeof === 'object'` and then throws at `'Items' in`.
   */
  function RawContainerCheck(c: Json): GuardOutcome {
    if !IsObject(c) then Rejected
    else if !(Member(c, "probability").Some? && Member(c, "probability").value.JNum?) then Rejected
    else match Member(c, "template")
      case None => Rejected
      case Some(t) =>
        if t.JNull? then Threw
        else if !IsObject(t) then Rejected
        else match Member(t, "Items")
          case Some(JArr(items)) => FromBool(forall i :: 0 <= i < |items| ==> IsRawItem(items[i]))
          case _ => Rejected
  }

  /** `Array.prototype.some` with a callback that may throw: stops at the first acceptance or throw. */
  function SomeRawContainer(cs: seq<Json>): GuardOutcome {
    if |cs| == 0 then Rejected
    else
      var first := RawContainerCheck(cs[0]);
      if first == Rejected then SomeRawContainer(cs[1..]) else first
  }

  /** `isRawContainers`. */
  function IsRawContainers(v: Json): GuardOutcome {
    if !IsObject(v) then Rejected
    else match Member(v, "staticContainers")
      case Some(JArr(cs)) => SomeRawContainer(cs)
      case _ => Rejected
  }

  /**
   What `some` returns: the verdict of the first element whose check does not
   reject, or a rejection when every element is rejected.
   */
  lemma {:induction false} SomeRawContainerSpec(cs: seq<Json>)
    ensures SomeRawContainer(cs) != Rejected <==>
      exists i :: 0 <= i < |cs| && RawContainerCheck(cs[i]) != Rejected
    ensures forall i ::
      (0 <= i < |cs| && RawContainerCheck(cs[i]) != Rejected
       && (forall j :: 0 <= j < i ==> RawContainerCheck(cs[j]) == Rejected))
      ==> SomeRawContainer(cs) == RawContainerCheck(cs[i])
  {
    if |cs| > 0 {
      SomeRawContainerSpec(cs[1..]);
      if RawContainerCheck(cs[0]) == Rejected {
        forall i | 1 <= i < |cs| && RawContainerCheck(cs[i]) != Rejected
          ensures RawContainerCheck(cs[1..][i - 1]) != Rejected
        {
        }
      }
    }
  }

  /** An empty `staticContainers` array is rejected. */
  lemma RawContainersRejectsEmpty(v: Json)
    requires IsObject(v) && Member(v, "staticContainers") == Some(JArr([]))
    ensures IsRawContainers(v) == Rejected
  {
  }

  /** Once one element is well formed, malformed elements after it are tolerated. */
  lemma RawContainersToleratesAfterMatch(good: Json, rest: seq<Json>, fields: seq<(string, Json)>)
    requires RawContainerCheck(good) == Accepted
    requires Lookup(fields, "staticContainers") == Some(JArr([good] + rest))
    ensures IsRawContainers(JObj(fields)) == Accepted
  {
    assert ([good] + rest)[0] == good;
  }

  /** A static container as the data files describe it, with its template's one item. */
  function EncodeRawContainer(probability: real, tpl: string): Json {
    JObj([("probability", JNum(probability)),
          ("template", JObj([("Items", JArr([JObj([("_tpl", JStr(tpl))])]))]))])
  }

  /** Encoded containers pass the element check. */
  lemma RawContainerEncodingAccepted(probability: real, tpl: string)
    ensures RawContainerCheck(EncodeRawContainer(probability, tpl)) == Accepted
  {
    var c := EncodeRawContainer(probability, tpl);
    assert Lookup(c.fields, "template") == Some(c.fields[1].1) by {
      assert c.fields[1..][0] == c.fields[1];
    }
  }

  // ---------------------------------------------------------------------------
  // stores/spt-data.store.ts: isRawLoot

  /**
   The callback of `Object.values(data).some(...)`: both distributions are arrays.
   `'itemcountDistribution' in value` throws on a primitive or null value.
   */
  function RawLootValueCheck(x: Json): GuardOutcome {
    if !IsObject(x) then Threw
    else FromBool(
      Member(x, "itemcountDistribution").Some? && Member(x, "itemcountDistribution").value.JArr?
      && Member(x, "itemDistribution").Some? && Member(x, "itemDistribution").value.JArr?)
  }

  function SomeRawLootValue(xs: seq<Json>): GuardOutcome {
    if |xs| == 0 then Rejected
    else
      var first := RawLootValueCheck(xs[0]);
      if first == Rejected then SomeRawLootValue(xs[1..]) else first
  }

  /** `isRawLoot`. */
  function IsRawLoot(v: Json): GuardOutcome {
    if !IsObject(v) then Rejected else SomeRawLootValue(ObjectValues(v))
  }

  /** As for containers: the verdict of the first value that is not rejected. */
  lemma {:induction false} SomeRawLootValueSpec(xs: seq<Json>)
    ensures SomeRawLootValue(xs) != Rejected <==>
      exists i :: 0 <= i < |xs| && RawLootValueCheck(xs[i]) != Rejected
    ensures forall i ::
      (0 <= i < |xs| && RawLootValueCheck(xs[i]) != Rejected
       && (forall j :: 0 <= j < i ==> RawLootValueCheck(xs[j]) == Rejected))
      ==> SomeRawLootValue(xs) == RawLootValueCheck(xs[i])
  {
    if |xs| > 0 {
      SomeRawLootValueSpec(xs[1..]);
      if RawLootValueCheck(xs[0]) == Rejected {
        forall i | 1 <= i < |xs| && RawLootValueCheck(xs[i]) != Rejected
          ensures RawLootValueCheck(xs[1..][i - 1]) != Rejected
        {
        }
      }
    }
  }

  /** An object with no values, `{}`, is rejected. */
  lemma RawLootRejectsEmpty()
    ensures IsRawLoot(JObj([])) == Rejected
  {
  }
}
