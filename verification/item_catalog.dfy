/**
 The market metadata of items in the shape of stores/tarkov-dev-data.ts: size in
 inventory slots, category tags and last low price, looked up by item id. The tier
 list and the rarity graph read these fields from the metadata store, whose
 declared type (model/item-metadata.ts) carries no price or size; the model gives
 them the shape their code reads. The lookup table is only ever read by key, so
 it is a Dafny `map`.
 */
module Items {
  import opened Common

  /** One item's metadata; `historicalPrices` is never read by the modelled code and is left out. */
  datatype ItemInfo = ItemInfo(
    id: string,
    shortName: string,
    iconLink: string,
    width: real,
    height: real,
    types: seq<string>,
    lastLowPrice: real)

  /** `Map<ItemMetadata['id'], ItemMetadata>`. */
  type Catalog = map<string, ItemInfo>

  /** Every item occupies a positive number of slots, so a price per slot is defined. */
  predicate Measured(c: Catalog) {
    forall id :: id in c ==> c[id].width > 0.0 && c[id].height > 0.0
  }

  /** `Math.round(lastLowPrice / (width * height))`: the price per occupied slot, to the nearest whole number. */
  function PricePerSlot(info: ItemInfo): (r: int)
    requires info.width > 0.0 && info.height > 0.0
    ensures r as real <= info.lastLowPrice / (info.width * info.height) + 0.5 < r as real + 1.0
  {
    Round(info.lastLowPrice / (info.width * info.height))
  }

  /** `types.some((type) => allowed.includes(type))`. */
  predicate HasAllowedType(types: seq<string>, allowed: seq<string>) {
    exists i :: 0 <= i < |types| && types[i] in allowed
  }
}
