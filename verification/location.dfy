/**
 The game's maps (model/location.ts): the twelve `Location` values as the data
 files name them, the ten maps as the interface shows them, and the two switches
 that relate a `Location` to its display name and to its URL slug.
 */
module Locations {
  import opened Wrappers

  datatype Location =
    | Customs | FactoryDay | FactoryNight | Interchange | Labs | Lighthouse
    | Reserve | GroundZeroLow | GroundZeroHigh | Shoreline | Streets | Woods

  datatype DisplayLocation =
    | DCustoms | DFactory | DInterchange | DLabs | DLighthouse
    | DReserve | DGroundZero | DShoreline | DStreets | DWoods

  /** `Object.values(Location)`: every location, in declaration order. */
  const AllLocations: seq<Location> := [
    Customs, FactoryDay, FactoryNight, Interchange, Labs, Lighthouse,
    Reserve, GroundZeroLow, GroundZeroHigh, Shoreline, Streets, Woods
  ]

  const AllDisplayLocations: seq<DisplayLocation> := [
    DCustoms, DFactory, DInterchange, DLabs, DLighthouse,
    DReserve, DGroundZero, DShoreline, DStreets, DWoods
  ]

  /** The enum's string value: the map's identifier in the loot data. */
  function Value(l: Location): string {
    match l
    case Customs => "bigmap"
    case FactoryDay => "factory4_day"
    case FactoryNight => "factory4_night"
    case Interchange => "interchange"
    case Labs => "laboratory"
    case Lighthouse => "lighthouse"
    case Reserve => "rezervbase"
    case GroundZeroLow => "sandbox"
    case GroundZeroHigh => "sandbox_high"
    case Shoreline => "shoreline"
    case Streets => "tarkovstreets"
    case Woods => "woods"
  }

  /** The display enum's string value. */
  function DisplayValue(d: DisplayLocation): string {
    match d
    case DCustoms => "Customs"
    case DFactory => "Factory"
    case DInterchange => "Interchange"
    case DLabs => "Labs"
    case DLighthouse => "Lighthouse"
    case DReserve => "Reserve"
    case DGroundZero => "Ground Zero"
    case DShoreline => "Shoreline"
    case DStreets => "Streets"
    case DWoods => "Woods"
  }

  /**
   Reading a data identifier back as a `Location`: the value whose string it is,
   if any. Its contract makes `Value` a bijection onto the twelve identifiers.
   */
  function FromValue(s: string): (r: Option<Location>)
    ensures r.Some? ==> Value(r.value) == s
    ensures forall l: Location :: Value(l) == s ==> r == Some(l)
  {
    if s == "bigmap" then Some(Customs)
    else if s == "factory4_day" then Some(FactoryDay)
    else if s == "factory4_night" then Some(FactoryNight)
    else if s == "interchange" then Some(Interchange)
    else if s == "laboratory" then Some(Labs)
    else if s == "lighthouse" then Some(Lighthouse)
    else if s == "rezervbase" then Some(Reserve)
    else if s == "sandbox" then Some(GroundZeroLow)
    else if s == "sandbox_high" then Some(GroundZeroHigh)
    else if s == "shoreline" then Some(Shoreline)
    else if s == "tarkovstreets" then Some(Streets)
    else if s == "woods" then Some(Woods)
    else None
  }

  /** `mapLocationToDisplayLocation`. */
  function ToDisplay(l: Location): (d: DisplayLocation)
    ensures l in {FactoryDay, FactoryNight} <==> d == DFactory
    ensures l in {GroundZeroLow, GroundZeroHigh} <==> d == DGroundZero
  {
    match l
    case Customs => DCustoms
    case FactoryDay => DFactory
    case FactoryNight => DFactory
    case Interchange => DInterchange
    case Labs => DLabs
    case Lighthouse => DLighthouse
    case Reserve => DReserve
    case GroundZeroHigh => DGroundZero
    case GroundZeroLow => DGroundZero
    case Shoreline => DShoreline
    case Streets => DStreets
    case Woods => DWoods
  }

  /**
   A location that displays as `d`: the first in `AllLocations`. Its existence for
   every `d` is the switch's surjectivity.
   */
  function Representative(d: DisplayLocation): (l: Location)
    ensures ToDisplay(l) == d
    ensures l in AllLocations
  {
    match d
    case DCustoms => Customs
    case DFactory => FactoryDay
    case DInterchange => Interchange
    case DLabs => Labs
    case DLighthouse => Lighthouse
    case DReserve => Reserve
    case DGroundZero => GroundZeroLow
    case DShoreline => Shoreline
    case DStreets => Streets
    case DWoods => Woods
  }

  /** The only locations sharing a display name are the two factories and the two Ground Zeros. */
  lemma ToDisplaySharedOnlyByVariants(a: Location, b: Location)
    requires a != b && ToDisplay(a) == ToDisplay(b)
    ensures {a, b} == {FactoryDay, FactoryNight} || {a, b} == {GroundZeroLow, GroundZeroHigh}
  {
  }

  /** `mapLocationToNiceUrlName`. */
  function NiceUrlName(l: Location): string {
    match l
    case Customs => "customs"
    case FactoryDay => "factory"
    case FactoryNight => "factory-night"
    case Interchange => "interchange"
    case Labs => "labs"
    case Lighthouse => "lighthouse"
    case Reserve => "reserve"
    case GroundZeroLow => "ground-zero-low"
    case GroundZeroHigh => "ground-zero-high"
    case Shoreline => "shoreline"
    case Streets => "streets"
    case Woods => "woods"
  }

  /**
   Reading a URL slug back as a location. Its contract makes `NiceUrlName`
   injective: each slug names at most one location, and every location's slug
   reads back as that location.
   */
  function FromNiceUrlName(s: string): (r: Option<Location>)
    ensures r.Some? ==> NiceUrlName(r.value) == s
    ensures forall l: Location :: NiceUrlName(l) == s ==> r == Some(l)
  {
    if s == "customs" then Some(Customs)
    else if s == "factory" then Some(FactoryDay)
    else if s == "factory-night" then Some(FactoryNight)
    else if s == "interchange" then Some(Interchange)
    else if s == "labs" then Some(Labs)
    else if s == "lighthouse" then Some(Lighthouse)
    else if s == "reserve" then Some(Reserve)
    else if s == "ground-zero-low" then Some(GroundZeroLow)
    else if s == "ground-zero-high" then Some(GroundZeroHigh)
    else if s == "shoreline" then Some(Shoreline)
    else if s == "streets" then Some(Streets)
    else if s == "woods" then Some(Woods)
    else None
  }

  /** Distinct locations have distinct slugs and distinct identifiers. */
  lemma NamesInjective(a: Location, b: Location)
    requires a != b
    ensures NiceUrlName(a) != NiceUrlName(b)
    ensures Value(a) != Value(b)
  {
    var ra := FromNiceUrlName(NiceUrlName(a));
    var va := FromValue(Value(a));
  }

  /** `AllLocations` lists every location exactly once. */
  lemma AllLocationsComplete(l: Location)
    ensures l in AllLocations
    ensures forall i, j :: 0 <= i < j < |AllLocations| ==> AllLocations[i] != AllLocations[j]
  {
  }
}
