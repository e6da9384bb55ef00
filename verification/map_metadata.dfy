/**
 The interactive-map metadata (fetcher/fetch-map-metadata.ts, model/map-metadata.ts):
 a list of map collections, each named by a `normalizedName`, indexed by the
 display location that name stands for.
 */
module MapMetadata {
  import opened Wrappers
  import opened OrderedMap
  import opened Locations

  /** `[[x, y], [x, y]]`: two opposite corners, in no particular order. */
  datatype Bounds = Bounds(a: (real, real), b: (real, real))

  /** One map layer: its transform and rotation (unused by the view), its bounds, height range and image. */
  datatype MapMetadata = MapMetadata(
    key: string,
    transform: (real, real, real, real),
    coordinateRotation: real,
    bounds: Bounds,
    heightRange: (real, real),
    svgPath: string)

  datatype MapMetadataCollection = MapMetadataCollection(normalizedName: string, maps: seq<MapMetadata>)

  /** The `normalizedName` the metadata uses for each display location. */
  function MetadataName(d: DisplayLocation): string {
    match d
    case DLighthouse => "lighthouse"
    case DShoreline => "shoreline"
    case DInterchange => "interchange"
    case DReserve => "reserve"
    case DWoods => "woods"
    case DCustoms => "customs"
    case DFactory => "factory"
    case DLabs => "the-lab"
    case DStreets => "streets-of-tarkov"
    case DGroundZero => "ground-zero"
  }

  /**
   `getDisplayLocationForMapMetadata`: the display location a name stands for, if
   any. Its contract makes it the inverse of `MetadataName`.
   */
  function DisplayLocationFor(name: string): (r: Option<DisplayLocation>)
    ensures r.Some? ==> MetadataName(r.value) == name
    ensures forall d: DisplayLocation :: MetadataName(d) == name ==> r == Some(d)
  {
    match name
    case "lighthouse" => Some(DLighthouse)
    case "shoreline" => Some(DShoreline)
    case "interchange" => Some(DInterchange)
    case "reserve" => Some(DReserve)
    case "woods" => Some(DWoods)
    case "customs" => Some(DCustoms)
    case "factory" => Some(DFactory)
    case "the-lab" => Some(DLabs)
    case "streets-of-tarkov" => Some(DStreets)
    case "ground-zero" => Some(DGroundZero)
    case _ => None
  }

  /** The collections with a known name, paired with their display location, in order. */
  function Known(raw: seq<MapMetadataCollection>): (ps: seq<(DisplayLocation, MapMetadataCollection)>)
    ensures forall i :: 0 <= i < |ps| ==> MetadataName(ps[i].0) == ps[i].1.normalizedName && ps[i].1 in raw
  {
    if |raw| == 0 then []
    else
      var last := raw[|raw| - 1];
      Known(raw[..|raw| - 1])
        + match DisplayLocationFor(last.normalizedName)
          case Some(d) => [(d, last)]
          case None => []
  }

  /**
   `fetchAllMapMetadata` after the fetch: every collection with a known name is
   set under its display location, a later one replacing an earlier one; unknown
   names are skipped.
   */
  function AllMapMetadata(raw: seq<MapMetadataCollection>): (r: OMap<DisplayLocation, MapMetadataCollection>)
    ensures DistinctKeys(r)
  {
    LastWinsDistinct(Known(raw));
    LastWins(Known(raw))
  }

  /** The collection listed last under a name. */
  function LastNamed(raw: seq<MapMetadataCollection>, name: string): (r: Option<MapMetadataCollection>)
    ensures r.Some? ==> r.value in raw && r.value.normalizedName == name
  {
    if |raw| == 0 then None
    else if raw[|raw| - 1].normalizedName == name then Some(raw[|raw| - 1])
    else LastNamed(raw[..|raw| - 1], name)
  }

  lemma {:induction false} KnownLastFor(raw: seq<MapMetadataCollection>, d: DisplayLocation)
    ensures LastFor(Known(raw), d) == LastNamed(raw, MetadataName(d))
  {
    if |raw| > 0 {
      var init := raw[..|raw| - 1];
      var last := raw[|raw| - 1];
      KnownLastFor(init, d);
      var r := DisplayLocationFor(last.normalizedName);
      if r.Some? {
        var ps := Known(init) + [(r.value, last)];
        assert Known(raw) == ps;
        assert ps[..|ps| - 1] == Known(init);
        assert r.value != d ==> last.normalizedName != MetadataName(d);
      } else {
        assert Known(raw) == Known(init);
        assert last.normalizedName != MetadataName(d);
      }
    }
  }

  /**
   Each display location holds the last collection carrying its metadata name,
   and nothing when no collection carries it.
   */
  lemma AllMapMetadataGet(raw: seq<MapMetadataCollection>, d: DisplayLocation)
    ensures Get(AllMapMetadata(raw), d) == LastNamed(raw, MetadataName(d))
  {
    LastWinsGet(Known(raw), d);
    KnownLastFor(raw, d);
  }

  /** A collection with an unknown name is skipped: adding it changes nothing. */
  lemma UnknownNameSkipped(raw: seq<MapMetadataCollection>, c: MapMetadataCollection)
    requires DisplayLocationFor(c.normalizedName).None?
    ensures AllMapMetadata(raw + [c]) == AllMapMetadata(raw)
  {
    assert (raw + [c])[..|raw|] == raw;
    assert Known(raw + [c]) == Known(raw);
  }
}
