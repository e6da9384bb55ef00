/**
 Placing the loose-loot spawnpoints on the map picture (components/LootSpawnsMap.tsx):
 the map's bounds are normalised to a top-left and a bottom-right corner, the
 picture is fitted into the container keeping its aspect ratio, and each
 spawnpoint's map position is carried into that picture, mirrored along x.
 */
module LootSpawnsMap {
  import opened Wrappers
  import opened Common
  import opened LooseLoot
  import opened MapMetadata
  import opened Items

  // ---------------------------------------------------------------------------
  // Bounds and sizes

  /** The map's extent as two corners. */
  datatype Box = Box(topLeft: Point, bottomRight: Point)

  predicate Ordered(b: Box) {
    b.topLeft.x <= b.bottomRight.x && b.topLeft.y <= b.bottomRight.y
  }

  /** `mapBoundingPoints` as leaflet computes it: component-wise minimum and maximum of the two raw corners. */
  function BoundingPoints(raw: Bounds): (r: Box)
    ensures Ordered(r)
    ensures (r.topLeft.x == raw.a.0 && r.bottomRight.x == raw.b.0) || (r.topLeft.x == raw.b.0 && r.bottomRight.x == raw.a.0)
    ensures (r.topLeft.y == raw.a.1 && r.bottomRight.y == raw.b.1) || (r.topLeft.y == raw.b.1 && r.bottomRight.y == raw.a.1)
  {
    Box(Point(Min(raw.b.0, raw.a.0), Min(raw.b.1, raw.a.1)), Point(Max(raw.b.0, raw.a.0), Max(raw.b.1, raw.a.1)))
  }

  /** The corners may be given in either order, and normalising twice changes nothing. */
  lemma BoundingPointsNormal(raw: Bounds)
    ensures BoundingPoints(Bounds(raw.b, raw.a)) == BoundingPoints(raw)
    ensures var r := BoundingPoints(raw);
      BoundingPoints(Bounds((r.topLeft.x, r.topLeft.y), (r.bottomRight.x, r.bottomRight.y))) == r
  {
  }

  /** `naturalMapDimensions`: the extent between the two corners. */
  function NaturalDimensions(b: Box): (d: Dimensions)
    ensures Ordered(b) ==> d.width >= 0.0 && d.height >= 0.0
    ensures b.topLeft.x + d.width == b.bottomRight.x && b.topLeft.y + d.height == b.bottomRight.y
  {
    Dimensions(b.bottomRight.x - b.topLeft.x, b.bottomRight.y - b.topLeft.y)
  }

  /**
   `fittedNaturalMapDimensions`: the largest box of the picture's aspect ratio that
   fits the container, touching it on two opposite sides.
   */
  function Fit(container: Dimensions, natural: Dimensions): (r: Dimensions)
    requires Positive(container) && Positive(natural)
    ensures Positive(r)
    ensures r.width * natural.height == r.height * natural.width
    ensures r.width <= container.width && r.height <= container.height
    ensures r.width == container.width || r.height == container.height
  {
    var containerRatio := container.width / container.height;
    var naturalRatio := natural.width / natural.height;
    if containerRatio > naturalRatio then
      FitToHeight(container, natural);
      Dimensions(container.height * naturalRatio, container.height)
    else
      FitToWidth(container, natural);
      Dimensions(container.width, container.width / naturalRatio)
  }

  lemma FitToHeight(container: Dimensions, natural: Dimensions)
    requires Positive(container) && Positive(natural)
    requires container.width / container.height > natural.width / natural.height
    ensures var w := container.height * (natural.width / natural.height);
      w > 0.0 && w * natural.height == container.height * natural.width && w <= container.width
  {
    var c := container.width / container.height;
    var n := natural.width / natural.height;
    assert c * container.height == container.width;
    assert n * natural.height == natural.width;
    assert container.height * n < container.height * c;
  }

  lemma FitToWidth(container: Dimensions, natural: Dimensions)
    requires Positive(container) && Positive(natural)
    requires container.width / container.height <= natural.width / natural.height
    ensures var h := container.width / (natural.width / natural.height);
      h > 0.0 && container.width * natural.height == h * natural.width && h <= container.height
  {
    var c := container.width / container.height;
    var n := natural.width / natural.height;
    var h := container.width / n;
    assert c * container.height == container.width;
    assert n * natural.height == natural.width;
    assert h * n == container.width;
    assert h * n <= container.height * n by {
      assert container.width == c * container.height;
      assert c * container.height <= n * container.height;
    }
    assert h * natural.width == h * n * natural.height;
  }

  // ---------------------------------------------------------------------------
  // Map point to picture point

  /** `transformMapPointToSvgPoint`, step by step as written. */
  function Transform(p: Point, bounds: Box, natural: Dimensions, svg: Dimensions): (r: Point)
    requires Positive(natural)
  {
    var centre := Point((bounds.topLeft.x + bounds.bottomRight.x) / 2.0, (bounds.topLeft.y + bounds.bottomRight.y) / 2.0);
    var aligned := Point(p.x - centre.x, p.y - centre.y);
    var fromTopLeft := Point(natural.width - (aligned.x + natural.width / 2.0), aligned.y + natural.height / 2.0);
    Point(fromTopLeft.x / natural.width * svg.width, fromTopLeft.y / natural.height * svg.height)
  }

  /**
   With the natural size taken from the bounds, the transform is the affine map
   sending x from [right, left] and y from [top, bottom] onto the picture: x is
   mirrored, y is not.
   */
  lemma TransformClosedForm(p: Point, bounds: Box, svg: Dimensions)
    requires Positive(NaturalDimensions(bounds))
    ensures var n := NaturalDimensions(bounds);
      var r := Transform(p, bounds, n, svg);
      r.x == (bounds.bottomRight.x - p.x) / n.width * svg.width
      && r.y == (p.y - bounds.topLeft.y) / n.height * svg.height
  {
  }

  /** The centre of the bounds lands on the centre of the picture. */
  lemma CentreToCentre(bounds: Box, svg: Dimensions)
    requires Positive(NaturalDimensions(bounds))
    ensures Transform(Point((bounds.topLeft.x + bounds.bottomRight.x) / 2.0, (bounds.topLeft.y + bounds.bottomRight.y) / 2.0),
      bounds, NaturalDimensions(bounds), svg) == Point(svg.width / 2.0, svg.height / 2.0)
  {
    var n := NaturalDimensions(bounds);
    var c := Point((bounds.topLeft.x + bounds.bottomRight.x) / 2.0, (bounds.topLeft.y + bounds.bottomRight.y) / 2.0);
    TransformClosedForm(c, bounds, svg);
    assert bounds.bottomRight.x - c.x == n.width / 2.0;
    assert c.y - bounds.topLeft.y == n.height / 2.0;
    Half(n.width, svg.width);
    Half(n.height, svg.height);
  }

  lemma Half(w: real, s: real)
    requires w > 0.0
    ensures (w / 2.0) / w * s == s / 2.0
  {
    assert (w / 2.0) / w == 0.5;
  }

  /** The right edge goes to x = 0 and the left edge to the picture's width; the top edge to y = 0 and the bottom to its height. */
  lemma CornersMirrored(bounds: Box, svg: Dimensions)
    requires Positive(NaturalDimensions(bounds))
    ensures Transform(bounds.bottomRight, bounds, NaturalDimensions(bounds), svg) == Point(0.0, svg.height)
    ensures Transform(bounds.topLeft, bounds, NaturalDimensions(bounds), svg) == Point(svg.width, 0.0)
  {
    var n := NaturalDimensions(bounds);
    TransformClosedForm(bounds.bottomRight, bounds, svg);
    TransformClosedForm(bounds.topLeft, bounds, svg);
    assert n.width / n.width == 1.0 && n.height / n.height == 1.0;
  }

  lemma FractionBetween(a: real, w: real, s: real, v: real)
    requires 0.0 <= a <= w && w > 0.0 && s >= 0.0
    requires v == a / w * s
    ensures 0.0 <= v <= s
  {
    var q := a / w;
    assert q * w == a;
    assert q <= 1.0;
    assert s - q * s == (1.0 - q) * s;
  }

  /** A point inside the bounds lands inside the picture. */
  lemma InsideStaysInside(p: Point, bounds: Box, svg: Dimensions)
    requires Positive(NaturalDimensions(bounds)) && svg.width >= 0.0 && svg.height >= 0.0
    requires bounds.topLeft.x <= p.x <= bounds.bottomRight.x && bounds.topLeft.y <= p.y <= bounds.bottomRight.y
    ensures var r := Transform(p, bounds, NaturalDimensions(bounds), svg);
      0.0 <= r.x <= svg.width && 0.0 <= r.y <= svg.height
  {
    InsideStaysInsideX(p, bounds, svg);
    InsideStaysInsideY(p, bounds, svg);
  }

  /** The mirrored x axis: a point between the left and right edges lands between 0 and the picture's width. */
  lemma InsideStaysInsideX(p: Point, bounds: Box, svg: Dimensions)
    requires Positive(NaturalDimensions(bounds)) && svg.width >= 0.0
    requires bounds.topLeft.x <= p.x <= bounds.bottomRight.x
    ensures 0.0 <= Transform(p, bounds, NaturalDimensions(bounds), svg).x <= svg.width
  {
    var n := NaturalDimensions(bounds);
    var r := Transform(p, bounds, n, svg);
    TransformClosedForm(p, bounds, svg);
    var a := bounds.bottomRight.x - p.x;
    assert 0.0 <= a <= n.width;
    FractionBetween(a, n.width, svg.width, r.x);
  }

  /** The direct y axis: a point between the top and bottom edges lands between 0 and the picture's height. */
  lemma InsideStaysInsideY(p: Point, bounds: Box, svg: Dimensions)
    requires Positive(NaturalDimensions(bounds)) && svg.height >= 0.0
    requires bounds.topLeft.y <= p.y <= bounds.bottomRight.y
    ensures 0.0 <= Transform(p, bounds, NaturalDimensions(bounds), svg).y <= svg.height
  {
    var n := NaturalDimensions(bounds);
    var r := Transform(p, bounds, n, svg);
    TransformClosedForm(p, bounds, svg);
    var a := p.y - bounds.topLeft.y;
    assert 0.0 <= a <= n.height;
    FractionBetween(a, n.height, svg.height, r.y);
  }

  // ---------------------------------------------------------------------------
  // Spawnpoints on the picture

  /** A loose-loot item with the icon of its template, `''` when the template has no metadata. */
  datatype IconItem = IconItem(item: LooseLootItem, icon: string)

  /** `FrontendLooseLootSpawnpoint`. */
  datatype PlacedSpawnpoint = PlacedSpawnpoint(
    position: PointWithHeight,
    probability: real,
    items: seq<IconItem>,
    highlighted: bool,
    svgPosition: Point)

  function IconOf(item: LooseLootItem, catalog: Catalog): (r: IconItem)
    ensures r.item == item
    ensures r.icon == if item.tpl in catalog then catalog[item.tpl].iconLink else ""
  {
    IconItem(item, if item.tpl in catalog then catalog[item.tpl].iconLink else "")
  }

  /** `items.some((item) => selectedItemIds.includes(item.tpl))`. */
  predicate Highlighted(items: seq<LooseLootItem>, selected: seq<string>) {
    exists i :: 0 <= i < |items| && items[i].tpl in selected
  }

  /** The sizes everything hinges on, when all are known: bounds, natural size and fitted size. */
  datatype Geometry = Geometry(bounds: Box, natural: Dimensions, fitted: Dimensions)

  /** The view's inputs yield a usable picture: a measured container and non-degenerate bounds. */
  predicate Drawable(metadata: Option<MapMetadata>, container: Option<Dimensions>) {
    metadata.Some? && container.Some? ==>
      Positive(container.value) && Positive(NaturalDimensions(BoundingPoints(metadata.value.bounds)))
  }

  /** The chain of computed sizes; missing metadata or an unmeasured container leaves nothing. */
  function GeometryOf(metadata: Option<MapMetadata>, container: Option<Dimensions>): (r: Option<Geometry>)
    requires Drawable(metadata, container)
    ensures r.Some? <==> metadata.Some? && container.Some?
    ensures r.Some? ==>
      && r.value.bounds == BoundingPoints(metadata.value.bounds)
      && r.value.natural == NaturalDimensions(r.value.bounds) && Positive(r.value.natural)
      && r.value.fitted == Fit(container.value, r.value.natural)
  {
    if metadata.None? || container.None? then None
    else
      var bounds := BoundingPoints(metadata.value.bounds);
      var natural := NaturalDimensions(bounds);
      Some(Geometry(bounds, natural, Fit(container.value, natural)))
  }

  function Place(sp: LooseLootSpawnpoint, g: Geometry, selected: seq<string>, catalog: Catalog): (r: PlacedSpawnpoint)
    requires Positive(g.natural)
    ensures r.position == sp.position && r.probability == sp.probability
    ensures |r.items| == |sp.items| && forall j :: 0 <= j < |sp.items| ==> r.items[j] == IconOf(sp.items[j], catalog)
    ensures r.highlighted <==> Highlighted(sp.items, selected)
    ensures r.svgPosition == Transform(Point(sp.position.x, sp.position.y), g.bounds, g.natural, g.fitted)
  {
    PlacedSpawnpoint(
      sp.position,
      sp.probability,
      seq(|sp.items|, j requires 0 <= j < |sp.items| => IconOf(sp.items[j], catalog)),
      Highlighted(sp.items, selected),
      Transform(Point(sp.position.x, sp.position.y), g.bounds, g.natural, g.fitted))
  }

  /** `spawnpointsWithPosition`: every spawnpoint placed, or none while any size is unknown. */
  function SpawnpointsWithPosition(
    metadata: Option<MapMetadata>,
    container: Option<Dimensions>,
    spawnpoints: seq<LooseLootSpawnpoint>,
    selected: seq<string>,
    catalog: Catalog
  ): (r: seq<PlacedSpawnpoint>)
    requires Drawable(metadata, container)
    ensures metadata.None? || container.None? ==> r == []
    ensures metadata.Some? && container.Some? ==> |r| == |spawnpoints|
    ensures forall i :: 0 <= i < |r| ==>
      r[i].position == spawnpoints[i].position && r[i].probability == spawnpoints[i].probability
      && (r[i].highlighted <==> exists j :: 0 <= j < |spawnpoints[i].items| && spawnpoints[i].items[j].tpl in selected)
    ensures forall i :: 0 <= i < |r| ==> |r[i].items| == |spawnpoints[i].items|
    ensures metadata.Some? && container.Some? ==>
      forall i :: 0 <= i < |r| ==> r[i] == Place(spawnpoints[i], GeometryOf(metadata, container).value, selected, catalog)
  {
    match GeometryOf(metadata, container)
    case None => []
    case Some(g) =>
      seq(|spawnpoints|, i requires 0 <= i < |spawnpoints| => Place(spawnpoints[i], g, selected, catalog))
  }

  /** A spawnpoint inside the map's bounds is drawn inside the fitted picture. */
  lemma SpawnpointsInsidePicture(
    metadata: Option<MapMetadata>,
    container: Option<Dimensions>,
    spawnpoints: seq<LooseLootSpawnpoint>,
    selected: seq<string>,
    catalog: Catalog,
    i: nat
  )
    requires Drawable(metadata, container) && metadata.Some? && container.Some? && i < |spawnpoints|
    requires var b := BoundingPoints(metadata.value.bounds);
      b.topLeft.x <= spawnpoints[i].position.x <= b.bottomRight.x && b.topLeft.y <= spawnpoints[i].position.y <= b.bottomRight.y
    ensures var g := GeometryOf(metadata, container).value;
      var s := SpawnpointsWithPosition(metadata, container, spawnpoints, selected, catalog)[i].svgPosition;
      0.0 <= s.x <= g.fitted.width && 0.0 <= s.y <= g.fitted.height
  {
    var g := GeometryOf(metadata, container).value;
    var sp := spawnpoints[i];
    InsideStaysInside(Point(sp.position.x, sp.position.y), g.bounds, g.fitted);
  }
}
