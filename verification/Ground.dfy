/** What is drawn as land and what answers a click, in `crates/kubernation/src/draw.rs`:
    `resolve_region` and the painter's test, and `province_land_cell`. The model's own hit test is
    `region_at` and `coast_at` in `crates/kubernation-core/src/state/world.rs`. */
module Ground {
  import opened Prelude
  import opened Coast

  /** The part of a world the pointer can meet: continents, and markers moored off their coasts. */
  datatype World = World(continents: seq<Continent>, markers: set<(int, int)>)

  /** A city, province or continent is named by its place in the model. */
  datatype Region = AtCity(ci: nat, pi: nat, k: nat) | AtProvince(ci: nat, pi: nat) | Elsewhere

  /** The city's own cell and a ring of one cell around it. */
  predicate CityHit(c: City, x: int, y: int) {
    c.x - 1 <= x <= c.x + 1 && c.y - 1 <= y <= c.y + 1
  }

  /** First city on the cell itself. */
  function OwnCell(cities: seq<City>, x: int, y: int, k: nat): (r: Option<nat>)
    requires k <= |cities|
    ensures r.Some? ==> r.value < |cities| && CityHit(cities[r.value], x, y)
    decreases |cities| - k
  {
    if k == |cities| then None else if cities[k] == City(x, y) then Some(k) else OwnCell(cities, x, y, k + 1)
  }

  /** First city whose ring holds the cell. */
  function RingCell(cities: seq<City>, x: int, y: int, k: nat): (r: Option<nat>)
    requires k <= |cities|
    ensures r.Some? ==> r.value < |cities| && CityHit(cities[r.value], x, y)
    decreases |cities| - k
  {
    if k == |cities| then None else if CityHit(cities[k], x, y) then Some(k) else RingCell(cities, x, y, k + 1)
  }

  /** First province of a continent that spans the row. */
  function ProvinceAt(cont: Continent, y: int, pi: nat): (r: Option<nat>)
    requires pi <= |cont.provinces|
    ensures r.Some? ==> r.value < |cont.provinces| && cont.provinces[r.value].Spans(y)
    decreases |cont.provinces| - pi
  {
    if pi == |cont.provinces| then None
    else if cont.provinces[pi].Spans(y) then Some(pi)
    else ProvinceAt(cont, y, pi + 1)
  }

  /** `region_at`, continents only: islands and open sea are `Elsewhere`. */
  function RegionAt(w: World, x: int, y: int, ci: nat): (r: Region)
    requires ci <= |w.continents|
    ensures !r.Elsewhere? ==> ci <= r.ci < |w.continents| && r.pi < |w.continents[r.ci].provinces|
    ensures !r.Elsewhere? ==>
      w.continents[r.ci].SpansColumn(x) && w.continents[r.ci].provinces[r.pi].Spans(y)
    ensures r.AtCity? ==>
      && r.k < |w.continents[r.ci].provinces[r.pi].cities|
      && CityHit(w.continents[r.ci].provinces[r.pi].cities[r.k], x, y)
    decreases |w.continents| - ci
  {
    if ci == |w.continents| then Elsewhere
    else
      var cont := w.continents[ci];
      if !cont.SpansColumn(x) then RegionAt(w, x, y, ci + 1)
      else
        match ProvinceAt(cont, y, 0)
        case None => RegionAt(w, x, y, ci + 1)
        case Some(pi) =>
          var cities := cont.provinces[pi].cities;
          match OwnCell(cities, x, y, 0)
          case Some(k) => AtCity(ci, pi, k)
          case None =>
            match RingCell(cities, x, y, 0)
            case Some(k) => AtCity(ci, pi, k)
            case None => AtProvince(ci, pi)
  }

  /** City number `k` is the first that satisfies `p`. */
  ghost predicate FirstCity(cities: seq<City>, k: nat, p: City -> bool) {
    k < |cities| && p(cities[k]) && forall j :: 0 <= j < k ==> !p(cities[j])
  }

  predicate Near(c: City, x: int, y: int) {
    -1 <= c.x - x <= 1 && -1 <= c.y - y <= 1
  }

  /** What a click must hit in a province: the first city on the very cell, if there is one; otherwise the
      first within a cell of it; and the province itself exactly where no city is that near. */
  ghost predicate HitsFirst(cities: seq<City>, region: Region, ci: nat, pi: nat, x: int, y: int) {
    && (City(x, y) in cities ==>
          region.AtCity? && region.k < |cities| && FirstCity(cities, region.k, c => c == City(x, y)))
    && (City(x, y) !in cities && region.AtCity? ==> FirstCity(cities, region.k, c => Near(c, x, y)))
    && (region.AtProvince? <==> forall c :: c in cities ==> !Near(c, x, y))
    && !region.Elsewhere? && region.ci == ci && region.pi == pi
  }

  lemma {:induction false} OwnCellIsFirst(cities: seq<City>, x: int, y: int, k: nat)
    requires k <= |cities| && forall j :: 0 <= j < k ==> cities[j] != City(x, y)
    ensures var r := OwnCell(cities, x, y, k);
      if r.Some? then FirstCity(cities, r.value, c => c == City(x, y)) else City(x, y) !in cities
    decreases |cities| - k
  {
    if k < |cities| && cities[k] != City(x, y) {
      OwnCellIsFirst(cities, x, y, k + 1);
    }
  }

  lemma {:induction false} RingCellIsFirst(cities: seq<City>, x: int, y: int, k: nat)
    requires k <= |cities| && forall j :: 0 <= j < k ==> !Near(cities[j], x, y)
    ensures var r := RingCell(cities, x, y, k);
      if r.Some? then FirstCity(cities, r.value, c => Near(c, x, y)) else forall c :: c in cities ==> !Near(c, x, y)
    decreases |cities| - k
  {
    if k < |cities| && !Near(cities[k], x, y) {
      RingCellIsFirst(cities, x, y, k + 1);
    }
  }

  /** A cell of a province's rectangle. */
  predicate InRectangle(cont: Continent, pi: nat, x: int, y: int)
    requires pi < |cont.provinces|
  {
    && cont.x <= x < cont.x + cont.w
    && cont.provinces[pi].y <= y < cont.provinces[pi].y + cont.provinces[pi].h
  }

  lemma {:induction false} ProvinceIsFirst(cont: Continent, x: int, y: int, pi: nat)
    requires cont.SpansColumn(x) && pi <= |cont.provinces|
    requires forall j :: 0 <= j < pi ==> !InRectangle(cont, j, x, y)
    ensures var r := ProvinceAt(cont, y, pi);
      if r.Some? then InRectangle(cont, r.value, x, y) && forall j :: 0 <= j < r.value ==> !InRectangle(cont, j, x, y)
      else forall j :: 0 <= j < |cont.provinces| ==> !InRectangle(cont, j, x, y)
    decreases |cont.provinces| - pi
  {
    if pi < |cont.provinces| && !cont.provinces[pi].Spans(y) {
      ProvinceIsFirst(cont, x, y, pi + 1);
    }
  }

  /** No continent before number `n` has a province whose rectangle holds the cell. */
  ghost predicate NoneBefore(w: World, n: nat, x: int, y: int)
    requires n <= |w.continents|
  {
    forall i, j :: 0 <= i < n && 0 <= j < |w.continents[i].provinces| ==> !InRectangle(w.continents[i], j, x, y)
  }

  /** A hit answers for the first rectangle that holds the cell, and within it for the cities in their
      order of precedence; and there is a hit wherever some rectangle holds the cell. */
  lemma {:induction false} RegionIsFirst(w: World, x: int, y: int, from: nat)
    requires from <= |w.continents| && NoneBefore(w, from, x, y)
    ensures var r := RegionAt(w, x, y, from);
      if r.Elsewhere? then NoneBefore(w, |w.continents|, x, y)
      else
        var cont := w.continents[r.ci];
        && InRectangle(cont, r.pi, x, y) && NoneBefore(w, r.ci, x, y)
        && (forall j :: 0 <= j < r.pi ==> !InRectangle(cont, j, x, y))
        && HitsFirst(cont.provinces[r.pi].cities, r, r.ci, r.pi, x, y)
    decreases |w.continents| - from
  {
    if from < |w.continents| {
      var cont := w.continents[from];
      if cont.SpansColumn(x) && ProvinceAt(cont, y, 0).Some? {
        ProvinceIsFirst(cont, x, y, 0);
        HitInProvince(w, x, y, from, ProvinceAt(cont, y, 0).value);
      } else {
        if cont.SpansColumn(x) {
          ProvinceIsFirst(cont, x, y, 0);
        }
        RegionIsFirst(w, x, y, from + 1);
      }
    }
  }

  lemma HitInProvince(w: World, x: int, y: int, ci: nat, pi: nat)
    requires ci < |w.continents| && w.continents[ci].SpansColumn(x) && ProvinceAt(w.continents[ci], y, 0) == Some(pi)
    ensures HitsFirst(w.continents[ci].provinces[pi].cities, RegionAt(w, x, y, ci), ci, pi, x, y)
  {
    var cities := w.continents[ci].provinces[pi].cities;
    OwnCellIsFirst(cities, x, y, 0);
    RingCellIsFirst(cities, x, y, 0);
    assert City(x, y) in cities ==> Near(City(x, y), x, y);
  }

  datatype Resolved = Marker | OnRegion(region: Region) | Ocean

  /** What the pointer is over, once sea inside a province's rectangle is told from land. */
  function Resolve(w: World, coasts: seq<Coastline>, fnv: Fnv, x: int, y: int): Resolved
    requires |coasts| == |w.continents| && forall i :: 0 <= i < |coasts| ==> coasts[i].Valid()
  {
    if (x, y) in w.markers then Marker
    else
      var region := RegionAt(w, x, y, 0);
      if region.AtProvince? then
        var cont := w.continents[region.ci];
        var (li, span) := coasts[region.ci].LandSpan(fnv, y, cont.w as real);
        var rel := (x - cont.x) as real;
        if rel < li || rel >= li + span then Ocean else OnRegion(region)
      else OnRegion(region)
  }

  /** A marker answers wherever one is moored, cities and what is no continent answer for themselves, and
      only a province's cell can turn out to be sea. */
  lemma ResolvesTo(w: World, coasts: seq<Coastline>, fnv: Fnv, x: int, y: int)
    requires |coasts| == |w.continents| && forall i :: 0 <= i < |coasts| ==> coasts[i].Valid()
    ensures var r, region := Resolve(w, coasts, fnv, x, y), RegionAt(w, x, y, 0);
      && (r == Marker <==> (x, y) in w.markers)
      && ((x, y) !in w.markers && !region.AtProvince? ==> r == OnRegion(region))
      && (r == Ocean ==> region.AtProvince?)
      && (r.OnRegion? ==> r.region == region)
  {
  }

  /** The painter's test for one cell of a province: row by row, the columns between the insets. */
  predicate Painted(p: Province, coast: Coastline, fnv: Fnv, wx: int, wy: int)
    requires coast.Valid()
  {
    p.Spans(wy) && p.x <= wx < p.x + p.w &&
    var (li, ri) := coast.Insets(fnv, wy);
    var rel := (wx - p.x) as real;
    !(rel < li || rel >= p.w as real - ri)
  }

  /** The two land tests accept the same columns, also where the insets overlap. */
  lemma LandTestsAgree(li: real, ri: real, w: real, rel: real)
    requires 0.0 <= li && 0.0 <= ri
    ensures (rel < li || rel >= w - ri) <==> (rel < li || rel >= li + RMax(w - li - ri, 0.0))
  {
  }

  ghost predicate WorldOk(w: World, coasts: seq<Coastline>, fnv: Fnv) {
    && |coasts| == |w.continents|
    && forall i :: 0 <= i < |coasts| ==> w.continents[i].WellPlaced() && IsCoastOf(w.continents[i], coasts[i], fnv)
  }

  /** A cell of a province's rectangle answers as land exactly when it is painted as land. */
  lemma ClickableIsPainted(w: World, coasts: seq<Coastline>, fnv: Fnv, x: int, y: int)
    requires WorldOk(w, coasts, fnv) && (x, y) !in w.markers
    ensures var region := RegionAt(w, x, y, 0);
      !region.Elsewhere? ==>
        (Resolve(w, coasts, fnv, x, y) == OnRegion(region) <==>
         Painted(w.continents[region.ci].provinces[region.pi], coasts[region.ci], fnv, x, y))
  {
    hide Coastline.Insets, IsCoastOf;
    var region := RegionAt(w, x, y, 0);
    if !region.Elsewhere? {
      var cont := w.continents[region.ci];
      var p := cont.provinces[region.pi];
      assert p in cont.provinces;
      CoastIsValid(cont, coasts[region.ci], fnv);
      var (li, ri) := coasts[region.ci].Insets(fnv, y);
      InsetsAreBounded(coasts[region.ci], fnv, y);
      LandTestsAgree(li, ri, cont.w as real, (x - cont.x) as real);
      if region.AtCity? {
        var c := p.cities[region.k];
        SettlementOnDryLand(cont, coasts[region.ci], fnv, p, c, y, x - cont.x);
      }
    }
  }

  lemma CoastIsValid(cont: Continent, coast: Coastline, fnv: Fnv)
    requires IsCoastOf(cont, coast, fnv)
    ensures coast.Valid() && coast.y0 == cont.y
    ensures forall p :: p in cont.provinces ==> p.y + p.h <= coast.y0 + coast.h
  {
  }

  // ---- A province's own land cell ------------------------------------------

  /** The cell the view derives for a province: the middle of the land on its middle row. */
  function ProvinceLandCell(cont: Continent, p: Province, coast: Coastline, fnv: Fnv): Option<(int, int)>
    requires coast.Valid()
  {
    var midY := p.y + p.h / 2;
    var (li, span) := coast.LandSpan(fnv, midY, cont.w as real);
    if span > 0.0 then Some((cont.x + (li + span * 0.5).Floor, midY)) else None
  }

  predicate ColumnIn(col: int, lo: real, hi: real) {
    lo <= col as real <= hi
  }

  ghost predicate HasColumn(lo: real, hi: real) {
    exists col :: ColumnIn(col, lo, hi)
  }

  lemma FloorIsLastColumn(lo: real, hi: real)
    ensures HasColumn(lo, hi) <==> lo <= hi.Floor as real
  {
    if lo <= hi.Floor as real {
      assert ColumnIn(hi.Floor, lo, hi);
    }
    if HasColumn(lo, hi) {
      var col :| ColumnIn(col, lo, hi);
      assert col <= hi.Floor;
    }
  }

  /** Some whole column lies in the western half of the land on a row. */
  ghost predicate WesternHalfHasColumn(coast: Coastline, fnv: Fnv, row: int, w: real)
    requires coast.Valid()
  {
    var (li, span) := coast.LandSpan(fnv, row, w);
    HasColumn(li, li + span * 0.5)
  }

  /** The derived cell passes the province's own land test exactly when the western half of its
      row's land contains a whole column, which two cells of land always do. */
  lemma LandCellIsLand(cont: Continent, p: Province, coast: Coastline, fnv: Fnv)
    requires coast.Valid() && ProvinceLandCell(cont, p, coast, fnv).Some?
    ensures var ((x, y), w) := (ProvinceLandCell(cont, p, coast, fnv).value, cont.w as real);
      && (OnLand(coast, fnv, y, w, x - cont.x) <==> WesternHalfHasColumn(coast, fnv, y, w))
      && (coast.LandSpan(fnv, y, w).1 >= 2.0 ==> OnLand(coast, fnv, y, w, x - cont.x))
  {
    hide Coastline.Insets;
    var (x, y) := ProvinceLandCell(cont, p, coast, fnv).value;
    var (li, span) := coast.LandSpan(fnv, y, cont.w as real);
    assert x - cont.x == (li + span * 0.5).Floor;
    FloorIsLastColumn(li, li + span * 0.5);
  }

  lemma ConstantNoise(fnv: Fnv)
    requires forall s :: fnv(s) == 500
    ensures VNoise(fnv, 500, 0.0) == 0.05
  {
    assert Hash01(fnv, 500, 0) == 0.05 && Hash01(fnv, 500, 1) == 0.05;
  }

  const ISLET: Continent := Continent("z", 0, 0, 1, [Province(0, 0, 1, 1, [])], [])
  const ISLET_COAST: Coastline := Coastline(500, 500, 0, 1, [BIG], [BIG])

  lemma IsletCoast(fnv: Fnv)
    requires forall s :: fnv(s) == 500
    ensures IsCoastOf(ISLET, ISLET_COAST, fnv)
  {
  }

  lemma NoTaper()
    ensures ISLET_COAST.Taper(0) == 0.0
  {
  }

  lemma IsletInsets(fnv: Fnv)
    requires forall s :: fnv(s) == 500
    ensures ISLET_COAST.Insets(fnv, 0) == (0.25, 0.25)
  {
    hide VNoise, Coastline.Taper;
    ConstantNoise(fnv);
    NoTaper();
  }

  /** Width is needed: the arithmetic alone lets the cell miss. On an island one cell wide, and with
      a hash that is 500 everywhere, there is half a cell of land that starts a quarter of a cell in.
      Neither is what the program has; in the worlds it builds the cell does not miss. */
  lemma LandCellCanMiss(fnv: Fnv)
    requires forall s :: fnv(s) == 500
    ensures IsCoastOf(ISLET, ISLET_COAST, fnv)
    ensures ProvinceLandCell(ISLET, ISLET.provinces[0], ISLET_COAST, fnv) == Some((0, 0))
    ensures !OnLand(ISLET_COAST, fnv, 0, 1.0, 0)
  {
    IsletCoast(fnv);
    IsletInsets(fnv);
    hide Coastline.Insets, IsCoastOf;
  }

  /** On a continent at least 22 cells wide it never does, whatever the hash: provinces are at least
      3 rows tall, so the middle row is off the capes' last row and keeps more than two cells of
      land. The derived cell then resolves back to the province, as itself or one of its cities,
      unless a marker is moored there. Built continents are 26 cells wide. */
  lemma LandCellResolvesBack(w: World, coasts: seq<Coastline>, fnv: Fnv, ci: nat, pi: nat)
    requires WorldOk(w, coasts, fnv) && ci < |w.continents| && pi < |w.continents[ci].provinces|
    requires w.continents[ci].w >= 22 && w.continents[ci].provinces[pi].h >= 3
    requires RowsDisjoint(w.continents[ci]) && ColumnsDisjoint(w)
    ensures var (cont, p) := (w.continents[ci], w.continents[ci].provinces[pi]);
      var cell := ProvinceLandCell(cont, p, coasts[ci], fnv);
      && cell.Some? && OnLand(coasts[ci], fnv, cell.value.1, cont.w as real, cell.value.0 - cont.x)
      && (cell.value !in w.markers ==>
            var r := Resolve(w, coasts, fnv, cell.value.0, cell.value.1);
            r.OnRegion? && !r.region.Elsewhere? && r.region.ci == ci && r.region.pi == pi)
  {
    hide Coastline.Insets, IsCoastOf;
    var cont := w.continents[ci];
    var p := cont.provinces[pi];
    var coast := coasts[ci];
    CoastIsValid(cont, coast, fnv);
    assert p in cont.provinces;
    var midY := p.y + p.h / 2;
    MiddleRowIsWide(cont, p, coast, fnv);
    LandCellIsLand(cont, p, coast, fnv);
    var (x, y) := ProvinceLandCell(cont, p, coast, fnv).value;
    InsetsAreBounded(coast, fnv, y);
    assert cont.x <= x < cont.x + cont.w && y == midY;
    RegionIsProvince(w, ci, pi, x, y, 0);
  }

  ghost predicate RowsDisjoint(cont: Continent) {
    forall i, j, y :: 0 <= i < j < |cont.provinces| ==>
      !(cont.provinces[i].Spans(y) && cont.provinces[j].Spans(y))
  }

  ghost predicate ColumnsDisjoint(w: World) {
    forall i, j, x :: 0 <= i < j < |w.continents| ==>
      !(w.continents[i].SpansColumn(x) && w.continents[j].SpansColumn(x))
  }

  lemma MiddleRowIsWide(cont: Continent, p: Province, coast: Coastline, fnv: Fnv)
    requires coast.Valid() && coast.y0 == cont.y <= p.y && p.y + p.h <= coast.y0 + coast.h && p.h >= 3 && cont.w >= 22
    ensures coast.LandSpan(fnv, p.y + p.h / 2, cont.w as real).1 >= 2.4
  {
    hide Coastline.Insets;
    var midY := p.y + p.h / 2;
    var ry := Min(Max(midY - coast.y0, 0), coast.h - 1);
    InsetsAreBounded(coast, fnv, midY);
    assert 1 <= ry <= coast.h - 2;
    assert coast.Taper(ry) <= 4.8;
  }

  lemma {:induction false} ProvinceFound(cont: Continent, pi: nat, y: int, from: nat)
    requires RowsDisjoint(cont) && from <= pi < |cont.provinces| && cont.provinces[pi].Spans(y)
    ensures ProvinceAt(cont, y, from) == Some(pi)
    decreases pi - from
  {
    if from < pi {
      ProvinceFound(cont, pi, y, from + 1);
    }
  }

  lemma {:induction false} RegionIsProvince(w: World, ci: nat, pi: nat, x: int, y: int, from: nat)
    requires ColumnsDisjoint(w) && from <= ci < |w.continents| && pi < |w.continents[ci].provinces|
      && RowsDisjoint(w.continents[ci])
    requires w.continents[ci].SpansColumn(x) && w.continents[ci].provinces[pi].Spans(y)
    ensures var r := RegionAt(w, x, y, from); !r.Elsewhere? && r.ci == ci && r.pi == pi
    decreases ci - from
  {
    if from < ci {
      RegionIsProvince(w, ci, pi, x, y, from + 1);
    } else {
      ProvinceFound(w.continents[ci], pi, y, 0);
    }
  }
}
