/** The procedural coastline of `crates/kubernation/src/draw.rs`: `vnoise`, `Coast::new` with its
    per-city keep-out, `insets` and `land_span`. */
module Coast {
  import opened Prelude

  // ---- Value noise ---------------------------------------------------------

  /** The string hash, `fnv1a64`. Nothing below depends on which one it is. */
  type Fnv = string -> nat

  function Decimal(n: int): string {
    if n < 0 then "-" + Digits(-n) else Digits(n)
  }

  function Hash01(fnv: Fnv, seed: nat, n: int): (r: real)
    ensures 0.0 <= r < 1.0
  {
    (fnv(Digits(seed) + ":" + Decimal(n)) % 10000) as real / 10000.0
  }

  const MAX_INSET: real := 5.0
  const COAST_PERIOD: real := 5.0

  function Smooth(f: real): real {
    f * f * (3.0 - 2.0 * f)
  }

  function Blend(a: real, b: real, u: real): real {
    a + (b - a) * u
  }

  function VNoise(fnv: Fnv, seed: nat, t: real): real {
    var x := t / COAST_PERIOD;
    var i := x.Floor;
    Blend(Hash01(fnv, seed, i), Hash01(fnv, seed, i + 1), Smooth(x - i as real))
  }

  lemma SmoothIsUnit(f: real)
    requires 0.0 <= f < 1.0
    ensures 0.0 <= Smooth(f) <= 1.0
  {
    Product(f, f);
    Product(1.0 - f, 1.0 - f);
    Product(f * f, 3.0 - 2.0 * f);
    Product((1.0 - f) * (1.0 - f), 1.0 + 2.0 * f);
    assert 1.0 - Smooth(f) == ((1.0 - f) * (1.0 - f)) * (1.0 + 2.0 * f);
  }

  lemma Product(a: real, b: real)
    requires a >= 0.0 && b >= 0.0
    ensures a * b >= 0.0
  {
  }

  lemma BlendIsBetween(a: real, b: real, u: real)
    requires 0.0 <= a <= 1.0 && 0.0 <= b <= 1.0 && 0.0 <= u <= 1.0
    ensures 0.0 <= Blend(a, b, u) <= 1.0
  {
    Product(a, 1.0 - u);
    Product(b, u);
    Product(1.0 - a, 1.0 - u);
    Product(1.0 - b, u);
    assert Blend(a, b, u) == a * (1.0 - u) + b * u;
    assert 1.0 - Blend(a, b, u) == (1.0 - a) * (1.0 - u) + (1.0 - b) * u;
  }

  lemma VNoiseIsUnit(fnv: Fnv, seed: nat, t: real)
    ensures 0.0 <= VNoise(fnv, seed, t) <= 1.0
  {
    var x := t / COAST_PERIOD;
    SmoothIsUnit(x - x.Floor as real);
    BlendIsBetween(Hash01(fnv, seed, x.Floor), Hash01(fnv, seed, x.Floor + 1), Smooth(x - x.Floor as real));
  }

  /** The last four decimal digits of a hash, as a fraction. */
  lemma HashIsAFraction(fnv: Fnv)
    requires fnv("7:-12") % 10000 == 2345 && fnv("40:0") % 10000 == 9
    ensures Hash01(fnv, 7, -12) == 0.2345 && Hash01(fnv, 40, 0) == 0.0009
  {
    assert Digits(7) == "7" && Digits(12) == "12" && Digits(40) == "40" && Digits(0) == "0";
    assert Decimal(-12) == "-12" && Decimal(0) == "0";
    assert "7" + ":" + "-12" == "7:-12" && "40" + ":" + "0" == "40:0";
  }

  /** Every five rows the noise is a hash, and in between a smooth step from one to the next: `f` of the
      way it has gone 3f^2 - 2f^3 of the difference. */
  lemma NoiseBetweenHashes(fnv: Fnv, seed: nat, i: int, f: real)
    requires 0.0 <= f < 1.0
    ensures var a, b := Hash01(fnv, seed, i), Hash01(fnv, seed, i + 1);
      VNoise(fnv, seed, 5.0 * (i as real + f)) == a + (b - a) * (3.0 * (f * f) - 2.0 * (f * f * f))
  {
    hide VNoise, Hash01;
    NoiseAt(fnv, seed, i, f);
    Cubic(f);
  }

  lemma Cubic(f: real)
    ensures Smooth(f) == 3.0 * (f * f) - 2.0 * (f * f * f)
  {
    var g := f * f;
    assert g * (3.0 - 2.0 * f) == 3.0 * g - 2.0 * (g * f);
  }

  lemma NoiseAt(fnv: Fnv, seed: nat, i: int, f: real)
    requires 0.0 <= f < 1.0
    ensures VNoise(fnv, seed, 5.0 * (i as real + f)) == Blend(Hash01(fnv, seed, i), Hash01(fnv, seed, i + 1), Smooth(f))
  {
    assert 5.0 * (i as real + f) / COAST_PERIOD == i as real + f;
    assert (i as real + f).Floor == i;
  }

  // ---- The model's ground --------------------------------------------------

  datatype City = City(x: int, y: int)
  datatype Province = Province(x: int, y: int, w: int, h: int, cities: seq<City>) {
    predicate Spans(row: int) {
      y <= row < y + h
    }
  }
  datatype Ghost = Ghost(y: int, h: int)
  datatype Continent = Continent(zone: string, x: int, y: int, w: nat, provinces: seq<Province>, ghosts: seq<Ghost>) {

    predicate SpansColumn(col: int) {
      x <= col < x + w
    }

    ghost predicate HasCity(c: City) {
      exists p :: p in provinces && c in p.cities
    }

    /** What the world builder guarantees: provinces start no further north than the continent
        and share its columns, and a city stands in its own province. */
    ghost predicate WellPlaced() {
      forall p :: p in provinces ==>
        && y <= p.y && 0 < p.h && p.x == x && p.w == w
        && (forall c :: c in p.cities ==> p.Spans(c.y) && SpansColumn(c.x))
    }
  }

  const CITY_MARGIN: int := 4

  function LeftCap(cont: Continent, c: City): real {
    Max(c.x - cont.x - CITY_MARGIN, 0) as real
  }

  function RightCap(cont: Continent, c: City): real {
    Max(cont.w - 1 - (c.x - cont.x + CITY_MARGIN), 0) as real
  }

  /** The rows a settlement's sprite and name plate touch. */
  predicate Touches(cont: Continent, c: City, ry: int) {
    c.y - cont.y - 1 <= ry <= c.y - cont.y + 2
  }

  // ---- The coastline -------------------------------------------------------

  datatype Coastline = Coastline(seedL: nat, seedR: nat, y0: int, h: int, maxL: seq<real>, maxR: seq<real>) {
    predicate Valid() {
      1 <= h == |maxL| == |maxR|
    }

    /** The row just past the southern end, where reserved ground stops. */
    function Bottom(): nat {
      Max(y0 + h, 0)
    }

    /** (left inset, right inset) in cells for a world row. */
    function Insets(fnv: Fnv, absRow: int): (real, real)
      requires Valid()
    {
      var ry := Min(Max(absRow - y0, 0), h - 1);
      var arow := Min(Max(absRow, y0), y0 + h - 1);
      var taper := Taper(ry);
      var l := VNoise(fnv, seedL, arow as real) * MAX_INSET + taper;
      var r := VNoise(fnv, seedR, arow as real) * MAX_INSET + taper;
      (RMax(RMin(l, maxL[ry]), 0.0), RMax(RMin(r, maxR[ry]), 0.0))
    }

    /** The capes at the north and south ends. */
    function Taper(ry: int): real
      requires Valid() && 0 <= ry < h
    {
      var cap := Min(h / 4, 3);
      var end := Min(ry, h - 1 - ry);
      Max(cap - Min(end, cap), 0) as real * 2.4
    }

    /** Land span (start, width) in cells for a world row. */
    function LandSpan(fnv: Fnv, absRow: int, w: real): (real, real)
      requires Valid()
    {
      var (li, ri) := Insets(fnv, absRow);
      (li, RMax(w - li - ri, 0.0))
    }
  }

  /** The capes: none on a continent less than four rows tall, and on taller ones one more row of cape,
      up to three, for every four rows; each row further in is 2.4 cells less, from both ends alike. */
  lemma CapesAre(coast: Coastline, ry: int)
    requires coast.Valid() && 0 <= ry < coast.h
    ensures coast.Taper(ry) == coast.Taper(coast.h - 1 - ry)
    ensures coast.Taper(0) ==
      if coast.h < 4 then 0.0 else if coast.h < 8 then 2.4 else if coast.h < 12 then 4.8 else 7.2
    ensures 2 * ry < coast.h - 2 ==> coast.Taper(ry + 1) == RMax(coast.Taper(ry) - 2.4, 0.0)
  {
  }

  /** An inset is the noise of the row, five cells wide, and the cape, up to what the cities of the row
      allow; rows past an end have the inset of the end. */
  lemma InsetsAre(coast: Coastline, fnv: Fnv, row: int)
    requires coast.Valid()
    ensures var bottom := coast.y0 + coast.h;
      var y := if row < coast.y0 then coast.y0 else if row < bottom then row else bottom - 1;
      var ry := y - coast.y0;
      var l := 5.0 * VNoise(fnv, coast.seedL, y as real) + coast.Taper(ry);
      var r := 5.0 * VNoise(fnv, coast.seedR, y as real) + coast.Taper(ry);
      && (l <= coast.maxL[ry] ==> coast.Insets(fnv, row).0 == l)
      && (0.0 <= coast.maxL[ry] < l ==> coast.Insets(fnv, row).0 == coast.maxL[ry])
      && (r <= coast.maxR[ry] ==> coast.Insets(fnv, row).1 == r)
      && (0.0 <= coast.maxR[ry] < r ==> coast.Insets(fnv, row).1 == coast.maxR[ry])
  {
    var y := Min(Max(row, coast.y0), coast.y0 + coast.h - 1);
    VNoiseIsUnit(fnv, coast.seedL, y as real);
    VNoiseIsUnit(fnv, coast.seedR, y as real);
    hide VNoise;
  }

  /** Where no city caps them, the end rows of a continent at least 12 rows tall are inset by at least
      7.2 cells on either side. */
  lemma EndsAreCapes(coast: Coastline, fnv: Fnv, row: int)
    requires coast.Valid() && coast.h >= 12 && (row <= coast.y0 || row >= coast.y0 + coast.h - 1)
    requires var ry := if row <= coast.y0 then 0 else coast.h - 1; coast.maxL[ry] >= 12.2 && coast.maxR[ry] >= 12.2
    ensures coast.Insets(fnv, row).0 >= 7.2 && coast.Insets(fnv, row).1 >= 7.2
  {
    hide VNoise, Coastline.Insets;
    var y := Min(Max(row, coast.y0), coast.y0 + coast.h - 1);
    VNoiseIsUnit(fnv, coast.seedL, y as real);
    VNoiseIsUnit(fnv, coast.seedR, y as real);
    CapesAre(coast, y - coast.y0);
    InsetsAre(coast, fnv, row);
  }

  /** A city's caps: an inset that keeps to them leaves the city's column, with four columns on either
      side as far as the continent reaches, on land. */
  lemma CapsKeepFour(cont: Continent, c: City)
    requires cont.SpansColumn(c.x)
    ensures LeftCap(cont, c) == if c.x - cont.x >= 4 then (c.x - cont.x - 4) as real else 0.0
    ensures RightCap(cont, c) ==
      if cont.x + cont.w - 1 - c.x >= 4 then (cont.x + cont.w - 1 - c.x - 4) as real else 0.0
  {
  }

  const BIG: real := MAX_INSET + 100.0

  /** `v` is the least of the caps that touching cities put on a row, or the default. */
  ghost predicate TightCap(cont: Continent, ry: int, v: real, cap: City -> real) {
    && (forall c :: cont.HasCity(c) && Touches(cont, c, ry) ==> v <= cap(c))
    && (v == BIG || exists c :: cont.HasCity(c) && Touches(cont, c, ry) && v == cap(c))
    && v <= BIG
  }

  /** The row span: from the continent's first row to the furthest bottom of any province or ghost. */
  ghost predicate SpansRows(cont: Continent, h: int) {
    && (forall p :: p in cont.provinces ==> p.y + p.h - cont.y <= h)
    && (forall g :: g in cont.ghosts ==> g.y + g.h - cont.y <= h)
    && h >= 1
    && (h == 1 || (exists p :: p in cont.provinces && h == p.y + p.h - cont.y)
        || (exists g :: g in cont.ghosts && h == g.y + g.h - cont.y))
  }

  ghost predicate IsCoastOf(cont: Continent, coast: Coastline, fnv: Fnv) {
    && coast.Valid() && coast.y0 == cont.y && SpansRows(cont, coast.h)
    && coast.seedL == fnv(cont.zone + "~west") && coast.seedR == fnv(cont.zone + "~east")
    && (forall ry :: 0 <= ry < coast.h ==> TightCap(cont, ry, coast.maxL[ry], c => LeftCap(cont, c)))
    && (forall ry :: 0 <= ry < coast.h ==> TightCap(cont, ry, coast.maxR[ry], c => RightCap(cont, c)))
  }

  /** The caps of a row when only the cities in `seen` have been looked at. */
  ghost predicate CappedBy(cont: Continent, ry: int, v: real, cap: City -> real, seen: set<City>) {
    && (forall c :: c in seen && Touches(cont, c, ry) ==> v <= cap(c))
    && (v == BIG || exists c :: c in seen && Touches(cont, c, ry) && v == cap(c))
    && v <= BIG
  }

  ghost predicate AllCapped(cont: Continent, maxes: seq<real>, cap: City -> real, seen: set<City>) {
    forall ry :: 0 <= ry < |maxes| ==> CappedBy(cont, ry, maxes[ry], cap, seen)
  }

  /** `(r).min(cap)` on the rows a city touches, the others as they were. */
  ghost predicate Lowered(cont: Continent, before: seq<real>, after: seq<real>, c: City, v: real) {
    && |after| == |before|
    && forall ry :: 0 <= ry < |before| ==> after[ry] == if Touches(cont, c, ry) then RMin(before[ry], v) else before[ry]
  }

  lemma LowerOne(cont: Continent, before: seq<real>, after: seq<real>, cap: City -> real, seen: set<City>, c: City)
    requires AllCapped(cont, before, cap, seen) && Lowered(cont, before, after, c, cap(c))
    ensures AllCapped(cont, after, cap, seen + {c})
  {
    forall ry | 0 <= ry < |after|
      ensures CappedBy(cont, ry, after[ry], cap, seen + {c})
    {
      assert CappedBy(cont, ry, before[ry], cap, seen);
      if after[ry] == before[ry] && before[ry] != BIG {
        var d :| d in seen && Touches(cont, d, ry) && before[ry] == cap(d);
        assert d in seen + {c};
      }
    }
  }

  /** `Coast::new`: the row span, then every city pulling the shore back around itself. */
  method NewCoast(cont: Continent, fnv: Fnv) returns (coast: Coastline)
    ensures IsCoastOf(cont, coast, fnv)
  {
    hide AllCapped, SpansRows, Touches, Lowered, CitiesOf, CitiesIn, TightCap;
    NoCities();
    var h := RowSpan(cont);
    assert h >= 1 by { SpanPositive(cont, h); }
    var big := MAX_INSET + 100.0;
    var maxL, maxR := new real[h](_ => big), new real[h](_ => big);
    ghost var capL, capR := (c: City) => LeftCap(cont, c), (c: City) => RightCap(cont, c);
    ghost var seen: set<City> := {};
    NothingCapped(cont, maxL[..], capL);
    NothingCapped(cont, maxR[..], capR);
    for i := 0 to |cont.provinces|
      invariant AllCapped(cont, maxL[..], capL, seen) && AllCapped(cont, maxR[..], capR, seen)
      invariant seen == CitiesOf(cont.provinces[..i])
    {
      var p := cont.provinces[i];
      assert cont.provinces[..i + 1] == cont.provinces[..i] + [p];
      ghost var before := seen;
      for k := 0 to |p.cities|
        invariant AllCapped(cont, maxL[..], capL, seen) && AllCapped(cont, maxR[..], capR, seen)
        invariant seen == before + CitiesIn(p.cities[..k])
      {
        var c := p.cities[k];
        assert p.cities[..k + 1] == p.cities[..k] + [c];
        CitiesInSnoc(p.cities[..k], c);
        ghost var (wasL, wasR) := (maxL[..], maxR[..]);
        KeepInland(cont, c, maxL, maxR);
        LowerOne(cont, wasL, maxL[..], capL, seen, c);
        LowerOne(cont, wasR, maxR[..], capR, seen, c);
        seen := seen + {c};
      }
      assert p.cities[..|p.cities|] == p.cities;
      CitiesOfSnoc(cont.provinces[..i], p);
    }
    assert cont.provinces[..|cont.provinces|] == cont.provinces;
    coast := Coastline(fnv(cont.zone + "~west"), fnv(cont.zone + "~east"), cont.y, h, maxL[..], maxR[..]);
    AllSeen(cont, coast.maxL, capL, seen);
    AllSeen(cont, coast.maxR, capR, seen);
  }

  ghost function CitiesIn(cities: seq<City>): set<City> {
    set c | c in cities
  }

  ghost function CitiesOf(provinces: seq<Province>): set<City> {
    set p, c | p in provinces && c in p.cities :: c
  }

  lemma NoCities()
    ensures CitiesIn([]) == {} && CitiesOf([]) == {}
  {
  }

  lemma CitiesInSnoc(cities: seq<City>, c: City)
    ensures CitiesIn(cities + [c]) == CitiesIn(cities) + {c}
  {
  }

  lemma CitiesOfSnoc(provinces: seq<Province>, p: Province)
    ensures CitiesOf(provinces + [p]) == CitiesOf(provinces) + CitiesIn(p.cities)
  {
    forall c
      ensures c in CitiesOf(provinces + [p]) <==> c in CitiesOf(provinces) + CitiesIn(p.cities)
    {
      if c in CitiesOf(provinces) {
        var q :| q in provinces && c in q.cities;
        assert q in provinces + [p];
      }
      if c in p.cities {
        assert p in provinces + [p];
      }
    }
  }

  lemma SpanPositive(cont: Continent, h: int)
    requires SpansRows(cont, h)
    ensures h >= 1
  {
  }

  lemma NothingCapped(cont: Continent, maxes: seq<real>, cap: City -> real)
    requires forall ry :: 0 <= ry < |maxes| ==> maxes[ry] == BIG
    ensures AllCapped(cont, maxes, cap, {})
  {
  }

  lemma AllSeen(cont: Continent, maxes: seq<real>, cap: City -> real, seen: set<City>)
    requires AllCapped(cont, maxes, cap, seen) && seen == CitiesOf(cont.provinces)
    ensures forall ry :: 0 <= ry < |maxes| ==> TightCap(cont, ry, maxes[ry], cap)
  {
    assert forall c :: c in seen <==> cont.HasCity(c);
    forall ry | 0 <= ry < |maxes|
      ensures TightCap(cont, ry, maxes[ry], cap)
    {
      assert CappedBy(cont, ry, maxes[ry], cap, seen);
    }
  }

  /** The innermost loop: rows ly - 1 to ly + 2 of both arrays, those inside the window. */
  method KeepInland(cont: Continent, c: City, maxL: array<real>, maxR: array<real>)
    requires maxL != maxR && maxL.Length == maxR.Length
    modifies maxL, maxR
    ensures Lowered(cont, old(maxL[..]), maxL[..], c, LeftCap(cont, c))
    ensures Lowered(cont, old(maxR[..]), maxR[..], c, RightCap(cont, c))
  {
    var ly := c.y - cont.y;
    var ry := ly - 1;
    while ry <= ly + 2
      invariant ly - 1 <= ry <= ly + 3
      invariant forall k :: 0 <= k < maxL.Length ==>
        maxL[k] == if ly - 1 <= k < ry then RMin(old(maxL[k]), LeftCap(cont, c)) else old(maxL[k])
      invariant forall k :: 0 <= k < maxR.Length ==>
        maxR[k] == if ly - 1 <= k < ry then RMin(old(maxR[k]), RightCap(cont, c)) else old(maxR[k])
    {
      if 0 <= ry < maxL.Length {
        maxL[ry] := RMin(maxL[ry], LeftCap(cont, c));
        maxR[ry] := RMin(maxR[ry], RightCap(cont, c));
      }
      ry := ry + 1;
    }
  }

  /** `max` over the bottoms, at least 1. */
  method RowSpan(cont: Continent) returns (h: int)
    ensures SpansRows(cont, h)
  {
    h := 1;
    for i := 0 to |cont.provinces|
      invariant h >= 1 && forall k :: 0 <= k < i ==> cont.provinces[k].y + cont.provinces[k].h - cont.y <= h
      invariant h == 1 || exists p :: p in cont.provinces && h == p.y + p.h - cont.y
    {
      h := Max(h, cont.provinces[i].y + cont.provinces[i].h - cont.y);
    }
    ghost var tall := h;
    for i := 0 to |cont.ghosts|
      invariant h >= tall && forall k :: 0 <= k < i ==> cont.ghosts[k].y + cont.ghosts[k].h - cont.y <= h
      invariant h == tall || exists g :: g in cont.ghosts && h == g.y + g.h - cont.y
    {
      h := Max(h, cont.ghosts[i].y + cont.ghosts[i].h - cont.y);
    }
  }

  // ---- What the coastline promises -----------------------------------------

  /** All insets lie between 0 and MAX_INSET plus the cape's 2.4 cells a row. */
  lemma InsetsAreBounded(coast: Coastline, fnv: Fnv, absRow: int)
    requires coast.Valid()
    ensures var ((l, r), ry) := (coast.Insets(fnv, absRow), Min(Max(absRow - coast.y0, 0), coast.h - 1));
      && 0.0 <= l <= MAX_INSET + coast.Taper(ry) <= MAX_INSET + 7.2
      && 0.0 <= r <= MAX_INSET + coast.Taper(ry)
      && l <= RMax(coast.maxL[ry], 0.0) && r <= RMax(coast.maxR[ry], 0.0)
  {
    hide VNoise;
    var arow := Min(Max(absRow, coast.y0), coast.y0 + coast.h - 1);
    VNoiseIsUnit(fnv, coast.seedL, arow as real);
    VNoiseIsUnit(fnv, coast.seedR, arow as real);
  }

  /** A shore is a local fact: away from both ends, a row's insets depend only on the zone, the
      world row and the cities that cap it, so a departure can reshape nothing but the ends. */
  lemma ShoreIsLocal(a: Coastline, b: Coastline, fnv: Fnv, row: int)
    requires a.Valid() && b.Valid() && a.seedL == b.seedL && a.seedR == b.seedR
    requires a.y0 + 3 <= row < a.y0 + a.h - 3 && b.y0 + 3 <= row < b.y0 + b.h - 3
    requires a.maxL[row - a.y0] == b.maxL[row - b.y0] && a.maxR[row - a.y0] == b.maxR[row - b.y0]
    ensures a.Insets(fnv, row) == b.Insets(fnv, row)
  {
    hide VNoise;
    assert a.Taper(row - a.y0) == b.Taper(row - b.y0) == 0.0;
  }

  /** The same, for continents: cities on rows the two share cap them alike. */
  lemma DepartureKeepsShore(before: Continent, after: Continent, a: Coastline, b: Coastline, fnv: Fnv, row: int)
    requires IsCoastOf(before, a, fnv) && IsCoastOf(after, b, fnv)
    requires before.zone == after.zone && before.x == after.x && before.w == after.w
    requires a.y0 + 3 <= row < a.y0 + a.h - 3 && b.y0 + 3 <= row < b.y0 + b.h - 3
    requires forall c: City :: c.y - 1 <= row <= c.y + 2 ==> (before.HasCity(c) <==> after.HasCity(c))
    ensures a.Insets(fnv, row) == b.Insets(fnv, row)
    ensures a.LandSpan(fnv, row, before.w as real) == b.LandSpan(fnv, row, after.w as real)
  {
    hide Coastline.Insets, TightCap;
    SameCap(before, after, row, a.maxL[row - a.y0], b.maxL[row - b.y0],
            c => LeftCap(before, c), c => LeftCap(after, c));
    SameCap(before, after, row, a.maxR[row - a.y0], b.maxR[row - b.y0],
            c => RightCap(before, c), c => RightCap(after, c));
    ShoreIsLocal(a, b, fnv, row);
  }

  lemma SameCap(before: Continent, after: Continent, row: int, v: real, v': real, cap: City -> real, cap': City -> real)
    requires TightCap(before, row - before.y, v, cap) && TightCap(after, row - after.y, v', cap')
    requires forall c: City :: c.y - 1 <= row <= c.y + 2 ==> (before.HasCity(c) <==> after.HasCity(c))
    requires forall c :: cap(c) == cap'(c)
    ensures v == v'
  {
    hide Continent.HasCity;
    assert forall c :: Touches(before, c, row - before.y) <==> c.y - 1 <= row <= c.y + 2;
    assert forall c :: Touches(after, c, row - after.y) <==> c.y - 1 <= row <= c.y + 2;
  }

  /** The land test every consumer of the coast applies to a column of a row. */
  predicate OnLand(coast: Coastline, fnv: Fnv, row: int, w: real, rel: int)
    requires coast.Valid()
  {
    var (li, span) := coast.LandSpan(fnv, row, w);
    !((rel as real) < li || rel as real >= li + span)
  }

  /** Every settlement is on dry land: its cell and the four columns either side of it, as far as
      the continent reaches, on its own row, the row above and the two below, whatever the
      noise. Its row lies inside the coast's window. */
  lemma SettlementOnDryLand(cont: Continent, coast: Coastline, fnv: Fnv, p: Province, c: City, row: int, rel: int)
    requires IsCoastOf(cont, coast, fnv) && cont.WellPlaced() && p in cont.provinces && c in p.cities
    requires c.y - 1 <= row <= c.y + 2
    requires c.x - cont.x - CITY_MARGIN <= rel <= c.x - cont.x + CITY_MARGIN && 0 <= rel < cont.w
    ensures 0 <= c.y - cont.y < coast.h
    ensures OnLand(coast, fnv, row, cont.w as real, rel)
  {
    hide Coastline.Insets, Coastline.Taper;
    var ry := Min(Max(row - cont.y, 0), coast.h - 1);
    assert cont.HasCity(c) && Touches(cont, c, ry);
    assert TightCap(cont, ry, coast.maxL[ry], d => LeftCap(cont, d));
    assert TightCap(cont, ry, coast.maxR[ry], d => RightCap(cont, d));
    InsetsAreBounded(coast, fnv, row);
    var (li, ri) := coast.Insets(fnv, row);
    assert li <= LeftCap(cont, c) <= rel as real;
    assert ri <= RightCap(cont, c) && rel as real + RightCap(cont, c) < cont.w as real;
  }
}
