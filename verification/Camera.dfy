/** The isometric projections of `crates/kubernation/src/draw.rs` and their inverses: the main
    map on the sea and land planes, the minimap, and the camera that frames them. */
module Camera {
  import opened Prelude

  datatype Vec = Vec(x: real, y: real)
  datatype Rect = Rect(x: real, y: real, w: real, h: real) {
    /** Half-open, as macroquad's `Rect::contains`. */
    predicate Contains(p: Vec) {
      x <= p.x < x + w && y <= p.y < y + h
    }
  }

  const TILE_W: real := 32.0
  const TILE_H: real := 16.0

  datatype MapStyle = Plain | Relief {
    function LandLift(): real {
      match this case Plain => 0.0 case Relief => 7.0
    }
  }

  // ---- The 2:1 projection --------------------------------------------------

  /** World point to plane point: x grows down-right, y grows down-left. */
  function Iso(wx: real, wy: real, hw: real, hh: real): Vec {
    Vec((wx - wy) * hw, (wx + wy) * hh)
  }

  /** The world point under a plane point. */
  function Uniso(p: Vec, hw: real, hh: real): (real, real)
    requires hw > 0.0 && hh > 0.0
  {
    var (a, b) := (p.x / hw, p.y / hh);
    ((a + b) * 0.5, (b - a) * 0.5)
  }

  /** The two are inverse to each other, on the whole plane. */
  lemma IsoInverts(wx: real, wy: real, p: Vec, hw: real, hh: real)
    requires hw > 0.0 && hh > 0.0
    ensures Uniso(Iso(wx, wy, hw, hh), hw, hh) == (wx, wy)
    ensures var (x, y) := Uniso(p, hw, hh); Iso(x, y, hw, hh) == p
  {
    assert ((wx - wy) * hw) / hw == wx - wy && ((wx + wy) * hh) / hh == wx + wy;
    var (a, b) := (p.x / hw, p.y / hh);
    assert a * hw == p.x && b * hh == p.y;
    assert (a + b) * 0.5 - (b - a) * 0.5 == a && (a + b) * 0.5 + (b - a) * 0.5 == b;
  }

  // ---- The main map --------------------------------------------------------

  /** What a camera projects with: its origin, zoom and style. */
  datatype View = View(pos: Vec, zoom: real, style: MapStyle) {
    function Hw(): real { TILE_W * zoom * 0.5 }
    function Hh(): real { TILE_H * zoom * 0.5 }

    function ToScreen(wx: real, wy: real): Vec {
      var p := Iso(wx, wy, Hw(), Hh());
      Vec(p.x - pos.x, p.y - pos.y)
    }

    function LiftPx(): real {
      style.LandLift() * zoom
    }

    function ToLand(wx: real, wy: real): Vec {
      ToPlane(wx, wy, LiftPx())
    }

    function ToPlane(wx: real, wy: real, lift: real): Vec {
      var p := ToScreen(wx, wy);
      Vec(p.x, p.y - lift)
    }

    function Shifted(off: nat): View {
      var d := off as real;
      View(Vec(pos.x - d * Hw(), pos.y - d * Hh()), zoom, style)
    }

    function CellAtPlane(screen: Vec, bounds: (nat, nat), lift: real): Option<(nat, nat)>
      requires zoom > 0.0
    {
      var (wx, wy) := Uniso(Vec(screen.x + pos.x, screen.y + pos.y + lift), Hw(), Hh());
      if wx >= 0.0 && wy >= 0.0 && wx < bounds.0 as real && wy < bounds.1 as real
      then Some((wx.Floor, wy.Floor)) else None
    }

    function CellAt(screen: Vec, bounds: (nat, nat)): Option<(nat, nat)>
      requires zoom > 0.0
    {
      CellAtPlane(screen, bounds, 0.0)
    }

    function CellAtLand(screen: Vec, bounds: (nat, nat)): Option<(nat, nat)>
      requires zoom > 0.0
    {
      CellAtPlane(screen, bounds, LiftPx())
    }
  }

  /** The diamond of cell (x, y) on the plane `lift` above the sea. */
  ghost predicate InDiamond(v: View, x: nat, y: nat, lift: real, screen: Vec) {
    exists u: real, w: real :: Within(u, w) && v.ToPlane(x as real + u, y as real + w, lift) == screen
  }

  predicate Within(u: real, w: real) {
    0.0 <= u < 1.0 && 0.0 <= w < 1.0
  }

  lemma FloorOfOffset(x: nat, u: real)
    requires 0.0 <= u < 1.0
    ensures (x as real + u).Floor == x
  {
  }

  /** The inverse is exact over whole diamonds, on any plane: the cell found at a point is the
      in-bounds cell whose diamond holds it, and there is none exactly when no such cell exists. */
  lemma CellAtIsExact(v: View, screen: Vec, bounds: (nat, nat), lift: real, x: nat, y: nat)
    requires v.zoom > 0.0
    ensures v.CellAtPlane(screen, bounds, lift) == Some((x, y)) <==>
      x < bounds.0 && y < bounds.1 && InDiamond(v, x, y, lift, screen)
  {
    var flat := Vec(screen.x + v.pos.x, screen.y + v.pos.y + lift);
    var (wx, wy) := Uniso(flat, v.Hw(), v.Hh());
    IsoInverts(wx, wy, flat, v.Hw(), v.Hh());
    assert v.ToPlane(wx, wy, lift) == screen;
    if v.CellAtPlane(screen, bounds, lift) == Some((x, y)) {
      assert Within(wx - x as real, wy - y as real);
      assert v.ToPlane(x as real + (wx - x as real), y as real + (wy - y as real), lift) == screen;
    }
    if x < bounds.0 && y < bounds.1 && InDiamond(v, x, y, lift, screen) {
      var u: real, w: real :| Within(u, w) && v.ToPlane(x as real + u, y as real + w, lift) == screen;
      IsoInverts(x as real + u, y as real + w, flat, v.Hw(), v.Hh());
      assert Iso(x as real + u, y as real + w, v.Hw(), v.Hh()) == flat;
      FloorOfOffset(x, u);
      FloorOfOffset(y, w);
    }
  }

  /** On both draw planes: what is drawn at a point of a cell's diamond is hit as that cell. */
  lemma BothPlanesInvert(v: View, bounds: (nat, nat), x: nat, y: nat, u: real, w: real)
    requires v.zoom > 0.0 && x < bounds.0 && y < bounds.1 && Within(u, w)
    ensures v.CellAt(v.ToScreen(x as real + u, y as real + w), bounds) == Some((x, y))
    ensures v.CellAtLand(v.ToLand(x as real + u, y as real + w), bounds) == Some((x, y))
  {
    assert v.ToPlane(x as real + u, y as real + w, 0.0) == v.ToScreen(x as real + u, y as real + w);
    CellAtIsExact(v, v.ToScreen(x as real + u, y as real + w), bounds, 0.0, x, y);
    CellAtIsExact(v, v.ToLand(x as real + u, y as real + w), bounds, v.LiftPx(), x, y);
  }

  /** A camera shifted by `off` cells draws a world where the unshifted camera draws the cells
      `off` further east, on both planes. */
  lemma ShiftedDrawsEast(v: View, off: nat, wx: real, wy: real)
    ensures v.Shifted(off).ToScreen(wx, wy) == v.ToScreen(wx + off as real, wy)
    ensures v.Shifted(off).ToLand(wx, wy) == v.ToLand(wx + off as real, wy)
  {
    hide View.Hw, View.Hh;
    var d, hw, hh := off as real, v.Hw(), v.Hh();
    assert v.Shifted(off).Hw() == hw && v.Shifted(off).Hh() == hh by {
      SamePixels(v, v.Shifted(off));
    }
    IsoShifts(wx, wy, d, hw, hh);
  }

  lemma SamePixels(v: View, u: View)
    requires v.zoom == u.zoom
    ensures v.Hw() == u.Hw() && v.Hh() == u.Hh()
  {
  }

  lemma IsoShifts(wx: real, wy: real, d: real, hw: real, hh: real)
    ensures Iso(wx + d, wy, hw, hh) == Vec(Iso(wx, wy, hw, hh).x + d * hw, Iso(wx, wy, hw, hh).y + d * hh)
  {
    assert (wx + d - wy) * hw == (wx - wy) * hw + d * hw;
    assert (wx + d + wy) * hh == (wx + wy) * hh + d * hh;
  }

  /** Under Plain the planes coincide; under Relief a point on land hits what lies the lift's
      height further down the sea plane. */
  lemma PlanesDifferByLift(v: View, screen: Vec, bounds: (nat, nat))
    requires v.zoom > 0.0
    ensures v.CellAtLand(screen, bounds) == v.CellAt(Vec(screen.x, screen.y + v.LiftPx()), bounds)
    ensures v.style == Plain ==> v.CellAtLand(screen, bounds) == v.CellAt(screen, bounds)
  {
  }

  /** Where a world point is drawn: at zoom 1 a cell is 32 px wide and 16 px tall, and under `Relief` land
      stands 7 px above the sea. */
  lemma DrawnAt(v: View, wx: real, wy: real)
    ensures v.ToScreen(wx, wy).x == (wx - wy) * (16.0 * v.zoom) - v.pos.x
    ensures v.ToScreen(wx, wy).y == (wx + wy) * (8.0 * v.zoom) - v.pos.y
    ensures v.ToLand(wx, wy).x == v.ToScreen(wx, wy).x
    ensures v.ToLand(wx, wy).y == v.ToScreen(wx, wy).y - (if v.style == Relief then 7.0 * v.zoom else 0.0)
  {
  }

  // ---- The minimap ---------------------------------------------------------

  const COL_W: real := 264.0
  const CHROME_H: real := 32.0

  function Clamp(v: real, lo: real, hi: real): real {
    if v < lo then lo else if v > hi then hi else v
  }

  datatype Minimap = Minimap(frame: Rect, inner: Rect, hw: real, hh: real, offx: real) {
    function Pt(wx: real, wy: real): Vec {
      var p := Iso(wx, wy, hw, hh);
      Vec(inner.x + offx + p.x, inner.y + p.y)
    }

    /** Any point of the frame resolves to a cell of the grid. */
    function WorldCell(screen: Vec, bounds: (nat, nat)): Option<(nat, nat)>
      requires hw > 0.0 && hh > 0.0 && bounds.0 > 0 && bounds.1 > 0
    {
      if !frame.Contains(screen) then None
      else
        var (wx, wy) := Uniso(Vec(screen.x - inner.x - offx, screen.y - inner.y), hw, hh);
        Some((Clamp(wx, 0.0, bounds.0 as real - 1.0).Floor, Clamp(wy, 0.0, bounds.1 as real - 1.0).Floor))
    }
  }

  function MinimapLayout(bounds: (nat, nat), screenW: real): (m: Minimap)
    ensures m.hw > 0.0 && m.hh > 0.0
  {
    var span := RMax((bounds.0 + bounds.1) as real, 1.0);
    var fit := (COL_W - 36.0) / span;
    assert fit > 0.0;
    var hw := if fit < 6.0 then fit else 6.0;
    var hh := hw * (TILE_H / TILE_W);
    var (mw, mh) := (span * hw, span * hh);
    var (x0, y0) := ((screenW - COL_W) + (COL_W - mw) / 2.0, CHROME_H + 30.0);
    Minimap(Rect(x0 - 6.0, y0 - 6.0, mw + 12.0, mh + 12.0), Rect(x0, y0, mw, mh), hw, hh, bounds.1 as real * hw)
  }

  lemma ScaleBetween(a: real, lo: real, hi: real, k: real)
    requires lo <= a <= hi && k > 0.0
    ensures lo * k <= a * k <= hi * k
  {
  }

  /** Every point of the world is drawn inside the minimap's frame. */
  lemma MinimapHoldsWorld(bounds: (nat, nat), screenW: real, wx: real, wy: real)
    requires 0.0 <= wx <= bounds.0 as real && 0.0 <= wy <= bounds.1 as real
    ensures var m := MinimapLayout(bounds, screenW); m.frame.Contains(m.Pt(wx, wy))
  {
    hide MinimapLayout;
    var m := MinimapLayout(bounds, screenW);
    LayoutShape(bounds, screenW);
    PtInFrame(m, bounds.0 as real, bounds.1 as real, wx, wy);
  }

  /** Where the minimap stands: in the middle of the 264 px column at the window's right, 62 px down, two
      to one, as large as leaves 18 px either side of it, but no cell wider than 12 px; and framed 6 px
      around. */
  lemma MinimapStands(bounds: (nat, nat), screenW: real)
    ensures var m := MinimapLayout(bounds, screenW);
      var span := if bounds == (0, 0) then 1.0 else (bounds.0 + bounds.1) as real;
      && m.inner.x - (screenW - 264.0) == screenW - (m.inner.x + m.inner.w) && m.inner.y == 62.0
      && m.inner.w == m.hw * span && m.inner.h * 2.0 == m.inner.w && m.hh * 2.0 == m.hw
      && m.inner.w <= 228.0 && m.hw <= 6.0 && (m.inner.w == 228.0 || m.hw == 6.0)
      && m.frame == Rect(m.inner.x - 6.0, m.inner.y - 6.0, m.inner.w + 12.0, m.inner.h + 12.0)
      && m.offx == m.hw * bounds.1 as real
  {
    var m := MinimapLayout(bounds, screenW);
    var span := RMax((bounds.0 + bounds.1) as real, 1.0);
    assert TILE_H / TILE_W == 0.5;
    assert 228.0 / span * span == 228.0;
    if m.hw == 6.0 {
      ScaleBetween(6.0, 6.0, 228.0 / span, span);
    }
    Halves(span, m.hw);
  }

  lemma Halves(a: real, b: real)
    ensures a * (b * 0.5) * 2.0 == a * b
  {
  }

  /** A point of the frame that is not in the world resolves to the nearest cell, and one outside the
      frame to none. */
  lemma MinimapClamps(m: Minimap, bounds: (nat, nat), wx: real, wy: real)
    requires m.hw > 0.0 && m.hh > 0.0 && bounds.0 > 0 && bounds.1 > 0
    ensures var p, r := m.Pt(wx, wy), m.WorldCell(m.Pt(wx, wy), bounds);
      && (r.Some? <==> m.frame.x <= p.x < m.frame.x + m.frame.w && m.frame.y <= p.y < m.frame.y + m.frame.h)
      && (r.Some? ==> r.value == (Nearest(wx, bounds.0), Nearest(wy, bounds.1)))
  {
    hide Clamp, Nearest, Iso, Uniso;
    IsoInverts(wx, wy, Vec(0.0, 0.0), m.hw, m.hh);
    ClampIsNearest(wx, bounds.0);
    ClampIsNearest(wy, bounds.1);
  }

  lemma ClampIsNearest(w: real, n: nat)
    requires n > 0
    ensures 0.0 <= Clamp(w, 0.0, n as real - 1.0) && Clamp(w, 0.0, n as real - 1.0).Floor == Nearest(w, n)
  {
  }

  /** The nearest of cells 0 to n - 1. */
  function Nearest(w: real, n: nat): nat
    requires n > 0
  {
    if w < 0.0 then 0 else if w.Floor < n then w.Floor else n - 1
  }

  /** A product, by name. */
  function Times(a: real, k: real): real {
    a * k
  }

  lemma LayoutShape(bounds: (nat, nat), screenW: real)
    ensures var (m, w, h) := (MinimapLayout(bounds, screenW), bounds.0 as real, bounds.1 as real);
      && m.frame.x == m.inner.x - 6.0 && m.frame.y == m.inner.y - 6.0 && m.offx == Times(h, m.hw)
      && m.frame.w >= Times(w + h, m.hw) + 12.0 && m.frame.h >= Times(w + h, m.hh) + 12.0
  {
    var m := MinimapLayout(bounds, screenW);
    var (w, h) := (bounds.0 as real, bounds.1 as real);
    var span := RMax((bounds.0 + bounds.1) as real, 1.0);
    ScaleBetween(w + h, 0.0, span, m.hw);
    ScaleBetween(w + h, 0.0, span, m.hh);
  }

  lemma PtInFrame(m: Minimap, w: real, h: real, wx: real, wy: real)
    requires m.hw > 0.0 && m.hh > 0.0 && 0.0 <= wx <= w && 0.0 <= wy <= h
    requires m.frame.x == m.inner.x - 6.0 && m.frame.y == m.inner.y - 6.0 && m.offx == Times(h, m.hw)
    requires m.frame.w >= Times(w + h, m.hw) + 12.0 && m.frame.h >= Times(w + h, m.hh) + 12.0
    ensures m.frame.Contains(m.Pt(wx, wy))
  {
    hide Times, Minimap.Pt, Rect.Contains;
    DiamondExtent(w, h, wx, wy, m.hw);
    DiamondExtent(w, h, wx, wy, m.hh);
    PtIs(m, wx, wy);
    InsideFrame(m, Times(wx - wy, m.hw), Times(wx + wy, m.hh), Times(w, m.hw), Times(h, m.hw), Times(w + h, m.hh));
  }

  lemma PtIs(m: Minimap, wx: real, wy: real)
    ensures m.Pt(wx, wy) == Vec(m.inner.x + m.offx + Times(wx - wy, m.hw), m.inner.y + Times(wx + wy, m.hh))
  {
  }

  /** A point within the diamond's extent is within the frame around it. */
  lemma InsideFrame(m: Minimap, dx: real, dy: real, east: real, west: real, south: real)
    requires -west <= dx <= east && 0.0 <= dy <= south
    requires m.frame.x == m.inner.x - 6.0 && m.frame.y == m.inner.y - 6.0 && m.offx == west
    requires m.frame.w >= east + west + 12.0 && m.frame.h >= south + 12.0
    ensures m.frame.Contains(Vec(m.inner.x + m.offx + dx, m.inner.y + dy))
  {
  }

  lemma DiamondExtent(w: real, h: real, wx: real, wy: real, k: real)
    requires k > 0.0 && 0.0 <= wx <= w && 0.0 <= wy <= h
    ensures -Times(h, k) <= Times(wx - wy, k) <= Times(w, k) && 0.0 <= Times(wx + wy, k) <= Times(w + h, k)
    ensures Times(w + h, k) == Times(w, k) + Times(h, k)
  {
    ScaleBetween(wx - wy, -h, w, k);
    ScaleBetween(wx + wy, 0.0, w + h, k);
    Distribute(w, h, k);
  }

  lemma Distribute(a: real, b: real, k: real)
    ensures (a + b) * k == a * k + b * k && (-b) * k == -(b * k)
  {
  }

  /** The minimap's inverse is exact over whole diamonds. */
  lemma MinimapInverts(bounds: (nat, nat), screenW: real, x: nat, y: nat, u: real, w: real)
    requires x < bounds.0 && y < bounds.1 && Within(u, w)
    ensures var m := MinimapLayout(bounds, screenW);
      m.WorldCell(m.Pt(x as real + u, y as real + w), bounds) == Some((x, y))
  {
    var m := MinimapLayout(bounds, screenW);
    var (wx, wy) := (x as real + u, y as real + w);
    MinimapHoldsWorld(bounds, screenW, wx, wy);
    IsoInverts(wx, wy, Vec(0.0, 0.0), m.hw, m.hh);
    ClampedFloor(x, u, bounds.0);
    ClampedFloor(y, w, bounds.1);
  }

  lemma ClampedFloor(x: nat, u: real, bound: nat)
    requires x < bound && 0.0 <= u < 1.0
    ensures Clamp(x as real + u, 0.0, bound as real - 1.0).Floor == x
  {
    if x + 1 == bound {
      assert x as real == bound as real - 1.0;
    } else {
      assert x as real + 1.0 <= bound as real - 1.0;
    }
  }

  // ---- The camera ----------------------------------------------------------

  /** The whole grid, edges included, projects into `rect` on the sea plane. */
  ghost predicate ShowsWorld(v: View, bounds: (nat, nat), rect: Rect) {
    forall wx: real, wy: real :: 0.0 <= wx <= bounds.0 as real && 0.0 <= wy <= bounds.1 as real ==>
      InRect(v.ToScreen(wx, wy), rect)
  }

  /** All that can stand on land projects into `rect`: no land lies north of row 1. */
  ghost predicate ShowsGround(v: View, bounds: (nat, nat), rect: Rect) {
    forall wx: real, wy: real :: 0.0 <= wx <= bounds.0 as real && 1.0 <= wy <= bounds.1 as real ==>
      InRect(v.ToLand(wx, wy), rect)
  }

  predicate InRect(p: Vec, r: Rect) {
    r.x <= p.x <= r.x + r.w && r.y <= p.y <= r.y + r.h
  }

  function FitZoom(bounds: (nat, nat), rect: Rect): real {
    var span := (bounds.0 + bounds.1) as real;
    var (sceneW, sceneH) := (span * (TILE_W * 0.5), span * (TILE_H * 0.5));
    Clamp(RMin((rect.w - 60.0) / RMax(sceneW, 1.0), (rect.h - 60.0) / RMax(sceneH, 1.0)), 0.30, 2.0)
  }

  /** Centred in the rectangle, at the zoom found for it. */
  ghost predicate Fitted(v: View, bounds: (nat, nat), rect: Rect) {
    && v.zoom == FitZoom(bounds, rect)
    && v.ToScreen(bounds.0 as real * 0.5, bounds.1 as real * 0.5) == Vec(rect.x + rect.w * 0.5, rect.y + rect.h * 0.5)
  }

  class CameraState {
    var pos: Vec
    var zoom: real
    var target: Option<Vec>
    var style: MapStyle

    constructor ()
      ensures AsView() == View(Vec(-300.0, -80.0), 1.0, Plain) && target == None
    {
      pos, zoom, target, style := Vec(-300.0, -80.0), 1.0, None, Plain;
    }

    function AsView(): View
      reads this
    {
      View(pos, zoom, style)
    }

    /** Frame the whole world in `rect`. */
    method Fit(bounds: (nat, nat), rect: Rect)
      modifies this
      ensures Fitted(AsView(), bounds, rect) && target == None && style == old(style)
    {
      hide View.ToScreen, Clamp, RMin, RMax;
      var (w, h) := (bounds.0 as real, bounds.1 as real);
      var span := w + h;
      var margin := 60.0;
      var sceneW := span * (TILE_W * 0.5);
      var sceneH := span * (TILE_H * 0.5);
      MaxBounds(sceneW);
      MaxBounds(sceneH);
      var zx := (rect.w - margin) / RMax(sceneW, 1.0);
      var zy := (rect.h - margin) / RMax(sceneH, 1.0);
      zoom := Clamp(RMin(zx, zy), 0.30, 2.0);
      var (hw, hh) := (TILE_W * zoom * 0.5, TILE_H * zoom * 0.5);
      var center := Vec((w - h) * 0.5 * hw, (w + h) * 0.5 * hh);
      pos := Vec(center.x - (rect.x + rect.w * 0.5), center.y - (rect.y + rect.h * 0.5));
      target := None;
      assert span == (bounds.0 + bounds.1) as real;
      assert zoom == FitZoom(bounds, rect);
      Centred(AsView(), w, h, rect);
    }

    /** Aim the flight so that the cell's centre ends in the middle of `rect`. */
    method FlyToWithin(cell: (nat, nat), rect: Rect)
      modifies this`target
      ensures target.Some?
      ensures View(target.value, zoom, style).ToScreen(cell.0 as real + 0.5, cell.1 as real + 0.5)
           == Vec(rect.x + rect.w / 2.0, rect.y + rect.h / 2.0)
    {
      var (hw, hh) := (TILE_W * zoom * 0.5, TILE_H * zoom * 0.5);
      var (cx, cy) := (cell.0 as real + 0.5, cell.1 as real + 0.5);
      var proj := Vec((cx - cy) * hw, (cx + cy) * hh);
      target := Some(Vec(proj.x - (rect.x + rect.w / 2.0), proj.y - (rect.y + rect.h / 2.0)));
    }

    /** The instant form of the flight. */
    method JumpToWithin(cell: (nat, nat), rect: Rect)
      modifies this`target, this`pos
      ensures target == None
      ensures AsView().ToScreen(cell.0 as real + 0.5, cell.1 as real + 0.5)
        == Vec(rect.x + rect.w / 2.0, rect.y + rect.h / 2.0)
    {
      FlyToWithin(cell, rect);
      if target.Some? {
        pos := target.value;
        target := None;
      }
    }

    /** One frame of the flight. */
    method Tick(manualPan: bool)
      modifies this`target, this`pos
      ensures (pos, target) == Flown(old(pos), old(target), manualPan)
      ensures manualPan ==> pos == old(pos) && target == None
      ensures !manualPan && old(target).Some? ==>
        || (pos == old(target).value && target == None)
        || (target == old(target) && Away(pos, old(target).value) == 0.6724 * Away(old(pos), old(target).value))
    {
      if manualPan {
        target := None;
        return;
      }
      if target.Some? {
        var t := target.value;
        var d := Vec(t.x - pos.x, t.y - pos.y);
        if LengthSquared(d) < 4.0 {
          pos := t;
          target := None;
        } else {
          Closer(pos, t);
          pos := Vec(pos.x + d.x * 0.18, pos.y + d.y * 0.18);
        }
      }
    }
  }

  lemma Centred(v: View, w: real, h: real, rect: Rect)
    requires v.pos == Vec((w - h) * 0.5 * v.Hw() - (rect.x + rect.w * 0.5),
                          (w + h) * 0.5 * v.Hh() - (rect.y + rect.h * 0.5))
    ensures v.ToScreen(w * 0.5, h * 0.5) == Vec(rect.x + rect.w * 0.5, rect.y + rect.h * 0.5)
  {
    assert w * 0.5 - h * 0.5 == (w - h) * 0.5 && w * 0.5 + h * 0.5 == (w + h) * 0.5;
  }

  /** It is the square of a length, by Pythagoras. */
  lemma LengthIsPythagoras(d: Vec)
    ensures LengthSquared(Vec(3.0, 4.0)) == 25.0 && LengthSquared(Vec(d.x, 0.0)) == d.x * d.x
    ensures LengthSquared(d) == LengthSquared(Vec(d.x, 0.0)) + LengthSquared(Vec(0.0, d.y))
  {
  }

  /** `d.length() < 2.0` is about this one's square root. */
  function LengthSquared(d: Vec): real {
    d.x * d.x + d.y * d.y
  }

  /** The squared distance still to fly. */
  function Away(pos: Vec, t: Vec): real {
    LengthSquared(Vec(t.x - pos.x, t.y - pos.y))
  }

  function Flown(pos: Vec, target: Option<Vec>, manualPan: bool): (Vec, Option<Vec>) {
    if manualPan || target == None then (pos, None)
    else
      var t := target.value;
      var d := Vec(t.x - pos.x, t.y - pos.y);
      if LengthSquared(d) < 4.0 then (t, None)
      else (Vec(pos.x + d.x * 0.18, pos.y + d.y * 0.18), target)
  }

  /** `n` frames without a manual pan. */
  function FlownFor(pos: Vec, target: Option<Vec>, n: nat): (Vec, Option<Vec>)
    decreases n
  {
    if n == 0 then (pos, target)
    else var (p, t) := Flown(pos, target, false); FlownFor(p, t, n - 1)
  }

  /** Left alone, a flight lands exactly on its target. */
  lemma {:induction false} FlightLands(pos: Vec, t: Vec) returns (n: nat)
    ensures FlownFor(pos, Some(t), n) == (t, None)
    decreases Away(pos, t).Floor
  {
    if Away(pos, t) < 4.0 {
      n := 1;
      assert FlownFor(t, None, 0) == (t, None);
    } else {
      Closer(pos, t);
      var m := FlightLands(Flown(pos, Some(t), false).0, t);
      n := m + 1;
    }
  }

  /** A step of 0.18 of the way leaves 0.82 of the distance. */
  lemma Closer(pos: Vec, t: Vec)
    ensures Away(Vec(pos.x + (t.x - pos.x) * 0.18, pos.y + (t.y - pos.y) * 0.18), t) == 0.6724 * Away(pos, t)
  {
    var d := Vec(t.x - pos.x, t.y - pos.y);
    assert t.x - (pos.x + d.x * 0.18) == d.x * 0.82 && t.y - (pos.y + d.y * 0.18) == d.y * 0.82;
    SquareScaled(d.x, 0.82);
    SquareScaled(d.y, 0.82);
  }

  lemma SquareScaled(x: real, k: real)
    ensures (x * k) * (x * k) == x * x * (k * k)
  {
  }

  /** A fit shows the whole sea plane exactly when the world at the zoom floor, 0.30, is no larger
      than the rectangle. All ground is shown then too: it stands on row 1 or further south, and is
      lifted by less than a row. */
  lemma FitShowsWorld(v: View, bounds: (nat, nat), rect: Rect)
    requires Fitted(v, bounds, rect)
    ensures var span := (bounds.0 + bounds.1) as real;
      ShowsWorld(v, bounds, rect) <==> 0.30 * (span * 16.0) <= rect.w && 0.30 * (span * 8.0) <= rect.h
    ensures ShowsWorld(v, bounds, rect) ==> ShowsGround(v, bounds, rect)
  {
    hide ShowsWorld, ShowsGround, FitZoom;
    var span := (bounds.0 + bounds.1) as real;
    FitZoomSpan(bounds, rect, span);
    SceneBox(v, bounds, rect, span);
    if ShowsWorld(v, bounds, rect) {
      GroundIsShown(v, bounds, rect);
    }
  }

  /** Wherever the sea plane fits, so does all that stands on row 1 or further south, at any zoom
      and under either style: the lift is 7 px at zoom 1, and a row 8. */
  lemma GroundIsShown(v: View, bounds: (nat, nat), rect: Rect)
    requires v.zoom > 0.0 && ShowsWorld(v, bounds, rect)
    ensures ShowsGround(v, bounds, rect)
  {
    forall wx: real, wy: real | 0.0 <= wx <= bounds.0 as real && 1.0 <= wy <= bounds.1 as real
      ensures InRect(v.ToLand(wx, wy), rect)
    {
      assert InRect(v.ToScreen(wx, wy), rect) && InRect(v.ToScreen(wx, wy - 1.0), rect);
      RowStep(wx + wy, v.Hh());
      LiftIsUnderARow(v);
    }
  }

  lemma RowStep(a: real, k: real)
    ensures (a - 1.0) * k == a * k - k
  {
  }

  lemma LiftIsUnderARow(v: View)
    requires v.zoom > 0.0
    ensures 0.0 <= v.LiftPx() <= v.Hh()
  {
  }

  /** The world can be too large: a grid of 500 by 500 does not fit 1280 by 800. */
  lemma FitCanFallShort(v: View)
    requires Fitted(v, (500, 500), Rect(0.0, 0.0, 1280.0, 800.0))
    ensures !ShowsWorld(v, (500, 500), Rect(0.0, 0.0, 1280.0, 800.0))
  {
    hide ShowsWorld, Fitted;
    FitShowsWorld(v, (500, 500), Rect(0.0, 0.0, 1280.0, 800.0));
  }

  /** The zoom never overflows the rectangle unless it sits at its floor. */
  lemma FitZoomSpan(bounds: (nat, nat), rect: Rect, span: real)
    requires span == (bounds.0 + bounds.1) as real
    ensures var z := FitZoom(bounds, rect);
      && z > 0.0
      && (z * (span * 16.0) <= rect.w && z * (span * 8.0) <= rect.h <==>
          0.30 * (span * 16.0) <= rect.w && 0.30 * (span * 8.0) <= rect.h)
  {
    hide FitZoom, Clamp, RMin, RMax;
    var (sw, sh) := (span * 16.0, span * 8.0);
    var (mw, mh) := (RMax(sw, 1.0), RMax(sh, 1.0));
    MaxBounds(sw);
    MaxBounds(sh);
    FitZoomIs(bounds, rect, span);
    Quotient(rect.w - 60.0, mw);
    Quotient(rect.h - 60.0, mh);
    ClampFits((rect.w - 60.0) / mw, (rect.h - 60.0) / mh, sw, sh, mw, mh, rect.w, rect.h);
  }

  lemma MaxBounds(a: real)
    ensures RMax(a, 1.0) >= a && RMax(a, 1.0) > 0.0
  {
  }

  lemma FitZoomIs(bounds: (nat, nat), rect: Rect, span: real)
    requires span == (bounds.0 + bounds.1) as real
    ensures FitZoom(bounds, rect)
         == Clamp(RMin((rect.w - 60.0) / RMax(span * 16.0, 1.0), (rect.h - 60.0) / RMax(span * 8.0, 1.0)), 0.30, 2.0)
  {
    hide Clamp, RMin, RMax;
  }

  lemma Quotient(a: real, b: real)
    requires b > 0.0
    ensures a / b * b == a
  {
  }

  lemma ClampFits(zx: real, zy: real, sw: real, sh: real, mw: real, mh: real, rw: real, rh: real)
    requires 0.0 <= sw <= mw && 0.0 <= sh <= mh && zx * mw == rw - 60.0 && zy * mh == rh - 60.0
    ensures var z := Clamp(RMin(zx, zy), 0.30, 2.0);
      && z > 0.0
      && (z * sw <= rw && z * sh <= rh <==> 0.30 * sw <= rw && 0.30 * sh <= rh)
  {
    var z := Clamp(RMin(zx, zy), 0.30, 2.0);
    if RMin(zx, zy) >= 0.30 {
      RoomInside(z, zx, sw, mw);
      RoomInside(z, zy, sh, mh);
    }
  }

  /** A zoom no larger than the one that fits leaves the margin free. */
  lemma RoomInside(z: real, zx: real, s: real, m: real)
    requires 0.30 <= z <= zx && 0.0 <= s <= m
    ensures 0.30 * s <= z * s <= zx * m
  {
    assert z * s <= z * m <= zx * m;
  }

  /** Where a centred view draws a world point: off the rectangle's centre in proportion to how
      far it is off the grid's. */
  function OffCentre(rect: Rect, wx: real, wy: real, w: real, h: real, hw: real, hh: real): Vec {
    Vec(rect.x + rect.w * 0.5 + ((wx - wy) - (w - h) * 0.5) * hw,
        rect.y + rect.h * 0.5 + ((wx + wy) - (w + h) * 0.5) * hh)
  }

  lemma DrawnOffCentre(v: View, bounds: (nat, nat), rect: Rect, wx: real, wy: real)
    requires Fitted(v, bounds, rect)
    ensures v.ToScreen(wx, wy) == OffCentre(rect, wx, wy, bounds.0 as real, bounds.1 as real, v.Hw(), v.Hh())
  {
    hide FitZoom;
    var (w, h) := (bounds.0 as real, bounds.1 as real);
    Recentre(wx - wy, (w - h) * 0.5, v.Hw(), v.pos.x);
    Recentre(wx + wy, (w + h) * 0.5, v.Hh(), v.pos.y);
    assert w * 0.5 - h * 0.5 == (w - h) * 0.5 && w * 0.5 + h * 0.5 == (w + h) * 0.5;
  }

  lemma Recentre(a: real, c: real, k: real, pos: real)
    ensures a * k - pos == (c * k - pos) + (a - c) * k
  {
  }

  lemma HalfSpan(span: real, k: real)
    ensures (span * 0.5) * k == span * k * 0.5 && (-(span * 0.5)) * k == -(span * k * 0.5)
  {
  }

  lemma PointInBox(rect: Rect, wx: real, wy: real, w: real, h: real, hw: real, hh: real)
    requires 0.0 <= wx <= w && 0.0 <= wy <= h && hw > 0.0 && hh > 0.0
    requires (w + h) * hw <= rect.w && (w + h) * hh <= rect.h
    ensures InRect(OffCentre(rect, wx, wy, w, h, hw, hh), rect)
  {
    ScaleBetween((wx - wy) - (w - h) * 0.5, -((w + h) * 0.5), (w + h) * 0.5, hw);
    ScaleBetween((wx + wy) - (w + h) * 0.5, -((w + h) * 0.5), (w + h) * 0.5, hh);
    HalfSpan(w + h, hw);
    HalfSpan(w + h, hh);
  }

  lemma CornersNeedRoom(rect: Rect, w: real, h: real, hw: real, hh: real)
    requires InRect(OffCentre(rect, w, 0.0, w, h, hw, hh), rect) && InRect(OffCentre(rect, w, h, w, h, hw, hh), rect)
    ensures (w + h) * hw <= rect.w && (w + h) * hh <= rect.h
  {
    HalfSpan(w + h, hw);
    HalfSpan(w + h, hh);
    assert (w - 0.0) - (w - h) * 0.5 == (w + h) * 0.5 && (w + h) - (w + h) * 0.5 == (w + h) * 0.5;
  }

  /** The projected grid is the box of width span * hw and height span * hh around its centre. */
  lemma SceneBox(v: View, bounds: (nat, nat), rect: Rect, span: real)
    requires Fitted(v, bounds, rect) && v.zoom > 0.0 && span == (bounds.0 + bounds.1) as real
    ensures ShowsWorld(v, bounds, rect) <==> v.zoom * (span * 16.0) <= rect.w && v.zoom * (span * 8.0) <= rect.h
  {
    hide Fitted, OffCentre, InRect;
    var (w, h) := (bounds.0 as real, bounds.1 as real);
    var (hw, hh) := (v.Hw(), v.Hh());
    assert span == w + h;
    ZoomedSpan(v, span);
    forall wx: real, wy: real | 0.0 <= wx <= w && 0.0 <= wy <= h && span * hw <= rect.w && span * hh <= rect.h
      ensures InRect(v.ToScreen(wx, wy), rect)
    {
      DrawnOffCentre(v, bounds, rect, wx, wy);
      PointInBox(rect, wx, wy, w, h, hw, hh);
    }
    if ShowsWorld(v, bounds, rect) {
      assert InRect(v.ToScreen(w, 0.0), rect) && InRect(v.ToScreen(w, h), rect);
      DrawnOffCentre(v, bounds, rect, w, 0.0);
      DrawnOffCentre(v, bounds, rect, w, h);
      CornersNeedRoom(rect, w, h, hw, hh);
    }
  }

  lemma ZoomedSpan(v: View, span: real)
    ensures span * v.Hw() == v.zoom * (span * 16.0) && span * v.Hh() == v.zoom * (span * 8.0)
  {
  }
}
