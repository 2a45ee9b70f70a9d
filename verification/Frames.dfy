/** Decoded frames, the colour classes, and the four-bucket comparison of
    `hack/churn/compare.py`. */
module Frames {
  import opened Prelude
  import opened Png

  type Rgb = (Byte, Byte, Byte)
  type Class = Rgb -> bool

  // ---- Frames and colours --------------------------------------------------

  datatype Frame = Frame(w: nat, h: nat, px: seq<Byte>) {
    ghost predicate Valid() {
      |px| == 3 * (w * h)
    }

    /** Byte offset of the pixel at (x, y). */
    function At(x: nat, y: nat): (o: nat)
      requires Valid() && x < w && y < h
      ensures o + 3 <= |px|
    {
      PixelInside(x, y);
      (y * w) * 3 + x * 3
    }

    function Pixel(x: nat, y: nat): Rgb
      requires Valid() && x < w && y < h
    {
      (px[At(x, y)], px[At(x, y) + 1], px[At(x, y) + 2])
    }

    lemma PixelInside(x: nat, y: nat)
      requires x < w && y < h
      ensures (y * w) * 3 + x * 3 + 3 <= 3 * (w * h)
    {
      assert y * w + w == (y + 1) * w <= h * w;
    }
  }

  /** A colour as the framebuffer stores it: truncated, not rounded. */
  function Channel(v: real): (r: Byte)
    requires 0.0 <= v <= 1.0
    ensures r as real <= v * 255.0 < r as real + 1.0
  {
    (v * 255.0).Floor
  }

  function Clamp01(v: real): (r: real)
    ensures 0.0 <= r <= 1.0 && (0.0 <= v <= 1.0 ==> r == v) && (v <= 0.0 ==> r == 0.0) && (v >= 1.0 ==> r == 1.0)
  {
    if v < 0.0 then 0.0 else if v > 1.0 then 1.0 else v
  }

  function C8(r: real, g: real, b: real): Rgb {
    (Channel(Clamp01(r)), Channel(Clamp01(g)), Channel(Clamp01(b)))
  }

  const POP_CALM: Rgb := C8(0.88, 0.83, 0.66)
  const RESERVED_BASE: seq<(real, real, real)> := [(0.39, 0.44, 0.46), (0.42, 0.47, 0.49)]
  const JITTER: seq<real> := [-0.030, -0.012, 0.0, 0.018, 0.034]

  function ReservedColour(i: nat, j: nat): Rgb
    requires i < |RESERVED_BASE| && j < |JITTER|
  {
    C8(RESERVED_BASE[i].0 + JITTER[j], RESERVED_BASE[i].1 + JITTER[j] * 1.3, RESERVED_BASE[i].2 + JITTER[j])
  }

  predicate IsReserved(c: Rgb) {
    exists i, j :: 0 <= i < |RESERVED_BASE| && 0 <= j < |JITTER| && c == ReservedColour(i, j)
  }

  predicate IsLand(c: Rgb) {
    c.1 > c.2 && !IsReserved(c)
  }

  predicate IsSettlement(c: Rgb) {
    c == POP_CALM
  }

  /** The ten greys of reserved ground: two bases at five jitters. */
  const GREYS: seq<Rgb> := [
    (91, 102, 109), (96, 108, 114), (99, 112, 117), (104, 118, 121), (108, 123, 125),
    (99, 109, 117), (104, 115, 121), (107, 119, 124), (111, 125, 129), (115, 131, 133)]

  lemma GreyAt(i: nat, j: nat)
    requires i < |RESERVED_BASE| && j < |JITTER|
    ensures ReservedColour(i, j) == GREYS[5 * i + j]
  {
  }

  /** The classes, colour by colour: the parchment of names and populations; the greys; and land, which is
      greener than it is blue, as no grey is. */
  lemma ClassesAre(c: Rgb)
    ensures IsSettlement(c) <==> c == (224, 211, 168)
    ensures IsReserved(c) <==> c in GREYS
    ensures IsLand(c) <==> c.1 > c.2
  {
    hide ReservedColour, C8;
    forall i: nat, j: nat | i < |RESERVED_BASE| && j < |JITTER|
      ensures ReservedColour(i, j) == GREYS[5 * i + j]
    {
      GreyAt(i, j);
    }
    if c in GREYS {
      var k :| 0 <= k < |GREYS| && GREYS[k] == c;
      assert ReservedColour(k / 5, k % 5) == c;
    }
    ParchmentIs();
  }

  lemma ParchmentIs()
    ensures POP_CALM == (224, 211, 168)
  {
  }

  // ---- The play area -------------------------------------------------------

  type Image = (int, int) -> Rgb

  /** A frame as a colour for every position. */
  ghost function Colours(f: Frame): Image
    requires f.Valid()
  {
    (x, y) => if 0 <= x < f.w && 0 <= y < f.h then f.Pixel(x, y) else (0, 0, 0)
  }

  /** The crop: columns left of the docked column, rows below the menu bar. */
  datatype Crop = Crop(keep: int, top: nat, h: nat) {
    predicate Holds(x: int, y: int) {
      0 <= x < keep && top <= y < h
    }
  }

  function CropOf(f: Frame, rightMargin: nat, top: nat): Crop {
    Crop(f.w - rightMargin, top, f.h)
  }

  ghost predicate SameIn(crop: Crop, a: Image, b: Image) {
    forall x, y :: crop.Holds(x, y) ==> a(x, y) == b(x, y)
  }

  /** Row slices of the play area, as (offset, length) byte ranges. */
  function CropRows(f: Frame, rightMargin: nat, top: nat): seq<(int, int)> {
    var keep := f.w - rightMargin;
    if keep <= 0 || top >= f.h then []
    else seq(f.h - top, i => (((top + i) * f.w) * 3, keep * 3))
  }

  // ---- The comparison, as counts of pixels ---------------------------------

  /** What a pixel of the play area can count towards. */
  datatype Kind = Any | Identical | Lost | Gained | Changed | FootA | FootB

  predicate CountsAs(kind: Kind, ca: Rgb, cb: Rgb, cls: Class) {
    match kind
    case Any => true
    case Identical => ca == cb
    case Lost => cls(ca) && !cls(cb)
    case Gained => cls(cb) && !cls(ca)
    case Changed => ca != cb && cls(ca) == cls(cb)
    case FootA => cls(ca)
    case FootB => cls(cb)
  }

  /** The positions of one kind that precede (x, y) in the crop's scan order. */
  ghost function Scanned(kind: Kind, a: Image, b: Image, cls: Class, crop: Crop, y: int, x: int): set<(int, int)> {
    set i, j | 0 <= i < crop.keep && crop.top <= j < crop.h && (j < y || (j == y && i < x)) &&
               CountsAs(kind, a(i, j), b(i, j), cls) :: (i, j)
  }

  datatype Report = Report(total: int, identical: int, lost: int, gained: int, changed: int, footprintA: int,
                           footprintB: int)

  /** The figures for the part of the crop that precedes (x, y): numbers of pixels. */
  ghost function Tally(a: Image, b: Image, cls: Class, crop: Crop, y: int, x: int): Report {
    Report(|Scanned(Any, a, b, cls, crop, y, x)|, |Scanned(Identical, a, b, cls, crop, y, x)|,
           |Scanned(Lost, a, b, cls, crop, y, x)|, |Scanned(Gained, a, b, cls, crop, y, x)|,
           |Scanned(Changed, a, b, cls, crop, y, x)|,
           |Scanned(FootA, a, b, cls, crop, y, x)|, |Scanned(FootB, a, b, cls, crop, y, x)|)
  }

  /** The figures for the whole crop. */
  ghost function Figures(a: Image, b: Image, cls: Class, crop: Crop): Report {
    Tally(a, b, cls, crop, crop.h, 0)
  }

  lemma ScanOne(kind: Kind, a: Image, b: Image, cls: Class, crop: Crop, y: int, x: int)
    requires crop.Holds(x, y)
    ensures |Scanned(kind, a, b, cls, crop, y, x + 1)|
         == |Scanned(kind, a, b, cls, crop, y, x)| + if CountsAs(kind, a(x, y), b(x, y), cls) then 1 else 0
  {
    var before, after := Scanned(kind, a, b, cls, crop, y, x), Scanned(kind, a, b, cls, crop, y, x + 1);
    assert after == if CountsAs(kind, a(x, y), b(x, y), cls) then before + {(x, y)} else before;
  }

  lemma NextRow(a: Image, b: Image, cls: Class, crop: Crop, y: int)
    ensures Tally(a, b, cls, crop, y, crop.keep) == Tally(a, b, cls, crop, y + 1, 0)
  {
    forall kind: Kind
      ensures Scanned(kind, a, b, cls, crop, y, crop.keep) == Scanned(kind, a, b, cls, crop, y + 1, 0)
    {
    }
  }

  function Bit(b: bool): nat {
    if b then 1 else 0
  }

  /** One more pixel's worth of figures. */
  function Advance(r: Report, ca: Rgb, cb: Rgb, cls: Class): Report {
    Report(r.total + 1, r.identical + Bit(CountsAs(Identical, ca, cb, cls)), r.lost + Bit(CountsAs(Lost, ca, cb, cls)),
           r.gained + Bit(CountsAs(Gained, ca, cb, cls)), r.changed + Bit(CountsAs(Changed, ca, cb, cls)),
           r.footprintA + Bit(cls(ca)), r.footprintB + Bit(cls(cb)))
  }

  lemma TallyOne(a: Image, b: Image, cls: Class, crop: Crop, y: int, x: int)
    requires crop.Holds(x, y)
    ensures Tally(a, b, cls, crop, y, x + 1) == Advance(Tally(a, b, cls, crop, y, x), a(x, y), b(x, y), cls)
  {
    hide Scanned;
    forall kind { ScanOne(kind, a, b, cls, crop, y, x); }
  }

  /** The figures after the first `n` pixels of row `y`. */
  ghost function AdvanceRow(r: Report, a: Image, b: Image, cls: Class, y: int, n: nat): Report {
    if n == 0 then r else Advance(AdvanceRow(r, a, b, cls, y, n - 1), a(n - 1, y), b(n - 1, y), cls)
  }

  lemma AdvanceNone(r: Report, a: Image, b: Image, cls: Class, y: int)
    ensures AdvanceRow(r, a, b, cls, y, 0) == r
  {
  }

  lemma AdvanceOne(r: Report, a: Image, b: Image, cls: Class, y: int, n: nat)
    ensures AdvanceRow(r, a, b, cls, y, n + 1) == Advance(AdvanceRow(r, a, b, cls, y, n), a(n, y), b(n, y), cls)
  {
  }

  lemma {:induction false} TallyRow(a: Image, b: Image, cls: Class, crop: Crop, y: int, n: nat)
    requires crop.top <= y < crop.h && n <= crop.keep
    ensures AdvanceRow(Tally(a, b, cls, crop, y, 0), a, b, cls, y, n) == Tally(a, b, cls, crop, y, n)
  {
    hide Tally, Advance;
    if n > 0 {
      TallyRow(a, b, cls, crop, y, n - 1);
      TallyOne(a, b, cls, crop, y, n - 1);
    }
  }

  lemma RowTally(a: Image, b: Image, cls: Class, crop: Crop, y: int, sums: Report)
    requires crop.top <= y < crop.h && 0 <= crop.keep
    requires sums == Tally(a, b, cls, crop, y, 0)
    ensures AdvanceRow(sums, a, b, cls, y, crop.keep) == Tally(a, b, cls, crop, y + 1, 0)
  {
    TallyRow(a, b, cls, crop, y, crop.keep);
    NextRow(a, b, cls, crop, y);
  }

  lemma NothingScanned(a: Image, b: Image, cls: Class, crop: Crop)
    ensures Tally(a, b, cls, crop, crop.top, 0) == Report(0, 0, 0, 0, 0, 0, 0)
  {
    forall kind: Kind
      ensures Scanned(kind, a, b, cls, crop, crop.top, 0) == {}
    {
    }
  }

  /** From offset `off`, the bytes `px` hold the first `n` pixels of row `y` of `image`. */
  ghost predicate RowAt(px: seq<Byte>, off: int, image: Image, y: int, n: int) {
    forall x :: 0 <= x < n ==> && 0 <= off + 3 * x && off + 3 * x + 3 <= |px|
                               && (px[off + 3 * x], px[off + 3 * x + 1], px[off + 3 * x + 2]) == image(x, y)
  }

  lemma FrameRow(f: Frame, y: nat, n: int, off: int)
    requires f.Valid() && y < f.h && n <= f.w && off == (y * f.w) * 3
    ensures RowAt(f.px, off, Colours(f), y, n)
  {
    forall x | 0 <= x < n
      ensures 0 <= off + 3 * x && off + 3 * x + 3 <= |f.px|
      ensures (f.px[off + 3 * x], f.px[off + 3 * x + 1], f.px[off + 3 * x + 2]) == Colours(f)(x, y)
    {
      assert f.At(x, y) == off + 3 * x;
    }
  }

  /** The comparison loop. Frames of different sizes are refused, an empty crop is unknown, and
      otherwise every figure is the number of play-area pixels it names. */
  method Compare(a: Frame, b: Frame, rightMargin: nat, top: nat, cls: Class) returns (r: Result<Option<Report>, string>)
    requires a.Valid() && b.Valid()
    ensures r.Err? <==> (a.w, a.h) != (b.w, b.h)
    ensures r.Ok? ==> (r.value == None <==> a.w <= rightMargin || a.h <= top)
    ensures r.Ok? && r.value.Some? ==>
      r.value.value == Figures(Colours(a), Colours(b), cls, CropOf(a, rightMargin, top))
  {
    hide Tally, RowAt, AdvanceRow;
    if (a.w, a.h) != (b.w, b.h) {
      return Err("frames differ in size");
    }
    var rows := CropRows(a, rightMargin, top);
    if |rows| == 0 {
      return Ok(None);
    }
    ghost var crop, imageA, imageB := CropOf(a, rightMargin, top), Colours(a), Colours(b);
    var sums := Report(0, 0, 0, 0, 0, 0, 0);
    ghost var y := top;
    NothingScanned(imageA, imageB, cls, crop);
    for k := 0 to |rows|
      invariant y == top + k
      invariant sums == Tally(imageA, imageB, cls, crop, y, 0)
    {
      var off, ln := rows[k].0, rows[k].1;
      FrameRow(a, y, crop.keep, off);
      FrameRow(b, y, crop.keep, off);
      RowTally(imageA, imageB, cls, crop, y, sums);
      sums := CompareRow(a.px, b.px, off, ln, cls, sums, imageA, imageB, y, crop.keep);
      y := y + 1;
    }
    r := Ok(Some(sums));
  }

  /** The inner loop: one row slice, added to the sums so far. */
  method CompareRow(pa: seq<Byte>, pb: seq<Byte>, off: int, ln: int, cls: Class, sums: Report,
                    ghost imageA: Image, ghost imageB: Image, ghost y: nat, ghost keep: nat)
    returns (r: Report)
    requires RowAt(pa, off, imageA, y, keep) && RowAt(pb, off, imageB, y, keep) && ln == keep * 3
    ensures r == AdvanceRow(sums, imageA, imageB, cls, y, keep)
  {
    hide AdvanceRow;
    AdvanceNone(sums, imageA, imageB, cls, y);
    var Report(total, same, lost, gained, moved, footA, footB) := sums;
    var o := off;
    ghost var x: nat := 0;
    while o < off + ln
      invariant x <= keep && o == off + 3 * x
      invariant Report(total, same, lost, gained, moved, footA, footB) == AdvanceRow(sums, imageA, imageB, cls, y, x)
    {
      assert imageA(x, y) == (pa[o], pa[o + 1], pa[o + 2]) && imageB(x, y) == (pb[o], pb[o + 1], pb[o + 2]);
      var ca, cb := (pa[o], pa[o + 1], pa[o + 2]), (pb[o], pb[o + 1], pb[o + 2]);
      ghost var before := Report(total, same, lost, gained, moved, footA, footB);
      var ia, ib := cls(ca), cls(cb);
      total := total + 1;
      footA := footA + if ia then 1 else 0;
      footB := footB + if ib then 1 else 0;
      if ca == cb {
        same := same + 1;
      } else if ia && !ib {
        lost := lost + 1;
      } else if ib && !ia {
        gained := gained + 1;
      } else {
        moved := moved + 1;
      }
      assert Report(total, same, lost, gained, moved, footA, footB) == Advance(before, ca, cb, cls);
      AdvanceOne(sums, imageA, imageB, cls, y, x);
      o, x := o + 3, x + 1;
    }
    r := Report(total, same, lost, gained, moved, footA, footB);
  }

  // ---- What the figures mean together --------------------------------------

  /** Every pixel falls in exactly one bucket, and the footprints differ by what was gained
      less what was lost. */
  lemma AreaIsConserved(a: Image, b: Image, cls: Class, crop: Crop)
    ensures var r := Figures(a, b, cls, crop);
      && r.identical + r.lost + r.gained + r.changed == r.total
      && r.footprintB - r.footprintA == r.gained - r.lost
  {
    var set0 := (kind: Kind) => Scanned(kind, a, b, cls, crop, crop.h, 0);
    FourParts(set0(Any), set0(Identical), set0(Lost), set0(Gained), set0(Changed)) by {
      Buckets(a, b, cls, crop);
    }
    TwoSplits(set0(FootA), set0(Gained), set0(FootB), set0(Lost)) by {
      Footprints(a, b, cls, crop);
    }
  }

  lemma Buckets(a: Image, b: Image, cls: Class, crop: Crop)
    ensures var bucket := (kind: Kind) => Scanned(kind, a, b, cls, crop, crop.h, 0);
      && bucket(Any) == (bucket(Identical) + bucket(Lost)) + (bucket(Gained) + bucket(Changed))
      && bucket(Identical) !! bucket(Lost) && bucket(Gained) !! bucket(Changed)
      && (bucket(Identical) + bucket(Lost)) !! (bucket(Gained) + bucket(Changed))
  {
  }

  lemma Footprints(a: Image, b: Image, cls: Class, crop: Crop)
    ensures var bucket := (kind: Kind) => Scanned(kind, a, b, cls, crop, crop.h, 0);
      && bucket(FootA) + bucket(Gained) == bucket(FootB) + bucket(Lost)
      && bucket(FootA) !! bucket(Gained) && bucket(FootB) !! bucket(Lost)
  {
  }

  lemma FourParts<T>(all: set<T>, p: set<T>, q: set<T>, r: set<T>, s: set<T>)
    requires all == (p + q) + (r + s) && p !! q && r !! s && (p + q) !! (r + s)
    ensures |all| == |p| + |q| + |r| + |s|
  {
  }

  lemma TwoSplits<T>(p: set<T>, q: set<T>, r: set<T>, s: set<T>)
    requires p + q == r + s && p !! q && r !! s
    ensures |p| + |q| == |r| + |s|
  {
    assert |p + q| == |p| + |q| && |r + s| == |r| + |s|;
  }

  lemma DisjointSizes<T>(s: set<T>, t: set<T>)
    requires s !! t
    ensures |s + t| == |s| + |t|
  {
  }

  /** The area of a non-empty crop is its width times its height. */
  lemma {:induction false} TotalIsArea(a: Image, b: Image, cls: Class, crop: Crop, y: int)
    requires 0 <= crop.keep && crop.top <= y <= crop.h
    ensures Tally(a, b, cls, crop, y, 0).total == crop.keep * (y - crop.top)
    decreases y
  {
    hide Tally, AdvanceRow;
    if y == crop.top {
      NothingScanned(a, b, cls, crop);
    } else {
      TotalIsArea(a, b, cls, crop, y - 1);
      RowTally(a, b, cls, crop, y - 1, Tally(a, b, cls, crop, y - 1, 0));
      RowTotal(Tally(a, b, cls, crop, y - 1, 0), a, b, cls, y - 1, crop.keep);
      assert crop.keep * (y - crop.top) == crop.keep * (y - 1 - crop.top) + crop.keep;
    }
  }

  lemma {:induction false} RowTotal(r: Report, a: Image, b: Image, cls: Class, y: int, n: nat)
    ensures AdvanceRow(r, a, b, cls, y, n).total == r.total + n
  {
    if n > 0 {
      RowTotal(r, a, b, cls, y, n - 1);
    }
  }

  /** Comparing the other way round swaps lost with gained and the footprints, and nothing else. */
  lemma SwappingFrames(a: Image, b: Image, cls: Class, crop: Crop)
    ensures var (r, s) := (Figures(a, b, cls, crop), Figures(b, a, cls, crop));
      s == Report(r.total, r.identical, r.gained, r.lost, r.changed, r.footprintB, r.footprintA)
  {
    assert Scanned(Any, a, b, cls, crop, crop.h, 0) == Scanned(Any, b, a, cls, crop, crop.h, 0);
    assert Scanned(Identical, a, b, cls, crop, crop.h, 0) == Scanned(Identical, b, a, cls, crop, crop.h, 0);
    assert Scanned(Lost, a, b, cls, crop, crop.h, 0) == Scanned(Gained, b, a, cls, crop, crop.h, 0);
    assert Scanned(Gained, a, b, cls, crop, crop.h, 0) == Scanned(Lost, b, a, cls, crop, crop.h, 0);
    assert Scanned(Changed, a, b, cls, crop, crop.h, 0) == Scanned(Changed, b, a, cls, crop, crop.h, 0);
    assert Scanned(FootA, a, b, cls, crop, crop.h, 0) == Scanned(FootB, b, a, cls, crop, crop.h, 0);
    assert Scanned(FootB, a, b, cls, crop, crop.h, 0) == Scanned(FootA, b, a, cls, crop, crop.h, 0);
  }

  /** The report is all-identical exactly when the two play areas are pixel for pixel the same. */
  lemma IdenticalMeansPixelIdentical(a: Image, b: Image, cls: Class, crop: Crop)
    ensures var r := Figures(a, b, cls, crop);
      r.identical == r.total <==> SameIn(crop, a, b)
  {
    hide Scanned;
    AllIdentical(a, b, cls, crop);
    SizeTellsSubset(Scanned(Identical, a, b, cls, crop, crop.h, 0), Scanned(Any, a, b, cls, crop, crop.h, 0));
  }

  lemma AllIdentical(a: Image, b: Image, cls: Class, crop: Crop)
    ensures Scanned(Identical, a, b, cls, crop, crop.h, 0) <= Scanned(Any, a, b, cls, crop, crop.h, 0)
    ensures Scanned(Identical, a, b, cls, crop, crop.h, 0) == Scanned(Any, a, b, cls, crop, crop.h, 0)
      <==> SameIn(crop, a, b)
  {
    var all, same := Scanned(Any, a, b, cls, crop, crop.h, 0), Scanned(Identical, a, b, cls, crop, crop.h, 0);
    if same == all {
      forall x, y | crop.Holds(x, y)
        ensures a(x, y) == b(x, y)
      {
        assert (x, y) in all;
      }
    }
  }

  lemma SizeTellsSubset<T>(s: set<T>, t: set<T>)
    requires s <= t
    ensures |s| == |t| <==> s == t
  {
    DisjointSizes(s, t - s);
    assert t == s + (t - s);
  }

  /** Whatever the chrome shows, right margin or top rows, no figure moves. */
  lemma ChromeIsExcluded(a: Image, a': Image, b: Image, b': Image, cls: Class, crop: Crop)
    requires SameIn(crop, a, a') && SameIn(crop, b, b')
    ensures Figures(a, b, cls, crop) == Figures(a', b', cls, crop)
  {
    hide Scanned, SameIn;
    forall kind: Kind
      ensures Scanned(kind, a, b, cls, crop, crop.h, 0) == Scanned(kind, a', b', cls, crop, crop.h, 0)
    {
      SameScan(kind, a, a', b, b', cls, crop);
    }
  }

  lemma SameScan(kind: Kind, a: Image, a': Image, b: Image, b': Image, cls: Class, crop: Crop)
    requires SameIn(crop, a, a') && SameIn(crop, b, b')
    ensures Scanned(kind, a, b, cls, crop, crop.h, 0) == Scanned(kind, a', b', cls, crop, crop.h, 0)
  {
    hide CountsAs;
    assert forall x, y :: crop.Holds(x, y) ==> a(x, y) == a'(x, y) && b(x, y) == b'(x, y);
  }
}
