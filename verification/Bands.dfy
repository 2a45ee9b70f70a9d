/** Slots on the ground: `reserved_band` and `terrain_order` in
    `crates/kubernation/src/draw.rs`, and the pass of `draw_world` that uses them. */
module Bands {
  import opened Prelude
  import opened Sorting
  import opened PoolPieces
  import Coast

  function CheckedAdd(a: nat, b: nat): Option<nat> {
    if a + b <= U16_MAX then Some(a + b) else None
  }

  /** The rows of a slot that its band does not cover, clipped to the coast. */
  function ReservedBand(y: nat, h: nat, coastBottom: nat): Option<(nat, nat)> {
    match CheckedAdd(y, h)
    case None => None
    case Some(top) =>
      match CheckedAdd(y, SLOT_STRIDE)
      case None => None
      case Some(end) =>
        var bottom := if end <= coastBottom then end else coastBottom;
        if bottom > top then Some((top, bottom)) else None
  }

  /** A province or ghost standing in a slot. */
  datatype Plot = Plot(y: nat, h: nat) {
    /** It stands at the head of slot `ordinal` and is no taller than the slot. */
    ghost predicate StandsIn(ordinal: nat) {
      y == SlotRow(ordinal) && 1 <= h <= SLOT_STRIDE
    }

    predicate Owns(row: nat) {
      y <= row < y + SLOT_STRIDE
    }

    predicate InBand(row: nat) {
      y <= row < y + h
    }

    predicate InRemainder(row: nat, coastBottom: nat) {
      var r := ReservedBand(y, h, coastBottom);
      r.Some? && r.value.0 <= row < r.value.1
    }
  }

  /** A remainder is the rows below the band, within nine of the slot's head and above the coast's end;
      where nine rows do not fit 16 bits there is none. */
  lemma RemainderIs(p: Plot, coastBottom: nat, row: nat)
    ensures p.InRemainder(row, coastBottom)
      <==> p.y + 9 <= 65535 && p.y + p.h <= 65535 && p.y + p.h <= row < p.y + 9 && row < coastBottom
    ensures var r := ReservedBand(p.y, p.h, coastBottom); r.Some? ==> r.value.0 < r.value.1 <= coastBottom
  {
  }

  /** A slot's painted rows are its own, and no row is painted as both band and remainder. */
  lemma PaintedRowsAreOwned(p: Plot, coastBottom: nat, row: nat)
    requires 1 <= p.h <= SLOT_STRIDE
    ensures p.InBand(row) || p.InRemainder(row, coastBottom) ==> p.Owns(row)
    ensures !(p.InBand(row) && p.InRemainder(row, coastBottom))
  {
  }

  /** Bands and remainders of different slots never meet. */
  lemma SlotsNeverOverlap(p: Plot, q: Plot, m: nat, n: nat, coastBottom: nat, row: nat)
    requires p.StandsIn(m) && q.StandsIn(n) && m != n
    ensures !((p.InBand(row) || p.InRemainder(row, coastBottom)) && (q.InBand(row) || q.InRemainder(row, coastBottom)))
  {
    PaintedRowsAreOwned(p, coastBottom, row);
    PaintedRowsAreOwned(q, coastBottom, row);
  }

  /** Every row a slot owns north of the coast's end is painted, exactly when the end of the slot
      is a representable row or there is nothing left to paint below the band. */
  lemma SlotIsTiled(p: Plot, n: nat, coastBottom: nat)
    requires p.StandsIn(n) && coastBottom <= U16_MAX
    ensures (forall row: nat :: p.Owns(row) && row < coastBottom ==> p.InBand(row) || p.InRemainder(row, coastBottom))
       <==> p.y + SLOT_STRIDE <= U16_MAX || coastBottom <= p.y + p.h
  {
    if U16_MAX < p.y + SLOT_STRIDE && p.y + p.h < coastBottom {
      var row := p.y + p.h;
      assert p.Owns(row) && row < coastBottom && !p.InBand(row) && !p.InRemainder(row, coastBottom);
    }
  }

  /** The plots of a continent: its provinces, then its ghosts. */
  ghost predicate PlotsOf(cont: Coast.Continent, plots: seq<Plot>) {
    var n := |cont.provinces|;
    && |plots| == n + |cont.ghosts|
    && (forall i :: 0 <= i < n ==> plots[i].y == cont.provinces[i].y && plots[i].h == cont.provinces[i].h)
    && (forall i :: 0 <= i < |cont.ghosts| ==> plots[n + i].y == cont.ghosts[i].y && plots[n + i].h == cont.ghosts[i].h)
  }

  /** The coast of a continent ends with one of its plots, and beyond none. */
  lemma BottomIsFurthest(cont: Coast.Continent, coast: Coast.Coastline, fnv: Coast.Fnv, plots: seq<Plot>)
    returns (t: nat)
    requires PlotsOf(cont, plots) && Coast.IsCoastOf(cont, coast, fnv) && plots != []
    requires forall i :: 0 <= i < |plots| ==> 1 <= plots[i].h && cont.y <= plots[i].y
    ensures forall i :: 0 <= i < |plots| ==> plots[i].y + plots[i].h <= coast.Bottom()
    ensures t < |plots| && plots[t].y + plots[t].h == coast.Bottom()
  {
    var n := |cont.provinces|;
    forall i | 0 <= i < |plots|
      ensures plots[i].y + plots[i].h <= cont.y + coast.h
    {
      if i < n {
        assert cont.provinces[i] in cont.provinces;
      } else {
        assert cont.ghosts[i - n] in cont.ghosts;
      }
    }
    assert cont.y + coast.h >= plots[0].y + plots[0].h;
    if coast.h == 1 {
      t := 0;
    } else if p :| p in cont.provinces && coast.h == p.y + p.h - cont.y {
      t :| 0 <= t < n && cont.provinces[t] == p;
    } else {
      var g :| g in cont.ghosts && coast.h == g.y + g.h - cont.y;
      var i :| 0 <= i < |cont.ghosts| && cont.ghosts[i] == g;
      t := n + i;
      assert plots[n + i].y == cont.ghosts[i].y;
    }
  }

  /** Slots tile the ground: every row a slot owns north of its own continent's end is painted, as
      band or as remainder. The slot's end may lie past the last row there is: then nothing of the
      continent reaches below the band. */
  lemma EverySlotIsTiled(cont: Coast.Continent, coast: Coast.Coastline, fnv: Coast.Fnv,
                         plots: seq<Plot>, slots: seq<nat>, s: nat, row: nat)
    requires PlotsOf(cont, plots) && InDistinctSlots(plots, slots) && s < |plots|
    requires Coast.IsCoastOf(cont, coast, fnv) && coast.Bottom() <= U16_MAX
    requires forall i :: 0 <= i < |plots| ==> cont.y <= plots[i].y
    requires plots[s].Owns(row) && row < coast.Bottom()
    ensures plots[s].InBand(row) || plots[s].InRemainder(row, coast.Bottom())
  {
    hide Coast.IsCoastOf, PlotsOf;
    var t := BottomIsFurthest(cont, coast, fnv, plots);
    SlotIsTiled(plots[s], slots[s], coast.Bottom());
    if slots[s] < slots[t] {
      LaterSlot(slots[s], slots[t]);
    }
  }

  // ---- Paint order ---------------------------------------------------------

  datatype Band = Land(i: nat) | Ghost(i: nat) | Reserved(i: nat)

  /** The sort key: the band's top row, then its kind, then its index. */
  function Key(b: Band, provinceY: seq<nat>, ghostY: seq<nat>, reservedY: seq<nat>): (nat, nat, nat) {
    match b
    case Land(i) => (if i < |provinceY| then provinceY[i] else 0, 0, i)
    case Ghost(i) => (if i < |ghostY| then ghostY[i] else 0, 1, i)
    case Reserved(i) => (if i < |reservedY| then reservedY[i] else 0, 2, i)
  }

  predicate KeyLe(a: (nat, nat, nat), b: (nat, nat, nat)) {
    a.0 < b.0 || (a.0 == b.0 && (a.1 < b.1 || (a.1 == b.1 && a.2 <= b.2)))
  }

  /** Bands further north go first; of those with one top row, provinces before ghosts before remainders;
      and of one kind, the earlier. */
  lemma KeysAre(a: Band, b: Band, provinceY: seq<nat>, ghostY: seq<nat>, reservedY: seq<nat>)
    ensures var (ka, kb) := (Key(a, provinceY, ghostY, reservedY), Key(b, provinceY, ghostY, reservedY));
      && (a.Land? && a.i < |provinceY| ==> ka.0 == provinceY[a.i])
      && (a.Ghost? && a.i < |ghostY| ==> ka.0 == ghostY[a.i])
      && (a.Reserved? && a.i < |reservedY| ==> ka.0 == reservedY[a.i])
      && (ka.0 < kb.0 ==> KeyLe(ka, kb) && !KeyLe(kb, ka))
      && (ka.0 == kb.0 && ((a.Land? && !b.Land?) || (a.Ghost? && b.Reserved?)) ==> KeyLe(ka, kb) && !KeyLe(kb, ka))
      && (ka.0 == kb.0 && (a.Land? <==> b.Land?) && (a.Ghost? <==> b.Ghost?) ==> (KeyLe(ka, kb) <==> a.i <= b.i))
  {
  }

  function AllBands(provinces: nat, ghosts: nat, reserved: nat): seq<Band> {
    seq(provinces, (i: nat) => Land(i)) + seq(ghosts, (i: nat) => Ghost(i)) + seq(reserved, (i: nat) => Reserved(i))
  }

  function TerrainOrder(provinceY: seq<nat>, ghostY: seq<nat>, reservedY: seq<nat>): (order: seq<Band>)
    ensures multiset(order) == multiset(AllBands(|provinceY|, |ghostY|, |reservedY|))
  {
    SortBy(AllBands(|provinceY|, |ghostY|, |reservedY|),
           (a: Band, b: Band) => KeyLe(Key(a, provinceY, ghostY, reservedY), Key(b, provinceY, ghostY, reservedY)))
  }

  /** Back to front: top rows never decrease, and land goes first on a tie. */
  lemma TerrainIsBackToFront(provinceY: seq<nat>, ghostY: seq<nat>, reservedY: seq<nat>, i: nat, j: nat)
    requires i < j < |TerrainOrder(provinceY, ghostY, reservedY)|
    ensures var order := TerrainOrder(provinceY, ghostY, reservedY);
      KeyLe(Key(order[i], provinceY, ghostY, reservedY), Key(order[j], provinceY, ghostY, reservedY))
  {
    SortBySorts(AllBands(|provinceY|, |ghostY|, |reservedY|),
                (a: Band, b: Band) =>
                  KeyLe(Key(a, provinceY, ghostY, reservedY), Key(b, provinceY, ghostY, reservedY)));
  }

  /** A remainder and the plot it belongs to. */
  datatype Remainder = Remainder(owner: nat, top: nat, bottom: nat)

  /** The remainders of all plots, in plot order: `filter_map` over provinces, then ghosts. */
  function Remainders(plots: seq<Plot>, coastBottom: nat): (rs: seq<Remainder>)
    ensures forall k :: 0 <= k < |rs| ==>
      rs[k].owner < |plots| && ReservedBand(plots[rs[k].owner].y, plots[rs[k].owner].h, coastBottom)
        == Some((rs[k].top, rs[k].bottom))
    ensures forall k, l :: 0 <= k < l < |rs| ==> rs[k].owner < rs[l].owner
  {
    if plots == [] then []
    else
      var n := |plots| - 1;
      var rest := Remainders(plots[..n], coastBottom);
      match ReservedBand(plots[n].y, plots[n].h, coastBottom)
      case None => rest
      case Some(b) =>
        rest + [Remainder(n, b.0, b.1)]
  }

  /** No remainder is forgotten. */
  lemma {:induction false} RemainderListed(plots: seq<Plot>, coastBottom: nat, s: nat) returns (k: nat)
    requires s < |plots| && ReservedBand(plots[s].y, plots[s].h, coastBottom).Some?
    ensures k < |Remainders(plots, coastBottom)| && Remainders(plots, coastBottom)[k].owner == s
  {
    var n := |plots| - 1;
    if s == n {
      k := |Remainders(plots[..n], coastBottom)|;
    } else {
      k := RemainderListed(plots[..n], coastBottom, s);
    }
  }

  function Tops(plots: seq<Plot>): (r: seq<nat>)
    ensures |r| == |plots|
  {
    seq(|plots|, i requires 0 <= i < |plots| => plots[i].y)
  }

  function RemainderTops(rs: seq<Remainder>): (r: seq<nat>)
    ensures |r| == |rs|
  {
    seq(|rs|, i requires 0 <= i < |rs| => rs[i].top)
  }

  /** One continent's terrain pass. */
  function TerrainPass(provinces: seq<Plot>, ghosts: seq<Plot>, coastBottom: nat): seq<Band> {
    TerrainOrder(Tops(provinces), Tops(ghosts), RemainderTops(Remainders(provinces + ghosts, coastBottom)))
  }

  ghost predicate InDistinctSlots(plots: seq<Plot>, slots: seq<nat>) {
    && |slots| == |plots|
    && (forall i :: 0 <= i < |plots| ==> plots[i].StandsIn(slots[i]))
    && (forall i, j :: 0 <= i < j < |plots| ==> slots[i] != slots[j])
  }

  /** The band that paints plot number `s` of provinces followed by ghosts. */
  function BandOf(s: nat, provinces: nat): Band {
    if s < provinces then Land(s) else Ghost(s - provinces)
  }

  /** Every plot and every remainder is painted exactly once; a remainder is painted after its
      own band, and before the band and the remainder of every slot further south. */
  lemma RemainderPaintsBetween(provinces: seq<Plot>, ghosts: seq<Plot>, slots: seq<nat>, coastBottom: nat, k: nat,
                               t: nat, i: nat, j: nat)
    requires InDistinctSlots(provinces + ghosts, slots)
    requires k < |Remainders(provinces + ghosts, coastBottom)|
    requires i < |TerrainPass(provinces, ghosts, coastBottom)| && j < |TerrainPass(provinces, ghosts, coastBottom)|
    requires TerrainPass(provinces, ghosts, coastBottom)[i] == Reserved(k)
    ensures var pass := TerrainPass(provinces, ghosts, coastBottom);
      var rs := Remainders(provinces + ghosts, coastBottom);
      var s := rs[k].owner;
      && (pass[j] == BandOf(s, |provinces|) ==> j < i)
      && (t < |slots| && slots[s] < slots[t] && pass[j] == BandOf(t, |provinces|) ==> i < j)
      && (t < |rs| && slots[s] < slots[rs[t].owner] && pass[j] == Reserved(t) ==> i < j)
  {
    hide Remainders, TerrainOrder, Tops, RemainderTops;
    var plots := provinces + ghosts;
    var rs := Remainders(plots, coastBottom);
    var (py, gy, ry) := (Tops(provinces), Tops(ghosts), RemainderTops(rs));
    var pass := TerrainOrder(py, gy, ry);
    var s := rs[k].owner;
    RemainderBelow(plots[s], slots[s], coastBottom);
    RemainderTop(rs, k);
    BandTop(provinces, ghosts, ry, s);
    if i < j {
      TerrainIsBackToFront(py, gy, ry, i, j);
    } else if j < i {
      TerrainIsBackToFront(py, gy, ry, j, i);
    }
    if t < |slots| && slots[s] < slots[t] {
      LaterSlot(slots[s], slots[t]);
      BandTop(provinces, ghosts, ry, t);
    }
    if t < |rs| && slots[s] < slots[rs[t].owner] {
      LaterSlot(slots[s], slots[rs[t].owner]);
      RemainderBelow(plots[rs[t].owner], slots[rs[t].owner], coastBottom);
      RemainderTop(rs, t);
    }
  }

  lemma RemainderBelow(p: Plot, n: nat, coastBottom: nat)
    requires p.StandsIn(n)
    ensures var r := ReservedBand(p.y, p.h, coastBottom); r.Some? ==> p.y < r.value.0 < SlotRow(n) + SLOT_STRIDE
  {
  }

  lemma LaterSlot(m: nat, n: nat)
    requires m < n
    ensures SlotRow(m) + SLOT_STRIDE <= SlotRow(n)
  {
  }

  lemma RemainderTop(rs: seq<Remainder>, k: nat)
    requires k < |rs|
    ensures RemainderTops(rs)[k] == rs[k].top
  {
  }

  lemma BandTop(provinces: seq<Plot>, ghosts: seq<Plot>, ry: seq<nat>, s: nat)
    requires s < |provinces + ghosts|
    ensures Key(BandOf(s, |provinces|), Tops(provinces), Tops(ghosts), ry).0 == (provinces + ghosts)[s].y
  {
  }

  /** The pass paints every plot and every remainder once, and nothing else. */
  lemma PassPaintsEachOnce(provinces: seq<Plot>, ghosts: seq<Plot>, coastBottom: nat, b: Band)
    ensures var pass := TerrainPass(provinces, ghosts, coastBottom);
      var rs := Remainders(provinces + ghosts, coastBottom);
      var there := match b
                   case Land(i) => i < |provinces|
                   case Ghost(i) => i < |ghosts|
                   case Reserved(i) => i < |rs|;
      multiset(pass)[b] == if there then 1 else 0
  {
    hide Remainders, TerrainOrder;
    BandListedOnce(|provinces|, |ghosts|, |Remainders(provinces + ghosts, coastBottom)|, b);
  }

  lemma BandListedOnce(provinces: nat, ghosts: nat, reserved: nat, b: Band)
    ensures var there := match b
                         case Land(i) => i < provinces
                         case Ghost(i) => i < ghosts
                         case Reserved(i) => i < reserved;
      multiset(AllBands(provinces, ghosts, reserved))[b] == if there then 1 else 0
  {
    var all := AllBands(provinces, ghosts, reserved);
    DistinctByMultiset(all);
    assert b in all <==> b in multiset(all);
    var k := match b case Land(i) => i case Ghost(i) => provinces + i case Reserved(i) => provinces + ghosts + i;
    assert k < |all| && all[k] == b ==> b in all;
    assert Distinct(all);
  }
}
