/** Pairing settlements across two frames, the core of `report_movement` in
    `hack/churn/compare.py`. */
module Movement {
  import opened Prelude
  import opened Frames
  import opened Boxes
  import opened Blobs
  import opened Components

  type Point = (int, int)

  /** The middle of a box, to the left of and above the true one where that is no pixel. */
  function Mid(b: Box): (p: Point)
    ensures 2 * p.0 <= b.x0 + b.x1 <= 2 * p.0 + 1 && 2 * p.1 <= b.y0 + b.y1 <= 2 * p.1 + 1
  {
    ((b.x0 + b.x1) / 2, (b.y0 + b.y1) / 2)
  }

  /** Squared distance: it orders points as the distance does, and is below 1 exactly when the
      distance is. */
  function Dist(p: Point, q: Point): (d: nat)
    ensures d < 1 <==> p == q
  {
    var (dx, dy) := (q.0 - p.0, q.1 - p.1);
    SquareSign(dx);
    SquareSign(dy);
    dx * dx + dy * dy
  }

  /** It is the square of the distance: by Pythagoras, and the same for any move of both points. */
  lemma DistIsPythagoras(p: Point, q: Point, dx: int, dy: int)
    ensures Dist((0, 0), (3, 4)) == 25 && Dist((0, 0), (dx, 0)) == dx * dx && Dist((0, 0), (0, dy)) == dy * dy
    ensures Dist(p, q) == Dist(q, p)
    ensures Dist((p.0 + dx, p.1 + dy), (q.0 + dx, q.1 + dy)) == Dist(p, q)
  {
    var x, y := q.0 - p.0, q.1 - p.1;
    assert x * x == (-x) * (-x) && y * y == (-y) * (-y);
  }

  lemma SquareSign(x: int)
    ensures x * x >= 0 && (x * x == 0 <==> x == 0)
  {
    if x > 0 {
      assert x * x >= x;
    } else if x < 0 {
      assert x * x == (-x) * (-x) >= -x;
    }
  }

  datatype Verdict = Held | WithinProvince | AcrossProvinces | Indeterminate
  datatype Fate = Gone | Paired(to: nat, verdict: Verdict)

  datatype Counts = Counts(held: nat, movedIn: nat, movedAcross: nat, indeterminate: nat, gone: nat)

  /** What the component vote reads at a point. */
  ghost predicate Reads(m: LandMap, p: Point, v: nat) {
    m.step > 0 && |m.labels| == m.cw * m.ch &&
    var cy := (p.1 - m.top) / m.step;
    var votes := Votes(m, p.0 / m.step, cy, 5, cy + 6);
    if votes == [] then v == 0 else Wins(votes, v) && v != 0
  }

  /** The frames must agree for a verdict. */
  function Judge(sameInA: bool, sameInB: bool): (v: Verdict)
    ensures v == Indeterminate <==> sameInA != sameInB
    ensures sameInA == sameInB ==> (v == WithinProvince <==> sameInA) && (v == AcrossProvinces <==> !sameInA)
  {
    if sameInA && sameInB then WithinProvince
    else if !sameInA && !sameInB then AcrossProvinces
    else Indeterminate
  }

  /** The verdict on a move from `p` to `q`: component numbers are compared within one frame's
      labelling only. */
  ghost predicate JudgedBy(compA: LandMap, compB: LandMap, p: Point, q: Point, verdict: Verdict) {
    exists ap, aq, bp, bq :: && Reads(compA, p, ap) && Reads(compA, q, aq) && Reads(compB, p, bp) && Reads(compB, q, bq)
                             && verdict == Judge(ap == aq, bp == bq)
  }

  /** `k` was taken by an earlier settlement. */
  ghost predicate Taken(fates: seq<Fate>, i: nat, k: nat) {
    exists j :: 0 <= j < i && j < |fates| && fates[j].Paired? && fates[j].to == k
  }

  /** Settlement i took the nearest one left, the lowest-numbered of several. */
  ghost predicate TookNearest(a: seq<Point>, b: seq<Point>, fates: seq<Fate>, i: nat, k: nat)
    requires i < |a|
  {
    && k < |b| && !Taken(fates, i, k)
    && forall l :: 0 <= l < |b| && !Taken(fates, i, l) ==>
         Dist(a[i], b[k]) < Dist(a[i], b[l]) || (Dist(a[i], b[k]) == Dist(a[i], b[l]) && k <= l)
  }

  /** The pairing of frame A's settlements, in order, with frame B's. */
  ghost predicate Pairing(a: seq<Point>, b: seq<Point>, fates: seq<Fate>) {
    && |fates| <= |a|
    && (forall i :: 0 <= i < |fates| ==> (fates[i].Gone? <==> forall k :: 0 <= k < |b| ==> Taken(fates, i, k)))
    && (forall i :: 0 <= i < |fates| && fates[i].Paired? ==> TookNearest(a, b, fates, i, fates[i].to))
    && (forall i :: 0 <= i < |fates| && fates[i].Paired? ==> (fates[i].verdict == Held <==> a[i] == b[fates[i].to]))
  }

  ghost function Tally(fates: seq<Fate>): Counts {
    if fates == [] then Counts(0, 0, 0, 0, 0)
    else Bump(Tally(fates[..|fates| - 1]), fates[|fates| - 1])
  }

  function Bump(c: Counts, f: Fate): Counts {
    match f
    case Gone => c.(gone := c.gone + 1)
    case Paired(_, Held) => c.(held := c.held + 1)
    case Paired(_, WithinProvince) => c.(movedIn := c.movedIn + 1)
    case Paired(_, AcrossProvinces) => c.(movedAcross := c.movedAcross + 1)
    case Paired(_, Indeterminate) => c.(indeterminate := c.indeterminate + 1)
  }

  /** The settlements that this became of. */
  ghost function Whose(fates: seq<Fate>, fate: Option<Verdict>): set<int> {
    set i | 0 <= i < |fates| && (match fate case None => fates[i].Gone?
                                            case Some(v) => fates[i].Paired? && fates[i].verdict == v)
  }

  lemma OneMoreFate(fates: seq<Fate>, fate: Option<Verdict>)
    requires fates != []
    ensures var n := |fates| - 1;
      |Whose(fates, fate)| == |Whose(fates[..n], fate)| + if n in Whose(fates, fate) then 1 else 0
  {
    var n := |fates| - 1;
    assert Whose(fates, fate) == Whose(fates[..n], fate) + if n in Whose(fates, fate) then {n} else {};
  }

  /** Each count is the number of settlements with that fate. */
  lemma {:induction false} CountsAre(fates: seq<Fate>)
    ensures Tally(fates) == Counts(|Whose(fates, Some(Held))|, |Whose(fates, Some(WithinProvince))|,
                                   |Whose(fates, Some(AcrossProvinces))|, |Whose(fates, Some(Indeterminate))|,
                                   |Whose(fates, None)|)
  {
    if fates != [] {
      CountsAre(fates[..|fates| - 1]);
      OneMoreFate(fates, Some(Held));
      OneMoreFate(fates, Some(WithinProvince));
      OneMoreFate(fates, Some(AcrossProvinces));
      OneMoreFate(fates, Some(Indeterminate));
      OneMoreFate(fates, None);
    }
  }

  function Mids(s: seq<Box>): (r: seq<Point>)
    ensures |r| == |s|
  {
    seq(|s|, i requires 0 <= i < |s| => Mid(s[i]))
  }

  /** The pairing loop. `unpaired` lists frame B's settlements that nothing was paired with. */
  method PairSettlements(sa: seq<Box>, sb: seq<Box>, compA: LandMap, compB: LandMap)
    returns (fates: seq<Fate>, counts: Counts, unpaired: seq<nat>)
    requires compA.step > 0 && |compA.labels| == compA.cw * compA.ch
    requires compB.step > 0 && |compB.labels| == compB.cw * compB.ch
    ensures |fates| == |sa| && Pairing(Mids(sa), Mids(sb), fates) && counts == Tally(fates)
    ensures forall i :: 0 <= i < |fates| && fates[i].Paired? && fates[i].verdict != Held ==>
      fates[i].to < |sb| && JudgedBy(compA, compB, Mid(sa[i]), Mid(sb[fates[i].to]), fates[i].verdict)
    ensures forall k: nat :: k in unpaired <==> k < |sb| && !Taken(fates, |fates|, k)
    ensures forall i, j :: 0 <= i < j < |unpaired| ==> unpaired[i] < unpaired[j]
  {
    hide Dist, Pairing, TookNearest, JudgedBy, Taken;
    ghost var a, b := Mids(sa), Mids(sb);
    fates, counts := [], Counts(0, 0, 0, 0, 0);
    var used: set<nat> := {};
    NobodyPaired(a, b);
    for i := 0 to |sa|
      invariant |fates| == i && Pairing(a, b, fates) && counts == Tally(fates)
      invariant forall k: nat :: k in used <==> Taken(fates, i, k)
      invariant forall j :: 0 <= j < i && fates[j].Paired? && fates[j].verdict != Held ==>
        fates[j].to < |sb| && JudgedBy(compA, compB, a[j], b[fates[j].to], fates[j].verdict)
    {
      var p := Mid(sa[i]);
      var best := Nearest(p, sb, used);
      var fate := Gone;
      if best.Some? {
        var q := Mid(sb[best.value]);
        var verdict := Held;
        if Dist(p, q) >= 1 {
          verdict := JudgeMove(compA, compB, p, q);
        }
        fate := Paired(best.value, verdict);
        used := used + {best.value};
        NearestIsTook(a, b, fates, i, best.value);
      }
      AddFate(a, b, fates, fate);
      counts := Bump(counts, fate);
      assert (fates + [fate])[..i] == fates;
      fates := fates + [fate];
    }
    unpaired := Unused(|sb|, used);
  }

  lemma NobodyPaired(a: seq<Point>, b: seq<Point>)
    ensures Pairing(a, b, []) && forall k: nat :: !Taken([], 0, k)
  {
  }

  lemma NearestIsTook(a: seq<Point>, b: seq<Point>, fates: seq<Fate>, i: nat, k: nat)
    requires i < |a| && k < |b| && !Taken(fates, i, k)
    requires forall l: nat :: l < |b| && !Taken(fates, i, l) ==>
      Dist(a[i], b[k]) < Dist(a[i], b[l]) || (Dist(a[i], b[k]) == Dist(a[i], b[l]) && k <= l)
    ensures TookNearest(a, b, fates, i, k)
  {
  }

  /** The settlements that stay unpaired, in order: the NEW ones. */
  method Unused(n: nat, used: set<nat>) returns (unpaired: seq<nat>)
    ensures forall k: nat :: k in unpaired <==> k < n && k !in used
    ensures forall i, j :: 0 <= i < j < |unpaired| ==> unpaired[i] < unpaired[j]
  {
    unpaired := [];
    for k := 0 to n
      invariant forall l: nat :: l in unpaired <==> l < k && l !in used
      invariant forall i, j :: 0 <= i < j < |unpaired| ==> unpaired[i] < unpaired[j]
    {
      if k !in used {
        assert forall i :: 0 <= i < |unpaired| ==> unpaired[i] in unpaired;
        unpaired := unpaired + [k];
      }
    }
  }

  /** The verdict on a settlement that moved. */
  method JudgeMove(compA: LandMap, compB: LandMap, p: Point, q: Point) returns (verdict: Verdict)
    requires compA.step > 0 && |compA.labels| == compA.cw * compA.ch
    requires compB.step > 0 && |compB.labels| == compB.cw * compB.ch
    ensures verdict != Held && JudgedBy(compA, compB, p, q, verdict)
  {
    hide Reads;
    var ap := ReadAt(compA, p);
    var aq := ReadAt(compA, q);
    var bp := ReadAt(compB, p);
    var bq := ReadAt(compB, q);
    verdict := Judge(ap == aq, bp == bq);
  }

  method ReadAt(m: LandMap, p: Point) returns (v: nat)
    requires m.step > 0 && |m.labels| == m.cw * m.ch
    ensures Reads(m, p, v)
  {
    hide Wins, Votes;
    v := ComponentAt(m, p.0, p.1, 5);
  }

  /** The inner loop: the first unused settlement at the least distance. */
  method Nearest(p: Point, sb: seq<Box>, used: set<nat>) returns (best: Option<nat>)
    ensures best == None <==> forall k :: 0 <= k < |sb| ==> k in used
    ensures best.Some? ==> best.value < |sb| && best.value !in used
    ensures best.Some? ==> forall l :: 0 <= l < |sb| && l !in used ==>
      Dist(p, Mid(sb[best.value])) < Dist(p, Mid(sb[l])) ||
      (Dist(p, Mid(sb[best.value])) == Dist(p, Mid(sb[l])) && best.value <= l)
  {
    hide Dist;
    best := None;
    var bd := 0;
    for k := 0 to |sb|
      invariant best == None <==> forall l :: 0 <= l < k ==> l in used
      invariant best.Some? ==> best.value < k && best.value !in used && bd == Dist(p, Mid(sb[best.value]))
      invariant best.Some? ==> forall l :: 0 <= l < k && l !in used ==>
        bd < Dist(p, Mid(sb[l])) || (bd == Dist(p, Mid(sb[l])) && best.value <= l)
    {
      if k in used {
        continue;
      }
      var d := Dist(p, Mid(sb[k]));
      if best == None || d < bd {
        best, bd := Some(k), d;
      }
    }
  }

  lemma TakenEarlier(fates: seq<Fate>, fate: Fate, i: nat, k: nat)
    requires i <= |fates|
    ensures Taken(fates + [fate], i, k) <==> Taken(fates, i, k)
    ensures Taken(fates + [fate], |fates| + 1, k)
      <==> Taken(fates, |fates|, k) || fate == Paired(k, if fate.Paired? then fate.verdict else Held)
  {
    if Taken(fates, i, k) {
      var j :| 0 <= j < i && j < |fates| && fates[j].Paired? && fates[j].to == k;
      assert (fates + [fate])[j] == fates[j];
    }
    if Taken(fates, |fates|, k) {
      var j :| 0 <= j < |fates| && fates[j].Paired? && fates[j].to == k;
      assert (fates + [fate])[j] == fates[j];
    }
    if fate.Paired? && fate.to == k {
      assert (fates + [fate])[|fates|] == fate;
    }
  }

  lemma AddFate(a: seq<Point>, b: seq<Point>, fates: seq<Fate>, fate: Fate)
    requires Pairing(a, b, fates) && |fates| < |a|
    requires fate.Gone? <==> forall k :: 0 <= k < |b| ==> Taken(fates, |fates|, k)
    requires fate.Paired? ==>
      && TookNearest(a, b, fates, |fates|, fate.to)
      && (fate.verdict == Held <==> a[|fates|] == b[fate.to])
    ensures Pairing(a, b, fates + [fate])
    ensures forall k ::
      Taken(fates + [fate], |fates| + 1, k) <==> Taken(fates, |fates|, k) || (fate.Paired? && fate.to == k)
  {
    hide Dist, Taken;
    forall i: nat, k | i <= |fates| { TakenEarlier(fates, fate, i, k); }
  }

  // ---- What the report adds up to ------------------------------------------

  /** Every settlement of frame A is reported exactly once. */
  lemma {:induction false} EveryoneReported(fates: seq<Fate>)
    ensures var c := Tally(fates); c.held + c.movedIn + c.movedAcross + c.indeterminate + c.gone == |fates|
  {
    if fates != [] {
      EveryoneReported(fates[..|fates| - 1]);
    }
  }

  /** When both frames have the same settlements, in whatever order each list names them, every
      one is held by its own counterpart: boxes that are apart never share a midpoint. */
  lemma {:induction false} NothingMoves(sa: seq<Box>, sb: seq<Box>, perm: seq<nat>, fates: seq<Fate>, n: nat)
    requires Apart(sb, CHIP_GAP) && (forall b :: b in sb ==> b.x0 <= b.x1 && b.y0 <= b.y1) && Matches(perm, sa, sb)
    requires Pairing(Mids(sa), Mids(sb), fates) && n <= |fates|
    ensures forall i :: 0 <= i < n ==> fates[i] == Paired(perm[i], Held)
  {
    if n > 0 {
      var i, a, b := n - 1, Mids(sa), Mids(sb);
      NothingMoves(sa, sb, perm, fates, i);
      var k := perm[i];
      assert !Taken(fates, i, k);
      assert fates[i].Paired? && TookNearest(a, b, fates, i, fates[i].to);
      var to := fates[i].to;
      assert Dist(a[i], b[to]) <= Dist(a[i], b[k]) == 0;
      if k < to {
        MidsDiffer(sb, k, to);
      } else if to < k {
        MidsDiffer(sb, to, k);
      }
    }
  }

  lemma MidsDiffer(boxes: seq<Box>, i: nat, j: nat)
    requires Apart(boxes, CHIP_GAP) && i < j < |boxes|
    requires forall b :: b in boxes ==> b.x0 <= b.x1 && b.y0 <= b.y1
    ensures Mid(boxes[i]) != Mid(boxes[j])
  {
    var p, q := boxes[i], boxes[j];
    assert !Near(p, q, CHIP_GAP);
    assert p.x0 <= (p.x0 + p.x1) / 2 <= p.x1 && q.x0 <= (q.x0 + q.x1) / 2 <= q.x1;
    assert p.y0 <= (p.y0 + p.y1) / 2 <= p.y1 && q.y0 <= (q.y0 + q.y1) / 2 <= q.y1;
  }

  lemma GroupedAreProper(items: seq<Box>, owner: seq<nat>, boxes: seq<Box>)
    requires Grouped(items, owner, boxes) && forall b :: b in items ==> b.x0 <= b.x1 && b.y0 <= b.y1
    ensures forall b :: b in boxes ==> b.x0 <= b.x1 && b.y0 <= b.y1
  {
    forall a | 0 <= a < |boxes|
      ensures boxes[a].x0 <= boxes[a].x1 && boxes[a].y0 <= boxes[a].y1
    {
      assert LeastAt(items, owner, a, boxes[a]);
      var i :| Owns(items, owner, a, i);
      assert items[i] in items;
    }
  }

  /** Two frames that show the same settlements report every one of them held, and none gone. */
  lemma SameSettlementsAllHeld(image: Image, crop: Crop, image': Image, crop': Crop, sa: seq<Box>, sb: seq<Box>,
                               fates: seq<Fate>)
    requires SettlementsOf(image, crop, sa) && SettlementsOf(image', crop', sb) && SameUpToOrder(sa, sb)
    requires |fates| == |sa| && Pairing(Mids(sa), Mids(sb), fates)
    ensures forall f :: f in fates ==> f.Paired? && f.verdict == Held
  {
    hide Unsplittable, Pairing, Matches;
    SettlementsAreProper(image', crop', sb);
    var perm :| Matches(perm, sa, sb);
    NothingMoves(sa, sb, perm, fates, |fates|);
  }

  lemma SettlementsAreProper(image: Image, crop: Crop, boxes: seq<Box>)
    requires SettlementsOf(image, crop, boxes)
    ensures Apart(boxes, CHIP_GAP) && forall b :: b in boxes ==> b.x0 <= b.x1 && b.y0 <= b.y1
  {
    hide Unsplittable;
    var blobs, owner :| BlobsOf(image, IsSettlement, crop, BLOB_GAP, blobs) && Finest(blobs, owner, boxes, CHIP_GAP);
    var runs, runOwner :| AllRuns(image, IsSettlement, crop, runs) && Finest(runs, runOwner, blobs, BLOB_GAP);
    assert forall b :: b in runs ==> IsRun(image, IsSettlement, crop, b);
    GroupedAreProper(runs, runOwner, blobs);
    GroupedAreProper(blobs, owner, boxes);
  }
}
