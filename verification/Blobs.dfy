/** `blobs` and `settlements` of `hack/churn/compare.py`: the maximal runs of class pixels, row
    by row, and the boxes they merge into. */
module Blobs {
  import opened Prelude
  import opened Frames
  import opened Boxes
  import opened Sorting

  // ---- Runs ----------------------------------------------------------------

  /** A maximal run of class pixels within one row of the crop. */
  ghost predicate IsRun(image: Image, cls: Class, crop: Crop, r: Box) {
    && r.y0 == r.y1 && crop.top <= r.y0 < crop.h && 0 <= r.x0 <= r.x1 < crop.keep
    && (forall x :: r.x0 <= x <= r.x1 ==> cls(image(x, r.y0)))
    && (0 < r.x0 ==> !cls(image(r.x0 - 1, r.y0)))
    && (r.x1 + 1 < crop.keep ==> !cls(image(r.x1 + 1, r.y0)))
  }

  predicate Precedes(r: Box, s: Box) {
    r.y0 < s.y0 || (r.y0 == s.y0 && r.x0 < s.x0)
  }

  /** `runs` lists, in scan order and once each, exactly the runs that end before (x, y). */
  ghost predicate RunsBefore(image: Image, cls: Class, crop: Crop, runs: seq<Box>, y: int, x: int) {
    && (forall r :: r in runs <==> IsRun(image, cls, crop, r) && (r.y0 < y || (r.y0 == y && r.x1 < x)))
    && (forall a, b :: 0 <= a < b < |runs| ==> Precedes(runs[a], runs[b]))
  }

  /** `runs` lists every run of the crop once. */
  ghost predicate AllRuns(image: Image, cls: Class, crop: Crop, runs: seq<Box>) {
    RunsBefore(image, cls, crop, runs, crop.h, 0)
  }

  /** No run is open just before column x. */
  ghost predicate Between(image: Image, cls: Class, y: int, x: int) {
    0 < x ==> !cls(image(x - 1, y))
  }

  lemma SkipPixel(image: Image, cls: Class, crop: Crop, runs: seq<Box>, y: int, x: int)
    requires RunsBefore(image, cls, crop, runs, y, x) && !cls(image(x, y))
    ensures RunsBefore(image, cls, crop, runs, y, x + 1)
  {
  }

  lemma AddRun(image: Image, cls: Class, crop: Crop, runs: seq<Box>, y: int, x0: int, x: int)
    requires RunsBefore(image, cls, crop, runs, y, x0) && Between(image, cls, y, x0)
    requires IsRun(image, cls, crop, Box(x0, x - 1, y, y))
    ensures RunsBefore(image, cls, crop, runs + [Box(x0, x - 1, y, y)], y, x)
  {
    var run := Box(x0, x - 1, y, y);
    forall r | IsRun(image, cls, crop, r) && r.y0 == y && x0 <= r.x1 < x
      ensures r == run
    {
      assert r.x1 + 1 < x ==> cls(image(r.x1 + 1, y));
      assert x0 < r.x0 ==> cls(image(r.x0 - 1, y));
      assert r.x0 < x0 ==> cls(image(x0 - 1, y));
    }
  }

  lemma EndOfRow(image: Image, cls: Class, crop: Crop, runs: seq<Box>, y: int)
    requires RunsBefore(image, cls, crop, runs, y, Max(crop.keep, 0))
    ensures RunsBefore(image, cls, crop, runs, y + 1, 0)
  {
  }

  /** Every class pixel lies in a run. */
  lemma PixelInRun(image: Image, cls: Class, crop: Crop, x: int, y: int) returns (r: Box)
    requires crop.Holds(x, y) && cls(image(x, y))
    ensures IsRun(image, cls, crop, r) && r.y0 == y && r.x0 <= x <= r.x1
  {
    var x0, x1 := x, x;
    while 0 < x0 && cls(image(x0 - 1, y))
      invariant 0 <= x0 <= x && forall i :: x0 <= i <= x ==> cls(image(i, y))
    {
      x0 := x0 - 1;
    }
    while x1 + 1 < crop.keep && cls(image(x1 + 1, y))
      invariant x <= x1 < crop.keep && forall i :: x0 <= i <= x1 ==> cls(image(i, y))
    {
      x1 := x1 + 1;
    }
    r := Box(x0, x1, y, y);
  }

  // ---- Placing a run -------------------------------------------------------

  predicate Contains(b: Box, x: int, y: int) {
    b.x0 <= x <= b.x1 && b.y0 <= y <= b.y1
  }

  lemma JoinBox(runs: seq<Box>, owner: seq<nat>, boxes: seq<Box>, gap: Gap, run: Box, k: nat)
    requires Merging(runs, owner, boxes, gap) && k < |boxes| && Near(run, boxes[k], gap)
    ensures Merging(runs + [run], Relabel(owner + [|boxes|], k, |boxes|), boxes[k := Hull(boxes[k], run)], gap)
  {
    hide Merging;
    AddItem(runs, owner, boxes, gap, run);
    var extended := boxes + [run];
    MergeOnce(runs + [run], owner + [|boxes|], extended, gap, k, |boxes|);
    assert Absorb(extended, k, |boxes|, Hull(extended[k], extended[|boxes|])) == boxes[k := Hull(boxes[k], run)];
  }

  ghost predicate IsFirstNear(run: Box, boxes: seq<Box>, k: nat, gap: Gap)
    requires k < |boxes|
  {
    Near(run, boxes[k], gap) && forall j :: 0 <= j < k ==> !Near(run, boxes[j], gap)
  }

  /** A run joins the first box it is near, or starts a box of its own. */
  method Place(boxes0: seq<Box>, run: Box, gap: Gap, ghost runs: seq<Box>, ghost owner0: seq<nat>)
    returns (boxes: seq<Box>, ghost owner: seq<nat>)
    requires Merging(runs, owner0, boxes0, gap)
    ensures Merging(runs + [run], owner, boxes, gap)
    ensures (forall k :: 0 <= k < |boxes0| ==> !Near(run, boxes0[k], gap)) ==> boxes == boxes0 + [run]
    ensures forall k :: 0 <= k < |boxes0| && IsFirstNear(run, boxes0, k, gap) ==>
      boxes == boxes0[k := Hull(boxes0[k], run)]
  {
    hide Merging;
    for k := 0 to |boxes0|
      invariant forall j :: 0 <= j < k ==> !Near(run, boxes0[j], gap)
    {
      var bx := boxes0[k];
      if Near(run, bx, gap) {
        JoinBox(runs, owner0, boxes0, gap, run, k);
        return boxes0[k := Hull(bx, run)], Relabel(owner0 + [|boxes0|], k, |boxes0|);
      }
    }
    AddItem(runs, owner0, boxes0, gap, run);
    return boxes0 + [run], owner0 + [|boxes0|];
  }

  // ---- The scan ------------------------------------------------------------

  /** The boxes are those of the finest grouping of the crop's runs in which boxes are pairwise
      farther apart than the gap. */
  ghost predicate BlobsOf(image: Image, cls: Class, crop: Crop, gap: Gap, boxes: seq<Box>) {
    exists runs, owner :: AllRuns(image, cls, crop, runs) && Finest(runs, owner, boxes, gap)
  }

  /** `blobs`: scan every row, then merge until nothing is near anything. */
  method BlobBoxes(f: Frame, rightMargin: nat, top: nat, cls: Class, gap: int) returns (boxes: seq<Box>)
    requires f.Valid()
    ensures BlobsOf(Colours(f), cls, CropOf(f, rightMargin, top), Gap(gap, gap), boxes)
  {
    hide Merging, Finest, RunsBefore;
    ghost var image, crop := Colours(f), CropOf(f, rightMargin, top);
    var keep := f.w - rightMargin;
    ghost var runs: seq<Box>, owner: seq<nat> := [], [];
    boxes := [];
    NoRunsYet(image, cls, crop, Gap(gap, gap));
    var y := top;
    while y < f.h
      invariant top <= y
      invariant y <= f.h ==> RunsBefore(image, cls, crop, runs, y, 0)
      invariant f.h < y ==> runs == [] && y == top
      invariant Merging(runs, owner, boxes, Gap(gap, gap))
    {
      boxes, runs, owner := ScanRow(f, keep, y, cls, gap, boxes, crop, runs, owner);
      EndOfRow(image, cls, crop, runs, y);
      y := y + 1;
    }
    RowsDone(image, cls, crop, runs, y);
    boxes := MergeToFixpoint(boxes, Gap(gap, gap), runs, owner);
  }

  lemma NoRunsYet(image: Image, cls: Class, crop: Crop, gap: Gap)
    ensures RunsBefore(image, cls, crop, [], crop.top, 0)
    ensures Merging([], [], [], gap)
  {
    NoItems(gap);
  }

  lemma RowsDone(image: Image, cls: Class, crop: Crop, runs: seq<Box>, y: int)
    requires crop.top <= y && crop.h <= y
    requires if crop.h < y then runs == [] && y == crop.top else RunsBefore(image, cls, crop, runs, y, 0)
    ensures AllRuns(image, cls, crop, runs)
  {
  }

  /** One row of the scan: skip to a class pixel, run to its end, place the run. */
  method ScanRow(f: Frame, keep: int, y: nat, cls: Class, gap: int, boxes0: seq<Box>,
                 ghost crop: Crop, ghost runs0: seq<Box>, ghost owner0: seq<nat>)
    returns (boxes: seq<Box>, ghost runs: seq<Box>, ghost owner: seq<nat>)
    requires f.Valid() && keep == crop.keep <= f.w && crop.top <= y < f.h == crop.h
    requires RunsBefore(Colours(f), cls, crop, runs0, y, 0) && Merging(runs0, owner0, boxes0, Gap(gap, gap))
    ensures RunsBefore(Colours(f), cls, crop, runs, y, Max(keep, 0)) && Merging(runs, owner, boxes, Gap(gap, gap))
  {
    hide Merging, RunsBefore;
    boxes, runs, owner := boxes0, runs0, owner0;
    ghost var image := Colours(f);
    var x := 0;
    while x < keep
      invariant 0 <= x <= Max(keep, 0)
      invariant Between(image, cls, y, x) || x == keep || !cls(image(x, y))
      invariant RunsBefore(image, cls, crop, runs, y, x)
      invariant Merging(runs, owner, boxes, Gap(gap, gap))
    {
      if !cls(f.Pixel(x, y)) {
        SkipPixel(image, cls, crop, runs, y, x);
        x := x + 1;
      } else {
        var x0 := x;
        while x < keep && cls(f.Pixel(x, y))
          invariant x0 <= x <= keep && (x == x0 ==> cls(image(x, y)))
          invariant forall i :: x0 <= i < x ==> cls(image(i, y))
        {
          x := x + 1;
        }
        var run := Box(x0, x - 1, y, y);
        AddRun(image, cls, crop, runs, y, x0, x);
        boxes, owner := Place(boxes, run, Gap(gap, gap), runs, owner);
        runs := runs + [run];
      }
    }
  }

  /** Nothing of the class is lost: every class pixel of the crop is in a box. */
  lemma ClassPixelsCovered(image: Image, cls: Class, crop: Crop, gap: Gap, boxes: seq<Box>, x: int, y: int)
    requires BlobsOf(image, cls, crop, gap, boxes) && crop.Holds(x, y) && cls(image(x, y))
    ensures exists b :: b in boxes && Contains(b, x, y)
  {
    var runs, owner :| AllRuns(image, cls, crop, runs) && Finest(runs, owner, boxes, gap);
    var r := PixelInRun(image, cls, crop, x, y);
    assert r in runs;
    var i :| 0 <= i < |runs| && runs[i] == r;
    assert Within(runs[i], boxes[owner[i]]);
    assert boxes[owner[i]] in boxes && Contains(boxes[owner[i]], x, y);
  }

  /** The boxes are a function of the picture: any two answers agree up to order. */
  lemma BlobsAreDetermined(image: Image, cls: Class, crop: Crop, gap: Gap, boxes: seq<Box>, boxes': seq<Box>)
    requires BlobsOf(image, cls, crop, gap, boxes) && BlobsOf(image, cls, crop, gap, boxes')
    ensures SameUpToOrder(boxes, boxes')
  {
    var runs, owner :| AllRuns(image, cls, crop, runs) && Finest(runs, owner, boxes, gap);
    var runs', owner' :| AllRuns(image, cls, crop, runs') && Finest(runs', owner', boxes', gap);
    OneAscendingOrder(runs, runs', Precedes);
    FinestIsUnique(runs, owner, boxes, owner', boxes', gap);
  }

  // ---- Settlements ---------------------------------------------------------

  const BLOB_GAP: Gap := Gap(6, 6)
  const CHIP_GAP: Gap := Gap(4, 35)

  /** Which boxes are merged: into a blob, those with at most 6 px from edge to edge both ways; into a
      settlement, blobs that overlap in x or miss by at most 4 px, and in y by at most 35. */
  lemma GapsAre(p: Box, q: Box)
    requires p.x0 <= p.x1 && p.y0 <= p.y1 && q.x0 <= q.x1 && q.y0 <= q.y1
    ensures Near(p, q, BLOB_GAP) <==> Max(p.x0, q.x0) - Min(p.x1, q.x1) <= 6 && Max(p.y0, q.y0) - Min(p.y1, q.y1) <= 6
    ensures Near(p, q, CHIP_GAP) <==> Max(p.x0, q.x0) - Min(p.x1, q.x1) <= 4 && Max(p.y0, q.y0) - Min(p.y1, q.y1) <= 35
  {
  }

  /** The settlements are the finest grouping of the parchment blobs that leaves no banner beside
      another's chip: boxes overlapping in x to within 4 px are more than 35 px apart in y. */
  ghost predicate SettlementsOf(image: Image, crop: Crop, boxes: seq<Box>) {
    exists blobs, owner :: BlobsOf(image, IsSettlement, crop, BLOB_GAP, blobs) && Finest(blobs, owner, boxes, CHIP_GAP)
  }

  /** So are the settlements, though the blobs may be listed in any order. */
  lemma SettlementsAreDetermined(image: Image, crop: Crop, boxes: seq<Box>, boxes': seq<Box>)
    requires SettlementsOf(image, crop, boxes) && SettlementsOf(image, crop, boxes')
    ensures SameUpToOrder(boxes, boxes')
  {
    hide Finest, Matches, BlobsOf;
    var blobs, owner :| BlobsOf(image, IsSettlement, crop, BLOB_GAP, blobs) && Finest(blobs, owner, boxes, CHIP_GAP);
    var blobs', owner' :| BlobsOf(image, IsSettlement, crop, BLOB_GAP, blobs')
      && Finest(blobs', owner', boxes', CHIP_GAP);
    BlobsAreDetermined(image, IsSettlement, crop, BLOB_GAP, blobs', blobs);
    var perm :| Matches(perm, blobs', blobs);
    SameFinest(blobs, owner, boxes, blobs', owner', boxes', perm, CHIP_GAP);
  }

  lemma SameFinest(items: seq<Box>, owner: seq<nat>, boxes: seq<Box>, items': seq<Box>, owner': seq<nat>,
                   boxes': seq<Box>, perm: seq<nat>, gap: Gap)
    requires Finest(items, owner, boxes, gap) && Finest(items', owner', boxes', gap) && Matches(perm, items', items)
    ensures SameUpToOrder(boxes, boxes')
  {
    FinestPermuted(items, owner, boxes, gap, items', perm);
    hide Grouped, Unsplittable, Apart;
    FinestIsUnique(items', Permuted(owner, perm), boxes, owner', boxes', gap);
  }

  /** `settlements`: the parchment blobs, merged again under the anisotropic gaps. */
  method Settlements(f: Frame, rightMargin: nat, top: nat) returns (bs: seq<Box>)
    requires f.Valid()
    ensures SettlementsOf(Colours(f), CropOf(f, rightMargin, top), bs)
    ensures Apart(bs, CHIP_GAP)
  {
    hide Merging;
    var blobs := BlobBoxes(f, rightMargin, top, IsSettlement, 6);
    Alone(blobs, |blobs|, CHIP_GAP);
    assert blobs[..|blobs|] == blobs;
    bs := MergeToFixpoint(blobs, CHIP_GAP, blobs, Identity(|blobs|));
  }
}
