/** Bounding boxes that merge when they are close, as `blobs` and `settlements` of
    `hack/churn/compare.py` merge them: the merge system, what it converges to, and the
    deleting-while-iterating loop that runs it. */
module Boxes {
  import opened Prelude

  datatype Box = Box(x0: int, x1: int, y0: int, y1: int)

  /** How far apart two boxes may be and still merge. */
  datatype Gap = Gap(x: int, y: int)

  predicate Near(p: Box, q: Box, gap: Gap) {
    && p.x0 <= q.x1 + gap.x
    && p.x1 >= q.x0 - gap.x
    && p.y0 <= q.y1 + gap.y
    && p.y1 >= q.y0 - gap.y
  }

  function Hull(p: Box, q: Box): Box {
    Box(Min(p.x0, q.x0), Max(p.x1, q.x1), Min(p.y0, q.y0), Max(p.y1, q.y1))
  }

  predicate Within(p: Box, q: Box) {
    q.x0 <= p.x0 && p.x1 <= q.x1 && q.y0 <= p.y0 && p.y1 <= q.y1
  }

  // ---- Grouping items into boxes -------------------------------------------

  /** Item i lies in the box numbered `owner[i]`. */
  ghost predicate Assigned(items: seq<Box>, owner: seq<nat>, boxes: seq<Box>) {
    && |items| <= |owner|
    && forall i :: 0 <= i < |items| ==> owner[i] < |boxes| && Within(items[i], boxes[owner[i]])
  }

  ghost predicate Owns(items: seq<Box>, owner: seq<nat>, a: nat, i: int) {
    0 <= i < |items| <= |owner| && owner[i] == a
  }

  ghost predicate HoldsAll(items: seq<Box>, owner: seq<nat>, a: nat, region: Box) {
    forall i :: Owns(items, owner, a, i) ==> Within(items[i], region)
  }

  /** Box number `a` owns something, and `box` is the least region that holds all it owns. */
  ghost predicate LeastAt(items: seq<Box>, owner: seq<nat>, a: nat, box: Box) {
    && (exists i :: Owns(items, owner, a, i))
    && HoldsAll(items, owner, a, box)
    && (forall region :: HoldsAll(items, owner, a, region) ==> Within(box, region))
  }

  /** `owner` partitions the items, and `boxes` are the bounding boxes of its classes. */
  ghost predicate Grouped(items: seq<Box>, owner: seq<nat>, boxes: seq<Box>) {
    && |owner| == |items|
    && Assigned(items, owner, boxes)
    && forall a :: 0 <= a < |boxes| ==> LeastAt(items, owner, a, boxes[a])
  }

  ghost predicate Apart(boxes: seq<Box>, gap: Gap) {
    forall a, b :: 0 <= a < b < |boxes| ==> !Near(boxes[a], boxes[b], gap)
  }

  /** Items that `fine` puts together are together in `coarse`. */
  ghost predicate Refines(items: seq<Box>, fine: seq<nat>, coarse: seq<nat>) {
    forall i, j :: 0 <= i < |items| && 0 <= j < |items| && i < |fine| && j < |fine| && fine[i] == fine[j] ==>
      i < |coarse| && j < |coarse| && coarse[i] == coarse[j]
  }

  /** No way of covering the items by regions that are apart splits a class of `owner`. */
  ghost predicate Unsplittable(items: seq<Box>, owner: seq<nat>, gap: Gap) {
    forall colour, regions :: Assigned(items, colour, regions) && Apart(regions, gap) ==> Refines(items, owner, colour)
  }

  /** The finest grouping of the items whose boxes are pairwise apart. */
  ghost predicate Finest(items: seq<Box>, owner: seq<nat>, boxes: seq<Box>, gap: Gap) {
    Grouped(items, owner, boxes) && Apart(boxes, gap) && Unsplittable(items, owner, gap)
  }

  // ---- The finest grouping is unique ---------------------------------------

  /** A one-to-one correspondence between equal entries. */
  ghost predicate Matches<T>(perm: seq<nat>, s: seq<T>, t: seq<T>) {
    && |perm| == |s|
    && (forall a :: 0 <= a < |s| ==> perm[a] < |t| && t[perm[a]] == s[a])
    && (forall a, b :: 0 <= a < b < |s| ==> perm[a] != perm[b])
    && (forall c :: 0 <= c < |t| ==> c in perm)
  }

  ghost predicate SameUpToOrder<T>(s: seq<T>, t: seq<T>) {
    exists perm :: Matches(perm, s, t)
  }

  lemma SameBoxWithin(items: seq<Box>, owner: seq<nat>, boxes: seq<Box>, owner': seq<nat>, boxes': seq<Box>, i: nat)
    requires Grouped(items, owner, boxes) && Grouped(items, owner', boxes')
    requires Refines(items, owner, owner') && i < |items|
    ensures Within(boxes[owner[i]], boxes'[owner'[i]])
  {
    BoxInRegion(items, owner, owner[i], boxes[owner[i]], owner', boxes', i);
  }

  ghost function Member(items: seq<Box>, owner: seq<nat>, boxes: seq<Box>, a: nat): (i: nat)
    requires Grouped(items, owner, boxes) && a < |boxes|
    ensures Owns(items, owner, a, i)
  {
    assert LeastAt(items, owner, a, boxes[a]);
    var i :| Owns(items, owner, a, i); i
  }

  lemma {:induction false} WithinBothWays(p: Box, q: Box)
    requires Within(p, q) && Within(q, p)
    ensures p == q
  {
  }

  /** Groupings that refine each other have the same boxes. */
  lemma SameClassesSameBoxes(items: seq<Box>, owner: seq<nat>, boxes: seq<Box>, owner': seq<nat>, boxes': seq<Box>)
    requires Grouped(items, owner, boxes) && Grouped(items, owner', boxes')
    requires Refines(items, owner, owner') && Refines(items, owner', owner)
    ensures SameUpToOrder(boxes, boxes')
  {
    var perm: seq<nat> := seq(|boxes|, a requires 0 <= a < |boxes| => owner'[Member(items, owner, boxes, a)]);
    forall a | 0 <= a < |boxes|
      ensures perm[a] < |boxes'| && boxes'[perm[a]] == boxes[a]
    {
      var i := Member(items, owner, boxes, a);
      SameBoxWithin(items, owner, boxes, owner', boxes', i);
      SameBoxWithin(items, owner', boxes', owner, boxes, i);
      WithinBothWays(boxes[a], boxes'[perm[a]]);
    }
    forall c | 0 <= c < |boxes'|
      ensures c in perm
    {
      var i := Member(items, owner', boxes', c);
      var j := Member(items, owner, boxes, owner[i]);
      assert owner[i] == owner[j];
      assert perm[owner[i]] == c;
    }
    forall a, b | 0 <= a < b < |boxes|
      ensures perm[a] != perm[b]
    {
      var i, j := Member(items, owner, boxes, a), Member(items, owner, boxes, b);
      assert owner[i] != owner[j];
    }
    assert Matches(perm, boxes, boxes');
  }

  /** Every grouping into boxes that are apart is a coarsening of the finest one, so two finest
      groupings have the same boxes, whatever order they were found in. */
  lemma FinestIsUnique(items: seq<Box>, owner: seq<nat>, boxes: seq<Box>, owner': seq<nat>, boxes': seq<Box>, gap: Gap)
    requires Finest(items, owner, boxes, gap)
    requires Grouped(items, owner', boxes') && Apart(boxes', gap)
    ensures Refines(items, owner, owner')
    ensures Unsplittable(items, owner', gap) ==> SameUpToOrder(boxes, boxes')
  {
    if Unsplittable(items, owner', gap) {
      SameClassesSameBoxes(items, owner, boxes, owner', boxes');
    }
  }

  // ---- The order of the items does not matter ------------------------------

  /** The owners of items listed in another order. */
  function Permuted(owner: seq<nat>, perm: seq<nat>): (r: seq<nat>)
    requires forall i :: 0 <= i < |perm| ==> perm[i] < |owner|
    ensures |r| == |perm| && forall i :: 0 <= i < |perm| ==> r[i] == owner[perm[i]]
  {
    seq(|perm|, i requires 0 <= i < |perm| => owner[perm[i]])
  }

  lemma PlaceOf<T>(perm: seq<nat>, s: seq<T>, t: seq<T>, c: nat) returns (i: nat)
    requires Matches(perm, s, t) && c < |t|
    ensures i < |perm| && perm[i] == c && s[i] == t[c]
  {
    assert c in perm;
    i :| 0 <= i < |perm| && perm[i] == c;
  }

  lemma HoldsSame(items: seq<Box>, owner: seq<nat>, items': seq<Box>, perm: seq<nat>, a: nat, region: Box)
    requires |owner| == |items| && Matches(perm, items', items)
    ensures HoldsAll(items', Permuted(owner, perm), a, region) <==> HoldsAll(items, owner, a, region)
  {
    var owner' := Permuted(owner, perm);
    if HoldsAll(items', owner', a, region) {
      forall c | Owns(items, owner, a, c)
        ensures Within(items[c], region)
      {
        var i := PlaceOf(perm, items', items, c);
        assert Owns(items', owner', a, i);
      }
    }
    if HoldsAll(items, owner, a, region) {
      forall i | Owns(items', owner', a, i)
        ensures Within(items'[i], region)
      {
        assert Owns(items, owner, a, perm[i]);
      }
    }
  }

  lemma GroupedPermuted(items: seq<Box>, owner: seq<nat>, boxes: seq<Box>, items': seq<Box>, perm: seq<nat>)
    requires Grouped(items, owner, boxes) && Matches(perm, items', items)
    ensures Grouped(items', Permuted(owner, perm), boxes)
  {
    hide HoldsAll;
    var owner' := Permuted(owner, perm);
    forall a | 0 <= a < |boxes|
      ensures LeastAt(items', owner', a, boxes[a])
    {
      assert LeastAt(items, owner, a, boxes[a]);
      var c: nat :| Owns(items, owner, a, c);
      var i := PlaceOf(perm, items', items, c);
      assert Owns(items', owner', a, i);
      HoldsSame(items, owner, items', perm, a, boxes[a]);
      forall region | HoldsAll(items', owner', a, region)
        ensures Within(boxes[a], region)
      {
        HoldsSame(items, owner, items', perm, a, region);
      }
    }
  }

  /** A colouring of the items as listed gives one of the items in the other order. */
  lemma Recoloured(items: seq<Box>, items': seq<Box>, perm: seq<nat>, colour': seq<nat>, regions: seq<Box>)
    returns (colour: seq<nat>)
    requires Matches(perm, items', items) && Assigned(items', colour', regions)
    ensures Assigned(items, colour, regions) && |colour| == |items|
    ensures forall i :: 0 <= i < |items'| ==> colour[perm[i]] == colour'[i]
  {
    colour := [];
    for c := 0 to |items|
      invariant |colour| == c
      invariant forall i :: 0 <= i < |items'| && perm[i] < c ==> colour[perm[i]] == colour'[i]
      invariant forall d :: 0 <= d < c ==> colour[d] < |regions| && Within(items[d], regions[colour[d]])
    {
      var i := PlaceOf(perm, items', items, c);
      colour := colour + [colour'[i]];
    }
  }

  /** The finest grouping is one of the items, not of their order. */
  lemma FinestPermuted(items: seq<Box>, owner: seq<nat>, boxes: seq<Box>, gap: Gap, items': seq<Box>, perm: seq<nat>)
    requires Finest(items, owner, boxes, gap) && Matches(perm, items', items)
    ensures Finest(items', Permuted(owner, perm), boxes, gap)
  {
    hide Grouped, Assigned;
    GroupedPermuted(items, owner, boxes, items', perm);
    GroupedSizes(items, owner, boxes);
    var owner' := Permuted(owner, perm);
    forall colour', regions | Assigned(items', colour', regions) && Apart(regions, gap)
      ensures Refines(items', owner', colour')
    {
      AssignedSizes(items', colour', regions);
      var colour := Recoloured(items, items', perm, colour', regions);
      assert Refines(items, owner, colour);
    }
  }

  lemma GroupedSizes(items: seq<Box>, owner: seq<nat>, boxes: seq<Box>)
    requires Grouped(items, owner, boxes)
    ensures |owner| == |items|
  {
  }

  lemma AssignedSizes(items: seq<Box>, owner: seq<nat>, boxes: seq<Box>)
    requires Assigned(items, owner, boxes)
    ensures |items| <= |owner|
  {
  }

  // ---- Merging -------------------------------------------------------------

  /** Entry `at` becomes `v` and entry `gone` is deleted. */
  function Absorb<T>(s: seq<T>, at: nat, gone: nat, v: T): (r: seq<T>)
    requires at < |s| && gone < |s| && at != gone
    ensures |r| == |s| - 1
    ensures forall k :: 0 <= k < |s| && k != gone && k != at ==> r[Shift(k, gone)] == s[k]
    ensures r[Shift(at, gone)] == v
  {
    s[at := v][..gone] + s[at := v][gone + 1..]
  }

  /** Where index k lands once index `gone` is deleted. */
  function Shift(k: nat, gone: nat): nat {
    if k > gone then k - 1 else k
  }

  /** The owners after box `gone` was absorbed by box `at`. */
  function Relabel(owner: seq<nat>, at: nat, gone: nat): (r: seq<nat>)
    ensures |r| == |owner|
  {
    seq(|owner|, i requires 0 <= i < |owner| => Shift(if owner[i] == gone then at else owner[i], gone))
  }

  lemma NearIsMonotone(p: Box, q: Box, p': Box, q': Box, gap: Gap)
    requires Within(p, p') && Within(q, q') && Near(p, q, gap)
    ensures Near(p', q', gap) && Near(q', p', gap)
  {
  }

  /** A box lies in any region that all its items lie in. */
  lemma BoxInRegion(items: seq<Box>, owner: seq<nat>, a: nat, box: Box, colour: seq<nat>, regions: seq<Box>, i: nat)
    requires LeastAt(items, owner, a, box) && Assigned(items, colour, regions) && Refines(items, owner, colour)
    requires Owns(items, owner, a, i)
    ensures Within(box, regions[colour[i]])
  {
    assert HoldsAll(items, owner, a, regions[colour[i]]);
  }

  /** Two near boxes lie in the same region of every cover. */
  lemma NearBoxesShareRegion(items: seq<Box>, owner: seq<nat>, boxes: seq<Box>, gap: Gap, at: nat, gone: nat,
                             colour: seq<nat>, regions: seq<Box>, i: nat, j: nat)
    requires Grouped(items, owner, boxes) && Refines(items, owner, colour)
    requires Assigned(items, colour, regions) && Apart(regions, gap)
    requires at < |boxes| && gone < |boxes| && Near(boxes[at], boxes[gone], gap)
    requires Owns(items, owner, at, i) && Owns(items, owner, gone, j)
    ensures colour[i] == colour[j]
  {
    BoxInRegion(items, owner, at, boxes[at], colour, regions, i);
    BoxInRegion(items, owner, gone, boxes[gone], colour, regions, j);
    NearIsMonotone(boxes[at], boxes[gone], regions[colour[i]], regions[colour[j]], gap);
  }

  lemma MergedStaysUnsplittable(items: seq<Box>, owner: seq<nat>, boxes: seq<Box>, gap: Gap, at: nat, gone: nat)
    requires Grouped(items, owner, boxes) && Unsplittable(items, owner, gap)
    requires at < |boxes| && gone < |boxes| && at != gone && Near(boxes[at], boxes[gone], gap)
    ensures Unsplittable(items, Relabel(owner, at, gone), gap)
  {
    var owner' := Relabel(owner, at, gone);
    forall colour, regions | Assigned(items, colour, regions) && Apart(regions, gap)
      ensures Refines(items, owner', colour)
    {
      forall i, j | 0 <= i < |items| && 0 <= j < |items| && owner'[i] == owner'[j]
        ensures colour[i] == colour[j]
      {
        if owner[i] != owner[j] {
          assert {owner[i], owner[j]} == {at, gone};
          NearBoxesShareRegion(items, owner, boxes, gap, at, gone, colour, regions,
                               if owner[i] == at then i else j, if owner[i] == at then j else i);
        }
      }
    }
  }

  lemma HullIsLeast(items: seq<Box>, owner: seq<nat>, a: nat, b: nat, p: Box, q: Box, owner': seq<nat>, c: nat)
    requires LeastAt(items, owner, a, p) && LeastAt(items, owner, b, q)
    requires forall i :: Owns(items, owner', c, i) <==> Owns(items, owner, a, i) || Owns(items, owner, b, i)
    ensures LeastAt(items, owner', c, Hull(p, q))
  {
    var i :| Owns(items, owner, a, i);
    assert Owns(items, owner', c, i);
    forall region | HoldsAll(items, owner', c, region)
      ensures Within(Hull(p, q), region)
    {
      assert HoldsAll(items, owner, a, region) && HoldsAll(items, owner, b, region);
    }
  }

  lemma StillLeast(items: seq<Box>, owner: seq<nat>, a: nat, p: Box, owner': seq<nat>, c: nat)
    requires LeastAt(items, owner, a, p)
    requires forall i :: Owns(items, owner', c, i) <==> Owns(items, owner, a, i)
    ensures LeastAt(items, owner', c, p)
  {
    HullIsLeast(items, owner, a, a, p, p, owner', c);
  }

  lemma MergedIsGrouped(items: seq<Box>, owner: seq<nat>, boxes: seq<Box>, at: nat, gone: nat)
    requires Grouped(items, owner, boxes)
    requires at < |boxes| && gone < |boxes| && at != gone
    ensures Grouped(items, Relabel(owner, at, gone), Absorb(boxes, at, gone, Hull(boxes[at], boxes[gone])))
  {
    var owner', boxes' := Relabel(owner, at, gone), Absorb(boxes, at, gone, Hull(boxes[at], boxes[gone]));
    forall i | 0 <= i < |items|
      ensures owner'[i] < |boxes'| && Within(items[i], boxes'[owner'[i]])
    {
      assert owner[i] < |boxes| && Within(items[i], boxes[owner[i]]);
    }
    forall c | 0 <= c < |boxes'|
      ensures LeastAt(items, owner', c, boxes'[c])
    {
      var a := if c >= gone then c + 1 else c;
      assert Shift(a, gone) == c;
      if a == at {
        HullIsLeast(items, owner, at, gone, boxes[at], boxes[gone], owner', c);
      } else {
        StillLeast(items, owner, a, boxes[a], owner', c);
      }
    }
  }

  /** What the loops keep: a grouping that no cover can split. */
  ghost predicate Merging(items: seq<Box>, owner: seq<nat>, boxes: seq<Box>, gap: Gap) {
    Grouped(items, owner, boxes) && Unsplittable(items, owner, gap)
  }

  lemma MergeOnce(items: seq<Box>, owner: seq<nat>, boxes: seq<Box>, gap: Gap, at: nat, gone: nat)
    requires Merging(items, owner, boxes, gap)
    requires at < |boxes| && gone < |boxes| && at != gone && Near(boxes[at], boxes[gone], gap)
    ensures Merging(items, Relabel(owner, at, gone), Absorb(boxes, at, gone, Hull(boxes[at], boxes[gone])), gap)
  {
    MergedIsGrouped(items, owner, boxes, at, gone);
    MergedStaysUnsplittable(items, owner, boxes, gap, at, gone);
  }

  /** An item that arrives alone: a box of its own. */
  lemma AddItem(items: seq<Box>, owner: seq<nat>, boxes: seq<Box>, gap: Gap, item: Box)
    requires Merging(items, owner, boxes, gap)
    ensures Merging(items + [item], owner + [|boxes|], boxes + [item], gap)
  {
    var items', owner', boxes' := items + [item], owner + [|boxes|], boxes + [item];
    forall a | 0 <= a < |boxes'|
      ensures LeastAt(items', owner', a, boxes'[a])
    {
      if a < |boxes| {
        GrownLeast(items, owner, a, boxes[a], item, |boxes|);
      } else {
        assert Owns(items', owner', a, |items|);
      }
    }
    forall colour, regions | Assigned(items', colour, regions) && Apart(regions, gap)
      ensures Refines(items', owner', colour)
    {
      assert forall i :: 0 <= i < |items| ==> items'[i] == items[i];
      assert Assigned(items, colour, regions);
      assert Refines(items, owner, colour);
    }
  }

  lemma GrownLeast(items: seq<Box>, owner: seq<nat>, a: nat, box: Box, item: Box, o: nat)
    requires LeastAt(items, owner, a, box) && |owner| == |items| && a != o
    ensures LeastAt(items + [item], owner + [o], a, box)
  {
    var items', owner' := items + [item], owner + [o];
    assert forall i :: Owns(items', owner', a, i) <==> Owns(items, owner, a, i);
    assert forall region :: HoldsAll(items', owner', a, region) ==> HoldsAll(items, owner, a, region);
  }

  function Identity(n: nat): (r: seq<nat>)
    ensures |r| == n
  {
    seq(n, i => i)
  }

  /** Every item on its own. */
  lemma {:induction false} Alone(items: seq<Box>, n: nat, gap: Gap)
    requires n <= |items|
    ensures Merging(items[..n], Identity(n), items[..n], gap)
  {
    hide Merging, Identity;
    if n == 0 {
      NoItems(gap);
      assert items[..0] == [] && Identity(0) == [];
    } else {
      Alone(items, n - 1, gap);
      AddItem(items[..n - 1], Identity(n - 1), items[..n - 1], gap, items[n - 1]);
      assert items[..n - 1] + [items[n - 1]] == items[..n];
      IdentityGrows(n - 1);
    }
  }

  lemma NoItems(gap: Gap)
    ensures Merging([], [], [], gap)
  {
  }

  lemma IdentityGrows(n: nat)
    ensures Identity(n) + [n] == Identity(n + 1)
  {
  }

  // ---- The merge system ----------------------------------------------------

  /** One merge of two near boxes, anywhere in the list. */
  ghost predicate Step(boxes: seq<Box>, boxes': seq<Box>, gap: Gap) {
    exists at, gone :: 0 <= at < |boxes| && 0 <= gone < |boxes| && at != gone && Near(boxes[at], boxes[gone], gap)
                       && boxes' == Absorb(boxes, at, gone, Hull(boxes[at], boxes[gone]))
  }

  ghost predicate Run(run: seq<seq<Box>>, gap: Gap) {
    |run| > 0 && forall t :: 0 < t < |run| ==> Step(run[t - 1], run[t], gap)
  }

  lemma StepKeepsMerging(items: seq<Box>, owner: seq<nat>, boxes: seq<Box>, boxes': seq<Box>, gap: Gap)
    returns (owner': seq<nat>)
    requires Merging(items, owner, boxes, gap) && Step(boxes, boxes', gap)
    ensures Merging(items, owner', boxes', gap)
  {
    hide Merging;
    var at: nat, gone: nat :| && at < |boxes| && gone < |boxes| && at != gone && Near(boxes[at], boxes[gone], gap)
                              && boxes' == Absorb(boxes, at, gone, Hull(boxes[at], boxes[gone]));
    owner' := Relabel(owner, at, gone);
    MergeOnce(items, owner, boxes, gap, at, gone);
  }

  lemma {:induction false} RunKeepsMerging(items: seq<Box>, run: seq<seq<Box>>, gap: Gap) returns (owner: seq<nat>)
    requires Run(run, gap) && run[0] == items
    ensures Merging(items, owner, run[|run| - 1], gap)
    decreases |run|
  {
    hide Merging, Step;
    var n := |run| - 1;
    if n == 0 {
      owner := Identity(|items|);
      Alone(items, |items|, gap);
      assert items[..|items|] == items;
    } else {
      var before := RunKeepsMerging(items, run[..n], gap);
      owner := StepKeepsMerging(items, before, run[n - 1], run[n], gap);
    }
  }

  /** Merging is confluent: whichever near pairs are merged in whichever order, once nothing is
      near anything the boxes are the same. */
  lemma MergeOrderIsIrrelevant(items: seq<Box>, run: seq<seq<Box>>, run': seq<seq<Box>>, gap: Gap)
    requires Run(run, gap) && run[0] == items && Apart(run[|run| - 1], gap)
    requires Run(run', gap) && run'[0] == items && Apart(run'[|run'| - 1], gap)
    ensures SameUpToOrder(run[|run| - 1], run'[|run'| - 1])
  {
    var owner := RunKeepsMerging(items, run, gap);
    var owner' := RunKeepsMerging(items, run', gap);
    FinestIsUnique(items, owner, run[|run| - 1], owner', run'[|run'| - 1], gap);
  }

  // ---- The fixpoint loop ---------------------------------------------------

  /** Box number `a` is apart from every later one after index `from`. */
  ghost predicate ApartFrom(boxes: seq<Box>, gap: Gap, a: nat, from: int) {
    a < |boxes| ==> forall b :: a < b < |boxes| && from < b ==> !Near(boxes[a], boxes[b], gap)
  }

  /** The merge passes shared by `blobs` and `settlements`. The outer range is fixed when a pass
      starts and boxes are deleted under it; every index read is nevertheless in range, the
      passes end, and what is left is the finest grouping whose boxes are apart. */
  method MergeToFixpoint(boxes0: seq<Box>, gap: Gap, ghost items: seq<Box>, ghost owner0: seq<nat>)
    returns (boxes: seq<Box>)
    requires Merging(items, owner0, boxes0, gap)
    ensures exists owner :: Finest(items, owner, boxes, gap)
  {
    hide Grouped, Unsplittable;
    boxes := boxes0;
    ghost var owner := owner0;
    var merged := true;
    while merged
      invariant Merging(items, owner, boxes, gap)
      invariant !merged ==> Apart(boxes, gap)
      decreases |boxes|, merged
    {
      merged := false;
      var n := |boxes|;
      for i := 0 to n
        invariant Merging(items, owner, boxes, gap)
        invariant if merged then |boxes| < n else |boxes| == n
        invariant !merged ==> forall a :: 0 <= a < i ==> ApartFrom(boxes, gap, a, a)
      {
        var found;
        boxes, found, owner := MergeInto(boxes, i, gap, items, owner);
        merged := merged || found;
      }
      if !merged {
        forall a, b | 0 <= a < b < |boxes|
          ensures !Near(boxes[a], boxes[b], gap)
        {
          assert ApartFrom(boxes, gap, a, a);
        }
      }
    }
    assert Finest(items, owner, boxes, gap);
  }

  /** The inner loop: box `i` takes in every later box it meets, from the end of the list back. */
  method MergeInto(boxes0: seq<Box>, i: nat, gap: Gap, ghost items: seq<Box>, ghost owner0: seq<nat>)
    returns (boxes: seq<Box>, merged: bool, ghost owner: seq<nat>)
    requires Merging(items, owner0, boxes0, gap)
    ensures Merging(items, owner, boxes, gap)
    ensures if merged then |boxes| < |boxes0| else boxes == boxes0 && ApartFrom(boxes, gap, i, i)
  {
    hide Merging;
    boxes, merged, owner := boxes0, false, owner0;
    var j := |boxes| - 1;
    while j > i
      invariant Merging(items, owner, boxes, gap)
      invariant j < |boxes|
      invariant if merged then |boxes| < |boxes0| else boxes == boxes0 && ApartFrom(boxes, gap, i, j)
    {
      var p, q := boxes[i], boxes[j];
      if Near(p, q, gap) {
        MergeOnce(items, owner, boxes, gap, i, j);
        owner := Relabel(owner, i, j);
        boxes := Absorb(boxes, i, j, Hull(p, q));
        merged := true;
      }
      j := j - 1;
    }
  }
}
