/** `pool_label_pieces` in `crates/kubernation/src/draw.rs`: every contiguous piece of every
    region, named by the provinces at its top and bottom. */
module PoolPieces {
  import opened Prelude
  import opened Sorting
  import opened Pieces

  const SLOT_STRIDE: nat := 9
  const DEFAULT_POOL: string := "unpooled"

  /** A province as the function sees it: its pool and its row. */
  type Province = (string, nat)

  /** The north edge of a slot's band. */
  function SlotRow(ordinal: nat): nat {
    1 + ordinal * SLOT_STRIDE
  }

  /** `y.saturating_sub(1) / SLOT_STRIDE`. */
  function SlotOfRow(y: nat): nat {
    (if y == 0 then 0 else y - 1) / SLOT_STRIDE
  }

  /** A row of a slot's band as the program computes it, in 16 bits. */
  function RowInBand(ordinal: nat, within: nat): nat {
    (SlotRow(ordinal) + within) % (U16_MAX + 1)
  }

  /** A row of a slot's band leads back to the slot exactly as long as it fits 16 bits: every row of
      slots 0 to 7280, the first six of slot 7281, and no other. */
  lemma SlotOfRowInverts(ordinal: nat, within: nat)
    requires ordinal <= U16_MAX && within < SLOT_STRIDE
    ensures SlotOfRow(RowInBand(ordinal, within)) == ordinal <==> SlotRow(ordinal) + within <= U16_MAX
    ensures SlotRow(ordinal) + within <= U16_MAX <==> ordinal < 7281 || (ordinal == 7281 && within < 6)
  {
  }

  function SlotAt(provinces: seq<Province>, i: nat): nat
    requires i < |provinces|
  {
    SlotOfRow(provinces[i].1)
  }

  ghost predicate DistinctSlots(provinces: seq<Province>) {
    forall i, j :: 0 <= i < j < |provinces| ==> SlotAt(provinces, i) != SlotAt(provinces, j)
  }

  /** The slots that one pool's provinces hold. */
  ghost function PoolSlots(provinces: seq<Province>, pool: string): set<int> {
    set i | 0 <= i < |provinces| && provinces[i].0 == pool :: SlotAt(provinces, i)
  }

  /** The pieces of one pool, as runs of slots. */
  ghost function PiecesOf(provinces: seq<Province>, out: seq<(nat, nat)>, pool: string): seq<Run>
    requires forall p :: p in out ==> p.0 < |provinces| && p.1 < |provinces|
  {
    if out == [] then []
    else
      var (f, l) := out[|out| - 1];
      var rest := PiecesOf(provinces, out[..|out| - 1], pool);
      if provinces[f].0 == pool then rest + [AsRun(SlotAt(provinces, f), SlotAt(provinces, l))] else rest
  }

  function AsRun(first: int, last: int): Run {
    Run(first, last, if first <= last then last - first + 1 else 0)
  }

  /** Each piece begins and ends in one pool, never the sentinel, and pieces run down the map. */
  ghost predicate PiecesInOrder(provinces: seq<Province>, out: seq<(nat, nat)>) {
    && (forall p :: p in out ==> p.0 < |provinces| && p.1 < |provinces|)
    && (forall p :: p in out ==>
        provinces[p.0].0 == provinces[p.1].0 != DEFAULT_POOL && SlotAt(provinces, p.0) <= SlotAt(provinces, p.1))
    && (forall i, j :: 0 <= i < j < |out| ==> SlotAt(provinces, out[i].1) < SlotAt(provinces, out[j].0))
  }

  // ---- Map order -----------------------------------------------------------

  /** Provinces by slot, then by position: the order the function sorts into. */
  ghost predicate MapOrder(provinces: seq<Province>, order: seq<nat>) {
    && (forall i :: 0 <= i < |order| ==> order[i] < |provinces|)
    && (forall k: nat :: k < |provinces| ==> k in order)
    && (forall i, j :: 0 <= i < j < |order| ==> SlotAt(provinces, order[i]) < SlotAt(provinces, order[j]))
  }

  /** The pool's slots among the first `n` provinces in map order. */
  ghost function SlotsUpTo(provinces: seq<Province>, order: seq<nat>, pool: string, n: nat): set<int>
    requires MapOrder(provinces, order) && n <= |order|
  {
    set i | 0 <= i < n && provinces[order[i]].0 == pool :: SlotAt(provinces, order[i])
  }

  method SortByMap(provinces: seq<Province>) returns (order: seq<nat>)
    ensures multiset(order) == multiset(seq(|provinces|, i => i))
    ensures DistinctSlots(provinces) ==> MapOrder(provinces, order)
  {
    var le := (i: nat, j: nat) => KeyOf(provinces, i) < KeyOf(provinces, j)
      || (KeyOf(provinces, i) == KeyOf(provinces, j) && i <= j);
    var all: seq<nat> := seq(|provinces|, i => i);
    order := SortBy(all, le);
    SortBySorts(all, le);
    if DistinctSlots(provinces) { KeysAscend(provinces, all, order); }
  }

  lemma KeysAscend(provinces: seq<Province>, all: seq<nat>, order: seq<nat>)
    requires DistinctSlots(provinces) && all == seq(|provinces|, i => i) && multiset(all) == multiset(order)
    requires forall i, j :: 0 <= i < j < |order| ==> KeyOf(provinces, order[i]) <= KeyOf(provinces, order[j])
    ensures MapOrder(provinces, order)
  {
    SameElements(all, order);
    DistinctByMultiset(all);
    DistinctByMultiset(order);
    forall k: nat | k < |provinces|
      ensures k in order
    {
      assert all[k] == k;
    }
    forall i | 0 <= i < |order|
      ensures order[i] < |provinces|
    {
      assert order[i] in all;
    }
    forall i, j | 0 <= i < j < |order|
      ensures SlotAt(provinces, order[i]) < SlotAt(provinces, order[j])
    {
      assert order[i] != order[j];
    }
  }

  function KeyOf(provinces: seq<Province>, i: nat): nat {
    if i < |provinces| then SlotAt(provinces, i) else 0
  }

  // ---- The pieces ----------------------------------------------------------

  /** Positions i up to j in map order hold consecutive slots of one pool. */
  ghost predicate Stretch(provinces: seq<Province>, order: seq<nat>, i: nat, j: nat)
    requires MapOrder(provinces, order)
  {
    i <= j <= |order| && forall k :: i <= k < j ==>
      provinces[order[k]].0 == provinces[order[i]].0
        && SlotAt(provinces, order[k]) == SlotAt(provinces, order[i]) + (k - i)
  }

  /** No piece runs across position i. */
  ghost predicate Cut(provinces: seq<Province>, order: seq<nat>, i: nat)
    requires MapOrder(provinces, order) && i <= |order|
  {
    0 < i < |order| ==>
      || provinces[order[i]].0 != provinces[order[i - 1]].0
      || SlotAt(provinces, order[i]) != SlotAt(provinces, order[i - 1]) + 1
  }

  /** Every named pool's pieces so far are the runs of its slots so far. */
  ghost predicate Named(provinces: seq<Province>, order: seq<nat>, out: seq<(nat, nat)>, i: nat)
    requires MapOrder(provinces, order) && i <= |order|
  {
    && PiecesInOrder(provinces, out)
    && (forall p :: p in out ==> i > 0 && SlotAt(provinces, p.1) <= SlotAt(provinces, order[i - 1]))
    && (forall pool :: pool != DEFAULT_POOL ==>
        RunsOf(SlotsUpTo(provinces, order, pool, i), PiecesOf(provinces, out, pool)))
    && PiecesOf(provinces, out, DEFAULT_POOL) == []
  }

  /** The grouping loop. For provinces in distinct slots, in any stored order, each named pool's
      pieces are exactly the maximal runs of consecutive slots it holds; the sentinel gets none. */
  method PoolLabelPieces(provinces: seq<Province>) returns (out: seq<(nat, nat)>)
    ensures DistinctSlots(provinces) ==> PiecesInOrder(provinces, out)
    ensures DistinctSlots(provinces) ==>
      && PiecesOf(provinces, out, "unpooled") == []
      && forall pool :: pool != "unpooled" ==> RunsOf(PoolSlots(provinces, pool), PiecesOf(provinces, out, pool))
  {
    hide Named, Stretch, Cut, MapOrder;
    var order := SortByMap(provinces);
    Indices(provinces, order);
    out := [];
    var i := 0;
    if DistinctSlots(provinces) { NothingNamed(provinces, order); }
    while i < |order|
      invariant i <= |order|
      invariant DistinctSlots(provinces) ==> Cut(provinces, order, i) && Named(provinces, order, out, i)
    {
      var pool := provinces[order[i]].0;
      var j := i;
      if DistinctSlots(provinces) { EmptyStretch(provinces, order, i); }
      while j < |order| && provinces[order[j]].0 == pool
            && (j == i || SlotAt(provinces, order[j]) == SlotAt(provinces, order[j - 1]) + 1)
        invariant i <= j <= |order|
        invariant DistinctSlots(provinces) ==> Stretch(provinces, order, i, j)
      {
        if DistinctSlots(provinces) { LongerStretch(provinces, order, i, j); }
        j := j + 1;
      }
      if DistinctSlots(provinces) { AddPiece(provinces, order, out, i, j); }
      if pool != DEFAULT_POOL {
        out := out + [(order[i], order[j - 1])];
      }
      i := j;
    }
    if DistinctSlots(provinces) { AllNamed(provinces, order, out); }
  }

  lemma Indices(provinces: seq<Province>, order: seq<nat>)
    requires multiset(order) == multiset(seq(|provinces|, i => i))
    ensures |order| == |provinces| && forall i :: 0 <= i < |order| ==> order[i] < |provinces|
  {
    SameElements(order, seq(|provinces|, i => i));
    assert forall i :: 0 <= i < |order| ==> order[i] in order;
  }

  lemma NothingNamed(provinces: seq<Province>, order: seq<nat>)
    requires MapOrder(provinces, order)
    ensures Named(provinces, order, [], 0) && Cut(provinces, order, 0)
  {
    forall pool
      ensures SlotsUpTo(provinces, order, pool, 0) == {}
    {
    }
  }

  lemma EmptyStretch(provinces: seq<Province>, order: seq<nat>, i: nat)
    requires MapOrder(provinces, order) && i <= |order|
    ensures Stretch(provinces, order, i, i)
  {
  }

  lemma LongerStretch(provinces: seq<Province>, order: seq<nat>, i: nat, j: nat)
    requires MapOrder(provinces, order) && i < |order| && Stretch(provinces, order, i, j) && j < |order|
    requires provinces[order[j]].0 == provinces[order[i]].0
    requires j == i || SlotAt(provinces, order[j]) == SlotAt(provinces, order[j - 1]) + 1
    ensures Stretch(provinces, order, i, j + 1)
  {
  }

  /** The other pools do not see the new piece. */
  lemma OtherPool(provinces: seq<Province>, order: seq<nat>, pool: string, i: nat, j: nat)
    requires MapOrder(provinces, order) && i < j && Stretch(provinces, order, i, j) && provinces[order[i]].0 != pool
    ensures SlotsUpTo(provinces, order, pool, j) == SlotsUpTo(provinces, order, pool, i)
  {
  }

  /** Adding a stretch to its own pool, one slot at a time. */
  lemma {:induction false} OwnPool(provinces: seq<Province>, order: seq<nat>, runs: seq<Run>, i: nat, j: nat)
    requires MapOrder(provinces, order) && i < j && Stretch(provinces, order, i, j) && Cut(provinces, order, i)
    requires RunsOf(SlotsUpTo(provinces, order, provinces[order[i]].0, i), runs)
    ensures RunsOf(SlotsUpTo(provinces, order, provinces[order[i]].0, j),
                   runs + [AsRun(SlotAt(provinces, order[i]), SlotAt(provinces, order[j - 1]))])
    decreases j
  {
    hide RunsOf;
    var pool := provinces[order[i]].0;
    var o: int := SlotAt(provinces, order[j - 1]);
    var before := SlotsUpTo(provinces, order, pool, j - 1);
    assert SlotsUpTo(provinces, order, pool, j) == before + {o};
    assert forall p :: p in before ==> p < o;
    if j == i + 1 {
      assert o - 1 !in before;
      StartRun(before, runs, o);
    } else {
      OwnPool(provinces, order, runs, i, j - 1);
      var sofar := runs + [AsRun(SlotAt(provinces, order[i]), SlotAt(provinces, order[j - 2]))];
      ExtendRun(before, sofar, o);
      assert sofar[..|sofar| - 1] == runs;
    }
  }

  lemma AddPiece(provinces: seq<Province>, order: seq<nat>, out: seq<(nat, nat)>, i: nat, j: nat)
    requires MapOrder(provinces, order) && i < j && Stretch(provinces, order, i, j) && Cut(provinces, order, i)
    requires Named(provinces, order, out, i)
    requires j < |order| ==>
      || provinces[order[j]].0 != provinces[order[i]].0
      || SlotAt(provinces, order[j]) != SlotAt(provinces, order[j - 1]) + 1
    ensures Cut(provinces, order, j)
    ensures Named(provinces, order, WithPiece(provinces, order, out, i, j), j)
  {
    hide RunsOf, PiecesInOrder, PiecesOf, Stretch;
    StretchEnds(provinces, order, i, j);
    InOrderAfter(provinces, order, out, i, j);
    PoolsAfter(provinces, order, out, i, j);
  }

  lemma StretchEnds(provinces: seq<Province>, order: seq<nat>, i: nat, j: nat)
    requires MapOrder(provinces, order) && i < j && Stretch(provinces, order, i, j)
    ensures j <= |order| && order[i] < |provinces| && order[j - 1] < |provinces|
    ensures provinces[order[j - 1]].0 == provinces[order[i]].0
    ensures SlotAt(provinces, order[i]) <= SlotAt(provinces, order[j - 1])
    ensures i > 0 ==> SlotAt(provinces, order[i - 1]) < SlotAt(provinces, order[i])
  {
  }

  /** The pieces after the stretch from i to j is named, or skipped when it has no pool. */
  function WithPiece(provinces: seq<Province>, order: seq<nat>, out: seq<(nat, nat)>, i: nat, j: nat): seq<(nat, nat)>
    requires i < j <= |order| && order[i] < |provinces|
  {
    if provinces[order[i]].0 == DEFAULT_POOL then out else out + [(order[i], order[j - 1])]
  }

  lemma InOrderAfter(provinces: seq<Province>, order: seq<nat>, out: seq<(nat, nat)>, i: nat, j: nat)
    requires MapOrder(provinces, order) && i < j && Stretch(provinces, order, i, j) && Named(provinces, order, out, i)
    ensures var out' := WithPiece(provinces, order, out, i, j);
      && PiecesInOrder(provinces, out')
      && (forall p :: p in out' ==> SlotAt(provinces, p.1) <= SlotAt(provinces, order[j - 1]))
  {
    hide RunsOf, PiecesOf, Stretch;
    StretchEnds(provinces, order, i, j);
    var out' := WithPiece(provinces, order, out, i, j);
    assert forall p :: p in out' ==> p in out || p == (order[i], order[j - 1]);
    assert forall k :: 0 <= k < |out| ==> out[k] in out;
  }

  lemma PoolsAfter(provinces: seq<Province>, order: seq<nat>, out: seq<(nat, nat)>, i: nat, j: nat)
    requires MapOrder(provinces, order) && i < j && Stretch(provinces, order, i, j) && Cut(provinces, order, i)
    requires Named(provinces, order, out, i) && PiecesInOrder(provinces, WithPiece(provinces, order, out, i, j))
    ensures var out' := WithPiece(provinces, order, out, i, j);
      && (forall pool :: pool != DEFAULT_POOL ==>
          RunsOf(SlotsUpTo(provinces, order, pool, j), PiecesOf(provinces, out', pool)))
      && PiecesOf(provinces, out', DEFAULT_POOL) == []
  {
    hide RunsOf, Stretch, Cut, SlotsUpTo;
    StretchEnds(provinces, order, i, j);
    var own, out' := provinces[order[i]].0, WithPiece(provinces, order, out, i, j);
    assert own != DEFAULT_POOL ==> out'[..|out|] == out;
    forall pool | pool != DEFAULT_POOL
      ensures RunsOf(SlotsUpTo(provinces, order, pool, j), PiecesOf(provinces, out', pool))
    {
      if pool == own {
        OwnPool(provinces, order, PiecesOf(provinces, out, pool), i, j);
      } else {
        OtherPool(provinces, order, pool, i, j);
      }
    }
  }

  lemma AllNamed(provinces: seq<Province>, order: seq<nat>, out: seq<(nat, nat)>)
    requires MapOrder(provinces, order) && Named(provinces, order, out, |order|)
    ensures PiecesInOrder(provinces, out) && PiecesOf(provinces, out, DEFAULT_POOL) == []
    ensures forall pool :: pool != DEFAULT_POOL ==> RunsOf(PoolSlots(provinces, pool), PiecesOf(provinces, out, pool))
  {
    hide RunsOf;
    forall pool | pool != DEFAULT_POOL
      ensures RunsOf(PoolSlots(provinces, pool), PiecesOf(provinces, out, pool))
    {
      assert SlotsUpTo(provinces, order, pool, |order|) == PoolSlots(provinces, pool) by {
        forall o | o in PoolSlots(provinces, pool)
          ensures o in SlotsUpTo(provinces, order, pool, |order|)
        {
          var k: nat :| k < |provinces| && provinces[k].0 == pool && SlotAt(provinces, k) == o;
          assert k in order;
        }
      }
    }
  }

  // ---- Two implementations, one answer -------------------------------------

  /** Pool by pool, the names on the map and the measured region pieces are the same runs. */
  lemma MapAndScriptAgree(provinces: seq<Province>, out: seq<(nat, nat)>, pool: string, ordinals: seq<int>,
                          runs: seq<Run>)
    requires PiecesInOrder(provinces, out) && RunsOf(PoolSlots(provinces, pool), PiecesOf(provinces, out, pool))
    requires Members(ordinals) == PoolSlots(provinces, pool) && RunsOf(Members(ordinals), runs)
    ensures PiecesOf(provinces, out, pool) == runs
  {
    OneListOfRuns(PoolSlots(provinces, pool), PiecesOf(provinces, out, pool), runs);
  }

  ghost predicate Covers(provinces: seq<Province>, piece: (nat, nat), i: nat)
    requires i < |provinces| && piece.0 < |provinces| && piece.1 < |provinces|
  {
    provinces[piece.0].0 == provinces[i].0
      && SlotAt(provinces, piece.0) <= SlotAt(provinces, i) <= SlotAt(provinces, piece.1)
  }

  lemma {:induction false} PieceBehindRun(provinces: seq<Province>, out: seq<(nat, nat)>, pool: string, r: Run)
    returns (k: nat)
    requires PiecesInOrder(provinces, out) && r in PiecesOf(provinces, out, pool)
    ensures k < |out| && provinces[out[k].0].0 == pool
      && r == AsRun(SlotAt(provinces, out[k].0), SlotAt(provinces, out[k].1))
  {
    var n := |out| - 1;
    assert out[n] in out;
    if provinces[out[n].0].0 == pool && r == AsRun(SlotAt(provinces, out[n].0), SlotAt(provinces, out[n].1)) {
      k := n;
    } else {
      FrontInOrder(provinces, out);
      k := PieceBehindRun(provinces, out[..n], pool, r);
    }
  }

  lemma FrontInOrder(provinces: seq<Province>, out: seq<(nat, nat)>)
    requires PiecesInOrder(provinces, out) && out != []
    ensures PiecesInOrder(provinces, out[..|out| - 1])
  {
    assert forall p :: p in out[..|out| - 1] ==> p in out;
  }

  /** Together the pieces partition the pooled provinces: each lies in exactly one, and the
      sentinel's in none. */
  lemma PiecesPartition(provinces: seq<Province>, out: seq<(nat, nat)>, i: nat)
    requires PiecesInOrder(provinces, out) && i < |provinces|
    requires forall pool :: pool != DEFAULT_POOL ==> RunsOf(PoolSlots(provinces, pool), PiecesOf(provinces, out, pool))
    ensures provinces[i].0 != DEFAULT_POOL <==> exists k :: 0 <= k < |out| && Covers(provinces, out[k], i)
    ensures forall k, l ::
      0 <= k < |out| && 0 <= l < |out| && Covers(provinces, out[k], i) && Covers(provinces, out[l], i) ==> k == l
  {
    assert forall k :: 0 <= k < |out| ==> out[k] in out;
    var pool := provinces[i].0;
    if pool != DEFAULT_POOL {
      var runs := PiecesOf(provinces, out, pool);
      assert SlotAt(provinces, i) in PoolSlots(provinces, pool);
      var m :| 0 <= m < |runs| && runs[m].first <= SlotAt(provinces, i) <= runs[m].last;
      var k := PieceBehindRun(provinces, out, pool, runs[m]);
      assert Covers(provinces, out[k], i);
    }
    forall k, l | 0 <= k < l < |out|
      ensures !(Covers(provinces, out[k], i) && Covers(provinces, out[l], i))
    {
      assert SlotAt(provinces, out[k].1) < SlotAt(provinces, out[l].0);
    }
  }
}
