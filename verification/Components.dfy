/** `land_components` and `component_at` of `hack/churn/compare.py`: a stack-based flood fill
    that labels contiguous land, and the majority vote that reads the labels. */
module Components {
  import opened Prelude
  import opened Frames

  // ---- Connectivity --------------------------------------------------------

  /** A grid of cells, row by row. */
  datatype Grid = Grid(cw: nat, mask: seq<bool>)

  /** One above the other, or side by side in one row. */
  predicate Adjacent(cw: nat, j: nat, k: nat)
    requires cw > 0
  {
    k == j + cw || j == k + cw || (k == j + 1 && k % cw != 0) || (j == k + 1 && j % cw != 0)
  }

  /** A walk through set mask bits, each cell a 4-neighbour of the one before. */
  ghost predicate Path(g: Grid, p: seq<nat>) {
    && g.cw > 0 && |p| > 0
    && (forall t :: 0 <= t < |p| ==> p[t] < |g.mask| && g.mask[p[t]])
    && (forall t :: 0 < t < |p| ==> Adjacent(g.cw, p[t - 1], p[t]))
  }

  ghost predicate Connected(g: Grid, a: nat, b: nat) {
    exists p :: Path(g, p) && p[0] == a && p[|p| - 1] == b
  }

  lemma ConnectedStep(g: Grid, a: nat, b: nat, c: nat)
    requires Connected(g, a, b) && c < |g.mask| && g.mask[c] && Adjacent(g.cw, b, c)
    ensures Connected(g, a, c)
  {
    var p :| Path(g, p) && p[0] == a && p[|p| - 1] == b;
    assert Path(g, p + [c]);
  }

  lemma ConnectedSelf(g: Grid, a: nat)
    requires g.cw > 0 && a < |g.mask| && g.mask[a]
    ensures Connected(g, a, a)
  {
    assert Path(g, [a]);
  }

  lemma {:induction false} ConnectedBack(g: Grid, p: seq<nat>)
    requires Path(g, p)
    ensures Connected(g, p[|p| - 1], p[0])
    decreases |p|
  {
    var n := |p| - 1;
    var q := seq(|p|, t requires 0 <= t < |p| => p[n - t]);
    forall t | 0 < t < |q|
      ensures Adjacent(g.cw, q[t - 1], q[t])
    {
      assert Adjacent(g.cw, p[n - t], p[n - t + 1]);
    }
    assert Path(g, q);
  }

  lemma ConnectedThrough(g: Grid, a: nat, b: nat, c: nat)
    requires Connected(g, a, b) && Connected(g, a, c)
    ensures Connected(g, b, c)
  {
    var p :| Path(g, p) && p[0] == a && p[|p| - 1] == b;
    ConnectedBack(g, p);
    var q :| Path(g, q) && q[0] == b && q[|q| - 1] == a;
    var r :| Path(g, r) && r[0] == a && r[|r| - 1] == c;
    var whole := q + r[1..];
    forall t | 0 < t < |whole|
      ensures Adjacent(g.cw, whole[t - 1], whole[t])
    {
      if t >= |q| {
        assert whole[t - 1] == r[t - |q|] && whole[t] == r[t - |q| + 1];
      }
    }
    assert Path(g, whole);
  }

  // ---- Labels --------------------------------------------------------------

  /** Every label is reached from its seed. */
  ghost predicate Seeded(g: Grid, labels: seq<nat>, seeds: seq<nat>) {
    && |labels| == |g.mask|
    && (forall k :: 0 <= k < |labels| && labels[k] != 0 ==> g.mask[k] && labels[k] <= |seeds|)
    && (forall k :: 0 <= k < |labels| && labels[k] != 0 ==> Connected(g, seeds[labels[k] - 1], k))
    && (forall l :: 0 <= l < |seeds| ==> seeds[l] < |labels| && labels[seeds[l]] == l + 1)
  }

  /** Labels flow over every edge out of a labelled cell that is not waiting on the stack. */
  ghost predicate Closed(g: Grid, labels: seq<nat>, stack: seq<nat>) {
    g.cw > 0 && forall j, k ::
      0 <= j < |labels| == |g.mask| && 0 <= k < |g.mask| && labels[j] != 0 && j !in stack && g.mask[k]
        && Adjacent(g.cw, j, k) ==>
        labels[k] == labels[j]
  }

  /** The cells pushed so far are the labelled ones, each once. */
  ghost predicate PushedOnce(labels: seq<nat>, pushed: seq<nat>) {
    && (forall k :: 0 <= k < |labels| ==> (k in pushed <==> labels[k] != 0))
    && (forall s, t :: 0 <= s < t < |pushed| ==> pushed[s] != pushed[t])
  }

  /** The labels of connected land: zero off the mask, equal exactly on connected cells, and
      numbered 1..n with none skipped. */
  ghost predicate Labelling(g: Grid, labels: seq<nat>, n: nat) {
    && |labels| == |g.mask|
    && (forall k :: 0 <= k < |labels| ==> (labels[k] != 0 <==> g.mask[k]) && labels[k] <= n)
    && (forall a, b :: 0 <= a < |labels| && 0 <= b < |labels| && g.mask[a] && g.mask[b] ==>
          (labels[a] == labels[b] <==> Connected(g, a, b)))
    && (forall l :: 1 <= l <= n ==> l in labels)
  }

  lemma {:induction false} LabelAlongPath(g: Grid, labels: seq<nat>, p: seq<nat>)
    requires Closed(g, labels, []) && Path(g, p) && |labels| == |g.mask| && labels[p[0]] != 0
    ensures labels[p[|p| - 1]] == labels[p[0]]
    decreases |p|
  {
    var n := |p| - 1;
    if n > 0 {
      LabelAlongPath(g, labels, p[..n]);
      assert Adjacent(g.cw, p[n - 1], p[n]);
    }
  }

  lemma FloodIsConnectivity(g: Grid, labels: seq<nat>, seeds: seq<nat>)
    requires g.cw > 0 && Seeded(g, labels, seeds) && Closed(g, labels, [])
    requires forall k :: 0 <= k < |labels| && g.mask[k] ==> labels[k] != 0
    ensures Labelling(g, labels, |seeds|)
  {
    hide Connected, Closed, Seeded;
    SeededRange(g, labels, seeds);
    forall a, b | 0 <= a < |labels| && 0 <= b < |labels| && g.mask[a] && g.mask[b]
      ensures labels[a] == labels[b] <==> Connected(g, a, b)
    {
      if labels[a] == labels[b] {
        SameLabelConnects(g, labels, seeds, a, b);
      }
      if Connected(g, a, b) {
        ConnectedSharesLabel(g, labels, a, b);
      }
    }
  }

  /** Cells off the mask carry no label, and every label up to the last is carried. */
  lemma SeededRange(g: Grid, labels: seq<nat>, seeds: seq<nat>)
    requires Seeded(g, labels, seeds)
    ensures |labels| == |g.mask|
    ensures forall k :: 0 <= k < |labels| ==> labels[k] <= |seeds| && (labels[k] != 0 ==> g.mask[k])
    ensures forall l :: 1 <= l <= |seeds| ==> l in labels
  {
    hide Connected;
    forall l | 1 <= l <= |seeds|
      ensures l in labels
    {
      assert labels[seeds[l - 1]] == l;
    }
  }

  lemma SameLabelConnects(g: Grid, labels: seq<nat>, seeds: seq<nat>, a: nat, b: nat)
    requires Seeded(g, labels, seeds) && a < |labels| && b < |labels| && labels[a] == labels[b] != 0
    ensures Connected(g, a, b)
  {
    hide Connected;
    ConnectedThrough(g, seeds[labels[a] - 1], a, b);
  }

  lemma ConnectedSharesLabel(g: Grid, labels: seq<nat>, a: nat, b: nat)
    requires Closed(g, labels, []) && |labels| == |g.mask| && Connected(g, a, b) && a < |labels| && b < |labels|
    requires labels[a] != 0
    ensures labels[a] == labels[b]
  {
    hide Closed;
    var p :| Path(g, p) && p[0] == a && p[|p| - 1] == b;
    LabelAlongPath(g, labels, p);
  }

  // ---- The flood fill ------------------------------------------------------

  /** The four candidates of the inner loop, in its order. */
  function Around(jy: int, jx: int): (r: seq<(int, int)>)
    ensures |r| == 4
  {
    [(jy - 1, jx), (jy + 1, jx), (jy, jx - 1), (jy, jx + 1)]
  }

  /** The index of the d-th candidate of cell `j`, or -1 when it is off a grid of `n` cells. */
  function Neighbour(cw: nat, n: nat, j: nat, d: nat): int
    requires cw > 0
  {
    if d == 0 then if j >= cw then j - cw else -1
    else if d == 1 then if j + cw < n then j + cw else -1
    else if d == 2 then if j % cw != 0 then j - 1 else -1
    else if j % cw != cw - 1 then j + 1 else -1
  }

  lemma ScaleUp(a: nat, b: nat, n: nat)
    requires a <= b
    ensures a * n <= b * n
  {
  }

  lemma RowAndColumn(cw: nat, ch: nat, j: nat)
    requires 0 < cw && j < cw * ch
    ensures 0 <= j / cw < ch && 0 <= j % cw < cw && j / cw * cw + j % cw == j
  {
    if ch <= j / cw {
      ScaleUp(ch, j / cw, cw);
    }
  }

  lemma ModOf(cw: nat, y: nat, x: nat)
    requires x < cw
    ensures (y * cw + x) % cw == x && (y * cw + x) / cw == y
  {
    var v := y * cw + x;
    var q := v / cw;
    assert v == q * cw + v % cw;
    assert (q + 1) * cw == q * cw + cw && (y + 1) * cw == y * cw + cw;
    if q < y {
      ScaleUp(q + 1, y, cw);
    } else if y < q {
      ScaleUp(y + 1, q, cw);
    }
  }

  /** Stepping right stays in the row exactly when the cell is not the row's last. */
  lemma NextInRow(cw: nat, j: nat)
    requires 0 < cw
    ensures (j + 1) % cw != 0 <==> j % cw != cw - 1
  {
    assert j / cw * cw + j % cw == j;
    if j % cw == cw - 1 {
      assert j + 1 == (j / cw + 1) * cw + 0;
      ModOf(cw, j / cw + 1, 0);
    } else {
      ModOf(cw, j / cw, j % cw + 1);
    }
  }

  /** The range test on row and column accepts exactly the candidates that exist, and the
      index computed from them is theirs. */
  lemma AroundIsNeighbour(cw: nat, ch: nat, j: nat, d: nat)
    requires 0 < cw && j < cw * ch && d < 4
    ensures var ((ny, nx), k) := (Around(j / cw, j % cw)[d], Neighbour(cw, cw * ch, j, d));
      && (0 <= ny < ch && 0 <= nx < cw <==> k >= 0)
      && (k >= 0 ==> ny * cw + nx == k && k < cw * ch && Adjacent(cw, j, k))
  {
    RowAndColumn(cw, ch, j);
    NextInRow(cw, j);
    RowAbove(cw, ch, j / cw, j % cw, j);
    RowBelow(cw, ch, j / cw, j % cw, j);
  }

  lemma RowAbove(cw: nat, ch: nat, y: nat, x: nat, j: nat)
    requires x < cw && y < ch && y * cw + x == j
    ensures y >= 1 <==> j >= cw
    ensures (y - 1) * cw + x == j - cw
  {
    if y >= 1 {
      ScaleUp(1, y, cw);
    }
  }

  lemma RowBelow(cw: nat, ch: nat, y: nat, x: nat, j: nat)
    requires x < cw && y < ch && y * cw + x == j
    ensures y + 1 < ch <==> j + cw < cw * ch
    ensures (y + 1) * cw + x == j + cw
    ensures x + 1 < cw ==> j + 1 < cw * ch
  {
    assert (y + 1) * cw == y * cw + cw && (y + 2) * cw == y * cw + 2 * cw;
    ScaleUp(y + 1, ch, cw);
    if y + 1 < ch {
      ScaleUp(y + 2, ch, cw);
    }
  }

  lemma AdjacentIsNeighbour(cw: nat, n: nat, j: nat, k: nat) returns (d: nat)
    requires 0 < cw && k < n && Adjacent(cw, j, k)
    ensures d < 4 && Neighbour(cw, n, j, d) == k
  {
    NextInRow(cw, j);
    d := if j == k + cw then 0 else if k == j + cw then 1 else if j == k + 1 && j % cw != 0 then 2 else 3;
  }

  /** The labels while a flood is running. */
  ghost predicate Flooding(g: Grid, labels: seq<nat>, seeds: seq<nat>, stack: seq<nat>, pushed: seq<nat>) {
    && Seeded(g, labels, seeds) && PushedOnce(labels, pushed)
    && (forall k :: k in stack ==> k < |labels| && labels[k] == |seeds|)
  }

  lemma LabelCell(g: Grid, labels: seq<nat>, seeds: seq<nat>, stack: seq<nat>, pushed: seq<nat>, k: nat)
    requires Flooding(g, labels, seeds, stack, pushed) && |seeds| > 0
    requires k < |labels| && g.mask[k] && labels[k] == 0 && Connected(g, seeds[|seeds| - 1], k)
    ensures Flooding(g, labels[k := |seeds|], seeds, stack + [k], pushed + [k])
  {
    hide Seeded, PushedOnce, Connected;
    LabelSeeded(g, labels, seeds, k, |seeds|);
    LabelPushed(labels, pushed, k, |seeds|);
  }

  lemma LabelSeeded(g: Grid, labels: seq<nat>, seeds: seq<nat>, k: nat, v: nat)
    requires Seeded(g, labels, seeds) && 0 < v <= |seeds|
    requires k < |labels| && g.mask[k] && labels[k] == 0 && Connected(g, seeds[v - 1], k)
    ensures Seeded(g, labels[k := v], seeds)
  {
    hide Connected;
  }

  lemma LabelPushed(labels: seq<nat>, pushed: seq<nat>, k: nat, v: nat)
    requires PushedOnce(labels, pushed) && k < |labels| && labels[k] == 0 && v != 0
    ensures PushedOnce(labels[k := v], pushed + [k])
  {
  }

  lemma SeedCell(g: Grid, labels: seq<nat>, seeds: seq<nat>, pushed: seq<nat>, k: nat)
    requires g.cw > 0 && Flooding(g, labels, seeds, [], pushed)
    requires k < |labels| && g.mask[k] && labels[k] == 0
    ensures Flooding(g, labels[k := |seeds| + 1], seeds + [k], [k], pushed + [k])
  {
    hide Seeded, PushedOnce;
    SeedSeeded(g, labels, seeds, k);
    LabelPushed(labels, pushed, k, |seeds| + 1);
  }

  lemma SeedSeeded(g: Grid, labels: seq<nat>, seeds: seq<nat>, k: nat)
    requires g.cw > 0 && Seeded(g, labels, seeds) && k < |labels| && g.mask[k] && labels[k] == 0
    ensures Seeded(g, labels[k := |seeds| + 1], seeds + [k])
  {
    ConnectedSelf(g, k);
    hide Connected;
  }

  /** A cell the flood can reach from `j` is either unlabelled or already part of this flood:
      an earlier flood would have labelled `j` too. */
  lemma NoForeignNeighbour(g: Grid, labels: seq<nat>, seeds: seq<nat>, stack: seq<nat>, pushed: seq<nat>, j: nat,
                           k: nat)
    requires Flooding(g, labels, seeds, stack, pushed) && Closed(g, labels, stack + [j])
    requires j < |labels| && k < |labels| && Adjacent(g.cw, j, k) && g.mask[j] && g.mask[k] && labels[j] == |seeds|
    ensures labels[k] == 0 || labels[k] == |seeds|
  {
    if labels[k] != 0 && k !in stack && k != j {
      assert Adjacent(g.cw, k, j);
    }
  }

  /** A newly labelled cell waits on the stack; no closed cell can be next to it. */
  lemma StillClosed(g: Grid, labels: seq<nat>, stack: seq<nat>, j: nat, k: nat, v: nat)
    requires Closed(g, labels, stack + [j]) && |labels| == |g.mask| && k < |labels| && labels[k] == 0 && g.mask[k]
    ensures Closed(g, labels[k := v], stack + [k] + [j])
  {
    assert forall i :: i in stack + [j] || i == k <==> i in stack + [k] + [j];
  }

  ghost function Unlabelled(labels: seq<nat>): set<nat> {
    set k: nat | k < |labels| && labels[k] == 0
  }

  /** Cell `j` is popped: every unlabelled neighbour of it is labelled and pushed. */
  method Expand(cw: nat, ch: nat, mask: seq<bool>, labels: array<nat>, j: nat, nxt: nat, stack0: seq<nat>,
                ghost seeds: seq<nat>, ghost pushed0: seq<nat>)
    returns (stack: seq<nat>, ghost pushed: seq<nat>)
    requires cw > 0 && |mask| == cw * ch == labels.Length && j < labels.Length
    requires nxt == |seeds| > 0 && labels[j] == nxt
    requires Flooding(Grid(cw, mask), labels[..], seeds, stack0, pushed0)
    requires Closed(Grid(cw, mask), labels[..], stack0 + [j])
    modifies labels
    ensures Flooding(Grid(cw, mask), labels[..], seeds, stack, pushed)
    ensures Closed(Grid(cw, mask), labels[..], stack)
    ensures stack0 <= stack && Extends(old(labels[..]), labels[..])
    ensures stack == stack0 || Unlabelled(labels[..]) < Unlabelled(old(labels[..]))
  {
    hide Flooding, Closed, Adjacent;
    ghost var g, n := Grid(cw, mask), labels.Length;
    stack, pushed := stack0, pushed0;
    var jy, jx := j / cw, j % cw;
    for d := 0 to 4
      invariant Flooding(g, labels[..], seeds, stack, pushed)
      invariant Closed(g, labels[..], stack + [j])
      invariant stack0 <= stack && Extends(old(labels[..]), labels[..])
      invariant stack == stack0 || Unlabelled(labels[..]) < Unlabelled(old(labels[..]))
      invariant forall e :: 0 <= e < d ==> Reached(mask, labels[..], Neighbour(cw, n, j, e), nxt)
    {
      AroundIsNeighbour(cw, ch, j, d);
      var (ny, nx) := Around(jy, jx)[d];
      if 0 <= ny < ch && 0 <= nx < cw {
        var k := ny * cw + nx;
        if mask[k] {
          Spread(g, labels[..], seeds, stack, pushed, j, k);
          if labels[k] == 0 {
            labels[k] := nxt;
            stack := stack + [k];
            pushed := pushed + [k];
          }
        }
      }
    }
    CloseCell(g, labels[..], stack, j, nxt);
  }

  ghost predicate Extends(before: seq<nat>, after: seq<nat>) {
    |before| == |after| && forall k :: 0 <= k < |before| && before[k] != 0 ==> after[k] == before[k]
  }

  ghost predicate Reached(mask: seq<bool>, labels: seq<nat>, k: int, nxt: nat) {
    0 <= k < |mask| && k < |labels| && mask[k] ==> labels[k] == nxt
  }

  lemma SeedReaches(g: Grid, labels: seq<nat>, seeds: seq<nat>, j: nat)
    requires Seeded(g, labels, seeds) && j < |labels| && labels[j] != 0
    ensures |labels| == |g.mask| && labels[j] <= |seeds| && Connected(g, seeds[labels[j] - 1], j) && g.mask[j]
  {
  }

  /** What labelling a neighbour `k` of the popped cell `j` keeps. */
  lemma Spread(g: Grid, labels: seq<nat>, seeds: seq<nat>, stack: seq<nat>, pushed: seq<nat>, j: nat, k: nat)
    requires |seeds| > 0 && Flooding(g, labels, seeds, stack, pushed) && Closed(g, labels, stack + [j])
    requires j < |labels| && k < |labels| && Adjacent(g.cw, j, k) && g.mask[k] && labels[j] == |seeds|
    ensures labels[k] == 0 || labels[k] == |seeds|
    ensures labels[k] == 0 ==>
      && Flooding(g, labels[k := |seeds|], seeds, stack + [k], pushed + [k])
      && Closed(g, labels[k := |seeds|], stack + [k] + [j])
      && Extends(labels, labels[k := |seeds|])
      && Unlabelled(labels[k := |seeds|]) < Unlabelled(labels)
  {
    hide Connected, Seeded, PushedOnce, Closed;
    SeedReaches(g, labels, seeds, j);
    NoForeignNeighbour(g, labels, seeds, stack, pushed, j, k);
    if labels[k] == 0 {
      ConnectedStep(g, seeds[|seeds| - 1], j, k);
      LabelCell(g, labels, seeds, stack, pushed, k);
      StillClosed(g, labels, stack, j, k, |seeds|);
      assert k in Unlabelled(labels) && k !in Unlabelled(labels[k := |seeds|]);
    }
  }

  lemma CloseCell(g: Grid, labels: seq<nat>, stack: seq<nat>, j: nat, nxt: nat)
    requires g.cw > 0 && Closed(g, labels, stack + [j]) && j < |labels| == |g.mask| && labels[j] == nxt
    requires forall e :: 0 <= e < 4 ==> Reached(g.mask, labels, Neighbour(g.cw, |labels|, j, e), nxt)
    ensures Closed(g, labels, stack)
  {
    forall k | 0 <= k < |g.mask| && g.mask[k] && Adjacent(g.cw, j, k)
      ensures labels[k] == nxt
    {
      var e := AdjacentIsNeighbour(g.cw, |labels|, j, k);
      assert Reached(g.mask, labels, Neighbour(g.cw, |labels|, j, e), nxt);
    }
  }

  /** One flood: label the seed, then expand popped cells until none wait. */
  method FloodFrom(cw: nat, ch: nat, mask: seq<bool>, labels: array<nat>, i: nat, nxt: nat, ghost seeds0: seq<nat>,
                   ghost pushed0: seq<nat>)
    returns (ghost seeds: seq<nat>, ghost pushed: seq<nat>)
    requires cw > 0 && |mask| == cw * ch == labels.Length && i < labels.Length && nxt == |seeds0| + 1
    requires mask[i] && labels[i] == 0
    requires Flooding(Grid(cw, mask), labels[..], seeds0, [], pushed0) && Closed(Grid(cw, mask), labels[..], [])
    modifies labels
    ensures Flooding(Grid(cw, mask), labels[..], seeds, [], pushed) && Closed(Grid(cw, mask), labels[..], [])
    ensures |seeds| == nxt && labels[i] == nxt && Extends(old(labels[..]), labels[..])
  {
    hide Flooding, Closed, Connected, Seeded, PushedOnce;
    ghost var g := Grid(cw, mask);
    SeedCell(g, labels[..], seeds0, pushed0, i);
    SeedClosed(g, labels[..], i, nxt);
    seeds, pushed := seeds0 + [i], pushed0 + [i];
    var stack := [i];
    labels[i] := nxt;
    while stack != []
      invariant Flooding(g, labels[..], seeds, stack, pushed) && Closed(g, labels[..], stack)
      invariant labels[i] == nxt && Extends(old(labels[..]), labels[..])
      decreases Unlabelled(labels[..]), |stack|
    {
      ghost var waiting := stack;
      var j := stack[|stack| - 1];
      stack := stack[..|stack| - 1];
      assert stack + [j] == waiting;
      Pop(g, labels[..], seeds, stack, j, pushed);
      stack, pushed := Expand(cw, ch, mask, labels, j, nxt, stack, seeds, pushed);
    }
  }

  lemma SeedClosed(g: Grid, labels: seq<nat>, k: nat, v: nat)
    requires Closed(g, labels, []) && |labels| == |g.mask| && k < |labels| && labels[k] == 0 && g.mask[k]
    ensures Closed(g, labels[k := v], [k])
  {
  }

  lemma Pop(g: Grid, labels: seq<nat>, seeds: seq<nat>, stack: seq<nat>, j: nat, pushed: seq<nat>)
    requires Flooding(g, labels, seeds, stack + [j], pushed)
    ensures Flooding(g, labels, seeds, stack, pushed) && j < |labels| && labels[j] == |seeds|
  {
    hide Seeded, PushedOnce;
    assert j in stack + [j] by {
      assert (stack + [j])[|stack|] == j;
    }
    assert forall k :: k in stack ==> k in stack + [j];
  }

  /** The flood fill. Every cell is pushed at most once, which is why it ends. */
  method Flood(cw: nat, ch: nat, mask: seq<bool>) returns (labels: array<nat>, nxt: nat, ghost pushed: seq<nat>)
    requires cw > 0 && |mask| == cw * ch
    ensures fresh(labels) && Labelling(Grid(cw, mask), labels[..], nxt)
    ensures PushedOnce(labels[..], pushed)
  {
    hide Flooding, Closed, Connected, Seeded, PushedOnce, Labelling;
    ghost var g := Grid(cw, mask);
    var n := cw * ch;
    labels := new nat[n](_ => 0);
    nxt, pushed := 0, [];
    ghost var seeds := [];
    NothingLabelled(g, labels[..]);
    for i := 0 to n
      invariant labels.Length == n && |seeds| == nxt
      invariant Flooding(g, labels[..], seeds, [], pushed) && Closed(g, labels[..], [])
      invariant forall k :: 0 <= k < i && mask[k] ==> labels[k] != 0
    {
      if mask[i] && labels[i] == 0 {
        nxt := nxt + 1;
        seeds, pushed := FloodFrom(cw, ch, mask, labels, i, nxt, seeds, pushed);
      }
    }
    FloodingParts(g, labels[..], seeds, pushed);
    FloodIsConnectivity(g, labels[..], seeds);
  }

  lemma NothingLabelled(g: Grid, labels: seq<nat>)
    requires g.cw > 0 && |labels| == |g.mask| && forall k :: 0 <= k < |labels| ==> labels[k] == 0
    ensures Flooding(g, labels, [], [], []) && Closed(g, labels, [])
  {
  }

  lemma FloodingParts(g: Grid, labels: seq<nat>, seeds: seq<nat>, pushed: seq<nat>)
    requires Flooding(g, labels, seeds, [], pushed)
    ensures Seeded(g, labels, seeds) && PushedOnce(labels, pushed)
  {
  }

  // ---- The land mask -------------------------------------------------------

  datatype LandMap = LandMap(cw: int, ch: int, step: nat, top: nat, labels: seq<nat>)

  /** Land at the sampled pixel, with settlements' parchment left out. */
  predicate LandCell(f: Frame, cw: nat, ch: nat, top: nat, step: nat, k: nat)
    requires f.Valid() && 0 < step && 0 < cw && k < cw * ch
    requires (cw - 1) * step < f.w && top + (ch - 1) * step < f.h
  {
    Sampled(cw, ch, k, step, f.w, f.h, top);
    var c := f.Pixel(k % cw * step, top + k / cw * step);
    IsLand(c) && c != POP_CALM
  }

  lemma Sampled(cw: nat, ch: nat, k: nat, step: nat, w: nat, h: nat, top: nat)
    requires 0 < step && 0 < cw && k < cw * ch && (cw - 1) * step < w && top + (ch - 1) * step < h
    ensures 0 <= k % cw * step < w && 0 <= top + k / cw * step < h
  {
    RowAndColumn(cw, ch, k);
    ScaleUp(k % cw, cw - 1, step);
    ScaleUp(k / cw, ch - 1, step);
  }

  lemma StepsFit(a: int, step: nat)
    requires 0 < step && 0 < a / step
    ensures (a / step - 1) * step < a
  {
    assert a / step * step <= a;
    assert (a / step - 1) * step == a / step * step - step;
  }

  ghost predicate IsLandMask(f: Frame, cw: nat, ch: nat, top: nat, step: nat, mask: seq<bool>)
    requires f.Valid() && 0 < step && 0 < cw
    requires (cw - 1) * step < f.w && top + (ch - 1) * step < f.h
  {
    |mask| == cw * ch && forall k :: 0 <= k < |mask| ==> mask[k] == LandCell(f, cw, ch, top, step, k)
  }

  /** The whole labelling. A crop too small for one sample has no cells; margins larger than the
      frame on one axis only are an error, as Python's negative-sized buffer is. */
  method LandComponents(f: Frame, rightMargin: nat, top: nat, step: nat) returns (r: Result<LandMap, string>)
    requires f.Valid() && 0 < step
    ensures var (cw, ch) := ((f.w - rightMargin) / step, (f.h - top) / step);
      && (r.Err? <==> cw * ch < 0)
      && (r.Ok? ==> r.value.cw == cw && r.value.ch == ch && r.value.step == step && r.value.top == top)
      && (r.Ok? && (cw <= 0 || ch <= 0) ==> forall l :: l in r.value.labels ==> l == 0)
    ensures r.Ok? && r.value.cw > 0 && r.value.ch > 0 ==>
      && (r.value.cw - 1) * step < f.w && top + (r.value.ch - 1) * step < f.h
      && exists mask, n ::
        && IsLandMask(f, r.value.cw, r.value.ch, top, step, mask)
        && Labelling(Grid(r.value.cw, mask), r.value.labels, n)
  {
    hide Labelling;
    var cw, ch := (f.w - rightMargin) / step, (f.h - top) / step;
    if cw * ch < 0 {
      return Err("negative count");
    }
    if cw <= 0 || ch <= 0 {
      return Ok(LandMap(cw, ch, step, top, seq(cw * ch, _ => 0)));
    }
    StepsFit(f.w - rightMargin, step);
    StepsFit(f.h - top, step);
    var mask := LandMask(f, cw, ch, top, step);
    var labels, nxt;
    ghost var pushed;
    labels, nxt, pushed := Flood(cw, ch, mask);
    r := Ok(LandMap(cw, ch, step, top, labels[..]));
  }

  method LandMask(f: Frame, cw: nat, ch: nat, top: nat, step: nat) returns (mask: seq<bool>)
    requires f.Valid() && 0 < step && 0 < cw
    requires (cw - 1) * step < f.w && top + (ch - 1) * step < f.h
    ensures IsLandMask(f, cw, ch, top, step, mask)
  {
    mask := [];
    for cy := 0 to ch
      invariant |mask| == cy * cw <= cw * ch
      invariant forall i :: 0 <= i < |mask| ==> mask[i] == LandCell(f, cw, ch, top, step, i)
    {
      ScaleUp(cy + 1, ch, cw);
      assert (cy + 1) * cw == cy * cw + cw;
      ScaleUp(cy, ch - 1, step);
      var y := top + cy * step;
      for cx := 0 to cw
        invariant |mask| == cy * cw + cx
        invariant forall i :: 0 <= i < |mask| ==> mask[i] == LandCell(f, cw, ch, top, step, i)
      {
        ScaleUp(cx, cw - 1, step);
        var c := f.Pixel(cx * step, y);
        CellAt(cw, cy, cx, |mask|);
        mask := mask + [IsLand(c) && c != POP_CALM];
      }
    }
  }

  lemma CellAt(cw: nat, cy: nat, cx: nat, k: nat)
    requires cx < cw && k == cy * cw + cx
    ensures k % cw == cx && k / cw == cy
  {
    ModOf(cw, cy, cx);
  }

  // ---- Reading the labels back ---------------------------------------------

  /** The vote of one cell of the neighbourhood: its label, if it is on the grid and on land. */
  function Vote(m: LandMap, nx: int, ny: int): (r: seq<nat>)
    requires |m.labels| == m.cw * m.ch
    ensures |r| <= 1 && 0 !in r
  {
    if 0 <= nx < m.cw && 0 <= ny < m.ch then
      RowEnd(m.cw, m.ch, nx, ny);
      if m.labels[ny * m.cw + nx] != 0 then [m.labels[ny * m.cw + nx]] else []
    else []
  }

  lemma RowEnd(cw: nat, ch: nat, nx: nat, ny: nat)
    requires nx < cw && ny < ch
    ensures 0 <= ny * cw + nx < cw * ch
  {
    ScaleUp(ny + 1, ch, cw);
    assert (ny + 1) * cw == ny * cw + cw;
  }

  /** The votes of row `ny` from column `cx - radius` up to column `nx`. */
  function RowVotes(m: LandMap, cx: int, radius: nat, nx: int, ny: int): seq<nat>
    requires |m.labels| == m.cw * m.ch && cx - radius <= nx
    decreases nx - cx + radius
  {
    if nx == cx - radius then [] else RowVotes(m, cx, radius, nx - 1, ny) + Vote(m, nx - 1, ny)
  }

  /** The votes of the whole neighbourhood above row `ny`, in scan order. */
  function Votes(m: LandMap, cx: int, cy: int, radius: nat, ny: int): seq<nat>
    requires |m.labels| == m.cw * m.ch && cy - radius <= ny
    decreases ny - cy + radius
  {
    if ny == cy - radius then []
    else Votes(m, cx, cy, radius, ny - 1) + RowVotes(m, cx, radius, cx + radius + 1, ny - 1)
  }

  /** `v` wins: nothing was cast more often, and whatever was cast as often first appeared later. */
  ghost predicate Wins(votes: seq<nat>, v: nat) {
    && v in votes
    && forall u :: u in votes ==>
         || multiset(votes)[u] < multiset(votes)[v]
         || (multiset(votes)[u] == multiset(votes)[v] && FirstIndex(votes, v) <= FirstIndex(votes, u))
  }

  function FirstIndex(votes: seq<nat>, v: nat): nat
    requires v in votes
  {
    if votes[0] == v then 0 else 1 + FirstIndex(votes[1..], v)
  }

  /** The dictionary of votes: the labels in the order they were first seen, and their counts. */
  ghost predicate Counted(votes: seq<nat>, order: seq<nat>, count: map<nat, nat>) {
    && (forall v :: v in votes <==> v in count)
    && (forall v :: v in count ==> count[v] == multiset(votes)[v])
    && (forall v :: v in count <==> v in order)
    && (forall i, j :: 0 <= i < j < |order| ==> FirstSeen(votes, order[i], order[j]))
  }

  ghost predicate FirstSeen(votes: seq<nat>, u: nat, v: nat) {
    u in votes && v in votes && FirstIndex(votes, u) < FirstIndex(votes, v)
  }

  lemma {:induction false} FirstIndexGrows(votes: seq<nat>, v: nat, u: nat)
    requires v in votes
    ensures v in votes + [u] && FirstIndex(votes + [u], v) == FirstIndex(votes, v) < |votes|
    decreases |votes|
  {
    assert (votes + [u])[1..] == votes[1..] + [u];
    if votes[0] != v {
      FirstIndexGrows(votes[1..], v, u);
    }
  }

  lemma {:induction false} FirstIndexOfNew(votes: seq<nat>, v: nat)
    requires v !in votes
    ensures FirstIndex(votes + [v], v) == |votes|
    decreases |votes|
  {
    if votes != [] {
      assert (votes + [v])[1..] == votes[1..] + [v];
      FirstIndexOfNew(votes[1..], v);
    }
  }

  function Cast(count: map<nat, nat>, v: nat): map<nat, nat> {
    count[v := (if v in count then count[v] else 0) + 1]
  }

  lemma NoVotes()
    ensures Counted([], [], map[])
  {
  }

  lemma CastVote(votes: seq<nat>, order: seq<nat>, count: map<nat, nat>, v: nat)
    requires Counted(votes, order, count)
    ensures Counted(votes + [v], if v in count then order else order + [v], Cast(count, v))
  {
    hide FirstSeen, FirstIndex;
    assert multiset(votes + [v]) == multiset(votes) + multiset{v};
    var order' := if v in count then order else order + [v];
    assert forall u :: u in votes + [v] <==> u in votes || u == v;
    assert forall u :: u in order' <==> u in order || u == v;
    forall i, j | 0 <= i < j < |order'|
      ensures FirstSeen(votes + [v], order'[i], order'[j])
    {
      OrderKept(votes, order, order', count, v, i, j);
    }
  }

  lemma OrderKept(votes: seq<nat>, order: seq<nat>, order': seq<nat>, count: map<nat, nat>, v: nat, i: nat, j: nat)
    requires Counted(votes, order, count)
    requires order' == (if v in count then order else order + [v]) && i < j < |order'|
    ensures FirstSeen(votes + [v], order'[i], order'[j])
  {
    assert order'[i] == order[i] && order[i] in votes;
    FirstIndexGrows(votes, order[i], v);
    if j < |order| {
      assert FirstSeen(votes, order[i], order[j]);
      FirstIndexGrows(votes, order[j], v);
    } else {
      FirstIndexOfNew(votes, v);
    }
  }

  /** The majority label of the cells around a point of the frame: 0 when no land is near,
      otherwise the most frequent label, the first seen among equals. */
  method ComponentAt(m: LandMap, x: int, y: int, radius: nat) returns (v: nat)
    requires m.step > 0 && |m.labels| == m.cw * m.ch
    ensures var votes := Votes(m, x / m.step, (y - m.top) / m.step, radius, (y - m.top) / m.step + radius + 1);
      if votes == [] then v == 0 else Wins(votes, v) && v != 0
  {
    hide Counted, Wins, FirstIndex, RowVotes, Vote;
    var cx, cy := x / m.step, (y - m.top) / m.step;
    ghost var votes: seq<nat> := [];
    var order: seq<nat>, count: map<nat, nat> := [], map[];
    NoVotes();
    var ny := cy - radius;
    while ny < cy + radius + 1
      invariant cy - radius <= ny <= cy + radius + 1
      invariant votes == Votes(m, cx, cy, radius, ny) && 0 !in votes && Counted(votes, order, count)
    {
      order, count := CountRow(m, cx, radius, ny, votes, order, count);
      votes := votes + RowVotes(m, cx, radius, cx + radius + 1, ny);
      ny := ny + 1;
    }
    v := Winner(votes, order, count);
  }

  /** The inner loop: the votes of one row. */
  method CountRow(m: LandMap, cx: int, radius: nat, ny: int, ghost before: seq<nat>, order0: seq<nat>,
                  count0: map<nat, nat>)
    returns (order: seq<nat>, count: map<nat, nat>)
    requires |m.labels| == m.cw * m.ch && 0 !in before && Counted(before, order0, count0)
    ensures var votes := before + RowVotes(m, cx, radius, cx + radius + 1, ny);
      0 !in votes && Counted(votes, order, count)
  {
    hide Counted;
    order, count := order0, count0;
    ghost var votes := before;
    var nx := cx - radius;
    while nx < cx + radius + 1
      invariant cx - radius <= nx <= cx + radius + 1
      invariant votes == before + RowVotes(m, cx, radius, nx, ny) && 0 !in votes && Counted(votes, order, count)
    {
      ghost var vote := Vote(m, nx, ny);
      if 0 <= nx < m.cw && 0 <= ny < m.ch {
        RowEnd(m.cw, m.ch, nx, ny);
        var u := m.labels[ny * m.cw + nx];
        if u != 0 {
          assert vote == [u];
          CastVote(votes, order, count, u);
          order := if u in count then order else order + [u];
          count := Cast(count, u);
          votes := votes + [u];
        }
      }
      assert votes == before + (RowVotes(m, cx, radius, nx, ny) + vote);
      nx := nx + 1;
    }
  }

  /** `max(votes.items(), key=count)`: the first entry with the largest count. */
  method Winner(ghost votes: seq<nat>, order: seq<nat>, count: map<nat, nat>) returns (v: nat)
    requires Counted(votes, order, count) && 0 !in votes
    ensures if votes == [] then v == 0 else Wins(votes, v) && v != 0
  {
    assert votes != [] ==> votes[0] in count;
    if order == [] {
      return 0;
    }
    var best := 0;
    assert forall i :: 0 <= i < |order| ==> order[i] in count;
    for i := 1 to |order|
      invariant best < i
      invariant forall k :: 0 <= k < i ==> count[order[k]] <= count[order[best]]
      invariant forall k :: 0 <= k < best ==> count[order[k]] < count[order[best]]
    {
      if count[order[i]] > count[order[best]] {
        best := i;
      }
    }
    v := order[best];
    forall u | u in votes
      ensures multiset(votes)[u] < multiset(votes)[v]
        || (multiset(votes)[u] == multiset(votes)[v] && FirstIndex(votes, v) <= FirstIndex(votes, u))
    {
      assert u in count;
      var k :| 0 <= k < |order| && order[k] == u;
      if best < k {
        assert FirstSeen(votes, order[best], order[k]);
      }
    }
  }
}
