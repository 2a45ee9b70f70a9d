/** By ordinal or by live position: the two piece counts of `hack/churn/pieces.py`, and what
    collapsing the vacant ordinals does to the first. */
module Ghosts {
  import opened Sorting
  import opened Pieces

  // ---- runs_of_positions ---------------------------------------------------

  /** Length of the group of equal values that `flags` begins with. */
  function GroupLen(flags: seq<bool>): (n: nat)
    requires flags != []
    ensures 1 <= n <= |flags|
    ensures forall i :: 0 <= i < n ==> flags[i] == flags[0]
    ensures n < |flags| ==> flags[n] != flags[0]
  {
    if |flags| == 1 || flags[1] != flags[0] then 1 else 1 + GroupLen(flags[1..])
  }

  /** `[len(list(g)) for k, g in groupby(flags) if k]`. */
  function RunsOfPositions(flags: seq<bool>): seq<nat> {
    if flags == [] then []
    else
      var n := GroupLen(flags);
      (if flags[0] then [n] else []) + RunsOfPositions(flags[n..])
  }

  function BumpLast(s: seq<nat>): seq<nat> {
    if s == [] then [] else s[|s| - 1 := s[|s| - 1] + 1]
  }

  /** One more position: a false one adds nothing, a true one extends the run it touches or
      starts another. */
  function AddPosition(runs: seq<nat>, touching: bool, flag: bool): seq<nat> {
    if !flag then runs else if touching then BumpLast(runs) else runs + [1]
  }

  lemma GroupLenSnoc(flags: seq<bool>, b: bool)
    requires flags != []
    ensures GroupLen(flags + [b]) ==
      if GroupLen(flags) == |flags| && b == flags[0] then |flags| + 1 else GroupLen(flags)
  {
    var n, m := GroupLen(flags), GroupLen(flags + [b]);
    assert forall i :: 0 <= i < |flags| ==> (flags + [b])[i] == flags[i];
    assert (flags + [b])[|flags|] == b;
  }

  lemma FirstGroup(flags: seq<bool>, n: nat)
    requires flags != [] && n == GroupLen(flags)
    ensures RunsOfPositions(flags) == (if flags[0] then [n] else []) + RunsOfPositions(flags[n..])
  {
  }

  lemma NoPositions()
    ensures RunsOfPositions([]) == []
  {
  }

  lemma {:induction false} RunsSnoc(flags: seq<bool>, b: bool)
    ensures RunsOfPositions(flags + [b]) == AddPosition(RunsOfPositions(flags), flags != [] && flags[|flags| - 1], b)
    ensures flags != [] && flags[|flags| - 1] ==> RunsOfPositions(flags) != []
    decreases |flags|
  {
    hide RunsOfPositions, GroupLen;
    NoPositions();
    if flags == [] {
      assert [] + [b] == [b];
      GroupLenOne(b);
      FirstGroup([b], 1);
      assert [b][1..] == [];
    } else {
      var n := GroupLen(flags);
      FirstGroup(flags, n);
      GroupLenSnoc(flags, b);
      FirstGroup(flags + [b], GroupLen(flags + [b]));
      if n < |flags| {
        assert (flags + [b])[n..] == flags[n..] + [b];
        RunsSnoc(flags[n..], b);
        BumpAfter(if flags[0] then [n] else [], RunsOfPositions(flags[n..]));
      } else {
        assert flags[n..] == [];
        if b == flags[0] {
          assert (flags + [b])[n + 1..] == [];
        } else {
          assert (flags + [b])[n..] == [b];
          GroupLenOne(b);
          FirstGroup([b], 1);
          assert [b][1..] == [];
        }
      }
    }
  }

  lemma GroupLenOne(b: bool)
    ensures GroupLen([b]) == 1
  {
  }

  lemma BumpAfter(head: seq<nat>, tail: seq<nat>)
    ensures tail != [] ==> BumpLast(head + tail) == head + BumpLast(tail)
    ensures (head + tail) + [1] == head + (tail + [1])
  {
  }

  // ---- The two counts side by side -----------------------------------------

  function Flags(ords: seq<int>, changed: set<int>): (r: seq<bool>)
    ensures |r| == |ords|
  {
    seq(|ords|, i requires 0 <= i < |ords| => ords[i] in changed)
  }

  ghost predicate StrictlyAscending(ords: seq<int>) {
    forall i, j :: 0 <= i < j < |ords| ==> ords[i] < ords[j]
  }

  /** Runs by ordinal over the first `n` live ordinals. */
  function ByOrdinal(ords: seq<int>, changed: set<int>, n: nat): seq<Run>
    requires n <= |ords|
  {
    if n == 0 then []
    else
      var rest := ByOrdinal(ords, changed, n - 1);
      if ords[n - 1] in changed then AddOrdinal(rest, ords[n - 1]) else rest
  }

  lemma {:induction false} ByOrdinalIsRuns(ords: seq<int>, changed: set<int>, n: nat)
    requires StrictlyAscending(ords) && n <= |ords|
    ensures RunsOf(changed * Members(ords[..n]), ByOrdinal(ords, changed, n))
  {
    hide RunsOf;
    if n == 0 {
      NoRuns();
      assert changed * Members(ords[..0]) == {} == Members([]);
    } else {
      var o := ords[n - 1];
      ByOrdinalIsRuns(ords, changed, n - 1);
      assert ords[..n] == ords[..n - 1] + [o];
      var before := changed * Members(ords[..n - 1]);
      if o in changed {
        AddOrdinalRuns(before, ByOrdinal(ords, changed, n - 1), o);
        assert changed * Members(ords[..n]) == before + {o};
      } else {
        assert changed * Members(ords[..n]) == before;
      }
    }
  }

  /** The last run by ordinal ends at the last changed ordinal so far. */
  lemma {:induction false} LastByOrdinal(ords: seq<int>, changed: set<int>, n: nat)
    requires StrictlyAscending(ords) && n <= |ords|
    ensures var runs := ByOrdinal(ords, changed, n);
      && (runs != [] ==> n > 0 && runs[|runs| - 1].last <= ords[n - 1])
      && (n > 0 && ords[n - 1] in changed ==> runs != [] && runs[|runs| - 1].last == ords[n - 1])
      && (n > 0 && ords[n - 1] !in changed && runs != [] ==> runs[|runs| - 1].last < ords[n - 1])
  {
    if n > 0 {
      LastByOrdinal(ords, changed, n - 1);
    }
  }

  function Sum(s: seq<nat>): nat {
    if s == [] then 0 else Sum(s[..|s| - 1]) + s[|s| - 1]
  }

  function Flatten(groups: seq<seq<nat>>): seq<nat> {
    if groups == [] then [] else Flatten(groups[..|groups| - 1]) + groups[|groups| - 1]
  }

  function Sums(groups: seq<seq<nat>>): (r: seq<nat>)
    ensures |r| == |groups|
  {
    seq(|groups|, i requires 0 <= i < |groups| => Sum(groups[i]))
  }

  ghost predicate Proper(groups: seq<seq<nat>>) {
    forall i :: 0 <= i < |groups| ==> groups[i] != []
  }

  /** `coarse` is `fine` with adjacent entries added up. */
  ghost predicate Coarsens(fine: seq<nat>, coarse: seq<nat>) {
    exists groups :: Proper(groups) && Flatten(groups) == fine && Sums(groups) == coarse
  }

  /** A vacant or uncounted ordinal lies between two changed slots that are neighbours in the
      live order. */
  ghost predicate GhostBetween(ords: seq<int>, changed: set<int>, n: nat)
    requires n <= |ords|
  {
    exists i :: 0 < i < n && ords[i - 1] in changed && ords[i] in changed && ords[i - 1] + 1 < ords[i]
  }

  lemma SumSnoc(s: seq<nat>, v: nat)
    ensures Sum(s + [v]) == Sum(s) + v
  {
    assert (s + [v])[..|s|] == s;
  }

  lemma SumBump(s: seq<nat>)
    requires s != []
    ensures Sum(BumpLast(s)) == Sum(s) + 1
  {
    assert BumpLast(s)[..|s| - 1] == s[..|s| - 1];
  }

  /** Changing the last group. */
  lemma RegroupLast(groups: seq<seq<nat>>, g: seq<nat>)
    requires groups != []
    ensures Flatten(groups[|groups| - 1 := g]) == Flatten(groups[..|groups| - 1]) + g
    ensures Sums(groups[|groups| - 1 := g]) == Sums(groups)[|groups| - 1 := Sum(g)]
  {
    assert groups[|groups| - 1 := g][..|groups| - 1] == groups[..|groups| - 1];
  }

  lemma GroupSnoc(groups: seq<seq<nat>>, g: seq<nat>)
    ensures Flatten(groups + [g]) == Flatten(groups) + g
    ensures Sums(groups + [g]) == Sums(groups) + [Sum(g)]
  {
    assert (groups + [g])[..|groups|] == groups;
  }

  lemma {:induction false} Tandem(ords: seq<int>, changed: set<int>, n: nat) returns (groups: seq<seq<nat>>)
    requires StrictlyAscending(ords) && n <= |ords|
    ensures Proper(groups)
    ensures Flatten(groups) == Lens(ByOrdinal(ords, changed, n))
    ensures Sums(groups) == RunsOfPositions(Flags(ords, changed)[..n])
    ensures |Lens(ByOrdinal(ords, changed, n))| >= |groups|
    ensures |Lens(ByOrdinal(ords, changed, n))| > |groups| <==> GhostBetween(ords, changed, n)
    ensures !GhostBetween(ords, changed, n) ==> Flatten(groups) == Sums(groups)
  {
    hide RunsOfPositions, StrictlyAscending;
    var flags := Flags(ords, changed);
    if n == 0 {
      groups := [];
      NoPositions();
      assert flags[..0] == [];
      assert Lens(ByOrdinal(ords, changed, 0)) == [];
    } else {
      var before := Tandem(ords, changed, n - 1);
      var o := ords[n - 1];
      var runs := ByOrdinal(ords, changed, n - 1);
      LastByOrdinal(ords, changed, n - 1);
      RunsSnoc(flags[..n - 1], flags[n - 1]);
      assert flags[..n] == flags[..n - 1] + [flags[n - 1]];
      groups := StepGroups(ords, changed, n, before, runs);
      GhostStep(ords, changed, n);
    }
  }

  lemma GhostStep(ords: seq<int>, changed: set<int>, n: nat)
    requires 0 < n <= |ords|
    ensures GhostBetween(ords, changed, n) <==>
      || GhostBetween(ords, changed, n - 1)
      || (n >= 2 && ords[n - 2] in changed && ords[n - 1] in changed && ords[n - 2] + 1 < ords[n - 1])
  {
  }

  /** How the groups grow with one more live ordinal. */
  lemma StepGroups(ords: seq<int>, changed: set<int>, n: nat, before: seq<seq<nat>>, runs: seq<Run>)
    returns (groups: seq<seq<nat>>)
    requires StrictlyAscending(ords) && 0 < n <= |ords| && Proper(before) && Flatten(before) == Lens(runs)
      && |runs| >= |before|
    requires runs != [] ==> n >= 2 && runs[|runs| - 1].last <= ords[n - 2]
    requires n >= 2 && ords[n - 2] in changed ==> runs != [] && runs[|runs| - 1].last == ords[n - 2]
    requires n >= 2 && ords[n - 2] !in changed && runs != [] ==> runs[|runs| - 1].last < ords[n - 2]
    requires n >= 2 && ords[n - 2] in changed ==> before != []
    ensures var runs' := if ords[n - 1] in changed then AddOrdinal(runs, ords[n - 1]) else runs;
      var touching := n >= 2 && ords[n - 2] in changed;
      var splits := touching && ords[n - 1] in changed && ords[n - 2] + 1 < ords[n - 1];
      && Proper(groups) && Flatten(groups) == Lens(runs')
      && Sums(groups) == AddPosition(Sums(before), touching, ords[n - 1] in changed)
      && |runs'| - |groups| == |runs| - |before| + (if splits then 1 else 0)
      && (!splits && Flatten(before) == Sums(before) ==> Flatten(groups) == Sums(groups))
  {
    hide Flatten, Sums, Proper, Lens, AddOrdinal, BumpLast;
    var o := ords[n - 1];
    if o !in changed {
      groups := before;
    } else if n >= 2 && ords[n - 2] in changed {
      if ords[n - 2] + 1 == o {
        groups := GrowLast(before);
        LensBump(runs, o);
      } else {
        groups := SplitLast(before);
        LensAppend(runs, o);
      }
    } else {
      groups := before + [[1]];
      AddGroup(before);
      LensAppend(runs, o);
    }
  }

  /** The last piece of the last group grows. */
  lemma GrowLast(before: seq<seq<nat>>) returns (groups: seq<seq<nat>>)
    requires Proper(before) && before != []
    ensures Proper(groups) && |groups| == |before|
    ensures Flatten(groups) == BumpLast(Flatten(before)) && Sums(groups) == BumpLast(Sums(before))
  {
    var m := |before| - 1;
    groups := before[m := BumpLast(before[m])];
    RegroupLast(before, BumpLast(before[m]));
    SumBump(before[m]);
    BumpTail(Flatten(before[..m]), before[m]);
  }

  /** A piece more in the last group. */
  lemma SplitLast(before: seq<seq<nat>>) returns (groups: seq<seq<nat>>)
    requires Proper(before) && before != []
    ensures Proper(groups) && |groups| == |before|
    ensures Flatten(groups) == Flatten(before) + [1] && Sums(groups) == BumpLast(Sums(before))
  {
    var m := |before| - 1;
    groups := before[m := before[m] + [1]];
    RegroupLast(before, before[m] + [1]);
    SumSnoc(before[m], 1);
    assert Flatten(before[..m]) + (before[m] + [1]) == (Flatten(before[..m]) + before[m]) + [1];
  }

  /** A group more, of one piece. */
  lemma AddGroup(before: seq<seq<nat>>)
    requires Proper(before)
    ensures var groups := before + [[1]];
      Proper(groups) && Flatten(groups) == Flatten(before) + [1] && Sums(groups) == Sums(before) + [1]
  {
    GroupSnoc(before, [1]);
    SumSnoc([], 1);
    assert [] + [1] == [1];
  }

  lemma BumpTail(a: seq<nat>, b: seq<nat>)
    requires b != []
    ensures a + BumpLast(b) == BumpLast(a + b)
  {
  }

  lemma LensBump(runs: seq<Run>, o: int)
    requires runs != [] && runs[|runs| - 1].last + 1 == o
    ensures Lens(AddOrdinal(runs, o)) == BumpLast(Lens(runs)) && |AddOrdinal(runs, o)| == |runs|
  {
  }

  lemma LensAppend(runs: seq<Run>, o: int)
    requires runs != [] ==> runs[|runs| - 1].last + 1 != o
    ensures Lens(AddOrdinal(runs, o)) == Lens(runs) + [1] && |AddOrdinal(runs, o)| == |runs| + 1
  {
  }

  lemma {:induction false} SumOfFlatten(groups: seq<seq<nat>>)
    ensures Sum(Flatten(groups)) == Sum(Sums(groups))
  {
    if groups != [] {
      var m := |groups| - 1;
      SumOfFlatten(groups[..m]);
      SumConcat(Flatten(groups[..m]), groups[m]);
      assert Sums(groups)[..m] == Sums(groups[..m]);
    }
  }

  lemma {:induction false} SumConcat(a: seq<nat>, b: seq<nat>)
    ensures Sum(a + b) == Sum(a) + Sum(b)
    decreases |b|
  {
    if b == [] {
      assert a + b == a;
    } else {
      var m := |b| - 1;
      SumConcat(a, b[..m]);
      assert (a + b)[..|a + b| - 1] == a + b[..m];
    }
  }

  /** Collapsing the ordinals that are not live only coarsens. Each run by live position is a sum
      of adjacent runs by ordinal, so there are never more of them and they add up the same; and
      the two lists differ exactly when an ordinal that is not live lies between two changed
      slots that are neighbours in the live order. */
  lemma CollapsingCoarsens(ords: seq<int>, changed: seq<int>, runs: seq<Run>)
    requires StrictlyAscending(ords) && Members(changed) <= Members(ords)
    requires RunsOf(Members(changed), runs)
    ensures var (byOrd, byLive) := (Lens(runs), RunsOfPositions(Flags(ords, Members(changed))));
      && Coarsens(byOrd, byLive)
      && Sum(byOrd) == Sum(byLive)
      && |byLive| <= |byOrd|
      && (byOrd != byLive <==> GhostBetween(ords, Members(changed), |ords|))
  {
    hide RunsOf, RunsOfPositions, StrictlyAscending, Flatten, Sum;
    var set0, n := Members(changed), |ords|;
    ByOrdinalIsRuns(ords, set0, n);
    assert ords[..n] == ords && set0 * Members(ords) == set0;
    OneListOfRuns(set0, runs, ByOrdinal(ords, set0, n));
    var groups := Tandem(ords, set0, n);
    assert Flags(ords, set0)[..n] == Flags(ords, set0);
    SumOfFlatten(groups);
  }

  const UNPOOLED := "unpooled"

  /** The ordinals the script measures, of a zone's live slots in order: the unpooled are dropped. */
  function PooledOrdinals(live: seq<(string, int)>): seq<int> {
    if live == [] then []
    else
      var n := |live| - 1;
      PooledOrdinals(live[..n]) + (if live[n].0 == UNPOOLED then [] else [live[n].1])
  }

  /** So what splits a run need not be a ghost: here every slot from 1 to 3 is live, the middle one
      unpooled. */
  lemma LiveSlotSplits(runs: seq<Run>)
    requires RunsOf(Members([1, 3]), runs)
    ensures var ords := PooledOrdinals([("a", 1), ("unpooled", 2), ("a", 3)]);
      ords == [1, 3] && Lens(runs) != RunsOfPositions(Flags(ords, Members([1, 3])))
  {
    var live := [("a", 1), (UNPOOLED, 2), ("a", 3)];
    var one: seq<(string, int)> := [("a", 1)];
    var two := one + [(UNPOOLED, 2)];
    assert PooledOrdinals(one[..0]) == [];
    assert two[..1] == one && PooledOrdinals(one) == [1];
    assert live[..2] == two && PooledOrdinals(two) == [1];
    var ords := [1, 3];
    assert PooledOrdinals(live) == ords;
    CollapsingCoarsens(ords, ords, runs);
    assert ords[0] in Members(ords) && ords[1] in Members(ords);
  }

  // ---- summarise -----------------------------------------------------------

  datatype Summary = NoPieces | Summary(pieces: nat, sizes: seq<nat>, largest: nat, share: real)

  function Largest(sizes: seq<nat>): (r: nat)
    requires sizes != []
    ensures r in sizes && forall v :: v in sizes ==> v <= r
  {
    var n := |sizes| - 1;
    if n == 0 then sizes[0]
    else
      var rest := Largest(sizes[..n]);
      assert forall v :: v in sizes ==> v in sizes[..n] || v == sizes[n];
      if sizes[n] > rest then sizes[n] else rest
  }

  /** An empty set has no pieces and no largest, whatever sizes are given with it. */
  function Summarise(sizes: seq<nat>, total: nat): Summary
    requires total > 0 ==> sizes != []
  {
    if total == 0 then NoPieces
    else Summary(|sizes|, SortBy(sizes, (x: nat, y: nat) => x >= y), Largest(sizes),
      Largest(sizes) as real / total as real)
  }

  lemma {:induction false} PieceInSum(s: seq<nat>, v: nat)
    requires v in s
    ensures v <= Sum(s)
  {
    var n := |s| - 1;
    if v != s[n] {
      assert v in s[..n];
      PieceInSum(s[..n], v);
    }
  }

  lemma {:induction false} PieceInGroup(groups: seq<seq<nat>>, v: nat)
    requires v in Flatten(groups)
    ensures exists w :: w in Sums(groups) && v <= w
  {
    var n := |groups| - 1;
    if v in groups[n] {
      PieceInSum(groups[n], v);
      assert Sums(groups)[n] == Sum(groups[n]) && Sums(groups)[n] in Sums(groups);
    } else {
      PieceInGroup(groups[..n], v);
      var w :| w in Sums(groups[..n]) && v <= w;
      var i :| 0 <= i < n && Sums(groups[..n])[i] == w;
      assert Sums(groups)[i] == w && Sums(groups)[i] in Sums(groups);
    }
  }

  lemma SomePiece(flat: seq<nat>, coarse: seq<nat>)
    requires Sum(flat) == Sum(coarse) > 0
    ensures flat != [] && coarse != []
  {
  }

  /** So the summary by live position never shows more pieces than the one by ordinal, and never a
      smaller largest one. */
  lemma CollapsingFlatters(ords: seq<int>, changed: seq<int>, runs: seq<Run>)
    requires StrictlyAscending(ords) && Members(changed) <= Members(ords) && RunsOf(Members(changed), runs)
    requires Sum(Lens(runs)) > 0
    ensures var (byOrd, byLive) := (Lens(runs), RunsOfPositions(Flags(ords, Members(changed))));
      && byOrd != [] && byLive != []
      && var (o, l) := (Summarise(byOrd, Sum(byOrd)), Summarise(byLive, Sum(byOrd)));
         l.pieces <= o.pieces && o.largest <= l.largest && o.share <= l.share <= 1.0
  {
    hide RunsOf, RunsOfPositions, StrictlyAscending, Lens, Flags, Members, Flatten, Sum;
    CollapsingCoarsens(ords, changed, runs);
    var byOrd, byLive := Lens(runs), RunsOfPositions(Flags(ords, Members(changed)));
    SomePiece(byOrd, byLive);
    var groups :| Proper(groups) && Flatten(groups) == byOrd && Sums(groups) == byLive;
    PieceInGroup(groups, Largest(byOrd));
    PieceInSum(byLive, Largest(byLive));
    ShareGrows(Largest(byOrd), Largest(byLive), Sum(byOrd));
  }

  lemma ShareGrows(a: nat, b: nat, total: nat)
    requires a <= b <= total && total > 0
    ensures a as real / total as real <= b as real / total as real <= 1.0
  {
    var t := total as real;
    QuotientGrows(a as real, b as real, t);
    QuotientGrows(b as real, t, t);
    assert t / t == 1.0;
  }

  lemma QuotientGrows(x: real, y: real, t: real)
    requires x <= y && t > 0.0
    ensures x / t <= y / t
  {
    assert (x / t) * t == x;
    assert (y / t) * t == y;
  }
}
