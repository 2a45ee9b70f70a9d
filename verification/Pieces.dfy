/** Contiguous pieces of slots, counted twice: `pool_label_pieces` in
    `crates/kubernation/src/draw.rs` names them on the map, and `hack/churn/pieces.py` measures
    them from the stored layout. */
module Pieces {
  import opened Sorting

  datatype Run = Run(first: int, last: int, len: nat)

  /** A maximal stretch of consecutive members of `s`. */
  ghost predicate MaximalRun(s: set<int>, r: Run) {
    && r.first <= r.last && r.len == r.last - r.first + 1
    && (forall o :: r.first <= o <= r.last ==> o in s)
    && r.first - 1 !in s && r.last + 1 !in s
  }

  /** The maximal runs of `s`, all of them, in ascending order. */
  ghost predicate RunsOf(s: set<int>, runs: seq<Run>) {
    && (forall i :: 0 <= i < |runs| ==> MaximalRun(s, runs[i]))
    && (forall i, j :: 0 <= i < j < |runs| ==> runs[i].last < runs[j].first)
    && (forall o :: o in s ==> Covered(runs, o))
  }

  ghost predicate Covered(runs: seq<Run>, o: int) {
    exists i :: 0 <= i < |runs| && runs[i].first <= o <= runs[i].last
  }

  lemma SameRun(s: set<int>, r: Run, q: Run)
    requires MaximalRun(s, r) && MaximalRun(s, q)
    requires q.first <= r.first <= q.last
    ensures q == r
  {
    assert r.first > q.first ==> r.first - 1 in s;
    assert r.last < q.last ==> r.last + 1 in s;
    assert q.last < r.last ==> q.last + 1 in s;
  }

  /** A set has one list of maximal runs. */
  lemma OneListOfRuns(s: set<int>, a: seq<Run>, b: seq<Run>)
    requires RunsOf(s, a) && RunsOf(s, b)
    ensures a == b
  {
    var lt := (r: Run, q: Run) => r.first < q.first;
    forall r
      ensures r in a <==> r in b
    {
      if r in a { RunIsListed(s, r, b); }
      if r in b { RunIsListed(s, r, a); }
    }
    AscendingRuns(s, a);
    AscendingRuns(s, b);
    OneAscendingOrder(a, b, lt);
  }

  lemma RunIsListed(s: set<int>, r: Run, runs: seq<Run>)
    requires RunsOf(s, runs) && MaximalRun(s, r)
    ensures r in runs
  {
    assert r.first in s && Covered(runs, r.first);
    var j :| 0 <= j < |runs| && runs[j].first <= r.first <= runs[j].last;
    SameRun(s, r, runs[j]);
  }

  lemma AscendingRuns(s: set<int>, runs: seq<Run>)
    requires RunsOf(s, runs)
    ensures Ascending(runs, (r: Run, q: Run) => r.first < q.first)
  {
    forall i, j | 0 <= i < j < |runs|
      ensures runs[i].first < runs[j].first
    {
      assert MaximalRun(s, runs[i]) && runs[i].last < runs[j].first;
    }
  }

  function TotalLen(runs: seq<Run>): nat {
    if runs == [] then 0 else TotalLen(runs[..|runs| - 1]) + runs[|runs| - 1].len
  }

  function Lens(runs: seq<Run>): (r: seq<nat>)
    ensures |r| == |runs|
  {
    seq(|runs|, i requires 0 <= i < |runs| => runs[i].len)
  }

  // ---- runs_of_consecutive -------------------------------------------------

  ghost function Members(s: seq<int>): set<int> {
    set i | 0 <= i < |s| :: s[i]
  }

  /** What one more ordinal above all the others does to the runs. */
  function AddOrdinal(out: seq<Run>, o: int): seq<Run> {
    if out != [] && o == out[|out| - 1].last + 1 then
      var r := out[|out| - 1];
      out[..|out| - 1] + [Run(r.first, o, r.len + 1)]
    else out + [Run(o, o, 1)]
  }

  lemma LastRunEnds(s: set<int>, out: seq<Run>, p: int)
    requires RunsOf(s, out) && p in s
    ensures out != [] && p <= out[|out| - 1].last && out[|out| - 1].last in s
  {
    var n := |out| - 1;
    assert Covered(out, p);
    var k :| 0 <= k < |out| && out[k].first <= p <= out[k].last;
    assert MaximalRun(s, out[n]) && (k < n ==> out[k].last < out[n].first);
  }

  /** A member above all others that does not touch them starts a run. */
  lemma StartRun(s: set<int>, out: seq<Run>, o: int)
    requires RunsOf(s, out) && (forall p :: p in s ==> p < o) && o - 1 !in s
    ensures RunsOf(s + {o}, out + [Run(o, o, 1)])
  {
    var out', s' := out + [Run(o, o, 1)], s + {o};
    assert forall p :: p in s' <==> p in s || p == o;
    forall i | 0 <= i < |out'|
      ensures MaximalRun(s', out'[i]) && (i < |out| ==> out'[i].last < o)
    {
      if i < |out| {
        assert MaximalRun(s, out[i]);
        assert out[i].last in s;
      }
    }
    forall p | p in s'
      ensures Covered(out', p)
    {
      if p == o {
        assert out'[|out|].last == o;
      } else {
        assert Covered(out, p);
        var k :| 0 <= k < |out| && out[k].first <= p <= out[k].last;
        assert out'[k] == out[k];
      }
    }
  }

  lemma StillMaximal(s: set<int>, r: Run, o: int)
    requires MaximalRun(s, r) && r.last + 1 < o
    ensures MaximalRun(s + {o}, r)
  {
  }

  lemma LastGrows(s: set<int>, r: Run, o: int)
    requires MaximalRun(s, r) && r.last == o - 1 && forall p :: p in s ==> p < o
    ensures MaximalRun(s + {o}, Run(r.first, o, r.len + 1)) && r.first <= r.last
  {
  }

  /** A member just above the last run extends it. */
  lemma ExtendRun(s: set<int>, out: seq<Run>, o: int)
    requires RunsOf(s, out) && (forall p :: p in s ==> p < o)
    requires out != [] && out[|out| - 1].last == o - 1
    ensures RunsOf(s + {o}, out[..|out| - 1] + [Run(out[|out| - 1].first, o, out[|out| - 1].len + 1)])
  {
    hide MaximalRun;
    var n, s' := |out| - 1, s + {o};
    var out' := out[..n] + [Run(out[n].first, o, out[n].len + 1)];
    LastGrows(s, out[n], o);
    forall i | 0 <= i < n
      ensures MaximalRun(s', out'[i]) && out'[i] == out[i]
    {
      assert MaximalRun(s, out[i]) && out[i].last < out[n].first;
      StillMaximal(s, out[i], o);
    }
    forall p | p in s'
      ensures Covered(out', p)
    {
      if p == o {
        assert out'[n].last == o;
      } else {
        assert Covered(out, p);
        var k :| 0 <= k < |out| && out[k].first <= p <= out[k].last;
        assert out'[k].first <= p <= out'[k].last;
      }
    }
  }

  lemma AddOrdinalRuns(s: set<int>, out: seq<Run>, o: int)
    requires RunsOf(s, out) && forall p :: p in s ==> p < o
    ensures RunsOf(s + {o}, AddOrdinal(out, o))
  {
    if o - 1 in s {
      LastRunEnds(s, out, o - 1);
      ExtendRun(s, out, o);
    } else {
      if out != [] {
        assert MaximalRun(s, out[|out| - 1]);
      }
      StartRun(s, out, o);
    }
  }

  function Interval(first: int, last: int): (r: set<int>)
    ensures forall o :: o in r <==> first <= o <= last
    ensures |r| == if first <= last then last - first + 1 else 0
    decreases last - first
  {
    if last < first then {} else Interval(first, last - 1) + {last}
  }

  /** The runs of a set hold exactly its members. */
  lemma {:induction false} RunsTotal(s: set<int>, runs: seq<Run>)
    requires RunsOf(s, runs)
    ensures TotalLen(runs) == |s|
    decreases |runs|
  {
    hide MaximalRun;
    if runs == [] {
      assert forall o :: o !in s;
      assert s == {};
    } else {
      var n := |runs| - 1;
      var own := Interval(runs[n].first, runs[n].last);
      DropLastRun(s, runs);
      RunsTotal(s - own, runs[..n]);
      assert |s - own| + |own| == |s| by {
        assert s == (s - own) + own;
      }
    }
  }

  lemma DropLastRun(s: set<int>, runs: seq<Run>)
    requires RunsOf(s, runs) && runs != []
    ensures var r := runs[|runs| - 1]; var own := Interval(r.first, r.last);
      RunsOf(s - own, runs[..|runs| - 1]) && own <= s && r.len == |own|
  {
    hide MaximalRun, Covered;
    var n := |runs| - 1;
    var own := Interval(runs[n].first, runs[n].last);
    OwnMembers(s, runs[n]);
    forall i | 0 <= i < n
      ensures MaximalRun(s - own, runs[..n][i])
    {
      RunBelowStays(s, runs[i], runs[n]);
    }
    forall o | o in s - own
      ensures Covered(runs[..n], o)
    {
      CoveredBefore(runs, o);
    }
  }

  lemma OwnMembers(s: set<int>, r: Run)
    requires MaximalRun(s, r)
    ensures Interval(r.first, r.last) <= s && r.len == |Interval(r.first, r.last)|
  {
  }

  lemma RunBelowStays(s: set<int>, r: Run, above: Run)
    requires MaximalRun(s, r) && r.last < above.first
    ensures MaximalRun(s - Interval(above.first, above.last), r)
  {
  }

  lemma CoveredBefore(runs: seq<Run>, o: int)
    requires Covered(runs, o) && runs != [] && !(runs[|runs| - 1].first <= o <= runs[|runs| - 1].last)
    ensures Covered(runs[..|runs| - 1], o)
  {
    var k :| 0 <= k < |runs| && runs[k].first <= o <= runs[k].last;
    assert runs[..|runs| - 1][k] == runs[k];
  }

  lemma DistinctSnoc(s: seq<int>)
    requires s != []
    ensures Distinct(s) <==> Distinct(s[..|s| - 1]) && s[|s| - 1] !in Members(s[..|s| - 1])
  {
    var n := |s| - 1;
    if s[n] in Members(s[..n]) {
      var i :| 0 <= i < n && s[i] == s[n];
    } else {
      assert forall i :: 0 <= i < n ==> s[i] in Members(s[..n]);
    }
  }

  /** A list has as many members as entries exactly when no entry repeats. */
  lemma {:induction false} MembersCount(s: seq<int>)
    ensures |Members(s)| <= |s| && (|Members(s)| == |s| <==> Distinct(s))
  {
    if s != [] {
      var n := |s| - 1;
      MembersCount(s[..n]);
      assert Members(s) == Members(s[..n]) + {s[n]};
      DistinctSnoc(s);
    } else {
      assert Members(s) == {};
    }
  }

  /** The runs loop of `pieces.py`. It finds the maximal runs exactly when no ordinal is listed
      twice: a repeated ordinal would start a run of its own. */
  method RunsOfConsecutive(ordinals: seq<int>) returns (out: seq<Run>)
    ensures RunsOf(Members(ordinals), out) <==> Distinct(ordinals)
    ensures TotalLen(out) == |ordinals|
  {
    hide RunsOf, TotalLen, Distinct, Members, AddOrdinal, SortedBy;
    var le := (x: int, y: int) => x <= y;
    var sorted := SortBy(ordinals, le);
    SortBySorts(ordinals, le);
    SortedKeeps(ordinals, sorted);
    out := [];
    NoRuns();
    assert sorted[..0] == [];
    for k := 0 to |sorted|
      invariant TotalLen(out) == k
      invariant Distinct(sorted) ==> RunsOf(Members(sorted[..k]), out)
    {
      var o := sorted[k];
      AddOrdinalTotal(out, o);
      AddOrdinalInPlace(out, o);
      if Distinct(sorted) {
        PrefixBelow(sorted, k);
        AddOrdinalRuns(Members(sorted[..k]), out, o);
      }
      if out != [] && o == out[|out| - 1].last + 1 {
        var r := out[|out| - 1];
        out := out[|out| - 1 := Run(r.first, o, r.len + 1)];
      } else {
        out := out + [Run(o, o, 1)];
      }
    }
    assert sorted[..|sorted|] == sorted;
    MembersCount(ordinals);
    if RunsOf(Members(ordinals), out) {
      RunsTotal(Members(ordinals), out);
    }
  }

  /** A slot listed twice is read as two pieces. */
  lemma RepeatedOrdinalSplits()
    ensures var out := AddOrdinal(AddOrdinal([], 5), 5);
      out == [Run(5, 5, 1), Run(5, 5, 1)] && !RunsOf(Members([5, 5]), out)
  {
    var out := AddOrdinal(AddOrdinal([], 5), 5);
    assert !(out[0].last < out[1].first);
  }

  lemma NoRuns()
    ensures RunsOf(Members([]), []) && TotalLen([]) == 0
  {
  }

  lemma SortedKeeps(s: seq<int>, t: seq<int>)
    requires multiset(s) == multiset(t)
    ensures |s| == |t| && Members(s) == Members(t) && (Distinct(s) <==> Distinct(t))
  {
    SameElements(s, t);
    DistinctByMultiset(s);
    DistinctByMultiset(t);
    forall o
      ensures o in Members(s) <==> o in Members(t)
    {
      assert o in Members(s) <==> o in s;
      assert o in Members(t) <==> o in t;
    }
  }

  lemma AddOrdinalTotal(out: seq<Run>, o: int)
    ensures TotalLen(AddOrdinal(out, o)) == TotalLen(out) + 1
  {
    var out' := AddOrdinal(out, o);
    assert out'[..|out'| - 1] == if out != [] && o == out[|out| - 1].last + 1 then out[..|out| - 1] else out;
  }

  /** The loop overwrites the last run in place. */
  lemma AddOrdinalInPlace(out: seq<Run>, o: int)
    ensures out != [] && o == out[|out| - 1].last + 1 ==>
      AddOrdinal(out, o) == out[|out| - 1 := Run(out[|out| - 1].first, o, out[|out| - 1].len + 1)]
    ensures !(out != [] && o == out[|out| - 1].last + 1) ==> AddOrdinal(out, o) == out + [Run(o, o, 1)]
  {
  }

  lemma PrefixBelow(sorted: seq<int>, k: nat)
    requires SortedBy(sorted, (x: int, y: int) => x <= y) && Distinct(sorted) && k < |sorted|
    ensures forall p :: p in Members(sorted[..k]) ==> p < sorted[k]
    ensures Members(sorted[..k + 1]) == Members(sorted[..k]) + {sorted[k]}
  {
    assert sorted[..k + 1] == sorted[..k] + [sorted[k]];
  }
}
