/** Why the backstop of the quit block in `crates/kubernation/src/main.rs` is 27 s: the net thread in
    `crates/kubernation/src/net.rs` ends a run within 25 s and, when it is on no run, takes a request
    within 2 s. */
module ExitBackstop {
  import opened Prelude
  import opened ExitProtocol

  /** Seconds a run may take. */
  const RUN_LIMIT := 25.0

  /** Seconds a request may wait while the net thread is on no run. */
  const TAKEN_WITHIN := 2.0

  // ---- Clocks --------------------------------------------------------------

  /** When the net thread last took a run. */
  ghost function TakenAt(ss: seq<State>, es: seq<Event>, k: nat): real
    requires k <= |es| && |ss| == |es| + 1
  {
    if k == 0 then ss[0].now
    else if es[k - 1] == Take then ss[k].now
    else TakenAt(ss, es, k - 1)
  }

  /** Since when a request has waited with the net thread on no run. */
  ghost function PendingSince(ss: seq<State>, es: seq<Event>, k: nat): real
    requires k <= |es| && |ss| == |es| + 1
  {
    if k == 0 || ss[k - 1].request.None? || ss[k - 1].running.Some? then ss[k].now
    else PendingSince(ss, es, k - 1)
  }

  ghost predicate OnTime(ss: seq<State>, es: seq<Event>, k: nat)
    requires k <= |es| && |ss| == |es| + 1
  {
    && (ss[k].running.Some? ==> ss[k].now - TakenAt(ss, es, k) <= RUN_LIMIT)
    && (ss[k].running.None? && ss[k].request.Some? ==> ss[k].now - PendingSince(ss, es, k) <= TAKEN_WITHIN)
  }

  /** A run of the whole system in which the net thread keeps to its times. */
  ghost predicate IsTimelyRun(ss: seq<State>, es: seq<Event>) {
    IsRun(ss, es) && forall k: nat :: k <= |es| ==> OnTime(ss, es, k)
  }

  lemma {:induction false} ClocksAreBehind(ss: seq<State>, es: seq<Event>, k: nat)
    requires IsRun(ss, es) && k <= |es|
    ensures TakenAt(ss, es, k) <= ss[k].now && PendingSince(ss, es, k) <= ss[k].now
  {
    if k > 0 {
      ClocksAreBehind(ss, es, k - 1);
      assert Moment(ss, es, k - 1);
    }
  }

  // ---- The undo in time ----------------------------------------------------

  /** No drill is confirmed and no run refused after moment `j` and before moment `k`. */
  ghost predicate Calm(es: seq<Event>, j: nat, k: nat)
    requires j < k <= |es|
  {
    NoDrill(es, j, k) && forall i :: j < i < k ==> !es[i].Refuse?
  }

  /** When the net thread is free for the undo at the latest: at once, or when a run of other steps
      must have ended. */
  ghost function FreeBy(ss: seq<State>, es: seq<Event>, j: nat): real
    requires j <= |es| && |ss| == |es| + 1 && ss[j].session.Some?
  {
    if ss[j].running.Some? && ss[j].running.value.steps != ss[j].session.value.restore
    then TakenAt(ss, es, j) + RUN_LIMIT
    else ss[j].now
  }

  /** Where an undo stands that has not been run: behind the run that was under way, in the slot, or
      taken. */
  ghost predicate OnItsWay(ss: seq<State>, es: seq<Event>, j: nat, k: nat)
    requires j <= |es| && k <= |es| && |ss| == |es| + 1 && ss[j].session.Some?
  {
    if ss[k].running.None? then ss[k].request.Some? && PendingSince(ss, es, k) <= FreeBy(ss, es, j)
    else if RunsUndo(ss[j], ss[k]) then TakenAt(ss, es, k) <= FreeBy(ss, es, j) + TAKEN_WITHIN
    else ss[k].request.Some? && TakenAt(ss, es, k) + RUN_LIMIT == FreeBy(ss, es, j)
  }

  lemma SetsOut(ss: seq<State>, es: seq<Event>, j: nat)
    requires IsTimelyRun(ss, es) && j < |es| && Submits(ss, es, j) && ss[j].session.Some?
    ensures OnItsWay(ss, es, j, j + 1)
  {
    assert Moment(ss, es, j) && OnTime(ss, es, j);
    ClocksAreBehind(ss, es, j);
  }

  lemma GoesOn(ss: seq<State>, es: seq<Event>, j: nat, k: nat)
    requires IsTimelyRun(ss, es) && j < k < |es| && HotRestorable(ss[j].session)
    requires ss[k].ui.quitting.Some? && Awaiting(ss[j], ss[k]) && !es[k].Drill? && !es[k].Refuse?
    requires ss[k].request.Some? ==> ss[k].request.value.steps == ss[j].session.value.restore
    requires !UndoneSince(ss[j], ss[k]) && OnItsWay(ss, es, j, k)
    ensures UndoneSince(ss[j], ss[k + 1]) || OnItsWay(ss, es, j, k + 1)
  {
    hide UndoneSince;
    assert Moment(ss, es, k);
    UndoneStep(ss[j], ss[k], es[k]);
    assert OnTime(ss, es, k);
  }

  lemma {:induction false} UndoIsOnItsWay(ss: seq<State>, es: seq<Event>, j: nat, k: nat)
    requires IsTimelyRun(ss, es) && j < k <= |es| && Submits(ss, es, j) && Calm(es, j, k) && !CanStrand(ss[j])
    ensures HotRestorable(ss[j].session)
    ensures UndoneSince(ss[j], ss[k]) || OnItsWay(ss, es, j, k)
    decreases k
  {
    hide UndoneSince, OnItsWay, CanStrand, Awaiting, Next, Enabled;
    if k == j + 1 {
      SlotHoldsUndo(ss, es, j, k);
      SetsOut(ss, es, j);
    } else {
      UndoIsOnItsWay(ss, es, j, k - 1);
      NoDrillIsConsiderate(ss, es, j, k - 1);
      RunKeepsAwaiting(ss, es, j, k - 1);
      OnceQuitting(ss, es, j, k - 1);
      SlotHoldsUndo(ss, es, j, k - 1);
      assert Moment(ss, es, k - 1);
      if UndoneSince(ss[j], ss[k - 1]) {
        StaysUndone(ss, es, j, k - 1);
      } else {
        GoesOn(ss, es, j, k - 1);
      }
    }
  }

  lemma StaysUndone(ss: seq<State>, es: seq<Event>, j: nat, k: nat)
    requires IsRun(ss, es) && j < k < |es| && HotRestorable(ss[j].session)
    requires Awaiting(ss[j], ss[k]) && UndoneSince(ss[j], ss[k])
    ensures UndoneSince(ss[j], ss[k + 1])
  {
    hide UndoneSince;
    assert Moment(ss, es, k);
    UndoneStep(ss[j], ss[k], es[k]);
  }

  /** The undo has been run once the backstop has passed since the net thread was free for it: within
      27 s of being handed over, if no run of other steps was under way. */
  lemma UndoneInTime(ss: seq<State>, es: seq<Event>, j: nat, k: nat)
    requires IsTimelyRun(ss, es) && j < k <= |es| && Submits(ss, es, j) && Calm(es, j, k) && !CanStrand(ss[j])
    ensures HotRestorable(ss[j].session)
    ensures ss[k].now - FreeBy(ss, es, j) > BACKSTOP ==> UndoneSince(ss[j], ss[k])
  {
    hide UndoneSince, CanStrand;
    UndoIsOnItsWay(ss, es, j, k);
    assert OnTime(ss, es, k);
  }

  // ---- When the backstop cuts an undo short --------------------------------

  /** The net thread is on a run of other steps that has time left, or after which the wait can end
      too early. */
  ghost predicate CanCut(ss: seq<State>, es: seq<Event>, j: nat)
    requires j <= |es| && |ss| == |es| + 1 && ss[j].session.Some?
  {
    && ss[j].running.Some? && ss[j].running.value.steps != ss[j].session.value.restore
    && (CanStrand(ss[j]) || ss[j].now - TakenAt(ss, es, j) < RUN_LIMIT)
  }

  /** The process left past the backstop, and the undo it handed over had not been run. */
  ghost predicate CutShort(ss: seq<State>, es: seq<Event>, j: nat) {
    && IsTimelyRun(ss, es) && j < |es| && Submits(ss, es, j) && ss[j].session.Some? && Calm(es, j, |es|)
    && ss[|es|].exited && ss[|es|].now - ss[j].now > BACKSTOP && !UndoneSince(ss[j], ss[|es|])
  }

  /** The run `ss`, `es` goes on to such an end. */
  ghost predicate CutsFrom(ss: seq<State>, es: seq<Event>, ts: seq<State>, fs: seq<Event>)
    requires es != []
  {
    ss <= ts && es <= fs && CutShort(ts, fs, |es| - 1)
  }

  lemma {:induction false} SamePast(ss: seq<State>, es: seq<Event>, ts: seq<State>, fs: seq<Event>, k: nat)
    requires |ss| == |es| + 1 && |ts| == |fs| + 1 && ss <= ts && es <= fs && k <= |es|
    ensures TakenAt(ts, fs, k) == TakenAt(ss, es, k) && PendingSince(ts, fs, k) == PendingSince(ss, es, k)
  {
    if k > 0 {
      SamePast(ss, es, ts, fs, k - 1);
    }
  }

  /** A timely run goes on with an event after which the net thread is on time. */
  lemma ExtendInTime(ss: seq<State>, es: seq<Event>, e: Event) returns (ts: seq<State>, fs: seq<Event>)
    requires IsTimelyRun(ss, es) && Enabled(ss[|es|], e)
    requires var t := Next(ss[|es|], e);
      && (t.running.Some? ==> e == Take || t.now - TakenAt(ss, es, |es|) <= RUN_LIMIT)
      && (t.running.None? && t.request.Some? ==>
            ss[|es|].request.None? || ss[|es|].running.Some? || t.now - PendingSince(ss, es, |es|) <= TAKEN_WITHIN)
    ensures ts == ss + [Next(ss[|es|], e)] && fs == es + [e] && IsTimelyRun(ts, fs)
    ensures TakenAt(ts, fs, |fs|) == if e == Take then ts[|fs|].now else TakenAt(ss, es, |es|)
    ensures PendingSince(ts, fs, |fs|) ==
            if ss[|es|].request.None? || ss[|es|].running.Some? then ts[|fs|].now else PendingSince(ss, es, |es|)
  {
    hide IsRun, Next, Enabled;
    ts, fs := Extend(ss, es, e);
    SamePast(ss, es, ts, fs, |es|);
    forall k: nat | k <= |fs|
      ensures OnTime(ts, fs, k)
    {
      if k <= |es| {
        SamePast(ss, es, ts, fs, k);
        assert OnTime(ss, es, k);
      }
    }
  }

  lemma EndsOnTime(ss: seq<State>, es: seq<Event>)
    requires IsTimelyRun(ss, es)
    ensures IsRun(ss, es) && OnTime(ss, es, |es|)
    ensures es != [] && es[|es| - 1] != Take ==> TakenAt(ss, es, |es|) == TakenAt(ss, es, |es| - 1)
  {
  }

  /** Between the halves of the quit block, with the undo handed over at `j` not run. */
  ghost predicate Leavable(ss: seq<State>, es: seq<Event>, j: nat) {
    && IsTimelyRun(ss, es) && j < |es| && Submits(ss, es, j) && ss[j].session.Some? && Calm(es, j, |es|)
    && !UndoneSince(ss[j], ss[|es|])
    && ss[|es|].place == Middle && !ss[|es|].exited && ss[|es|].ui.quitting == Some(ss[j].now)
  }

  /** The backstop passes, and the process leaves. */
  lemma LeavesLate(ss: seq<State>, es: seq<Event>, j: nat, wait: real) returns (ts: seq<State>, fs: seq<Event>)
    requires Leavable(ss, es, j) && wait >= 0.0 && ss[|es|].now + wait - ss[j].now > BACKSTOP
    requires if ss[|es|].running.Some? then ss[|es|].now + wait - TakenAt(ss, es, |es|) <= RUN_LIMIT
             else ss[|es|].request == None
    ensures ss <= ts && es <= fs && CutShort(ts, fs, j)
  {
    hide IsTimelyRun, IsRun, UndoneSince, TakenAt, PendingSince;
    EndsOnTime(ss, es);
    ts, fs := ExtendInTime(ss, es, Wait(wait));
    ts, fs := ExtendInTime(ts, fs, SecondHalf);
    NoMoreRun(ss[j], ss[|es|], ts[|es| + 2]);
  }

  /** A harmful run lands, and the operator switches away. */
  lemma HarmfulRunLands(ss: seq<State>, es: seq<Event>) returns (ts: seq<State>, fs: seq<Event>)
    requires IsTimelyRun(ss, es) && es != [] && Submits(ss, es, |es| - 1)
    requires ss[|es| - 1].session.Some? && CanStrand(ss[|es| - 1])
    ensures ss <= ts && es <= fs && Leavable(ts, fs, |es| - 1)
    ensures ts[|fs|].running == None && ts[|fs|].request == None && ts[|fs|].now == ss[|es| - 1].now
  {
    hide IsTimelyRun, IsRun, UndoneSince, TakenAt, PendingSince;
    var j := |es| - 1;
    EndsOnTime(ss, es);
    LastMoment(ss, es);
    ts, fs := ExtendInTime(ss, es, Land);
    ts, fs := ExtendInTime(ts, fs, Switch);
    UndoneStep(ss[j], ss[j + 1], Land);
    UndoneStep(ss[j], ts[j + 2], Switch);
    NothingRunYet(ss[j], ss[j + 1]);
  }

  /** A run that leaves the undo's steps to be run lands at its limit, and the undo is taken as late as
      it may be. */
  lemma UndoTakenLate(ss: seq<State>, es: seq<Event>) returns (ts: seq<State>, fs: seq<Event>)
    requires IsTimelyRun(ss, es) && es != [] && Submits(ss, es, |es| - 1)
    requires ss[|es| - 1].session.Some? && CanCut(ss, es, |es| - 1) && !CanStrand(ss[|es| - 1])
    ensures ss <= ts && es <= fs && Leavable(ts, fs, |es| - 1) && ts[|fs|].running.Some?
    ensures TakenAt(ts, fs, |fs|) == ts[|fs|].now
      == FreeBy(ss, es, |es| - 1) + TAKEN_WITHIN > ss[|es| - 1].now + TAKEN_WITHIN
  {
    hide IsTimelyRun, IsRun, UndoneSince, TakenAt, PendingSince;
    var j := |es| - 1;
    EndsOnTime(ss, es);
    LastMoment(ss, es);
    ClocksAreBehind(ss, es, j);
    ts, fs := ExtendInTime(ss, es, Wait(FreeBy(ss, es, j) - ss[j].now));
    ts, fs := ExtendInTime(ts, fs, Land);
    ts, fs := ExtendInTime(ts, fs, Wait(TAKEN_WITHIN));
    ts, fs := ExtendInTime(ts, fs, Take);
    UndoneStep(ss[j], ts[j + 2], Land);
    NoMoreRun(ss[j], ss[j + 1], ts[j + 2]);
    NoMoreRun(ss[j], ts[j + 3], ts[j + 5]);
    NothingRunYet(ss[j], ss[j + 1]);
  }

  /** The exact condition, which holds of no process whose net thread is on no run: a timely net
      thread, with no drill and no refusal after, can leave an undo just handed over unrun past the
      backstop if and only if it is on a run of other steps that has time left, or that can end the
      wait for the undo. */
  lemma CanCutIff(ss: seq<State>, es: seq<Event>)
    requires IsTimelyRun(ss, es) && es != [] && Submits(ss, es, |es| - 1)
    ensures HotRestorable(ss[|es| - 1].session)
    ensures CanCut(ss, es, |es| - 1) <==> exists ts, fs :: CutsFrom(ss, es, ts, fs)
  {
    hide CutShort, Leavable, Moment, OnTime;
    var j := |es| - 1;
    LastMoment(ss, es);
    SlotHoldsUndo(ss, es, j, |es|);
    if CanCut(ss, es, j) {
      if CanStrand(ss[j]) {
        var ts, fs := HarmfulRunLands(ss, es);
        var us, gs := LeavesLate(ts, fs, j, 28.0);
        assert CutsFrom(ss, es, us, gs);
      } else {
        var ts, fs := UndoTakenLate(ss, es);
        var us, gs := LeavesLate(ts, fs, j, RUN_LIMIT);
        assert CutsFrom(ss, es, us, gs);
      }
    }
    if exists ts, fs :: CutsFrom(ss, es, ts, fs) {
      var ts, fs :| CutsFrom(ss, es, ts, fs);
      CutMeansBusy(ss, es, ts, fs);
    }
  }

  lemma CutMeansBusy(ss: seq<State>, es: seq<Event>, ts: seq<State>, fs: seq<Event>)
    requires IsTimelyRun(ss, es) && es != [] && Submits(ss, es, |es| - 1) && CutsFrom(ss, es, ts, fs)
    ensures HotRestorable(ss[|es| - 1].session) && CanCut(ss, es, |es| - 1)
  {
    hide UndoneSince;
    var j := |es| - 1;
    LastMoment(ss, es);
    assert ts[j] == ss[j] && |fs| > j + 1;
    SamePast(ss, es, ts, fs, j);
    assert OnTime(ss, es, j);
    if !CanCut(ss, es, j) {
      UndoneInTime(ts, fs, j, |fs|);
    }
  }
}
