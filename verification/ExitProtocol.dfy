/** Restore-on-exit, the quit block of the frame loop in `crates/kubernation/src/main.rs`, and the
    part of the net thread in `crates/kubernation/src/net.rs` that it hands the undo to. */
module ExitProtocol {
  import opened Prelude

  type ChaosStep = string

  datatype Cluster = Hot | Warm

  datatype ScoreKind = Workload | Other(name: string)

  datatype Session = Session(cluster: Cluster, experiment: string, subject: string, watch: seq<string>,
                             restore: seq<ChaosStep>)

  datatype Run = Run(cluster: Cluster, experiment: string, subject: string, scoreKind: ScoreKind, blast: nat,
                     steps: seq<ChaosStep>, restore: seq<ChaosStep>, watch: seq<string>,
                     autoRestoreSecs: Option<real>, isRestore: bool)

  /** Seconds the loop waits for the undo before it leaves regardless. */
  const BACKSTOP := 27.0

  /** A live drill on the hot cluster that still has steps to undo. */
  predicate HotRestorable(session: Option<Session>) {
    session.Some? && session.value.cluster == Hot && session.value.restore != []
  }

  /** The run that undoes a session. */
  function RestoreOf(sess: Session): Run {
    Run(Hot, "restore " + sess.experiment, sess.subject, Workload, 0, sess.restore, [], sess.watch, None, true)
  }

  // ---- The block -----------------------------------------------------------

  datatype Ui = Ui(wantQuit: bool, quitting: Option<real>)

  /** What the first half of the block decides from its read of the session. */
  datatype Begun = Leave | Submit(run: Run) | Stay

  function Begin(ui: Ui, session: Option<Session>): Begun {
    if !ui.wantQuit || ui.quitting.Some? then Stay
    else if HotRestorable(session) then Submit(RestoreOf(session.value))
    else Leave
  }

  function AfterBegin(ui: Ui, session: Option<Session>, now: real): Ui {
    if !ui.wantQuit || ui.quitting.Some? then ui
    else Ui(false, if HotRestorable(session) then Some(now) else None)
  }

  /** Nothing left to undo, as the second half tests it: on any cluster. */
  predicate Done(session: Option<Session>) {
    session.None? || session.value.restore == []
  }

  /** Whether the second half leaves. */
  predicate Finishes(ui: Ui, session: Option<Session>, now: real) {
    ui.quitting.Some? && (Done(session) || now - ui.quitting.value > BACKSTOP)
  }

  /** The loop's two variables and one frame's pass through the block. The session is read twice,
      and may change in between. */
  class ExitBlock {
    var wantQuit: bool
    var quitting: Option<real>

    constructor ()
      ensures Contents() == Ui(false, None)
    {
      wantQuit, quitting := false, None;
    }

    function Contents(): Ui
      reads this
    {
      Ui(wantQuit, quitting)
    }

    method Frame(asked: bool, first: Option<Session>, at: real, second: Option<Session>, now: real)
      returns (submitted: Option<Run>, exit: bool)
      modifies this
      ensures var ui := Ui(old(wantQuit) || asked, old(quitting));
        && Contents() == AfterBegin(ui, first, at)
        && (submitted.Some? <==> Begin(ui, first).Submit?)
        && (submitted.Some? ==> submitted.value == Begin(ui, first).run)
        && (exit <==> Begin(ui, first).Leave? || Finishes(Contents(), second, now))
    {
      submitted, exit := None, false;
      if asked {
        wantQuit := true;
      }
      if wantQuit && quitting.None? {
        wantQuit := false;
        if first.Some? && first.value.cluster == Hot && first.value.restore != [] {
          var sess := first.value;
          submitted := Some(Run(Hot, "restore " + sess.experiment, sess.subject, Workload, 0,
                                sess.restore, [], sess.watch, None, true));
          quitting := Some(at);
        } else {
          exit := true;
          return;
        }
      }
      if quitting.Some? {
        var done := if second.Some? then second.value.restore == [] else true;
        if done || now - quitting.value > 27.0 {
          exit := true;
        }
      }
    }
  }

  // ---- The whole system ----------------------------------------------------

  /** `Top` until the block's first read of the session, `Middle` from there to its second. */
  datatype Place = Top | Middle

  /** An undo handed over: the run, the session it undoes, and when. */
  datatype Submission = Submission(run: Run, of: Session, at: real)

  /** `request` is the one-place slot between the threads. `running` is the run the net thread is
      on, and `attempted` the step lists it has run. `submitted` is what the quit block handed over. */
  datatype State = State(place: Place, ui: Ui, request: Option<Run>, running: Option<Run>, session: Option<Session>,
                         attempted: seq<seq<ChaosStep>>, submitted: seq<Submission>, now: real, exited: bool)

  /** The first four are the frame loop's, the next five the net thread's. */
  datatype Event =
    | AskToQuit
    | Drill(run: Run)
    | FirstHalf
    | SecondHalf
    | Take
    | Refuse
    | Land
    | AutoRestore
    | Switch
    | Wait(seconds: real)

  predicate Initial(s: State) {
    s.place == Top && s.ui == Ui(false, None) && s.request == None && s.running == None && s.session == None
    && s.attempted == [] && s.submitted == [] && !s.exited
  }

  /** The net thread is one loop: it does nothing else while a run is under way. */
  predicate Enabled(s: State, e: Event) {
    !s.exited &&
    match e
    case AskToQuit => s.place == Top
    case Drill(_) => s.place == Top
    case FirstHalf => s.place == Top
    case SecondHalf => s.place == Middle
    case Take => s.request.Some? && s.running.None?
    case Refuse => s.running.Some?
    case Land => s.running.Some?
    case AutoRestore => s.running.None? && HotRestorable(s.session)
    case Switch => s.running.None?
    case Wait(d) => d >= 0.0
  }

  function SessionOf(run: Run): Session {
    Session(run.cluster, run.experiment, run.subject, run.watch, run.restore)
  }

  function Next(s: State, e: Event): State
    requires Enabled(s, e)
  {
    match e
    case AskToQuit => s.(ui := s.ui.(wantQuit := true))
    case Drill(run) => s.(request := Some(run))
    case FirstHalf =>
      var t := s.(ui := AfterBegin(s.ui, s.session, s.now), place := Middle);
      (match Begin(s.ui, s.session)
       case Stay => t
       case Leave => t.(exited := true)
       case Submit(run) =>
         t.(request := Some(run),
            submitted := s.submitted + [Submission(run, s.session.value, s.now)]))
    case SecondHalf => if Finishes(s.ui, s.session, s.now) then s.(exited := true) else s.(place := Top)
    case Take => s.(running := s.request, request := None)
    case Refuse => s.(running := None)
    case Land =>
      s.(running := None, session := Some(SessionOf(s.running.value)),
        attempted := s.attempted + [s.running.value.steps])
    case AutoRestore =>
      s.(session := Some(s.session.value.(restore := [])), attempted := s.attempted + [s.session.value.restore])
    case Switch =>
      s.(request := None, session := None,
         attempted := if HotRestorable(s.session) then s.attempted + [s.session.value.restore] else s.attempted)
    case Wait(d) => s.(now := s.now + d)
  }

  /** The halves do between them what one frame of the block does: what is submitted, what is remembered,
      and whether the loop is left, at once with nothing to undo, or later. */
  lemma HalvesAreAFrame(s: State, between: State)
    requires !s.exited && s.place == Top && !between.exited && between.place == Middle
    requires between.ui == AfterBegin(s.ui, s.session, s.now)
    ensures var t := Next(s, FirstHalf);
      && t.ui == between.ui && (t.exited <==> Begin(s.ui, s.session).Leave?)
      && (Begin(s.ui, s.session).Leave? <==> s.ui.wantQuit && s.ui.quitting.None? && !HotRestorable(s.session))
      && (Begin(s.ui, s.session).Submit? ==> t.request == Some(Begin(s.ui, s.session).run))
      && (!Begin(s.ui, s.session).Submit? ==> t.request == s.request && t.submitted == s.submitted)
    ensures var u := Next(between, SecondHalf);
      (u.exited <==> Finishes(between.ui, between.session, between.now)) && (!u.exited ==> u.place == Top)
  {
  }

  /** A run that lands becomes the session, with its steps run and its undo to be run. */
  lemma LandsAsSession(s: State)
    requires !s.exited && s.running.Some?
    ensures var t, run := Next(s, Land), s.running.value;
      && t.session.Some? && t.running == None && t.attempted == s.attempted + [run.steps] && t.request == s.request
      && var sess := t.session.value;
         && sess.cluster == run.cluster && sess.experiment == run.experiment && sess.subject == run.subject
         && sess.watch == run.watch && sess.restore == run.restore
  {
  }

  /** Moment `k` of a run: the event there was possible and led to the next state. */
  ghost predicate Moment(ss: seq<State>, es: seq<Event>, k: nat)
    requires k < |es| && |ss| == |es| + 1
  {
    Enabled(ss[k], es[k]) && ss[k + 1] == Next(ss[k], es[k])
  }

  /** A run: the states `ss` that the events `es` lead through from the start. */
  ghost predicate IsRun(ss: seq<State>, es: seq<Event>) {
    |ss| == |es| + 1 && Initial(ss[0]) && forall k: nat :: k < |es| ==> Moment(ss, es, k)
  }

  // ---- Safety --------------------------------------------------------------

  /** May the process end now? Nothing hot is left to undo, or the backstop has passed. */
  ghost predicate SafeToLeave(s: State) {
    !HotRestorable(s.session) || (s.submitted != [] && s.now - s.submitted[0].at > BACKSTOP)
  }

  /** What every step keeps. */
  ghost predicate Inv(s: State) {
    && |s.submitted| <= 1
    && (s.ui.quitting.Some? <==> s.submitted != [])
    && (s.submitted != [] ==>
          var sub := s.submitted[0];
          s.ui.quitting == Some(sub.at) && HotRestorable(Some(sub.of)) && sub.run == RestoreOf(sub.of))
    && (s.exited ==> SafeToLeave(s))
  }

  lemma StepKeepsInv(s: State, e: Event)
    requires Inv(s) && Enabled(s, e)
    ensures Inv(Next(s, e))
  {
    hide RestoreOf;
  }

  lemma InitKeepsInv(s: State)
    requires Initial(s)
    ensures Inv(s)
  {
  }

  lemma {:induction false} RunKeepsInv(ss: seq<State>, es: seq<Event>, k: nat)
    requires IsRun(ss, es) && k <= |es|
    ensures Inv(ss[k])
  {
    hide Inv, Next, Enabled;
    if k == 0 {
      InitKeepsInv(ss[0]);
    } else {
      RunKeepsInv(ss, es, k - 1);
      assert Moment(ss, es, k - 1);
      StepKeepsInv(ss[k - 1], es[k - 1]);
    }
  }

  /** However the drills, the undo and the quit requests interleave, a process that has left saw no
      hot drill left to undo, or left more than 27 s after handing the undo over. */
  lemma ExitIsSafe(ss: seq<State>, es: seq<Event>, k: nat)
    requires IsRun(ss, es) && k <= |es| && ss[k].exited
    ensures !HotRestorable(ss[k].session) || (ss[k].submitted != [] && ss[k].now - ss[k].submitted[0].at > BACKSTOP)
  {
    RunKeepsInv(ss, es, k);
  }

  // ---- At most one undo ----------------------------------------------------

  ghost predicate Submits(ss: seq<State>, es: seq<Event>, k: nat)
    requires k < |es| && |ss| == |es| + 1
  {
    es[k] == FirstHalf && Begin(ss[k].ui, ss[k].session).Submit?
  }

  lemma {:induction false} OnceQuitting(ss: seq<State>, es: seq<Event>, j: nat, k: nat)
    requires IsRun(ss, es) && j < k <= |es| && Submits(ss, es, j)
    ensures ss[k].ui.quitting == Some(ss[j].now) && ss[j].now <= ss[k].now
    decreases k
  {
    assert Moment(ss, es, k - 1);
    if j < k - 1 {
      OnceQuitting(ss, es, j, k - 1);
    }
  }

  /** The block hands over at most one undo however often quitting is asked for, and that undo is
      exactly the session's own restore steps. */
  lemma SubmitsExactlyOnce(ss: seq<State>, es: seq<Event>, j: nat, k: nat)
    requires IsRun(ss, es) && j < |es| && k < |es| && Submits(ss, es, j) && Submits(ss, es, k)
    ensures j == k
    ensures HotRestorable(ss[j].session) && ss[j + 1].request.Some?
    ensures var run, sess := ss[j + 1].request.value, ss[j].session.value;
      run.steps == sess.restore && run.restore == [] && run.isRestore && run.cluster == sess.cluster == Hot
      && run.subject == sess.subject && run.watch == sess.watch && run.autoRestoreSecs == None
  {
    assert Moment(ss, es, j);
    if j < k {
      OnceQuitting(ss, es, j, k);
    } else if k < j {
      OnceQuitting(ss, es, k, j);
    }
  }

  /** The loop leaves on the first frame past the backstop, whatever the net thread does. */
  lemma BackstopFires(ss: seq<State>, es: seq<Event>, j: nat, k: nat)
    requires IsRun(ss, es) && j < k < |es| && Submits(ss, es, j)
    requires es[k] == SecondHalf && ss[k].now - ss[j].now > BACKSTOP
    ensures ss[k + 1].exited && k + 1 == |es|
  {
    OnceQuitting(ss, es, j, k);
    assert Moment(ss, es, k);
    NothingFollows(ss, es, k + 1);
  }

  lemma NothingFollows(ss: seq<State>, es: seq<Event>, k: nat)
    requires IsRun(ss, es) && k <= |es|
    ensures k < |es| ==> !ss[k].exited
  {
    assert k < |es| ==> Moment(ss, es, k);
  }

  // ---- Nothing is stranded -------------------------------------------------

  /** Since `b`, where the undo was handed over, the net thread has run the steps that undo the
      session seen there. */
  ghost predicate UndoneSince(b: State, s: State)
    requires b.session.Some?
  {
    exists n: nat :: |b.attempted| <= n < |s.attempted| && s.attempted[n] == b.session.value.restore
  }

  /** A run that cannot end the wait for `undo` before it is run: it runs those steps itself, or
      leaves a session that still has them to run. */
  predicate Harmless(run: Run, undo: seq<ChaosStep>) {
    run.steps == undo || (run.cluster == Hot && run.restore == undo)
  }

  /** The net thread is on a run that can end the wait too early. */
  predicate CanStrand(b: State)
    requires b.session.Some?
  {
    b.running.Some? && !Harmless(b.running.value, b.session.value.restore)
  }

  /** Is the net thread on a run of the undo's steps? */
  predicate RunsUndo(b: State, s: State)
    requires b.session.Some?
  {
    s.running.Some? && s.running.value.steps == b.session.value.restore
  }

  /** What is asked of the operator and the cluster while the undo is awaited: a drill is confirmed
      only once the undo has left the slot for the net thread, and the net thread does not refuse
      the undo while a drill waits behind it. */
  ghost predicate Considerate(b: State, s: State, e: Event)
    requires b.session.Some?
  {
    && (e.Drill? ==> UndoneSince(b, s) || RunsUndo(b, s))
    && (e.Refuse? ==> UndoneSince(b, s) || s.request == None || Harmless(s.request.value, b.session.value.restore))
  }

  ghost predicate ConsiderateRun(ss: seq<State>, es: seq<Event>, j: nat, k: nat)
    requires j < k <= |es| && |ss| == |es| + 1 && ss[j].session.Some?
  {
    forall i :: j < i < k ==> Considerate(ss[j], ss[i], es[i])
  }

  /** Until the undo has been run, a session holds its steps, and nothing on its way can take
      their place. */
  ghost predicate Awaiting(b: State, s: State)
    requires b.session.Some?
  {
    && |b.attempted| <= |s.attempted|
    && (!UndoneSince(b, s) ==>
          && HotRestorable(s.session) && s.session.value.restore == b.session.value.restore
          && (s.request.Some? ==> Harmless(s.request.value, b.session.value.restore) || RunsUndo(b, s))
          && (s.running.Some? ==> Harmless(s.running.value, b.session.value.restore)))
  }

  lemma UndoneMore(b: State, s: State, t: State)
    requires b.session.Some? && s.attempted <= t.attempted && UndoneSince(b, s)
    ensures UndoneSince(b, t)
  {
    var n: nat :| |b.attempted| <= n < |s.attempted| && s.attempted[n] == b.session.value.restore;
    assert t.attempted[n] == s.attempted[n];
  }

  /** One more list of steps run is the undo, or is not. */
  lemma OneMoreRun(b: State, s: State, t: State, steps: seq<ChaosStep>)
    requires b.session.Some? && |b.attempted| <= |s.attempted| && t.attempted == s.attempted + [steps]
    ensures UndoneSince(b, t) <==> UndoneSince(b, s) || steps == b.session.value.restore
  {
    if UndoneSince(b, s) {
      UndoneMore(b, s, t);
    }
    if steps == b.session.value.restore {
      assert t.attempted[|s.attempted|] == steps;
    }
    if UndoneSince(b, t) {
      var n: nat :| |b.attempted| <= n < |t.attempted| && t.attempted[n] == b.session.value.restore;
      assert n < |s.attempted| ==> s.attempted[n] == t.attempted[n];
    }
  }

  lemma NoMoreRun(b: State, s: State, t: State)
    requires b.session.Some? && t.attempted == s.attempted
    ensures UndoneSince(b, t) <==> UndoneSince(b, s)
  {
  }

  /** What a step adds to the runs made, as far as the undo is concerned. */
  lemma UndoneStep(b: State, s: State, e: Event)
    requires HotRestorable(b.session) && Enabled(s, e) && |b.attempted| <= |s.attempted|
    ensures var t, u := Next(s, e), b.session.value.restore;
      && |s.attempted| <= |t.attempted|
      && (UndoneSince(b, t) <==>
          || UndoneSince(b, s)
          || (e == Land && s.running.value.steps == u)
          || ((e == AutoRestore || e == Switch) && HotRestorable(s.session) && s.session.value.restore == u))
  {
    hide UndoneSince;
    var t := Next(s, e);
    if e == Land {
      OneMoreRun(b, s, t, s.running.value.steps);
    } else if (e == AutoRestore || e == Switch) && HotRestorable(s.session) {
      OneMoreRun(b, s, t, s.session.value.restore);
    } else {
      NoMoreRun(b, s, t);
    }
  }

  lemma StepKeepsAwaiting(b: State, s: State, e: Event)
    requires HotRestorable(b.session) && s.ui.quitting.Some?
    requires Awaiting(b, s) && Enabled(s, e) && Considerate(b, s, e)
    ensures Awaiting(b, Next(s, e))
  {
    hide UndoneSince;
    UndoneStep(b, s, e);
  }

  lemma AwaitingStarts(ss: seq<State>, es: seq<Event>, j: nat)
    requires |ss| == |es| + 1 && j < |es| && Moment(ss, es, j) && Submits(ss, es, j) && !CanStrand(ss[j])
    ensures HotRestorable(ss[j].session) && Awaiting(ss[j], ss[j + 1])
  {
  }

  lemma {:induction false} RunKeepsAwaiting(ss: seq<State>, es: seq<Event>, j: nat, k: nat)
    requires IsRun(ss, es) && j < k <= |es| && Submits(ss, es, j)
    requires !CanStrand(ss[j]) && ConsiderateRun(ss, es, j, k)
    ensures HotRestorable(ss[j].session) && Awaiting(ss[j], ss[k])
    decreases k
  {
    hide Awaiting, Next, Enabled, Considerate;
    assert Moment(ss, es, k - 1);
    if k == j + 1 {
      AwaitingStarts(ss, es, j);
    } else {
      RunKeepsAwaiting(ss, es, j, k - 1);
      OnceQuitting(ss, es, j, k - 1);
      StepKeepsAwaiting(ss[j], ss[k - 1], es[k - 1]);
    }
  }

  /** Nothing is stranded: unless a harmful run was under way when the undo was handed over, a
      process that leaves before the backstop has run it, whatever drill is confirmed behind it. */
  lemma NothingStranded(ss: seq<State>, es: seq<Event>, j: nat, k: nat)
    requires IsRun(ss, es) && j < k < |es| && Submits(ss, es, j) && es[k] == SecondHalf && ss[k + 1].exited
    requires !CanStrand(ss[j]) && ConsiderateRun(ss, es, j, k)
    ensures UndoneSince(ss[j], ss[k]) || ss[k].now - ss[j].now > BACKSTOP
  {
    hide UndoneSince;
    RunKeepsAwaiting(ss, es, j, k);
    OnceQuitting(ss, es, j, k);
    assert Moment(ss, es, k);
  }

  // ---- Without a new drill -------------------------------------------------

  /** No drill is confirmed after moment `j` and before moment `k`. */
  ghost predicate NoDrill(es: seq<Event>, j: nat, k: nat)
    requires j < k <= |es|
  {
    forall i :: j < i < k ==> !es[i].Drill?
  }

  /** Then the slot holds the undo or nothing. */
  lemma {:induction false} SlotHoldsUndo(ss: seq<State>, es: seq<Event>, j: nat, k: nat)
    requires IsRun(ss, es) && j < k <= |es| && Submits(ss, es, j) && NoDrill(es, j, k)
    ensures HotRestorable(ss[j].session)
    ensures ss[k].request.Some? ==> ss[k].request.value == RestoreOf(ss[j].session.value)
    decreases k
  {
    hide RestoreOf;
    assert Moment(ss, es, k - 1);
    if k > j + 1 {
      SlotHoldsUndo(ss, es, j, k - 1);
      OnceQuitting(ss, es, j, k - 1);
    }
  }

  lemma NoDrillIsConsiderate(ss: seq<State>, es: seq<Event>, j: nat, k: nat)
    requires IsRun(ss, es) && j < k <= |es| && Submits(ss, es, j) && NoDrill(es, j, k)
    ensures HotRestorable(ss[j].session) && ConsiderateRun(ss, es, j, k)
  {
    hide Moment, UndoneSince, RunsUndo;
    SlotHoldsUndo(ss, es, j, k);
    forall i | j < i < k
      ensures Considerate(ss[j], ss[i], es[i])
    {
      SlotHoldsUndo(ss, es, j, i);
    }
  }

  /** A run under way whose end says whether the undo is still to be run. */
  predicate Telling(run: Run, undo: seq<ChaosStep>) {
    if run.steps == undo then run.restore == [] else run.cluster == Hot && run.restore == undo
  }

  /** The wait is over exactly when the undo has been run. */
  ghost predicate InStep(b: State, s: State)
    requires b.session.Some?
  {
    && |b.attempted| <= |s.attempted|
    && (s.request.Some? ==> s.request.value == RestoreOf(b.session.value))
    && (if UndoneSince(b, s) then Done(s.session)
        else HotRestorable(s.session) && s.session.value.restore == b.session.value.restore)
    && (s.running.Some? ==> if UndoneSince(b, s) then s.running.value.restore == []
                            else Telling(s.running.value, b.session.value.restore))
  }

  lemma StepKeepsInStep(b: State, s: State, e: Event)
    requires HotRestorable(b.session) && s.ui.quitting.Some?
    requires InStep(b, s) && Enabled(s, e) && !e.Drill?
    ensures InStep(b, Next(s, e))
  {
    hide UndoneSince;
    UndoneStep(b, s, e);
  }

  lemma InStepStarts(ss: seq<State>, es: seq<Event>, j: nat)
    requires |ss| == |es| + 1 && j < |es| && Moment(ss, es, j) && Submits(ss, es, j)
    requires ss[j].running.Some? ==> Telling(ss[j].running.value, ss[j].session.value.restore)
    ensures HotRestorable(ss[j].session) && InStep(ss[j], ss[j + 1])
  {
  }

  lemma {:induction false} RunKeepsInStep(ss: seq<State>, es: seq<Event>, j: nat, k: nat)
    requires IsRun(ss, es) && j < k <= |es| && Submits(ss, es, j) && NoDrill(es, j, k)
    requires ss[j].running.Some? ==> Telling(ss[j].running.value, ss[j].session.value.restore)
    ensures HotRestorable(ss[j].session) && InStep(ss[j], ss[k])
    decreases k
  {
    hide InStep, Next, Enabled, Telling;
    assert Moment(ss, es, k - 1);
    if k == j + 1 {
      InStepStarts(ss, es, j);
    } else {
      RunKeepsInStep(ss, es, j, k - 1);
      OnceQuitting(ss, es, j, k - 1);
      StepKeepsInStep(ss[j], ss[k - 1], es[k - 1]);
    }
  }

  /** With no new drill, and nothing under way when the undo was handed over but a run whose end
      tells, each frame leaves exactly when the undo has been run or 27 s have passed: nothing is
      stranded and nothing is waited for in vain. A drill still in the slot does not matter. */
  lemma LeavesOnceUndone(ss: seq<State>, es: seq<Event>, j: nat, k: nat)
    requires IsRun(ss, es) && j < k < |es| && Submits(ss, es, j) && es[k] == SecondHalf && NoDrill(es, j, k)
    requires ss[j].running.Some? ==> Telling(ss[j].running.value, ss[j].session.value.restore)
    ensures HotRestorable(ss[j].session)
    ensures ss[k + 1].exited <==> UndoneSince(ss[j], ss[k]) || ss[k].now - ss[j].now > BACKSTOP
  {
    hide UndoneSince, Telling;
    RunKeepsInStep(ss, es, j, k);
    OnceQuitting(ss, es, j, k);
    assert Moment(ss, es, k);
  }

  // ---- When an undo can be stranded ----------------------------------------

  /** The process left before the backstop, and the undo it handed over was never run. */
  ghost predicate Stranded(ss: seq<State>, es: seq<Event>, j: nat) {
    && IsRun(ss, es) && j < |es| && Submits(ss, es, j) && ss[j].session.Some?
    && ss[|es|].exited && ss[|es|].now - ss[j].now <= BACKSTOP && !UndoneSince(ss[j], ss[|es|])
  }

  /** A stranding that goes on from the run `ss`, `es` with no new drill. */
  ghost predicate StrandsFrom(ss: seq<State>, es: seq<Event>, ts: seq<State>, fs: seq<Event>)
    requires es != []
  {
    ss <= ts && es <= fs && Stranded(ts, fs, |es| - 1) && NoDrill(fs, |es| - 1, |fs|)
  }

  /** Where the process leaves once it waits for the undo: in the block's second half. */
  lemma LeavesInSecondHalf(ss: seq<State>, es: seq<Event>, j: nat)
    requires IsRun(ss, es) && j < |es| && Submits(ss, es, j) && ss[|es|].exited
    ensures j < |es| - 1 && es[|es| - 1] == SecondHalf && ss[|es| - 1].attempted == ss[|es|].attempted
    ensures ss[|es| - 1].now == ss[|es|].now
  {
    var k := |es| - 1;
    assert Moment(ss, es, k);
    if j < k {
      OnceQuitting(ss, es, j, k);
    }
  }

  /** A run goes on with any event that is possible where it stands. */
  lemma Extend(ss: seq<State>, es: seq<Event>, e: Event) returns (ts: seq<State>, fs: seq<Event>)
    requires IsRun(ss, es) && Enabled(ss[|es|], e)
    ensures ts == ss + [Next(ss[|es|], e)] && fs == es + [e] && IsRun(ts, fs)
  {
    ts, fs := ss + [Next(ss[|es|], e)], es + [e];
    forall k: nat | k < |fs|
      ensures Moment(ts, fs, k)
    {
      assert k < |es| ==> Moment(ss, es, k);
    }
  }

  /** A harmful run that lands just before the operator switches away. */
  lemma HarmfulRunStrands(ss: seq<State>, es: seq<Event>) returns (ts: seq<State>, fs: seq<Event>)
    requires IsRun(ss, es) && es != [] && Submits(ss, es, |es| - 1)
    requires ss[|es| - 1].session.Some? && CanStrand(ss[|es| - 1])
    ensures StrandsFrom(ss, es, ts, fs)
  {
    hide IsRun, UndoneSince;
    var j := |es| - 1;
    LastMoment(ss, es);
    ts, fs := Extend(ss, es, Land);
    ts, fs := Extend(ts, fs, Switch);
    ts, fs := Extend(ts, fs, SecondHalf);
    UndoneStep(ss[j], ss[j + 1], Land);
    UndoneStep(ss[j], ts[j + 2], Switch);
    NoMoreRun(ss[j], ts[j + 3], ts[j + 4]);
    NothingRunYet(ss[j], ss[j + 1]);
  }

  lemma LastMoment(ss: seq<State>, es: seq<Event>)
    requires IsRun(ss, es) && es != []
    ensures |ss| == |es| + 1 && Moment(ss, es, |es| - 1)
  {
  }

  lemma NothingRunYet(b: State, s: State)
    requires b.session.Some? && |s.attempted| <= |b.attempted|
    ensures !UndoneSince(b, s)
  {
  }

  /** An undo just handed over can be stranded with no new drill exactly when the net thread is on
      a run that neither makes the undo's steps nor leaves them to be made. */
  lemma CanStrandIff(ss: seq<State>, es: seq<Event>)
    requires IsRun(ss, es) && es != [] && Submits(ss, es, |es| - 1)
    ensures HotRestorable(ss[|es| - 1].session)
    ensures CanStrand(ss[|es| - 1]) <==> exists ts, fs :: StrandsFrom(ss, es, ts, fs)
  {
    hide CanStrand, StrandsFrom, Moment;
    var j := |es| - 1;
    if CanStrand(ss[j]) {
      var ts, fs := HarmfulRunStrands(ss, es);
    }
    if exists ts, fs :: StrandsFrom(ss, es, ts, fs) {
      var ts, fs :| StrandsFrom(ss, es, ts, fs);
      StrandedMeansHarmful(ss, es, ts, fs);
    }
  }

  lemma StrandedMeansHarmful(ss: seq<State>, es: seq<Event>, ts: seq<State>, fs: seq<Event>)
    requires IsRun(ss, es) && es != [] && Submits(ss, es, |es| - 1) && StrandsFrom(ss, es, ts, fs)
    ensures HotRestorable(ss[|es| - 1].session) && CanStrand(ss[|es| - 1])
  {
    hide Moment, UndoneSince, CanStrand;
    var j, k := |es| - 1, |fs| - 1;
    assert ts[j] == ss[j];
    LeavesInSecondHalf(ts, fs, j);
    NoDrillIsConsiderate(ts, fs, j, k);
    NoMoreRun(ts[j], ts[k], ts[k + 1]);
    if !CanStrand(ss[j]) {
      NothingStranded(ts, fs, j, k);
    }
  }

  // ---- What goes wrong otherwise -------------------------------------------

  /** A drill that leaves something to undo, and one that does not. */
  function Cordon(): Run {
    Run(Hot, "cordon", "node a", Other("node"), 1, ["cordon a"], ["uncordon a"], [], None, false)
  }

  function Kill(): Run {
    Run(Hot, "kill", "ns/b", Workload, 1, ["delete b-0"], [], ["ns/b"], None, false)
  }

  function Start(): State {
    State(Top, Ui(false, None), None, None, None, [], [], 0.0, false)
  }

  /** A cordon has been run and can be undone. */
  lemma CordonRuns() returns (ss: seq<State>, es: seq<Event>)
    ensures IsRun(ss, es) && |es| == 3
      && ss[3] == Start().(session := Some(SessionOf(Cordon())), attempted := [["cordon a"]])
  {
    hide IsRun;
    ss, es := StartRuns();
    ss, es := Extend(ss, es, Drill(Cordon()));
    ss, es := Extend(ss, es, Take);
    ss, es := Extend(ss, es, Land);
  }

  lemma StartRuns() returns (ss: seq<State>, es: seq<Event>)
    ensures IsRun(ss, es) && ss == [Start()] && es == []
  {
    ss, es := [Start()], [];
  }

  /** Its undo has been handed over by a quit, and the loop waits. */
  lemma UndoHandedOver() returns (ss: seq<State>, es: seq<Event>)
    ensures IsRun(ss, es) && |es| == 6 && Submits(ss, es, 4)
    ensures es[5] == SecondHalf && ss[4].session == Some(SessionOf(Cordon())) && ss[4].now == 0.0
    ensures ss[4].attempted == [["cordon a"]] && ss[4].running == None && ss[4].request == None
    ensures ss[6] == ss[4].(ui := Ui(false, Some(0.0)), request := Some(RestoreOf(SessionOf(Cordon()))),
                            submitted := [Submission(RestoreOf(SessionOf(Cordon())), SessionOf(Cordon()), 0.0)])
    ensures ss[6].place == Top && !ss[6].exited
  {
    hide IsRun;
    ss, es := CordonRuns();
    ss, es := Extend(ss, es, AskToQuit);
    ss, es := Extend(ss, es, FirstHalf);
    ss, es := Extend(ss, es, SecondHalf);
  }

  /** A drill still running when the undo is handed over can end the wait before the undo is run. */
  lemma BusyNetStrands() returns (ss: seq<State>, es: seq<Event>, j: nat)
    ensures Stranded(ss, es, j) && NoDrill(es, j, |es|) && ss[j].running.Some?
  {
    hide IsRun;
    ss, es := CordonRuns();
    ss, es := Extend(ss, es, Drill(Kill()));
    ss, es := Extend(ss, es, Take);
    ss, es := Extend(ss, es, AskToQuit);
    j := |es|;
    ss, es := Extend(ss, es, FirstHalf);
    ss, es := Extend(ss, es, Land);
    ss, es := Extend(ss, es, SecondHalf);
  }

  /** A drill confirmed while the undo waits takes its place in the slot. */
  lemma DrillReplacesUndo() returns (ss: seq<State>, es: seq<Event>, j: nat)
    ensures Stranded(ss, es, j) && ss[j].running == None && ss[j].request == None
  {
    hide IsRun;
    ss, es := UndoHandedOver();
    j := 4;
    ss, es := Extend(ss, es, Drill(Kill()));
    ss, es := Extend(ss, es, Take);
    ss, es := Extend(ss, es, Land);
    ss, es := Extend(ss, es, FirstHalf);
    ss, es := Extend(ss, es, SecondHalf);
  }

  /** It is not enough that the undo has left the slot: a drill confirmed behind an undo that the
      net thread then refuses runs in its stead. */
  lemma RefusedUndoStrands() returns (ss: seq<State>, es: seq<Event>, j: nat)
    ensures Stranded(ss, es, j) && ss[j].running == None && ss[j].request == None
    ensures forall i :: j < i < |es| && es[i].Drill? ==> ss[i].request == None && RunsUndo(ss[j], ss[i])
  {
    hide IsRun;
    ss, es := UndoHandedOver();
    j := 4;
    ss, es := Extend(ss, es, Take);
    ss, es := Extend(ss, es, Drill(Kill()));
    ss, es := Extend(ss, es, Refuse);
    ss, es := Extend(ss, es, Take);
    ss, es := Extend(ss, es, Land);
    ss, es := Extend(ss, es, FirstHalf);
    ss, es := Extend(ss, es, SecondHalf);
  }
}
