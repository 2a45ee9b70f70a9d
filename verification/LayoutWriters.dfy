/** Saves that run at once: the frame loop's on the way out, in `crates/kubernation/src/main.rs`, and
    the net thread's, in `crates/kubernation/src/net.rs`, interleaved call by call. Each save is the
    step machine of `save` and `write_then_sync` in `crates/kubernation/src/layout_io.rs`, with its own
    file handle. */
module LayoutWriters {
  import opened Prelude
  import opened LayoutFile

  // ---- One save, call by call ----------------------------------------------

  /** The call a save is about to make. A handle is the number of the open file and the offset that
      the next bytes go to. */
  datatype Stage =
    | ToRemove
    | ToCreate
    | ToWrite(file: nat, at: nat)
    | ToRename
    | Done(ok: bool)

  /** A save of `json` to the map `name`. */
  datatype Writer = Writer(name: string, json: Bytes, stage: Stage) {
    predicate Active() {
      !stage.Done?
    }

    function Tmp(): string {
      "." + name + ".tmp"
    }
  }

  datatype State = State(fs: Fs, writers: seq<Writer>)

  /** `Begin` starts a save. `Call` makes a save's next call, which writes `n` bytes if it is a
      write, and `Fail` fails it. `Move` is a load that moves a file aside. */
  datatype Event =
    | Begin(name: string, json: Bytes)
    | Call(w: nat, n: nat)
    | Fail(w: nat)
    | Move(from: string, to: string)

  /** Bytes written through a handle: what is there is overwritten, and a gap is filled with zeros. */
  function Overwritten(old_: Bytes, at: nat, more: Bytes): Bytes {
    var padded := if |old_| < at then old_ + seq(at - |old_|, _ => 0) else old_;
    padded[..at] + more + (if at + |more| < |padded| then padded[at + |more|..] else [])
  }

  function Put(fs: Fs, file: nat, at: nat, more: Bytes): Fs
    requires file < |fs.files|
  {
    fs.(files := fs.files[file := Data(Overwritten(fs.files[file].bytes, at, more), false)])
  }

  function SyncedFile(fs: Fs, file: nat): Fs
    requires file < |fs.files|
  {
    fs.(files := fs.files[file := fs.files[file].(synced := true)])
  }

  /** Is a save of this map under way? */
  predicate Busy(s: State, name: string) {
    exists w :: 0 <= w < |s.writers| && s.writers[w].name == name && s.writers[w].Active()
  }

  /** What may happen. `overlap` says whether a save may begin while one of the same map is under
      way; nothing in the program prevents it. */
  predicate Enabled(s: State, e: Event, overlap: bool) {
    match e
    case Begin(name, _) => Visible(name) && (overlap || !Busy(s, name))
    case Call(w, n) =>
      && w < |s.writers| && s.writers[w].Active()
      && (s.writers[w].stage.ToWrite? ==>
            var at, size := s.writers[w].stage.at, |s.writers[w].json|;
            if at < size then 1 <= n <= size - at else n == 0)
    case Fail(w) => w < |s.writers| && s.writers[w].Active()
    case Move(from, to) => Visible(from) && Visible(to) && from != to && from in s.fs.dir
  }

  ghost predicate HandlesOk(s: State) {
    && s.fs.Valid()
    && forall w :: 0 <= w < |s.writers| && s.writers[w].stage.ToWrite? ==>
         s.writers[w].stage.file < |s.fs.files| && s.writers[w].stage.at <= |s.writers[w].json|
  }

  function At(s: State, w: nat, stage: Stage): seq<Writer>
    requires w < |s.writers|
  {
    s.writers[w := s.writers[w].(stage := stage)]
  }

  function Called(s: State, w: nat, n: nat): State
    requires Enabled(s, Call(w, n), true) && HandlesOk(s)
  {
    var writer := s.writers[w];
    match writer.stage
    case ToRemove => State(Removed(s.fs, writer.Tmp()), At(s, w, ToCreate))
    case ToCreate =>
      var g := Created(s.fs, writer.Tmp());
      State(g, At(s, w, ToWrite(g.dir[writer.Tmp()], 0)))
    case ToWrite(file, at) =>
      if at < |writer.json| then State(Put(s.fs, file, at, writer.json[at..at + n]), At(s, w, ToWrite(file, at + n)))
      else State(SyncedFile(s.fs, file), At(s, w, ToRename))
    case ToRename =>
      if writer.Tmp() in s.fs.dir then State(Renamed(s.fs, writer.Tmp(), writer.name), At(s, w, Done(true)))
      else State(s.fs, At(s, w, Done(false)))
  }

  function Next(s: State, e: Event): State
    requires Enabled(s, e, true) && HandlesOk(s)
  {
    match e
    case Begin(name, json) => s.(writers := s.writers + [Writer(name, json, ToRemove)])
    case Call(w, n) => Called(s, w, n)
    case Fail(w) => s.(writers := At(s, w, if s.writers[w].stage.ToRemove? then ToCreate else Done(false)))
    case Move(from, to) => s.(fs := Renamed(s.fs, from, to))
  }

  lemma NextKeepsHandles(s: State, e: Event)
    requires Enabled(s, e, true) && HandlesOk(s)
    ensures HandlesOk(Next(s, e))
  {
  }

  /** A stale file that cannot be removed does not matter; any other call that fails ends the save with an
      error. Either way the disk is as it was, and so are the other saves. */
  lemma FailsAs(s: State, w: nat)
    requires w < |s.writers| && s.writers[w].Active() && HandlesOk(s)
    ensures var t := Next(s, Fail(w));
      && t.fs == s.fs && |t.writers| == |s.writers|
      && t.writers[w] == s.writers[w].(stage := if s.writers[w].stage == ToRemove then ToCreate else Done(false))
      && forall v :: 0 <= v < |s.writers| && v != w ==> t.writers[v] == s.writers[v]
  {
  }

  ghost predicate Moment(ss: seq<State>, es: seq<Event>, k: nat, overlap: bool)
    requires k < |es| && |ss| == |es| + 1
  {
    Enabled(ss[k], es[k], overlap) && HandlesOk(ss[k]) && ss[k + 1] == Next(ss[k], es[k])
  }

  /** A run of saves and moves on a disk that was found sound. */
  ghost predicate IsRun(ss: seq<State>, es: seq<Event>, overlap: bool) {
    && |ss| == |es| + 1 && Sound(ss[0].fs) && ss[0].writers == []
    && forall k: nat :: k < |es| ==> Moment(ss, es, k, overlap)
  }

  // ---- Saves of one map that do not overlap --------------------------------

  /** What a step may do to the maps: none changes, but a save's last call puts its own bytes, whole,
      in its own map, and a move moves a file. All stay on the disk. */
  ghost predicate Whole(s: State, e: Event, t: State)
    requires s.fs.Valid() && t.fs.Valid()
  {
    && (forall n :: n in t.fs.dir && Visible(n) ==> t.fs.files[t.fs.dir[n]].synced)
    && (!e.Move? ==> forall n :: Visible(n) ==>
          || t.fs.Content(n) == s.fs.Content(n)
          || (e.Call? && e.w < |s.writers| && n == s.writers[e.w].name && t.fs.Content(n) == Some(s.writers[e.w].json)))
  }

  /** Where an undisturbed save stands: its temporary file holds what it has written, and only that. */
  ghost predicate OnCourse(fs: Fs, writer: Writer)
    requires fs.Valid()
  {
    match writer.stage
    case ToWrite(file, at) =>
      && writer.Tmp() in fs.dir && fs.dir[writer.Tmp()] == file
      && at <= |writer.json| && fs.files[file].bytes == writer.json[..at]
    case ToRename => writer.Tmp() in fs.dir && fs.files[fs.dir[writer.Tmp()]] == Data(writer.json, true)
    case _ => true
  }

  ghost predicate Undisturbed(s: State) {
    && Sound(s.fs)
    && (forall w :: 0 <= w < |s.writers| ==> Visible(s.writers[w].name) && OnCourse(s.fs, s.writers[w]))
    && (forall v, w :: 0 <= v < w < |s.writers| && s.writers[v].Active() && s.writers[w].Active() ==>
          s.writers[v].name != s.writers[w].name)
  }

  lemma TmpIsHidden(a: Writer, b: Writer)
    ensures !Visible(a.Tmp()) && (a.Tmp() == b.Tmp() ==> a.name == b.name)
  {
    assert a.Tmp()[1..|a.Tmp()| - 4] == a.name;
    assert b.Tmp()[1..|b.Tmp()| - 4] == b.name;
  }

  /** A name keeps its file, and the file what is in it. */
  ghost predicate Untouched(f: Fs, g: Fs, n: string)
    requires f.Valid() && g.Valid()
  {
    && (n in f.dir <==> n in g.dir)
    && (n in f.dir ==> g.dir[n] == f.dir[n] && g.files[g.dir[n]] == f.files[f.dir[n]])
  }

  lemma UntouchedKeepsCourse(f: Fs, g: Fs, writer: Writer)
    requires f.Valid() && g.Valid() && OnCourse(f, writer) && Untouched(f, g, writer.Tmp())
    ensures OnCourse(g, writer)
  {
  }

  // ---- Each call, undisturbed ----------------------------------------------

  /** What a call of save `writer` may touch. */
  ghost predicate TouchesOwn(f: Fs, g: Fs, writer: Writer) {
    && f.Valid() && Tame(f, g)
    && forall m :: m != writer.Tmp() && (m != writer.name || writer.stage != ToRename) ==> Untouched(f, g, m)
  }

  lemma RemoveCall(f: Fs, writer: Writer)
    requires Sound(f) && writer.stage == ToRemove
    ensures TouchesOwn(f, Removed(f, writer.Tmp()), writer)
  {
    RemoveIsTame(f, writer.Tmp());
  }

  lemma CreateCall(f: Fs, writer: Writer)
    requires Sound(f) && writer.stage == ToCreate && !Visible(writer.Tmp())
    ensures var g := Created(f, writer.Tmp());
      && TouchesOwn(f, g, writer)
      && OnCourse(g, writer.(stage := ToWrite(g.dir[writer.Tmp()], 0)))
  {
    CreateIsTame(f, writer.Tmp());
  }

  lemma WriteCall(f: Fs, writer: Writer, n: nat)
    requires Sound(f) && writer.stage.ToWrite? && OnCourse(f, writer) && !Visible(writer.Tmp())
    requires writer.stage.at + n <= |writer.json|
    ensures var file, at := writer.stage.file, writer.stage.at;
      var g := Put(f, file, at, writer.json[at..at + n]);
      && TouchesOwn(f, g, writer)
      && OnCourse(g, writer.(stage := ToWrite(file, at + n)))
  {
    hide Overwritten, Tame, Others, SameNames;
    var file, at := writer.stage.file, writer.stage.at;
    var more := writer.json[at..at + n];
    NextBytes(writer.json, at, n);
    assert Put(f, file, at, more) == Appended(f, writer.Tmp(), more);
    AppendIsTame(f, writer.Tmp(), more);
  }

  lemma NextBytes(json: Bytes, at: nat, n: nat)
    requires at + n <= |json|
    ensures Overwritten(json[..at], at, json[at..at + n]) == json[..at] + json[at..at + n] == json[..at + n]
  {
  }

  lemma SyncCall(f: Fs, writer: Writer)
    requires Sound(f) && writer.stage.ToWrite? && OnCourse(f, writer) && !Visible(writer.Tmp())
    requires writer.stage.at == |writer.json|
    ensures var g := SyncedFile(f, writer.stage.file);
      TouchesOwn(f, g, writer) && OnCourse(g, writer.(stage := ToRename))
  {
    assert writer.json[..|writer.json|] == writer.json;
    SyncIsTame(f, writer.Tmp());
  }

  lemma RenameCall(f: Fs, writer: Writer)
    requires Sound(f) && writer.stage == ToRename && OnCourse(f, writer)
    requires !Visible(writer.Tmp()) && Visible(writer.name)
    ensures var g := Renamed(f, writer.Tmp(), writer.name);
      TouchesOwn(f, g, writer) && g.Valid() && g.Content(writer.name) == Some(writer.json)
  {
    RenameIsTame(f, writer.Tmp(), writer.name);
  }

  /** A call of an undisturbed save: it stays on course, and only a last call changes a map. */
  lemma CallKeepsCourse(s: State, w: nat, n: nat)
    requires Undisturbed(s) && Enabled(s, Call(w, n), false) && HandlesOk(s)
    ensures var t, writer := Next(s, Call(w, n)), s.writers[w];
      && TouchesOwn(s.fs, t.fs, writer) && OnCourse(t.fs, t.writers[w])
      && (t.fs.Content(writer.name) == s.fs.Content(writer.name) || t.writers[w].stage == Done(true))
      && (t.writers[w].stage == Done(true) ==> t.fs.Content(writer.name) == Some(writer.json))
  {
    hide TouchesOwn, Put, Removed, Created, SyncedFile, Renamed, Sound, OnCourse;
    var writer := s.writers[w];
    TmpIsHidden(writer, writer);
    OwnStage(s, w);
    match writer.stage
    case ToRemove => RemoveCall(s.fs, writer); OwnNameKept(s.fs, Next(s, Call(w, n)).fs, writer);
    case ToCreate => CreateCall(s.fs, writer); OwnNameKept(s.fs, Next(s, Call(w, n)).fs, writer);
    case ToWrite(file, at) =>
      if at < |writer.json| {
        WriteCall(s.fs, writer, n);
      } else {
        SyncCall(s.fs, writer);
      }
      OwnNameKept(s.fs, Next(s, Call(w, n)).fs, writer);
    case ToRename => RenameCall(s.fs, writer);
    NothingToCourse(Next(s, Call(w, n)).fs, writer);
  }

  lemma OwnStage(s: State, w: nat)
    requires Undisturbed(s) && w < |s.writers|
    ensures Sound(s.fs) && s.fs.Valid() && OnCourse(s.fs, s.writers[w]) && Visible(s.writers[w].name)
    ensures s.writers[w].stage == ToRename ==> s.writers[w].Tmp() in s.fs.dir
    ensures s.writers[w].stage.ToWrite? ==> s.writers[w].stage.at <= |s.writers[w].json|
  {
  }

  lemma NothingToCourse(g: Fs, writer: Writer)
    requires g.Valid()
    ensures OnCourse(g, writer.(stage := Done(true))) && OnCourse(g, writer.(stage := ToCreate))
  {
  }

  lemma OwnNameKept(f: Fs, g: Fs, writer: Writer)
    requires TouchesOwn(f, g, writer) && writer.stage != ToRename && Visible(writer.name) && !Visible(writer.Tmp())
    ensures g.Valid() && g.Content(writer.name) == f.Content(writer.name) && OnCourse(g, writer.(stage := ToCreate))
  {
    assert Untouched(f, g, writer.name);
  }

  // ---- Whole runs ----------------------------------------------------------

  lemma CallKeepsUndisturbed(s: State, w: nat, n: nat)
    requires Undisturbed(s) && Enabled(s, Call(w, n), false) && HandlesOk(s)
    ensures var t := Next(s, Call(w, n));
      Undisturbed(t) && Tame(s.fs, t.fs) && Whole(s, Call(w, n), t)
  {
    hide OnCourse, Called;
    var t, writer := Next(s, Call(w, n)), s.writers[w];
    CallKeepsCourse(s, w, n);
    OnlyOwnStage(s, w, n);
    TmpIsHidden(writer, writer);
    forall v | 0 <= v < |t.writers|
      ensures Visible(t.writers[v].name) && OnCourse(t.fs, t.writers[v])
    {
      if v != w {
        TmpIsHidden(t.writers[v], writer);
        if t.writers[v].Active() {
          UntouchedKeepsCourse(s.fs, t.fs, t.writers[v]);
        } else {
          DoneIsOnCourse(t.fs, t.writers[v]);
        }
      }
    }
    forall m | Visible(m) && m != writer.name
      ensures t.fs.Content(m) == s.fs.Content(m)
    {
      assert Untouched(s.fs, t.fs, m);
    }
  }

  lemma OnlyOwnStage(s: State, w: nat, n: nat)
    requires Enabled(s, Call(w, n), true) && HandlesOk(s)
    ensures var ws, vs := s.writers, Next(s, Call(w, n)).writers;
      && |vs| == |ws| && vs[w] == ws[w].(stage := vs[w].stage)
      && forall v :: 0 <= v < |ws| && v != w ==> vs[v] == ws[v]
  {
  }

  lemma DoneIsOnCourse(fs: Fs, writer: Writer)
    requires fs.Valid() && !writer.Active()
    ensures OnCourse(fs, writer)
  {
  }

  lemma OtherKeepsUndisturbed(s: State, e: Event)
    requires Undisturbed(s) && Enabled(s, e, false) && HandlesOk(s) && !e.Call?
    ensures var t := Next(s, e); Undisturbed(t) && Tame(s.fs, t.fs) && Whole(s, e, t)
  {
    if e.Move? {
      MoveKeepsUndisturbed(s, e.from, e.to);
    }
  }

  lemma MoveKeepsUndisturbed(s: State, from: string, to: string)
    requires Undisturbed(s) && Enabled(s, Move(from, to), false) && HandlesOk(s)
    ensures var t := Next(s, Move(from, to)); Undisturbed(t) && Tame(s.fs, t.fs)
  {
    hide OnCourse, Renamed, Tame;
    var t := Next(s, Move(from, to));
    RenameIsTame(s.fs, from, to);
    MovedOthers(s.fs, from, to);
    TameIsSound(s.fs, t.fs);
    forall v | 0 <= v < |t.writers|
      ensures OnCourse(t.fs, t.writers[v])
    {
      TmpIsHidden(t.writers[v], t.writers[v]);
      UntouchedKeepsCourse(s.fs, t.fs, t.writers[v]);
    }
  }

  lemma MovedOthers(f: Fs, from: string, to: string)
    requires Sound(f) && from in f.dir
    ensures var g := Renamed(f, from, to); g.Valid() && forall m :: m != from && m != to ==> Untouched(f, g, m)
  {
  }

  lemma TameIsSound(f: Fs, g: Fs)
    requires Tame(f, g)
    ensures Sound(g)
  {
  }

  lemma StepKeepsUndisturbed(s: State, e: Event)
    requires Undisturbed(s) && Enabled(s, e, false) && HandlesOk(s)
    ensures var t := Next(s, e); Undisturbed(t) && Tame(s.fs, t.fs) && Whole(s, e, t)
  {
    hide Undisturbed, Tame, Whole, Next, HandlesOk;
    match e
    case Call(w, n) => CallKeepsUndisturbed(s, w, n);
    case _ => OtherKeepsUndisturbed(s, e);
  }

  /** The disk at every moment of a run. */
  ghost function Disks(ss: seq<State>): (trail: seq<Fs>)
    ensures |trail| == |ss| && forall k :: 0 <= k < |ss| ==> trail[k] == ss[k].fs
  {
    seq(|ss|, k requires 0 <= k < |ss| => ss[k].fs)
  }

  lemma {:induction false} RunIsUndisturbed(ss: seq<State>, es: seq<Event>, k: nat)
    requires IsRun(ss, es, false) && k <= |es|
    ensures Undisturbed(ss[k]) && Inv(Disks(ss[..k + 1]))
    decreases k
  {
    hide Undisturbed, Inv, Next, HandlesOk, Tame, Enabled, Disks;
    if k == 0 {
      FirstIsUndisturbed(ss[0]);
      assert ss[..1] == [ss[0]];
    } else {
      RunIsUndisturbed(ss, es, k - 1);
      assert Moment(ss, es, k - 1, false);
      StepKeepsUndisturbed(ss[k - 1], es[k - 1]);
      assert Disks(ss[..k])[k - 1] == ss[k - 1].fs;
      TameKeepsInv(Disks(ss[..k]), ss[k].fs);
      assert Disks(ss[..k + 1]) == Disks(ss[..k]) + [ss[k].fs];
    }
  }

  lemma FirstIsUndisturbed(s: State)
    requires Sound(s.fs) && s.writers == []
    ensures Undisturbed(s) && Inv(Disks([s]))
  {
  }

  ghost predicate RunIsWhole(ss: seq<State>, es: seq<Event>) {
    |ss| == |es| + 1 && forall k: nat :: k < |es| ==> StepIsWhole(ss, es, k)
  }

  ghost predicate StepIsWhole(ss: seq<State>, es: seq<Event>, k: nat)
    requires k < |es| && |ss| == |es| + 1
  {
    ss[k].fs.Valid() && ss[k + 1].fs.Valid() && Whole(ss[k], es[k], ss[k + 1])
  }

  /** Saves of different maps, and saves of one map that do not overlap, may be interleaved with each
      other and with loads as they like: each call leaves every map as it was, or is the last of a
      save and puts that save's bytes, whole, in its own map; and a crash loses nothing of that. */
  lemma SerialisedSavesAreWhole(ss: seq<State>, es: seq<Event>)
    requires IsRun(ss, es, false)
    ensures RunIsWhole(ss, es) && Inv(Disks(ss))
  {
    hide Undisturbed, Inv, Next, HandlesOk, Tame, Enabled, Whole;
    forall k: nat | k < |es|
      ensures StepIsWhole(ss, es, k)
    {
      RunIsUndisturbed(ss, es, k);
      RunIsUndisturbed(ss, es, k + 1);
      assert Moment(ss, es, k, false);
      StepKeepsUndisturbed(ss[k], es[k]);
      UndisturbedIsValid(ss[k]);
      UndisturbedIsValid(ss[k + 1]);
    }
    RunIsUndisturbed(ss, es, |es|);
    assert ss[..|es| + 1] == ss;
  }

  lemma UndisturbedIsValid(s: State)
    requires Undisturbed(s)
    ensures s.fs.Valid()
  {
  }

  // ---- One save among others -----------------------------------------------

  /** No other save of the map is begun, and it is not moved, after moment `b` and before `k`. */
  ghost predicate LeftAlone(es: seq<Event>, name: string, b: nat, k: nat)
    requires b < k <= |es|
  {
    forall i :: b < i < k ==>
      (es[i].Begin? ==> es[i].name != name) && (es[i].Move? ==> es[i].from != name && es[i].to != name)
  }

  ghost predicate OnlySaveOf(s: State, w: nat) {
    && w < |s.writers|
    && forall v :: 0 <= v < |s.writers| && v != w && s.writers[v].name == s.writers[w].name ==> !s.writers[v].Active()
  }

  /** Until another save of the map begins, the map is what it was before a save, and exactly once
      that save has succeeded it is what was saved, whatever else goes on. */
  lemma {:induction false} SaveAmongOthers(ss: seq<State>, es: seq<Event>, b: nat, k: nat)
    requires IsRun(ss, es, false) && b < k <= |es| && es[b].Begin? && LeftAlone(es, es[b].name, b, k)
    ensures var w, name, json := |ss[b].writers|, es[b].name, es[b].json;
      && ss[b].fs.Valid() && ss[k].fs.Valid() && OnlySaveOf(ss[k], w)
      && ss[k].writers[w].name == name && ss[k].writers[w].json == json
      && ss[k].fs.Content(name) == if ss[k].writers[w].stage == Done(true) then Some(json) else ss[b].fs.Content(name)
    decreases k
  {
    hide Undisturbed, Next, HandlesOk, Enabled, OnlySaveOf;
    RunIsUndisturbed(ss, es, k - 1);
    RunIsUndisturbed(ss, es, k);
    UndisturbedIsValid(ss[k - 1]);
    UndisturbedIsValid(ss[k]);
    assert Moment(ss, es, k - 1, false);
    if k == b + 1 {
      SaveBegins(ss[b], es[b]);
    } else {
      SaveAmongOthers(ss, es, b, k - 1);
      StepLeavesAlone(ss[k - 1], es[k - 1], |ss[b].writers|);
    }
  }

  lemma SaveBegins(s: State, e: Event)
    requires e.Begin? && Enabled(s, e, false) && HandlesOk(s)
    ensures var t, w := Next(s, e), |s.writers|;
      && OnlySaveOf(t, w) && t.writers[w] == Writer(e.name, e.json, ToRemove) && t.fs == s.fs
  {
  }

  lemma StepLeavesAlone(s: State, e: Event, w: nat)
    requires Undisturbed(s) && Enabled(s, e, false) && HandlesOk(s) && OnlySaveOf(s, w)
    requires e.Begin? ==> e.name != s.writers[w].name
    requires e.Move? ==> e.from != s.writers[w].name && e.to != s.writers[w].name
    ensures var t, writer := Next(s, e), s.writers[w];
      && t.fs.Valid() && OnlySaveOf(t, w) && t.writers[w].name == writer.name && t.writers[w].json == writer.json
      && (t.fs.Content(writer.name) ==
            if t.writers[w].stage == Done(true) && writer.Active() then Some(writer.json)
            else s.fs.Content(writer.name))
      && (!writer.Active() ==> t.writers[w] == writer)
  {
    hide Called, OnCourse;
    StepKeepsUndisturbed(s, e);
    if e.Call? {
      OnlyOwnStage(s, e.w, e.n);
      CallKeepsCourse(s, e.w, e.n);
    } else if e.Move? {
      MovedOthers(s.fs, e.from, e.to);
      assert Untouched(s.fs, Next(s, e).fs, s.writers[w].name);
    }
  }

  /** A crash at moment `i` of a run of saves, the directory coming back as it was at moment `k`:
      every map is whole, and if `k` comes after save number `w` began, its map is the old one or the
      new one. */
  lemma SaveAmongOthersIsAtomic(ss: seq<State>, es: seq<Event>, b: nat, base: nat, i: nat, k: nat,
                                files: map<string, Bytes>)
    requires IsRun(ss, es, false) && base <= i < |ss| && b < k <= |es| && es[b].Begin?
    requires LeftAlone(es, es[b].name, b, k) && Visible(es[b].name)
    requires Inv(Disks(ss)) && CanRecover(Disks(ss), base, i, k, files)
    ensures ss[b].fs.Valid() && ss[k].fs.Valid()
    ensures forall n :: Visible(n) ==> Found(files, n) == ss[k].fs.Content(n)
    ensures Found(files, es[b].name) == ss[b].fs.Content(es[b].name) || Found(files, es[b].name) == Some(es[b].json)
  {
    hide Moment, Inv, CanRecover, LeftAlone;
    SaveAmongOthers(ss, es, b, k);
    forall n | Visible(n)
      ensures Found(files, n) == ss[k].fs.Content(n)
    {
      CrashLeavesWhole(Disks(ss), base, i, k, files, n);
    }
  }

  // ---- Saves of one map that overlap ---------------------------------------

  /** A run goes on. */
  lemma Extend(ss: seq<State>, es: seq<Event>, e: Event) returns (ts: seq<State>, fs: seq<Event>)
    requires IsRun(ss, es, true) && HandlesOk(ss[|es|]) && Enabled(ss[|es|], e, true)
    ensures ts == ss + [Next(ss[|es|], e)] && fs == es + [e] && IsRun(ts, fs, true)
    ensures |ts| == |fs| + 1 && HandlesOk(ts[|fs|]) && ts[|fs|] == Next(ss[|es|], e)
  {
    ts, fs := ss + [Next(ss[|es|], e)], es + [e];
    NextKeepsHandles(ss[|es|], e);
    forall k: nat | k < |fs|
      ensures Moment(ts, fs, k, true)
    {
      assert k < |es| ==> Moment(ss, es, k, true);
    }
  }

  lemma Starts(f: Fs) returns (ss: seq<State>, es: seq<Event>)
    requires Sound(f)
    ensures ss == [State(f, [])] && es == [] && IsRun(ss, es, true) && HandlesOk(ss[0])
  {
    ss, es := [State(f, [])], [];
  }

  /** Two saves of one map begin. */
  lemma BothBegin(f: Fs, name: string, a: Bytes, b: Bytes) returns (ss: seq<State>, es: seq<Event>)
    requires Sound(f) && Visible(name)
    ensures IsRun(ss, es, true) && |es| == 2 && |ss| == 3 && HandlesOk(ss[2]) && ss[0].fs == f
    ensures ss[2] == State(f, [Writer(name, a, ToRemove), Writer(name, b, ToRemove)])
  {
    hide IsRun, Sound;
    ss, es := Starts(f);
    ss, es := Extend(ss, es, Begin(name, a));
    ss, es := Extend(ss, es, Begin(name, b));
  }

  /** The first is about to rename, and the second to begin. */
  lemma FirstIsWritten(f: Fs, name: string, a: Bytes, b: Bytes) returns (ss: seq<State>, es: seq<Event>)
    requires Sound(f) && Visible(name) && a != []
    ensures IsRun(ss, es, true) && |es| == 6 && |ss| == 7 && HandlesOk(ss[6]) && ss[0].fs == f
    ensures ss[6].writers == [Writer(name, a, ToRename), Writer(name, b, ToRemove)]
  {
    hide IsRun, Sound, Put, SyncedFile, Removed;
    ss, es := BothBegin(f, name, a, b);
    ss, es := Extend(ss, es, Call(0, 0));
    ss, es := Extend(ss, es, Call(0, 0));
    ss, es := Extend(ss, es, Call(0, |a|));
    ss, es := Extend(ss, es, Call(0, 0));
  }

  /** On any disk, two saves of one map that overlap: the second removes the first's temporary file
      and makes its own, which the first then renames. The map is empty and not on the disk. */
  lemma OverlapTears(f: Fs, name: string, a: Bytes, b: Bytes) returns (ss: seq<State>, es: seq<Event>)
    requires Sound(f) && Visible(name) && a != []
    ensures IsRun(ss, es, true) && |es| == 9 && |ss| == 10 && es[8] == Call(0, 0) && ss[0].fs == f
    ensures ss[9].fs.Valid() && name in ss[9].fs.dir
    ensures ss[9].writers == [Writer(name, a, Done(true)), Writer(name, b, ToWrite(ss[9].fs.dir[name], 0))]
    ensures ss[8].writers == [Writer(name, a, ToRename), ss[9].writers[1]]
    ensures ss[9].fs.Content(name) == Some([]) && !ss[9].fs.files[ss[9].fs.dir[name]].synced
  {
    hide IsRun, Sound;
    ss, es := FirstIsWritten(f, name, a, b);
    ss, es := Extend(ss, es, Call(1, 0));
    ss, es := Extend(ss, es, Call(1, 0));
    assert Writer(name, a, ToRename).Tmp() in ss[8].fs.dir;
    ss, es := Extend(ss, es, Call(0, 0));
  }

  /** A state in which both saves hold the one temporary file, number `file`. */
  ghost predicate Sharing(s: State, file: nat, data: Data, name: string, a: Bytes, b: Bytes,
                          first: Stage, second: Stage) {
    var tmp := Writer(name, a, first).Tmp();
    && HandlesOk(s) && tmp in s.fs.dir && s.fs.dir[tmp] == file && file < |s.fs.files| && s.fs.files[file] == data
    && s.writers == [Writer(name, a, first), Writer(name, b, second)]
  }

  /** Both remove the temporary file, and then both create it. */
  lemma BothCreate(f: Fs, name: string, a: Bytes, b: Bytes) returns (ss: seq<State>, es: seq<Event>, file: nat)
    requires Sound(f) && Visible(name)
    ensures IsRun(ss, es, true) && |es| == 6 && |ss| == 7 && ss[0].fs == f
    ensures Sharing(ss[6], file, Data([], false), name, a, b, ToWrite(file, 0), ToWrite(file, 0))
  {
    hide IsRun, Sound;
    ss, es := BothBegin(f, name, a, b);
    ss, es := Extend(ss, es, Call(1, 0));
    ss, es := Extend(ss, es, Call(0, 0));
    ss, es := Extend(ss, es, Call(0, 0));
    ss, es := Extend(ss, es, Call(1, 0));
    file := ss[6].fs.dir[Writer(name, a, ToRemove).Tmp()];
  }

  /** Both write all they have, from the start of the one file. */
  lemma BothWrite(f: Fs, name: string, a: Bytes, b: Bytes) returns (ss: seq<State>, es: seq<Event>, file: nat)
    requires Sound(f) && Visible(name) && 0 < |b| < |a|
    ensures IsRun(ss, es, true) && |es| == 8 && |ss| == 9 && ss[0].fs == f
    ensures Sharing(ss[8], file, Data(b + a[|b|..], false), name, a, b, ToWrite(file, |a|), ToWrite(file, |b|))
  {
    hide IsRun, Sound, Overwritten;
    ss, es, file := BothCreate(f, name, a, b);
    OverwriteFront([], a);
    OverwriteFront(a, b);
    assert a[0..0 + |a|] == a && b[0..0 + |b|] == b && a + [] == a;
    ss, es := Extend(ss, es, Call(0, |a|));
    assert Sharing(ss[7], file, Data(a, false), name, a, b, ToWrite(file, |a|), ToWrite(file, 0));
    ss, es := Extend(ss, es, Call(1, |b|));
  }

  lemma OverwriteFront(old_: Bytes, more: Bytes)
    ensures Overwritten(old_, 0, more) == more + (if |more| < |old_| then old_[|more|..] else [])
  {
  }

  /** On any disk, two saves of one map that take turns in one temporary file: both write all they
      have, one succeeds, and the map holds a mixture, for good. */
  lemma SavesMix(f: Fs, name: string, a: Bytes, b: Bytes) returns (ss: seq<State>, es: seq<Event>)
    requires Sound(f) && Visible(name) && 0 < |b| < |a|
    ensures IsRun(ss, es, true) && |es| == 12 && |ss| == 13 && ss[0].fs == f
    ensures ss[12].fs.Valid() && name in ss[12].fs.dir
    ensures ss[12].writers == [Writer(name, a, Done(true)), Writer(name, b, Done(false))]
    ensures ss[12].fs.Content(name) == Some(b + a[|b|..]) && ss[12].fs.files[ss[12].fs.dir[name]].synced
  {
    hide IsRun, Sound;
    var file;
    ss, es, file := BothWrite(f, name, a, b);
    var mixed := b + a[|b|..];
    ss, es := Extend(ss, es, Call(0, 0));
    ss, es := Extend(ss, es, Call(1, 0));
    assert Sharing(ss[10], file, Data(mixed, true), name, a, b, ToRename, ToRename);
    ss, es := Extend(ss, es, Call(0, 0));
    ss, es := Extend(ss, es, Call(1, 0));
  }

  /** The exact condition, which a caller can keep by holding a lock: every call of every save leaves
      every map whole, in all runs, if and only if no two saves of one map may overlap. */
  lemma WholeIffSerialised(overlap: bool)
    ensures (forall ss, es :: IsRun(ss, es, overlap) ==> RunIsWhole(ss, es)) <==> !overlap
  {
    if overlap {
      var f := Fs(map[], []);
      var ss, es := OverlapTears(f, "m.json", [1], [2]);
      assert !StepIsWhole(ss, es, 8);
      assert !RunIsWhole(ss, es);
    } else {
      forall ss, es | IsRun(ss, es, false)
        ensures RunIsWhole(ss, es)
      {
        SerialisedSavesAreWhole(ss, es);
      }
    }
  }

  // ---- When a save may begin -----------------------------------------------

  /** The run goes on with a save of this map, and after that no save begins while one of its map is
      under way. */
  ghost predicate GoesOnWith(ss: seq<State>, es: seq<Event>, ts: seq<State>, fs: seq<Event>, name: string,
                             json: Bytes) {
    && ss <= ts && es <= fs && IsRun(ts, fs, true) && |es| < |fs| && fs[|es|] == Begin(name, json)
    && forall k :: |es| < k < |fs| && fs[k].Begin? ==> !Busy(ts[k], fs[k].name)
  }

  lemma FreeSaveIsSerialised(ss: seq<State>, es: seq<Event>, ts: seq<State>, fs: seq<Event>, name: string, json: Bytes)
    requires IsRun(ss, es, false) && GoesOnWith(ss, es, ts, fs, name, json) && !Busy(ss[|es|], name)
    ensures IsRun(ts, fs, false)
  {
    hide Next, HandlesOk, Busy, Sound;
    forall k: nat | k < |fs|
      ensures Moment(ts, fs, k, false)
    {
      assert Moment(ts, fs, k, true);
      if k < |es| {
        assert Moment(ss, es, k, false) && ts[k] == ss[k] && fs[k] == es[k];
      } else if k == |es| {
        assert ts[k] == ss[k];
      }
    }
  }

  /** A save's calls, each whole, until it is about to rename. */
  lemma Drive(ss: seq<State>, es: seq<Event>, w: nat, steps: nat) returns (ts: seq<State>, fs: seq<Event>)
    requires IsRun(ss, es, true) && |ss| == |es| + 1 && HandlesOk(ss[|es|])
    requires w < |ss[|es|].writers| && ss[|es|].writers[w].Active()
    requires Left(ss[|es|].writers[w]) == steps
    ensures IsRun(ts, fs, true) && |ts| == |fs| + 1 && HandlesOk(ts[|fs|]) && ss <= ts && es <= fs
    ensures forall k :: |es| <= k < |fs| ==> fs[k].Call?
    ensures |ts[|fs|].writers| == |ss[|es|].writers|
    ensures ts[|fs|].writers[w] == ss[|es|].writers[w].(stage := ToRename)
    ensures forall v :: 0 <= v < |ts[|fs|].writers| && v != w ==> ts[|fs|].writers[v] == ss[|es|].writers[v]
    decreases steps
  {
    hide IsRun, Sound, Put, SyncedFile, Removed, Created;
    if steps == 0 {
      ts, fs := ss, es;
    } else {
      var writer := ss[|es|].writers[w];
      var n := if writer.stage.ToWrite? then |writer.json| - writer.stage.at else 0;
      ts, fs := Extend(ss, es, Call(w, n));
      ts, fs := Drive(ts, fs, w, steps - 1);
    }
  }

  /** How many calls a save has before its rename, each write taking all that is left. */
  function Left(writer: Writer): nat {
    match writer.stage
    case ToRemove => if writer.json == [] then 3 else 4
    case ToCreate => if writer.json == [] then 2 else 3
    case ToWrite(_, at) => if at < |writer.json| then 2 else 1
    case _ => 0
  }

  lemma SerialisedIsARun(ss: seq<State>, es: seq<Event>)
    requires IsRun(ss, es, false)
    ensures IsRun(ss, es, true) && |ss| == |es| + 1 && HandlesOk(ss[|es|])
  {
    forall k: nat | k < |es|
      ensures Moment(ss, es, k, true)
    {
      assert Moment(ss, es, k, false);
    }
    if es != [] {
      assert Moment(ss, es, |es| - 1, true);
      NextKeepsHandles(ss[|es| - 1], es[|es| - 1]);
    }
  }

  /** The second save makes a temporary file of its own, and the first renames that. */
  lemma Tear(ss: seq<State>, es: seq<Event>, w: nat, v: nat) returns (ts: seq<State>, fs: seq<Event>)
    requires IsRun(ss, es, true) && |ss| == |es| + 1 && HandlesOk(ss[|es|])
    requires w < |ss[|es|].writers| && v < |ss[|es|].writers| && w != v
    requires ss[|es|].writers[w].stage == ToRename && ss[|es|].writers[v].stage == ToRemove
    requires ss[|es|].writers[w].name == ss[|es|].writers[v].name && Visible(ss[|es|].writers[w].name)
    ensures IsRun(ts, fs, true) && |ts| == |fs| + 1 && ss <= ts && es <= fs && |es| < |fs|
    ensures (forall k :: |es| <= k < |fs| ==> fs[k].Call?) && !StepIsWhole(ts, fs, |fs| - 1)
  {
    hide IsRun, Sound;
    var writer := ss[|es|].writers[w];
    ts, fs := Extend(ss, es, Call(v, 0));
    ts, fs := Extend(ts, fs, Call(v, 0));
    var s := ts[|fs|];
    assert s.fs.files[s.fs.dir[writer.Tmp()]] == Data([], false);
    ts, fs := Extend(ts, fs, Call(w, 0));
    var t := ts[|fs|];
    assert t.fs.dir[writer.name] == s.fs.dir[writer.Tmp()] && t.fs.files == s.fs.files;
  }

  lemma BusySaveTears(ss: seq<State>, es: seq<Event>, name: string, json: Bytes)
    returns (ts: seq<State>, fs: seq<Event>)
    requires IsRun(ss, es, false) && Visible(name) && Busy(ss[|es|], name)
    ensures GoesOnWith(ss, es, ts, fs, name, json) && !RunIsWhole(ts, fs)
  {
    hide IsRun, Sound;
    SerialisedIsARun(ss, es);
    var w := BusyOne(ss[|es|], name);
    var v := |ss[|es|].writers|;
    ts, fs := Extend(ss, es, Begin(name, json));
    ts, fs := Drive(ts, fs, w, Left(ts[|fs|].writers[w]));
    ts, fs := Tear(ts, fs, w, v);
    assert !StepIsWhole(ts, fs, |fs| - 1);
  }

  lemma BusyOne(s: State, name: string) returns (w: nat)
    requires Busy(s, name)
    ensures w < |s.writers| && s.writers[w].name == name && s.writers[w].Active()
  {
    w :| 0 <= w < |s.writers| && s.writers[w].name == name && s.writers[w].Active();
  }

  /** At any moment of a run whose saves of one map have not overlapped, a save of a map can be begun
      and all maps stay whole, however it goes on, if and only if none of that map is under way. */
  lemma MayBeginIffFree(ss: seq<State>, es: seq<Event>, name: string, json: Bytes)
    requires IsRun(ss, es, false) && Visible(name)
    ensures (forall ts, fs :: GoesOnWith(ss, es, ts, fs, name, json) ==> RunIsWhole(ts, fs))
            <==> !Busy(ss[|es|], name)
  {
    hide IsRun, Busy, RunIsWhole, GoesOnWith;
    SerialisedIsARun(ss, es);
    if Busy(ss[|es|], name) {
      var ts, fs := BusySaveTears(ss, es, name, json);
    } else {
      forall ts, fs | GoesOnWith(ss, es, ts, fs, name, json)
        ensures RunIsWhole(ts, fs)
      {
        FreeSaveIsSerialised(ss, es, ts, fs, name, json);
        SerialisedSavesAreWhole(ts, fs);
      }
    }
  }
}
