/** The advisor's memo of `crates/kubernation/src/advisor.rs`: reports kept for one snapshot and
    keyed by the snapshot's address, which the cache retains. */
module ReportCache {
  import opened Prelude

  datatype Slot = Health | Storage | Network | RightSizing | Hardening

  type Addr = nat

  /** How a report is made: a function of the world alone. */
  type Build<!W, R> = (Slot, W) -> R

  datatype Cache<R> = Cache(key: Option<Addr>, slots: map<Slot, R>)

  /** Drop everything if this is a different snapshot. */
  function Synced<R>(c: Cache<R>, models: Addr): Cache<R> {
    if c.key == Some(models) then c else Cache(Some(models), map[])
  }

  /** Fill a slot unless it is filled. */
  function Filled<R>(c: Cache<R>, slot: Slot, report: R): Cache<R> {
    if slot in c.slots then c else c.(slots := c.slots[slot := report])
  }

  // ---- The cache object ----------------------------------------------------

  class Reports<R> {
    var key: Option<Addr>
    var health: Option<R>
    var storage: Option<R>
    var network: Option<R>
    var rightsizing: Option<R>
    var hardening: Option<R>

    constructor ()
      ensures Contents() == Cache(None, map[])
    {
      key, health, storage, network, rightsizing, hardening := None, None, None, None, None, None;
    }

    function Field(slot: Slot): Option<R>
      reads this
    {
      match slot
      case Health => health
      case Storage => storage
      case Network => network
      case RightSizing => rightsizing
      case Hardening => hardening
    }

    ghost function Contents(): Cache<R>
      reads this
    {
      Cache(key, map slot: Slot | Field(slot).Some? :: Field(slot).value)
    }

    method Sync(models: Addr)
      modifies this
      ensures Contents() == Synced(old(Contents()), models)
    {
      if key == None || key.value != models {
        key := Some(models);
        health, storage, network, rightsizing, hardening := None, None, None, None, None;
      }
    }

    method HealthReport<W>(w: W, build: W -> R) returns (r: R)
      modifies this
      ensures Contents() == Filled(old(Contents()), Health, build(w)) && r == Contents().slots[Health]
    {
      if health == None {
        health := Some(build(w));
      }
      r := health.value;
    }

    method StorageReport<W>(w: W, build: W -> R) returns (r: R)
      modifies this
      ensures Contents() == Filled(old(Contents()), Storage, build(w)) && r == Contents().slots[Storage]
    {
      if storage == None {
        storage := Some(build(w));
      }
      r := storage.value;
    }

    method NetworkReport<W>(w: W, build: W -> R) returns (r: R)
      modifies this
      ensures Contents() == Filled(old(Contents()), Network, build(w)) && r == Contents().slots[Network]
    {
      if network == None {
        network := Some(build(w));
      }
      r := network.value;
    }

    method RightSizingReport<W>(w: W, build: W -> R) returns (r: R)
      modifies this
      ensures Contents() == Filled(old(Contents()), RightSizing, build(w)) && r == Contents().slots[RightSizing]
    {
      if rightsizing == None {
        rightsizing := Some(build(w));
      }
      r := rightsizing.value;
    }

    method HardeningReport<W>(w: W, build: W -> R) returns (r: R)
      modifies this
      ensures Contents() == Filled(old(Contents()), Hardening, build(w)) && r == Contents().slots[Hardening]
    {
      if hardening == None {
        hardening := Some(build(w));
      }
      r := hardening.value;
    }
  }

  // ---- The cache in its world ----------------------------------------------

  /** `history` is every world so far, the live one last. `live` maps the address of each snapshot
      still allocated to the index of the world it was built from. The net thread owns `latest`,
      the current frame owns `gui`, and the cache owns its key. */
  datatype State<W, R> = State(history: seq<W>, live: map<Addr, nat>, latest: Option<Addr>, gui: Option<Addr>,
                               cache: Cache<R>)

  datatype Event<W> =
    | Mutate(w: W)
    | Publish(at: Addr)
    | Fetch
    | EndFrame
    | Free(at: Addr)
    | Draw(slot: Slot)
    | CloseAdvisor

  /** Is a snapshot still owned by anyone? `retained` says whether the cache counts. */
  predicate Owned<W, R>(st: State<W, R>, a: Addr, retained: bool) {
    st.latest == Some(a) || st.gui == Some(a) || (retained && st.cache.key == Some(a))
  }

  /** The allocator may reuse any address that is not live, and only unowned snapshots are freed. */
  predicate Enabled<W, R>(st: State<W, R>, e: Event<W>, retained: bool) {
    st.history != [] &&
    match e
    case Publish(a) => a !in st.live
    case Free(a) => a in st.live && !Owned(st, a, retained)
    case Draw(_) => st.gui.Some?
    case _ => true
  }

  /** The report a draw shows. */
  function Shown<W, R>(st: State<W, R>, slot: Slot, build: Build<W, R>): R
    requires st.gui.Some? && st.history != []
  {
    Filled(Synced(st.cache, st.gui.value), slot, build(slot, st.history[|st.history| - 1])).slots[slot]
  }

  function Next<W, R>(st: State<W, R>, e: Event<W>, build: Build<W, R>, retained: bool): State<W, R>
    requires Enabled(st, e, retained)
  {
    match e
    case Mutate(w) => st.(history := st.history + [w])
    case Publish(a) => st.(live := st.live[a := |st.history| - 1], latest := Some(a))
    case Fetch => st.(gui := st.latest)
    case EndFrame => st.(gui := None)
    case Free(a) => st.(live := st.live - {a})
    case Draw(slot) => st.(cache := Filled(Synced(st.cache, st.gui.value), slot,
      build(slot, st.history[|st.history| - 1])))
    case CloseAdvisor => st.(cache := Cache(None, map[]))
  }

  /** What each step does to what the frame loop holds: a fetch takes the snapshot published last, the
      frame's end lets it go, and closing the advisor empties the cache. */
  lemma StepsHold<W, R>(st: State<W, R>, build: Build<W, R>, retained: bool)
    requires st.history != []
    ensures Next(st, Fetch, build, retained) == st.(gui := st.latest)
    ensures Next(st, EndFrame, build, retained).gui == None
    ensures var t := Next(st, CloseAdvisor, build, retained);
      t.cache.key == None && t.cache.slots == map[] && t.gui == st.gui && t.live == st.live
  {
  }

  /** A run of the whole system. */
  ghost predicate Run<W, R>(states: seq<State<W, R>>, events: seq<Event<W>>, build: Build<W, R>, retained: bool) {
    && |states| == |events| + 1
    && (states[0].history != [] && states[0].live == map[] && states[0].latest == None && states[0].gui == None
        && states[0].cache == Cache(None, map[]))
    && (forall t :: 0 <= t < |events| ==> Enabled(states[t], events[t], retained)
                                          && states[t + 1] == Next(states[t], events[t], build, retained))
  }

  /** Some world no older than version `from` gives this report. */
  ghost predicate NoOlder<W, R>(history: seq<W>, slot: Slot, r: R, from: nat, build: Build<W, R>) {
    exists v :: from <= v < |history| && r == build(slot, history[v])
  }

  /** What holds between steps. */
  ghost predicate Coherent<W, R>(st: State<W, R>, build: Build<W, R>) {
    && st.history != []
    && (forall a :: a in st.live ==> st.live[a] < |st.history|)
    && (st.latest.Some? ==> st.latest.value in st.live)
    && (st.gui.Some? ==> st.gui.value in st.live)
    && (st.cache.key == None ==> st.cache.slots == map[])
    && (st.cache.key.Some? ==> st.cache.key.value in st.live)
    && (forall slot :: slot in st.cache.slots ==>
          st.cache.key.Some? && NoOlder(st.history, slot, st.cache.slots[slot], st.live[st.cache.key.value], build))
  }

  lemma NoOlderGrows<W, R>(history: seq<W>, w: W, slot: Slot, r: R, from: nat, build: Build<W, R>)
    requires NoOlder(history, slot, r, from, build)
    ensures NoOlder(history + [w], slot, r, from, build)
  {
    var v :| from <= v < |history| && r == build(slot, history[v]);
    assert (history + [w])[v] == history[v];
  }

  lemma StepKeepsCoherence<W, R>(st: State<W, R>, e: Event<W>, build: Build<W, R>)
    requires Coherent(st, build) && Enabled(st, e, true)
    ensures Coherent(Next(st, e, build, true), build)
  {
    var st' := Next(st, e, build, true);
    forall slot | slot in st'.cache.slots
      ensures st'.cache.key.Some?
        && NoOlder(st'.history, slot, st'.cache.slots[slot], st'.live[st'.cache.key.value], build)
    {
      if e.Draw? {
        if slot !in Synced(st.cache, st.gui.value).slots {
          assert st.history[|st.history| - 1] == st'.history[|st'.history| - 1];
        }
      } else if e.Mutate? {
        NoOlderGrows(st.history, e.w, slot, st.cache.slots[slot], st.live[st.cache.key.value], build);
      }
    }
  }

  lemma {:induction false} RunIsCoherent<W, R>(
      states: seq<State<W, R>>, events: seq<Event<W>>, build: Build<W, R>, t: nat)
    requires Run(states, events, build, true) && t <= |events|
    ensures Coherent(states[t], build)
  {
    hide Coherent, Enabled, Next;
    if t == 0 {
      StartIsCoherent(states[0], build);
    } else {
      RunIsCoherent(states, events, build, t - 1);
      StepKeepsCoherence(states[t - 1], events[t - 1], build);
      assert states[t - 1 + 1] == Next(states[t - 1], events[t - 1], build, true);
    }
  }

  lemma StartIsCoherent<W, R>(st: State<W, R>, build: Build<W, R>)
    requires st.history != [] && st.live == map[] && st.latest == None && st.gui == None
      && st.cache == Cache(None, map[])
    ensures Coherent(st, build)
  {
  }

  /** In every run, however mutation, publication, freeing with reuse of addresses and drawing
      interleave, the report drawn comes from a world no older than the snapshot the frame holds.
      When that is the latest published one, no report is older than it. */
  lemma DrawsAreNeverStale<W, R>(states: seq<State<W, R>>, events: seq<Event<W>>, build: Build<W, R>, t: nat)
    requires Run(states, events, build, true) && t < |events| && events[t].Draw?
    ensures var (st, slot) := (states[t], events[t].slot);
      && Enabled(st, events[t], true) && st.gui.value in st.live
      && NoOlder(st.history, slot, Shown(st, slot, build), st.live[st.gui.value], build)
  {
    hide Run;
    RunIsCoherent(states, events, build, t);
    StepsEnabled(states, events, build, t);
    var (st, slot) := (states[t], events[t].slot);
    if slot !in Synced(st.cache, st.gui.value).slots {
      assert Shown(st, slot, build) == build(slot, st.history[|st.history| - 1]);
    }
  }

  lemma StepsEnabled<W, R>(states: seq<State<W, R>>, events: seq<Event<W>>, build: Build<W, R>, t: nat)
    requires Run(states, events, build, true) && t < |events|
    ensures |states| == |events| + 1 && Enabled(states[t], events[t], true)
    ensures states[t + 1] == Next(states[t], events[t], build, true)
  {
  }

  lemma OneMore<W, R>(states: seq<State<W, R>>, events: seq<Event<W>>, build: Build<W, R>, retained: bool, e: Event<W>)
    requires Run(states, events, build, retained) && Enabled(states[|events|], e, retained)
    ensures Run(states + [Next(states[|events|], e, build, retained)], events + [e], build, retained)
  {
  }

  /** A first snapshot is published, fetched and drawn. */
  lemma DrawTheFirst(build: Build<int, int>) returns (states: seq<State<int, int>>, events: seq<Event<int>>)
    requires forall slot, w :: build(slot, w) == w
    ensures Run(states, events, build, false)
    ensures states[|events|] == State([0], map[1 := 0], Some(1), Some(1), Cache(Some(1), map[Health := 0]))
  {
    hide Run;
    states, events := StartOfRun(build);
    states, events := Then(states, events, build, Publish(1));
    states, events := Then(states, events, build, Fetch);
    states, events := Then(states, events, build, Draw(Health));
  }

  /** The world moves on, and a second snapshot takes the first one's place. */
  lemma LetGoOfTheFirst(build: Build<int, int>) returns (states: seq<State<int, int>>, events: seq<Event<int>>)
    requires forall slot, w :: build(slot, w) == w
    ensures Run(states, events, build, false)
    ensures states[|events|] == State([0, 1], map[1 := 0, 2 := 1], Some(2), Some(2), Cache(Some(1), map[Health := 0]))
  {
    hide Run;
    states, events := DrawTheFirst(build);
    states, events := Then(states, events, build, Mutate(1));
    states, events := Then(states, events, build, Publish(2));
    states, events := Then(states, events, build, Fetch);
  }

  /** The shortest steps to a reused address, when the cache's own reference is not counted. */
  lemma ReuseTheAddress(build: Build<int, int>) returns (states: seq<State<int, int>>, events: seq<Event<int>>)
    requires forall slot, w :: build(slot, w) == w
    ensures Run(states, events, build, false)
    ensures states[|events|] == State([0, 1], map[2 := 1, 1 := 1], Some(1), Some(1), Cache(Some(1), map[Health := 0]))
  {
    hide Run;
    states, events := LetGoOfTheFirst(build);
    states, events := Then(states, events, build, Free(1));
    states, events := Then(states, events, build, Publish(1));
    states, events := Then(states, events, build, Fetch);
  }

  lemma StartOfRun(build: Build<int, int>) returns (states: seq<State<int, int>>, events: seq<Event<int>>)
    ensures Run(states, events, build, false)
    ensures states[|events|] == State([0], map[], None, None, Cache(None, map[]))
  {
    states, events := [State([0], map[], None, None, Cache(None, map[]))], [];
  }

  lemma Then(states: seq<State<int, int>>, events: seq<Event<int>>, build: Build<int, int>, e: Event<int>)
    returns (states': seq<State<int, int>>, events': seq<Event<int>>)
    requires Run(states, events, build, false) && Enabled(states[|events|], e, false)
    ensures Run(states', events', build, false) && states'[|events'|] == Next(states[|events|], e, build, false)
  {
    states', events' := states + [Next(states[|events|], e, build, false)], events + [e];
    OneMore(states, events, build, false, e);
  }

  /** Keeping the address without the snapshot would not do: were the cache's own reference not
      counted, some run draws a report older than the latest published snapshot. */
  lemma RetentionIsNeeded(build: Build<int, int>)
    requires forall slot, w :: build(slot, w) == w
    ensures exists states: seq<State<int, int>>, events ::
      Run(states, events, build, false) && DrawsStale(states[|events|], build)
  {
    var states, events := ReuseTheAddress(build);
    var st := states[|events|];
    assert Shown(st, Health, build) == 0;
    assert DrawsStale(st, build);
  }

  /** A draw enabled here, for the latest snapshot, would show a report from before it. */
  ghost predicate DrawsStale(st: State<int, int>, build: Build<int, int>) {
    && Enabled(st, Draw(Health), false) && st.gui == st.latest && st.gui.value in st.live
    && !NoOlder(st.history, Health, Shown(st, Health, build), st.live[st.gui.value], build)
  }

  // ---- How often reports are built -----------------------------------------

  /** Does this event build the slot's report? */
  predicate Builds<W, R>(st: State<W, R>, e: Event<W>, slot: Slot) {
    e == Draw(slot) && st.gui.Some? && slot !in Synced(st.cache, st.gui.value).slots
  }

  /** Is this a draw of another snapshot than the cache holds? */
  predicate Changes<W, R>(st: State<W, R>, e: Event<W>) {
    e.Draw? && st.gui.Some? && st.cache.key != st.gui
  }

  ghost function BuildCount<W, R>(states: seq<State<W, R>>, events: seq<Event<W>>, slot: Slot, t: nat): nat
    requires t <= |events| < |states|
  {
    if t == 0 then 0
    else BuildCount(states, events, slot, t - 1) + if Builds(states[t - 1], events[t - 1], slot) then 1 else 0
  }

  ghost function ChangeCount<W, R>(states: seq<State<W, R>>, events: seq<Event<W>>, t: nat): nat
    requires t <= |events| < |states|
  {
    if t == 0 then 0 else ChangeCount(states, events, t - 1) + if Changes(states[t - 1], events[t - 1]) then 1 else 0
  }

  lemma OneBuildPerChange<W, R>(st: State<W, R>, e: Event<W>, build: Build<W, R>, slot: Slot)
    requires Enabled(st, e, true)
    ensures Builds(st, e, slot) ==> Changes(st, e) || (st.cache.key.Some? && slot !in st.cache.slots)
    ensures var cache := Next(st, e, build, true).cache;
      cache.key.Some? && slot !in cache.slots ==>
      !Builds(st, e, slot) && (Changes(st, e) || (st.cache.key.Some? && slot !in st.cache.slots))
  {
  }

  /** Each report is built at most once per change of snapshot, and one still empty has been built
      fewer times than that. */
  lemma {:induction false} BuiltOncePerChange<W, R>(
      states: seq<State<W, R>>, events: seq<Event<W>>, build: Build<W, R>, slot: Slot, t: nat)
    requires Run(states, events, build, true) && t <= |events|
    ensures BuildCount(states, events, slot, t) <= ChangeCount(states, events, t)
    ensures states[t].cache.key.Some? && slot !in states[t].cache.slots ==>
      BuildCount(states, events, slot, t) < ChangeCount(states, events, t)
  {
    hide Builds, Changes, Next, Enabled;
    if t > 0 {
      BuiltOncePerChange(states, events, build, slot, t - 1);
      StepsEnabled(states, events, build, t - 1);
      OneBuildPerChange(states[t - 1], events[t - 1], build, slot);
    }
  }
}
