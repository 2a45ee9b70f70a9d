/** What the save on the way out saves: `crates/kubernation/src/main.rs` reads the context to save under
    and then the map on show, which the net thread in `crates/kubernation/src/net.rs` sets apart from
    each other, and apart from the layout it carries from frame to frame and saves itself. */
module ExitSave {
  import opened Prelude
  import opened LayoutStore
  import opened Slots
  import opened SlotRuns

  // ---- One build -----------------------------------------------------------

  /** A build: the layout before it, the nodes observed, the time, and whether the vacant ground was
      reclaimed with it. */
  datatype Round = Round(before: Layout, nodes: seq<ObservedNode>, now: Instant, reclaimed: bool)

  /** The layout that is put on show, as it is before stamping. */
  function Made(r: Round, hash: string -> nat): Layout {
    Assigned(r.before, r.nodes, hash)
  }

  /** The layout that is carried on. */
  function CarriedOn(r: Round, hash: string -> nat): Layout {
    var next := Frame(r.before, r.nodes, r.now, hash);
    if r.reclaimed then next.(slots := Compacted(next.slots)) else next
  }

  /** A slot that the stamps change: it has just become vacant, or changed hands. */
  predicate Touched(before: SlotMap, made: SlotMap, k: SlotKey)
    requires k in made
  {
    if made[k].occupant.None? then made[k].vacatedAt.None?
    else k in before && ChangedHands(before[k].lastOccupant, made[k].occupant.value.node)
  }

  /** Nothing has become vacant, no ground has changed hands, and there was nothing to reclaim. */
  ghost predicate Uneventful(r: Round, hash: string -> nat) {
    var before, made := r.before.slots, Made(r, hash).slots;
    forall k :: k in made ==> !Touched(before, made, k) && (r.reclaimed ==> made[k].occupant.Some?)
  }

  /** The two layouts of a build are the same exactly if it was uneventful. */
  lemma SameIffUneventful(r: Round, hash: string -> nat)
    requires OneEach(r.nodes)
    ensures Made(r, hash) == CarriedOn(r, hash) <==> Uneventful(r, hash)
  {
    hide Assigned, Touched;
    var made, next := Made(r, hash).slots, Frame(r.before, r.nodes, r.now, hash).slots;
    var carried := CarriedOn(r, hash).slots;
    forall k | k in made
      ensures k in next && (StateAt(carried, k) == StateAt(made, k) <==>
        !Touched(r.before.slots, made, k) && (r.reclaimed ==> made[k].occupant.Some?))
    {
      StampedIffTouched(r, hash, k);
    }
    if Uneventful(r, hash) {
      assert forall k :: k in made ==> StateAt(carried, k) == StateAt(made, k);
      assert carried == made;
    } else {
      var k :| k in made && !(!Touched(r.before.slots, made, k) && (r.reclaimed ==> made[k].occupant.Some?));
      assert StateAt(carried, k) != StateAt(made, k);
    }
  }

  lemma StampedIffTouched(r: Round, hash: string -> nat, k: SlotKey)
    requires OneEach(r.nodes) && k in Made(r, hash).slots
    ensures var before, made := r.before.slots, Made(r, hash).slots;
      Frame(r.before, r.nodes, r.now, hash).slots[k] == made[k] <==> !Touched(before, made, k)
  {
    hide Assigned;
    var before, made := r.before.slots, Made(r, hash).slots;
    AssignSeats(r.before, r.nodes, hash);
    if made[k].occupant.Some? {
      var n :| n in r.nodes && SeatedIn(before, made, k, n);
    }
  }

  // ---- The net thread ------------------------------------------------------

  /** What a map is saved under. */
  datatype Ident = Ident(context: string, fingerprint: Option<string>)

  /** A map on show: the build that made it, and whose world it is of. */
  datatype Shown = Shown(round: Round, of: string)

  /** `Between` builds; `Built`, and not yet on show; `Switched` to a context that has been loaded, and not
      yet named for saving; `Named`, with the map of the context before, `was`, still on show. */
  datatype Place = Between | Built(round: Round) | Switched | Named(was: string)

  /** `ident` and `shown` are what the frame loop can read. */
  datatype State = State(place: Place, own: Ident, carried: Layout, ident: Ident, shown: Option<Shown>)

  datatype Event =
    | Build(nodes: seq<ObservedNode>, now: Instant)
    | Reclaim
    | Publish
    | Switch(to: Ident, loaded: Layout)
    | Name
    | Clear

  predicate Enabled(s: State, e: Event) {
    match e
    case Build(_, _) => s.place == Between
    case Reclaim => s.place.Built?
    case Publish => s.place.Built?
    case Switch(_, _) => s.place == Between
    case Name => s.place == Switched
    case Clear => s.place.Named?
  }

  function Next(s: State, e: Event, hash: string -> nat): State
    requires Enabled(s, e)
  {
    match e
    case Build(nodes, now) =>
      s.(place := Built(Round(s.carried, nodes, now, false)), carried := Frame(s.carried, nodes, now, hash))
    case Reclaim =>
      s.(place := Built(s.place.round.(reclaimed := true)), carried := s.carried.(slots := Compacted(s.carried.slots)))
    case Publish => s.(place := Between, shown := Some(Shown(s.place.round, s.own.context)))
    case Switch(to, loaded) => s.(place := Switched, own := to, carried := loaded)
    case Name => s.(place := Named(s.ident.context), ident := s.own)
    case Clear => s.(place := Between, shown := None)
  }

  /** A switch, step by step: the layout is replaced, then the name to save under, and then the map that was
      on show is taken down; only that leads on to the next build. */
  lemma SwitchIs(s: State, to: Ident, loaded: Layout, hash: string -> nat)
    requires s.place == Between
    ensures var a := Next(s, Switch(to, loaded), hash);
      var b := Next(a, Name, hash);
      var c := Next(b, Clear, hash);
      && a.carried == b.carried == c.carried == loaded && a.own == b.own == c.own == to
      && a.ident == s.ident && b.ident == c.ident == to
      && a.shown == b.shown == s.shown && c.shown == None && c.place == Between
      && !Enabled(a, Clear) && !Enabled(a, Publish) && !Enabled(b, Publish)
  {
  }

  /** The thread has connected, loaded its map and named it. */
  predicate Initial(s: State) {
    s.place == Between && s.ident == s.own && s.shown == None
  }

  ghost predicate Moment(ss: seq<State>, es: seq<Event>, hash: string -> nat, k: nat)
    requires k < |es| && |ss| == |es| + 1
  {
    Enabled(ss[k], es[k]) && ss[k + 1] == Next(ss[k], es[k], hash) && (es[k].Build? ==> OneEach(es[k].nodes))
  }

  ghost predicate IsRun(ss: seq<State>, es: seq<Event>, hash: string -> nat) {
    |ss| == |es| + 1 && Initial(ss[0]) && forall k: nat :: k < |es| ==> Moment(ss, es, hash, k)
  }

  /** The context whose map may be on show: the one named, or until the show is cleared the one before. */
  function OnShow(s: State): string {
    if s.place.Named? then s.place.was else s.ident.context
  }

  ghost predicate Inv(s: State, hash: string -> nat) {
    && (!s.place.Switched? ==> s.ident == s.own)
    && (s.place.Built? ==> OneEach(s.place.round.nodes) && s.carried == CarriedOn(s.place.round, hash))
    && (s.shown.Some? ==> s.shown.value.of == OnShow(s) && OneEach(s.shown.value.round.nodes))
    && (s.shown.Some? && s.place == Between ==> s.carried == CarriedOn(s.shown.value.round, hash))
  }

  lemma CompactedTwice(slots: SlotMap)
    ensures Compacted(Compacted(slots)) == Compacted(slots)
  {
  }

  lemma StepKeepsInv(s: State, e: Event, hash: string -> nat)
    requires Inv(s, hash) && Enabled(s, e) && (e.Build? ==> OneEach(e.nodes))
    ensures Inv(Next(s, e, hash), hash)
  {
    hide Frame, Compacted, OneEach;
    if e.Reclaim? {
      var r := s.place.round;
      CompactedTwice(Frame(r.before, r.nodes, r.now, hash).slots);
    }
  }

  lemma {:induction false} RunKeepsInv(ss: seq<State>, es: seq<Event>, hash: string -> nat, k: nat)
    requires IsRun(ss, es, hash) && k <= |es|
    ensures Inv(ss[k], hash)
  {
    hide Inv, Next, Enabled;
    if k == 0 {
      FirstKeepsInv(ss[0], hash);
    } else {
      RunKeepsInv(ss, es, hash, k - 1);
      assert Moment(ss, es, hash, k - 1);
      StepKeepsInv(ss[k - 1], es[k - 1], hash);
    }
  }

  lemma FirstKeepsInv(s: State, hash: string -> nat)
    requires Initial(s)
    ensures Inv(s, hash)
  {
  }

  // ---- Whose map is saved --------------------------------------------------

  /** The save on the way out reads what to save under at moment `i`, and what to save at `j`. The map
      belongs to that context exactly if the context that may be on show then is the one read before. */
  lemma SavesItsOwnIff(ss: seq<State>, es: seq<Event>, hash: string -> nat, i: nat, j: nat)
    requires IsRun(ss, es, hash) && i <= j <= |es| && ss[j].shown.Some?
    ensures ss[j].shown.value.of == ss[i].ident.context <==> OnShow(ss[j]) == ss[i].ident.context
    ensures i == j ==>
      (ss[j].shown.value.of == ss[i].ident.context
       <==> !(ss[j].place.Named? && ss[j].place.was != ss[j].ident.context))
  {
    RunKeepsInv(ss, es, hash, j);
  }

  /** A switch from a context whose map is on show, as far as naming the new one. */
  lemma WrongMapIsSaved(a: Ident, b: Ident, mine: Layout, other: Layout, nodes: seq<ObservedNode>, now: Instant,
                        hash: string -> nat, zones: seq<string>, keys: seq<SlotKey>)
    returns (ss: seq<State>, es: seq<Event>)
    requires OneEach(nodes) && a.context != b.context && b.fingerprint.Some?
    requires var l := Assigned(mine, nodes, hash); Visits(zones, l.zoneOrdinals.Keys) && Visits(keys, l.slots.Keys)
    ensures IsRun(ss, es, hash) && ss[0] == State(Between, a, mine, a, None)
    ensures var s := ss[|es|];
      && s.ident == b && s.shown == Some(Shown(Round(mine, nodes, now, false), a.context))
      && var l := Made(s.shown.value.round, hash);
         && Visits(zones, l.zoneOrdinals.Keys) && Visits(keys, l.slots.Keys)
         && FromStored(ToStored(l, b.fingerprint, zones, keys), b.fingerprint) == Ok((Kept(l), Verified))
  {
    hide Assigned, Frame, OneEach, ToStored, FromStored;
    var r := Round(mine, nodes, now, false);
    es := [Build(nodes, now), Publish, Switch(b, other), Name];
    var s1 := State(Built(r), a, CarriedOn(r, hash), a, None);
    var s2 := s1.(place := Between, shown := Some(Shown(r, a.context)));
    var s3 := s2.(place := Switched, own := b, carried := other);
    ss := [State(Between, a, mine, a, None), s1, s2, s3, s3.(place := Named(a.context), ident := b)];
    StoreRoundTrip(Made(r, hash), b.fingerprint, zones, keys, b.fingerprint);
  }

  // ---- What is saved of it -------------------------------------------------

  /** Between builds, the save on the way out saves the layout that the net thread carries and saves
      exactly if the build on show was uneventful. */
  lemma SavesWhatIsCarriedIff(ss: seq<State>, es: seq<Event>, hash: string -> nat, j: nat)
    requires IsRun(ss, es, hash) && j <= |es| && ss[j].place == Between && ss[j].shown.Some?
    ensures Made(ss[j].shown.value.round, hash) == ss[j].carried <==> Uneventful(ss[j].shown.value.round, hash)
  {
    hide Uneventful, Made, CarriedOn;
    RunKeepsInv(ss, es, hash, j);
    SameIffUneventful(ss[j].shown.value.round, hash);
  }

  /** Ground reclaimed with that build is saved all the same, every slot of it. */
  lemma ReclaimedGroundIsSaved(ss: seq<State>, es: seq<Event>, hash: string -> nat, j: nat, k: SlotKey)
    requires IsRun(ss, es, hash) && j <= |es| && ss[j].place == Between && ss[j].shown.Some?
    requires ss[j].shown.value.round.reclaimed && Vacant(Made(ss[j].shown.value.round, hash).slots, k)
    ensures k !in ss[j].carried.slots
  {
    hide Assigned;
    RunKeepsInv(ss, es, hash, j);
  }
}
