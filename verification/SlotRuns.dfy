/** The map over time: `build_carrying` and the compaction in `crates/kubernation/src/net.rs`, and the
    methods they call on a `Layout`, in `crates/kubernation-core/src/state/layout.rs`. */
module SlotRuns {
  import opened Prelude
  import opened Sorting
  import opened LayoutStore
  import opened Slots
  import opened SlotReturns
  import opened PoolPieces

  // ---- Stamps --------------------------------------------------------------

  function VacancyStamped(s: SlotState, now: Instant): SlotState {
    if s.occupant.None? && s.vacatedAt.None? then s.(vacatedAt := Some(now)) else s
  }

  function SuccessionStamped(was: Option<SlotState>, s: SlotState, now: Instant): SlotState {
    if s.occupant.Some? && was.Some? && ChangedHands(was.value.lastOccupant, s.occupant.value.node)
    then s.(occupiedAt := Some(now)) else s
  }

  function VacanciesStamped(slots: SlotMap, now: Instant): SlotMap {
    map k | k in slots :: VacancyStamped(slots[k], now)
  }

  function SuccessionsStamped(prior: SlotMap, slots: SlotMap, now: Instant): SlotMap {
    map k | k in slots :: SuccessionStamped(StateAt(prior, k), slots[k], now)
  }

  /** The occupied slots. */
  function Compacted(slots: SlotMap): SlotMap {
    map k | k in slots && slots[k].occupant.Some? :: slots[k]
  }

  /** What becomes of a layout when these nodes are observed at this time. */
  function Frame(prior: Layout, nodes: seq<ObservedNode>, now: Instant, hash: string -> nat): Layout {
    var next := Assigned(prior, nodes, hash);
    next.(slots := VacanciesStamped(SuccessionsStamped(prior.slots, next.slots, now), now))
  }

  class LiveLayout {
    var slots: SlotMap
    var zoneOrdinals: map<string, U16>

    function Contents(): Layout
      reads this
    {
      Layout(slots, zoneOrdinals)
    }

    constructor (found: Layout)
      ensures Contents() == found
    {
      slots, zoneOrdinals := found.slots, found.zoneOrdinals;
    }

    method StampVacancies(now: Instant)
      modifies this`slots
      ensures slots == VacanciesStamped(old(slots), now)
    {
      var rest := slots.Keys;
      while rest != {}
        invariant rest <= slots.Keys == old(slots).Keys
        invariant forall k :: k in slots ==>
          slots[k] == if k in rest then old(slots)[k] else VacancyStamped(old(slots)[k], now)
        decreases |rest|
      {
        var k :| k in rest;
        if slots[k].occupant.None? && slots[k].vacatedAt.None? {
          slots := slots[k := slots[k].(vacatedAt := Some(now))];
        }
        rest := rest - {k};
      }
    }

    method StampSuccessions(prior: Layout, now: Instant)
      modifies this`slots
      ensures slots == SuccessionsStamped(prior.slots, old(slots), now)
    {
      var rest := slots.Keys;
      while rest != {}
        invariant rest <= slots.Keys == old(slots).Keys
        invariant forall k :: k in slots ==>
          slots[k] == if k in rest then old(slots)[k]
                      else SuccessionStamped(StateAt(prior.slots, k), old(slots)[k], now)
        decreases |rest|
      {
        var k :| k in rest;
        if slots[k].occupant.Some? {
          var held := if k in prior.slots then prior.slots[k].lastOccupant else None;
          if ChangedHands(held, slots[k].occupant.value.node) {
            slots := slots[k := slots[k].(occupiedAt := Some(now))];
          }
        }
        rest := rest - {k};
      }
    }

    /** `compact`: vacant slots go, occupied ones stay where they are. */
    method Compact() returns (released: nat)
      modifies this`slots
      ensures slots == Compacted(old(slots)) && released + |slots| == |old(slots)|
    {
      var before := |slots|;
      ghost var was := slots;
      slots := map k | k in slots && slots[k].occupant.Some? :: slots[k];
      assert slots.Keys <= was.Keys;
      Fewer(slots.Keys, was.Keys);
      released := before - |slots|;
    }

    /** `build_carrying`: the present layout is the next one's `prior`. */
    method Observe(nodes: seq<ObservedNode>, now: Instant, hash: string -> nat)
      modifies this
      ensures Contents() == Frame(old(Contents()), nodes, now, hash)
    {
      var prior := Contents();
      var next := AssignLayout(prior, nodes, hash);
      slots, zoneOrdinals := next.slots, next.zoneOrdinals;
      StampSuccessions(prior, now);
      StampVacancies(now);
    }
  }

  /** What a frame makes of each slot: a vacancy keeps its time or is given this one, ground that
      changes hands is given this time, and ground that does not keeps the time it has. */
  lemma FrameAt(prior: Layout, nodes: seq<ObservedNode>, now: Instant, hash: string -> nat, k: SlotKey)
    requires OneEach(nodes)
    ensures var s, t := prior.slots, Frame(prior, nodes, now, hash).slots;
      && (k in s ==> k in t)
      && (Vacant(t, k) ==> k in s && t[k] == VacancyStamped(s[k].(occupant := None), now))
      && (k in t && t[k].occupant.Some? ==>
            exists n :: n in nodes && Belongs(k, n) &&
              t[k] == SuccessionStamped(StateAt(s, k), SeatedState(StateAt(s, k), n), now))
  {
    hide Assigned, SeatedState;
    var s, a, t := prior.slots, Assigned(prior, nodes, hash).slots, Frame(prior, nodes, now, hash).slots;
    AssignSeats(prior, nodes, hash);
    if k in t && t[k].occupant.Some? {
      assert a[k].occupant.Some?;
      var n :| n in nodes && SeatedIn(s, a, k, n);
    }
  }

  // ---- Runs ----------------------------------------------------------------

  /** The nodes are observed, or the operator reclaims the vacant ground. */
  datatype Event = Seen(nodes: seq<ObservedNode>, now: Instant) | Reclaim

  function Next(l: Layout, e: Event, hash: string -> nat): Layout {
    match e
    case Seen(nodes, now) => Frame(l, nodes, now, hash)
    case Reclaim => l.(slots := Compacted(l.slots))
  }

  /** Reclaiming releases the vacant slots and leaves all else as it is. */
  lemma ReclaimIs(l: Layout, hash: string -> nat, k: SlotKey)
    ensures var t := Next(l, Reclaim, hash);
      && (k in t.slots <==> k in l.slots && l.slots[k].occupant.Some?) && t.zoneOrdinals == l.zoneOrdinals
      && (k in t.slots ==> t.slots[k] == l.slots[k])
  {
  }

  ghost predicate Step(ls: seq<Layout>, es: seq<Event>, hash: string -> nat, k: nat)
    requires k < |es| && |ls| == |es| + 1
  {
    ls[k + 1] == Next(ls[k], es[k], hash) && (es[k].Seen? ==> OneEach(es[k].nodes))
  }

  ghost predicate IsRun(ls: seq<Layout>, es: seq<Event>, hash: string -> nat) {
    |ls| == |es| + 1 && forall k: nat :: k < |es| ==> Step(ls, es, hash, k)
  }

  /** The same slots, held and last held by the same nodes. */
  ghost predicate SameSeats(s: SlotMap, t: SlotMap) {
    forall k :: (k in s <==> k in t) && (k in s ==>
      && s[k].lastOccupant == t[k].lastOccupant && (s[k].occupant == None <==> t[k].occupant == None)
      && (s[k].occupant.Some? ==> s[k].occupant.value.node == t[k].occupant.value.node))
  }

  /** Stamping touches neither the slots nor who holds them. */
  lemma FrameSeats(prior: Layout, nodes: seq<ObservedNode>, now: Instant, hash: string -> nat)
    ensures SameSeats(Assigned(prior, nodes, hash).slots, Frame(prior, nodes, now, hash).slots)
  {
    hide Assigned;
  }

  /** What a run keeps of a layout: no node sits twice, and ordinals are unique in their zones. */
  ghost predicate Orderly(slots: SlotMap) {
    OnceEach(slots) && UniqueOrdinals(slots)
  }

  lemma SameSeatsKeep(s: SlotMap, t: SlotMap)
    requires SameSeats(s, t)
    ensures OnceEach(s) ==> OnceEach(t)
    ensures UniqueOrdinals(s) ==> UniqueOrdinals(t)
    ensures forall k, name :: Holds(s, k, name) <==> Holds(t, k, name)
    ensures forall k, name :: LastHeld(s, k, name) <==> LastHeld(t, k, name)
  {
    assert forall k, name :: Holds(s, k, name) <==> Holds(t, k, name);
    assert forall k, name :: LastHeld(s, k, name) <==> LastHeld(t, k, name);
  }

  lemma StepKeepsOrder(l: Layout, e: Event, hash: string -> nat)
    requires Orderly(l.slots) && (e.Seen? ==> OneEach(e.nodes))
    ensures Orderly(Next(l, e, hash).slots)
  {
    hide Assigned, Frame;
    if e.Seen? {
      AssignSeats(l, e.nodes, hash);
      FrameSeats(l, e.nodes, e.now, hash);
      SameSeatsKeep(Assigned(l, e.nodes, hash).slots, Frame(l, e.nodes, e.now, hash).slots);
    } else {
      CompactKeepsOrder(l.slots);
    }
  }

  lemma CompactKeepsOrder(slots: SlotMap)
    requires Orderly(slots)
    ensures Orderly(Compacted(slots))
  {
    assert forall k, name :: Holds(Compacted(slots), k, name) ==> Holds(slots, k, name);
  }

  /** From an orderly layout, as a fresh one is, every layout of a run is orderly: whatever is
      observed and reclaimed, no node sits in two slots and no two slots of a zone share an ordinal. */
  lemma {:induction false} RunIsOrderly(ls: seq<Layout>, es: seq<Event>, hash: string -> nat, k: nat)
    requires IsRun(ls, es, hash) && k <= |es| && Orderly(ls[0].slots)
    ensures Orderly(ls[k].slots)
  {
    hide Orderly, Next;
    if k > 0 {
      RunIsOrderly(ls, es, hash, k - 1);
      assert Step(ls, es, hash, k - 1);
      StepKeepsOrder(ls[k - 1], es[k - 1], hash);
    }
  }

  /** Whenever nodes are observed from moment `i` to moment `j`, this one is, in its zone and pool. */
  ghost predicate SeenThroughout(es: seq<Event>, i: nat, j: nat, name: string, k: SlotKey)
    requires i <= j <= |es|
  {
    forall m :: i <= m < j && es[m].Seen? ==> exists n :: n in es[m].nodes && n.name == name && Belongs(k, n)
  }

  lemma SeatedStays(l: Layout, e: Event, hash: string -> nat, name: string, k: SlotKey)
    requires OnceEach(l.slots) && Holds(l.slots, k, name)
    requires e.Seen? ==> OneEach(e.nodes) && exists n :: n in e.nodes && n.name == name && Belongs(k, n)
    ensures Holds(Next(l, e, hash).slots, k, name)
  {
    hide Assigned, Frame;
    if e.Seen? {
      var n :| n in e.nodes && n.name == name && Belongs(k, n);
      assert SlotOf(l.slots, name) == Some(k);
      AssignSeats(l, e.nodes, hash);
      FrameSeats(l, e.nodes, e.now, hash);
      SameSeatsKeep(Assigned(l, e.nodes, hash).slots, Frame(l, e.nodes, e.now, hash).slots);
      assert Sits(Assigned(l, e.nodes, hash).slots, k, n);
    }
  }

  /** A node that stays never moves, whatever comes and goes around it, and whatever is reclaimed. */
  lemma {:induction false} StayerNeverMoves(ls: seq<Layout>, es: seq<Event>, hash: string -> nat, i: nat, j: nat,
                                            name: string, k: SlotKey)
    requires IsRun(ls, es, hash) && Orderly(ls[0].slots) && i <= j <= |es|
    requires Holds(ls[i].slots, k, name) && SeenThroughout(es, i, j, name, k)
    ensures Holds(ls[j].slots, k, name)
    decreases j
  {
    hide Next, Holds;
    if i < j {
      StayerNeverMoves(ls, es, hash, i, j - 1, name, k);
      RunIsOrderly(ls, es, hash, j - 1);
      assert Step(ls, es, hash, j - 1);
      SeatedStays(ls[j - 1], es[j - 1], hash, name, k);
    }
  }

  // ---- Nodes that keep their zones and pools -------------------------------

  /** Nodes keep their zones and pools throughout. */
  ghost predicate SettledRun(es: seq<Event>, regions: Regions) {
    forall k :: 0 <= k < |es| && es[k].Seen? ==> Settled(es[k].nodes, regions)
  }

  lemma StepKeepsHomes(l: Layout, e: Event, hash: string -> nat, regions: Regions)
    requires Homely(l.slots, regions) && (e.Seen? ==> OneEach(e.nodes) && Settled(e.nodes, regions))
    ensures Homely(Next(l, e, hash).slots, regions)
  {
    hide Assigned, Frame;
    if e.Seen? {
      FrameKeepsHomes(l, e.nodes, hash, regions);
      FrameSeats(l, e.nodes, e.now, hash);
      SameSeatsKeep(Assigned(l, e.nodes, hash).slots, Frame(l, e.nodes, e.now, hash).slots);
    } else {
      var t := Compacted(l.slots);
      assert forall k, name :: LastHeld(t, k, name) ==> LastHeld(l.slots, k, name);
      assert forall k, name :: Holds(t, k, name) ==> Holds(l.slots, k, name) && LastHeld(t, k, name);
    }
  }

  lemma {:induction false} RunKeepsHomes(ls: seq<Layout>, es: seq<Event>, hash: string -> nat, regions: Regions, k: nat)
    requires IsRun(ls, es, hash) && k <= |es| && Homely(ls[0].slots, regions) && SettledRun(es, regions)
    ensures Homely(ls[k].slots, regions)
  {
    hide Homely, Next, Settled;
    if k > 0 {
      RunKeepsHomes(ls, es, hash, regions, k - 1);
      assert Step(ls, es, hash, k - 1);
      StepKeepsHomes(ls[k - 1], es[k - 1], hash, regions);
    }
  }

  /** In such a run the slot that a node last held is always the one that is looked at for it. */
  lemma SettledGroundIsFound(ls: seq<Layout>, es: seq<Event>, hash: string -> nat, regions: Regions, j: nat,
                             k: SlotKey, name: string)
    requires IsRun(ls, es, hash) && j <= |es| && Homely(ls[0].slots, regions) && SettledRun(es, regions)
    requires LastHeld(ls[j].slots, k, name)
    ensures HomeOf(ls[j].slots, name) == Some(k)
  {
    hide Homely, Next, Settled;
    RunKeepsHomes(ls, es, hash, regions, j);
    HomeIsTheOne(ls[j].slots, regions, k, name);
  }

  // ---- Ground kept for a node ----------------------------------------------

  /** At every moment from `i` to `j` the slot is vacant, or this node's. */
  ghost predicate KeptFor(ls: seq<Layout>, i: nat, j: nat, k: SlotKey, name: string)
    requires j < |ls|
  {
    forall m :: i <= m <= j ==> Vacant(ls[m].slots, k) || Holds(ls[m].slots, k, name)
  }

  lemma StepKeepsLastHeld(l: Layout, e: Event, hash: string -> nat, k: SlotKey, name: string)
    requires e.Seen? ==> OneEach(e.nodes)
    requires LastHeld(l.slots, k, name) || (e.Seen? && Holds(Next(l, e, hash).slots, k, name))
    requires Vacant(Next(l, e, hash).slots, k) || Holds(Next(l, e, hash).slots, k, name)
    ensures LastHeld(Next(l, e, hash).slots, k, name)
  {
    hide Frame;
    if e.Seen? {
      FrameAt(l, e.nodes, e.now, hash, k);
    }
  }

  lemma {:induction false} StillLastHeld(ls: seq<Layout>, es: seq<Event>, hash: string -> nat, i: nat, j: nat,
                                         k: SlotKey, name: string)
    requires IsRun(ls, es, hash) && i < j <= |es| && es[i].Seen? && Holds(ls[i + 1].slots, k, name)
    requires KeptFor(ls, i + 1, j, k, name)
    ensures LastHeld(ls[j].slots, k, name)
    decreases j
  {
    hide Next, Holds, LastHeld, Vacant;
    if i + 1 < j {
      StillLastHeld(ls, es, hash, i, j - 1, k, name);
    }
    assert Step(ls, es, hash, j - 1);
    StepKeepsLastHeld(ls[j - 1], es[j - 1], hash, k, name);
  }

  /** In any run, from any layout: ground that a node was given, and that nobody else has had since,
      is the node's again when it is back in its pool exactly under `ComesBack`. */
  lemma GroundIsKept(ls: seq<Layout>, es: seq<Event>, hash: string -> nat, i: nat, j: nat, n: ObservedNode, k: SlotKey)
    requires IsRun(ls, es, hash) && i < j < |es| && es[i].Seen? && Holds(ls[i + 1].slots, k, n.name)
    requires KeptFor(ls, i + 1, j, k, n.name) && Vacant(ls[j].slots, k)
    requires es[j].Seen? && n in es[j].nodes && Belongs(k, n) && !Stays(ls[j].slots, n)
    ensures (forall any :: Holds(Next(ls[j], es[j], any).slots, k, n.name))
            <==> ComesBack(ls[j].slots, es[j].nodes, n, k)
    ensures ComesBack(ls[j].slots, es[j].nodes, n, k) ==> Holds(ls[j + 1].slots, k, n.name)
  {
    hide Assigned, Frame, Wanderers, Unclaimed, HasGround, Stays;
    assert Step(ls, es, hash, j);
    StillLastHeld(ls, es, hash, i, j, k, n.name);
    VacantIsFree(ls[j].slots, es[j].nodes, k);
    ComesBackIff(ls[j], es[j].nodes, n, k);
    forall any
      ensures Holds(Next(ls[j], es[j], any).slots, k, n.name) <==>
              Holds(Assigned(ls[j], es[j].nodes, any).slots, k, n.name)
    {
      FrameSeats(ls[j], es[j].nodes, es[j].now, any);
      SameSeatsKeep(Assigned(ls[j], es[j].nodes, any).slots, Next(ls[j], es[j], any).slots);
    }
  }

  lemma VacantIsFree(slots: SlotMap, nodes: seq<ObservedNode>, k: SlotKey)
    requires Vacant(slots, k)
    ensures Free(slots, nodes, k)
  {
  }

  /** A run may begin with a fresh layout, or with one that has been stored and loaded. */
  lemma GoodStarts(layout: Layout, regions: Regions)
    ensures Orderly(map[]) && Homely(map[], regions)
    ensures Orderly(layout.slots) ==> Orderly(Kept(layout).slots)
    ensures Homely(layout.slots, regions) ==> Homely(Kept(layout).slots, regions)
  {
    hide Kept, OnceEach, UniqueOrdinals;
    EmptyIsOrderly();
    MapComesBack(layout);
    assert SameSeats(layout.slots, Kept(layout).slots);
    SameSeatsKeep(layout.slots, Kept(layout).slots);
  }

  lemma EmptyIsOrderly()
    ensures Orderly(map[])
  {
  }

  lemma OneNodeTakesATurn(prior: SlotMap, n: ObservedNode, hash: string -> nat)
    requires forall k :: k in prior ==> prior[k].occupant.None?
    ensures Turns(prior, Carried(prior, [n]), InOrder(prior, [n], hash)) == Turn(prior, prior, n)
  {
    hide SortBy, Carried, Turn, HashLe;
    var one, r := [n], InOrder(prior, [n], hash);
    assert SlotOf(prior, n.name) == None;
    assert one[..|one| - 1] == [] && Unplaced(prior, one) == one;
    SameElements(one, r);
    assert r[0] in r;
    assert r == one && r[..0] == [];
    AllVacant(prior, n);
  }

  lemma AllVacant(prior: SlotMap, n: ObservedNode)
    requires forall k :: k in prior ==> prior[k].occupant.None?
    ensures Carried(prior, [n]) == prior
  {
    hide Carried;
    assert SlotOf(prior, n.name) == None;
    forall k
      ensures k in Carried(prior, [n]) <==> k in prior
      ensures k in prior ==> Carried(prior, [n])[k] == prior[k]
    {
      CarriedAt(prior, [n], k);
    }
  }

  function Gone(name: string): SlotState {
    SlotState(None, Some(name), None, None)
  }

  /** Where a node has been in two pools, the first of the slots it last held is looked at and no
      other: back in the pool it left, it is given a stranger's lower ground though its own is vacant
      and no other node is about. */
  lemma MovedNodeLosesGround(hash: string -> nat)
    ensures var away, low, own := SlotKey("z", "a", 0), SlotKey("z", "b", 1), SlotKey("z", "b", 2);
      var prior := map[away := Gone("x"), low := Gone("y"), own := Gone("x")];
      var x := ObservedNode("x", "z", "b", Default);
      var t := Assigned(Layout(prior, map["z" := 0]), [x], hash).slots;
      && IsBack(prior, [x], x, own) && HomeOf(prior, "x") == Some(away) && !ComesBack(prior, [x], x, own)
      && Holds(t, low, "x") && Vacant(t, own)
  {
    hide Turns, Carried, InOrder, Choice, ZonesOf, Wanderers, Unclaimed, HasGround;
    var away, low, own := SlotKey("z", "a", 0), SlotKey("z", "b", 1), SlotKey("z", "b", 2);
    var prior := map[away := Gone("x"), low := Gone("y"), own := Gone("x")];
    var x := ObservedNode("x", "z", "b", Default);
    OneNodeTakesATurn(prior, x, hash);
    FirstGroundIsElsewhere(prior, away, low, own, x);
    assert SlotOf(prior, "x") == None;
    VacantIsFree(prior, [x], low);
    assert Below(low, own);
  }

  lemma FirstGroundIsElsewhere(prior: SlotMap, away: SlotKey, low: SlotKey, own: SlotKey, x: ObservedNode)
    requires away == SlotKey("z", "a", 0) && low == SlotKey("z", "b", 1) && own == SlotKey("z", "b", 2)
    requires prior == map[away := Gone("x"), low := Gone("y"), own := Gone("x")]
    requires x == ObservedNode("x", "z", "b", Default)
    ensures Choice(prior, prior, x) == Some(low) && HomeOf(prior, "x") == Some(away)
  {
    assert prior[away].lastOccupant == Some("x");
    assert KeyLe(away, own) && !KeyLe(own, away);
    FirstIs(prior, away, own, x);
    assert Vacant(prior, low) && Belongs(low, x);
  }

  lemma FirstIs(prior: SlotMap, away: SlotKey, own: SlotKey, x: ObservedNode)
    requires away in prior && own in prior && KeyLe(away, own) && !KeyLe(own, away)
    requires forall k :: k in prior && prior[k].lastOccupant == Some(x.name) <==> k == away || k == own
    ensures HomeOf(prior, x.name) == Some(away)
  {
    var ks := set k | k in prior && prior[k].lastOccupant == Some(x.name);
    assert ks == {away, own};
  }

  // ---- What the stamps tell ------------------------------------------------

  ghost predicate VacantThroughout(ls: seq<Layout>, i: nat, j: nat, k: SlotKey)
    requires j < |ls|
  {
    forall m :: i < m <= j ==> Vacant(ls[m].slots, k)
  }

  /** A vacancy is stamped with the time of the frame that left it, and keeps that time as long as it
      stands. */
  lemma {:induction false} VacancyKeepsItsTime(ls: seq<Layout>, es: seq<Event>, hash: string -> nat, i: nat, j: nat,
                                               k: SlotKey)
    requires IsRun(ls, es, hash) && i < j <= |es| && es[i].Seen?
    requires k in ls[i].slots && ls[i].slots[k].vacatedAt.None? && VacantThroughout(ls, i, j, k)
    ensures Vacant(ls[j].slots, k) && ls[j].slots[k].vacatedAt == Some(es[i].now)
    decreases j
  {
    hide Frame;
    assert Step(ls, es, hash, j - 1);
    if i + 1 < j {
      VacancyKeepsItsTime(ls, es, hash, i, j - 1, k);
    }
    if es[j - 1].Seen? {
      FrameAt(ls[j - 1], es[j - 1].nodes, es[j - 1].now, hash, k);
    }
  }

  ghost predicate LastHeldThroughout(ls: seq<Layout>, i: nat, j: nat, k: SlotKey, name: string)
    requires j < |ls|
  {
    forall m :: i < m <= j ==> LastHeld(ls[m].slots, k, name)
  }

  /** Ground that changes hands is stamped with the time of that frame, and keeps that time however
      often its new holder goes and comes back. */
  lemma {:induction false} SuccessionKeepsItsTime(ls: seq<Layout>, es: seq<Event>, hash: string -> nat, i: nat,
                                                  j: nat, k: SlotKey, was: string, name: string)
    requires IsRun(ls, es, hash) && i < j <= |es| && es[i].Seen? && was != name
    requires LastHeld(ls[i].slots, k, was) && LastHeldThroughout(ls, i, j, k, name)
    ensures LastHeld(ls[j].slots, k, name) && ls[j].slots[k].occupiedAt == Some(es[i].now)
    decreases j
  {
    hide Frame;
    assert Step(ls, es, hash, j - 1);
    if i + 1 < j {
      SuccessionKeepsItsTime(ls, es, hash, i, j - 1, k, was, name);
    }
    if es[j - 1].Seen? {
      FrameAt(ls[j - 1], es[j - 1].nodes, es[j - 1].now, hash, k);
    }
  }

  // ---- Rows ----------------------------------------------------------------

  /** The rows of some slots of a zone, as provinces stand on them. */
  ghost predicate StandOn(provinces: seq<Province>, keys: seq<SlotKey>, zone: string, slots: SlotMap) {
    && |provinces| == |keys|
    && (forall i :: 0 <= i < |keys| ==>
          keys[i] in slots && keys[i].zone == zone && provinces[i].1 == RowInBand(keys[i].ordinal, 0))
    && (forall i, j :: 0 <= i < j < |keys| ==> keys[i] != keys[j])
  }

  /** The provinces of a zone stand on different slots, as long as its ordinals are at most 7281:
      past that their rows no longer fit 16 bits. */
  lemma ProvincesStandApart(ls: seq<Layout>, es: seq<Event>, hash: string -> nat, k: nat, provinces: seq<Province>,
                            keys: seq<SlotKey>, zone: string)
    requires IsRun(ls, es, hash) && k <= |es| && Orderly(ls[0].slots)
    requires StandOn(provinces, keys, zone, ls[k].slots) && forall i :: 0 <= i < |keys| ==> keys[i].ordinal <= 7281
    ensures DistinctSlots(provinces)
    ensures forall i :: 0 <= i < |keys| ==> SlotAt(provinces, i) == keys[i].ordinal
  {
    hide IsRun, OnceEach, SlotOfRow, RowInBand;
    RunIsOrderly(ls, es, hash, k);
    forall i | 0 <= i < |keys|
      ensures SlotAt(provinces, i) == keys[i].ordinal
    {
      SlotOfRowInverts(keys[i].ordinal, 0);
    }
  }

  /** Slots 0 and 7282 of a zone cannot be told apart by their rows. */
  lemma RowsMeet()
    ensures SlotOfRow(RowInBand(0, 0)) == SlotOfRow(RowInBand(7282, 0)) == 0
  {
  }
}
