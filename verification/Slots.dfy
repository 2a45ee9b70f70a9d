/** The layout engine, `assign_layout` in `crates/kubernation-core/src/state/layout.rs`: which slot of
    the map each observed node has, given the slots of the frame before. */
module Slots {
  import opened Prelude
  import opened Sorting
  import opened LayoutStore

  type SlotMap = map<SlotKey, SlotState>

  datatype ObservedNode = ObservedNode(name: string, zone: string, pool: string, source: PoolSource)

  // ---- Orders --------------------------------------------------------------

  /** Text in the order of its characters. */
  predicate TextLe(a: string, b: string) {
    a == "" || (b != "" && (a[0] < b[0] || (a[0] == b[0] && TextLe(a[1..], b[1..]))))
  }

  lemma {:induction false} TextLeIsTotal(a: string, b: string)
    ensures (TextLe(a, b) || TextLe(b, a)) && (TextLe(a, b) && TextLe(b, a) ==> a == b)
  {
    if a != "" && b != "" {
      TextLeIsTotal(a[1..], b[1..]);
      assert a == [a[0]] + a[1..] && b == [b[0]] + b[1..];
    }
  }

  lemma {:induction false} TextLeChains(a: string, b: string, c: string)
    requires TextLe(a, b) && TextLe(b, c)
    ensures TextLe(a, c)
  {
    if a != "" && b[0] == a[0] && c[0] == b[0] {
      TextLeChains(a[1..], b[1..], c[1..]);
    }
  }

  /** What two texts begin with alike does not matter. */
  lemma {:induction false} TextLeSkips(front: string, s: string, t: string)
    ensures TextLe(front + s, front + t) <==> TextLe(s, t)
  {
    hide TextLe;
    if front == "" {
      assert front + s == s && front + t == t;
    } else {
      TextLeSkips(front[1..], s, t);
      TextLeSkipsOne(front[0], front[1..] + s, front[1..] + t);
      assert front + s == [front[0]] + (front[1..] + s) && front + t == [front[0]] + (front[1..] + t);
    }
  }

  lemma TextLeSkipsOne(c: char, s: string, t: string)
    ensures TextLe([c] + s, [c] + t) <==> TextLe(s, t)
  {
    assert ([c] + s)[1..] == s && ([c] + t)[1..] == t;
  }

  /** After that, the first character decides, and what has ended comes first. */
  lemma TextLeDecides(s: string, t: string)
    ensures TextLe("", s) && (s != "" ==> !TextLe(s, ""))
    ensures s != "" && t != "" && s[0] != t[0] ==> (TextLe(s, t) <==> s[0] < t[0])
  {
  }

  /** Slots are visited by zone, within a zone by pool, and within a pool by ordinal. */
  lemma KeysAreVisitedBy(a: SlotKey, b: SlotKey)
    ensures a.zone != b.zone ==> (KeyLe(a, b) <==> TextLe(a.zone, b.zone))
    ensures a.zone == b.zone && a.pool != b.pool ==> (KeyLe(a, b) <==> TextLe(a.pool, b.pool))
    ensures a.zone == b.zone && a.pool == b.pool ==> (KeyLe(a, b) <==> a.ordinal <= b.ordinal)
  {
  }

  /** The order in which the slots are visited: by zone, pool and ordinal. */
  predicate KeyLe(a: SlotKey, b: SlotKey) {
    if a.zone != b.zone then TextLe(a.zone, b.zone)
    else if a.pool != b.pool then TextLe(a.pool, b.pool)
    else a.ordinal <= b.ordinal
  }

  lemma KeyLeIsTotal(a: SlotKey, b: SlotKey)
    ensures (KeyLe(a, b) || KeyLe(b, a)) && (KeyLe(a, b) && KeyLe(b, a) ==> a == b)
  {
    TextLeIsTotal(a.zone, b.zone);
    TextLeIsTotal(a.pool, b.pool);
  }

  lemma KeyLeChains(a: SlotKey, b: SlotKey, c: SlotKey)
    requires KeyLe(a, b) && KeyLe(b, c)
    ensures KeyLe(a, c)
  {
    if a.zone == c.zone && a.zone != b.zone {
      TextLeIsTotal(a.zone, b.zone);
    } else if a.zone != b.zone && b.zone != c.zone {
      TextLeChains(a.zone, b.zone, c.zone);
    } else if a.zone == b.zone == c.zone {
      if a.pool == c.pool && a.pool != b.pool {
        TextLeIsTotal(a.pool, b.pool);
      } else if a.pool != b.pool && b.pool != c.pool {
        TextLeChains(a.pool, b.pool, c.pool);
      }
    }
  }

  lemma {:induction false} LeastKeyExists(ks: set<SlotKey>)
    requires ks != {}
    ensures exists k :: k in ks && forall o :: o in ks ==> KeyLe(k, o)
  {
    var x :| x in ks;
    KeyLeIsTotal(x, x);
    if ks != {x} {
      LeastKeyExists(ks - {x});
      var y :| y in ks - {x} && forall o :: o in ks - {x} ==> KeyLe(y, o);
      KeyLeIsTotal(x, y);
      var least := if KeyLe(x, y) then x else y;
      forall o | o in ks
        ensures KeyLe(least, o)
      {
        if o != x && least == x {
          KeyLeChains(x, y, o);
        }
      }
    }
  }

  /** The first of some slots that is visited. */
  function FirstKey(ks: set<SlotKey>): (r: Option<SlotKey>)
    ensures r.None? <==> ks == {}
    ensures r.Some? ==> r.value in ks && forall o :: o in ks ==> KeyLe(r.value, o)
  {
    if ks == {} then None
    else
      LeastKeyExists(ks);
      assert forall a, b :: a in ks && b in ks && KeyLe(a, b) && KeyLe(b, a) ==> a == b by {
        forall a, b | a in ks && b in ks && KeyLe(a, b) && KeyLe(b, a)
          ensures a == b
        {
          KeyLeIsTotal(a, b);
        }
      }
      var k :| k in ks && forall o :: o in ks ==> KeyLe(k, o);
      Some(k)
  }

  // ---- One node ------------------------------------------------------------

  predicate Holds(slots: SlotMap, k: SlotKey, name: string) {
    k in slots && slots[k].occupant.Some? && slots[k].occupant.value.node == name
  }

  predicate Vacant(slots: SlotMap, k: SlotKey) {
    k in slots && slots[k].occupant.None?
  }

  predicate Belongs(k: SlotKey, n: ObservedNode) {
    k.zone == n.zone && k.pool == n.pool
  }

  /** Where a node sits, and which ground it last held: the first such slot. */
  function SlotOf(slots: SlotMap, name: string): (r: Option<SlotKey>)
    ensures r.Some? ==> Holds(slots, r.value, name)
    ensures r.None? ==> forall k :: !Holds(slots, k, name)
  {
    var ks := set k | k in slots && Holds(slots, k, name);
    assert forall k :: Holds(slots, k, name) ==> k in ks;
    FirstKey(ks)
  }

  function HomeOf(slots: SlotMap, name: string): (r: Option<SlotKey>)
    ensures r.Some? ==> r.value in slots && slots[r.value].lastOccupant == Some(name)
    ensures r.None? ==> forall k :: k in slots ==> slots[k].lastOccupant != Some(name)
  {
    var ks := set k | k in slots && slots[k].lastOccupant == Some(name);
    assert forall k :: k in slots && slots[k].lastOccupant == Some(name) ==> k in ks;
    FirstKey(ks)
  }

  predicate ChangedHands(held: Option<string>, taking: string) {
    held.Some? && held.value != taking
  }

  /** What `place` makes of a slot. */
  function SeatedState(was: Option<SlotState>, n: ObservedNode): SlotState {
    var succeeded := was.Some? && ChangedHands(was.value.lastOccupant, n.name);
    SlotState(Some(Occupancy(n.name, n.source)), Some(n.name), None,
              if succeeded || was.None? then None else was.value.occupiedAt)
  }

  function StateAt(slots: SlotMap, k: SlotKey): Option<SlotState> {
    if k in slots then Some(slots[k]) else None
  }

  function Place(slots: SlotMap, k: SlotKey, n: ObservedNode): SlotMap {
    slots[k := SeatedState(StateAt(slots, k), n)]
  }

  /** The next ordinal of a zone, over all its pools, while there is one. */
  function NextOrdinal(slots: SlotMap, zone: string): (r: Option<U16>)
    ensures r.Some? ==> forall k :: k in slots && k.zone == zone ==> k.ordinal < r.value
    ensures r.Some? ==> r.value == 0 || exists k :: k in slots && k.zone == zone && k.ordinal == r.value - 1
    ensures r.None? <==> exists k :: k in slots && k.zone == zone && k.ordinal == U16_MAX
  {
    var used := set k | k in slots && k.zone == zone :: k.ordinal as int;
    assert forall k :: k in slots && k.zone == zone ==> k.ordinal as int in used;
    var top := Greatest(used);
    if top.None? then Some(0) else if top.value < U16_MAX then Some(top.value + 1) else None
  }

  function LowestVacancy(slots: SlotMap, n: ObservedNode): (r: Option<SlotKey>)
    ensures r.None? ==> forall k :: Vacant(slots, k) ==> !Belongs(k, n)
    ensures r.Some? ==> Vacant(slots, r.value) && Belongs(r.value, n)
    ensures r.Some? ==> forall k :: Vacant(slots, k) && Belongs(k, n) ==> r.value.ordinal <= k.ordinal
  {
    var free := set k | k in slots && Vacant(slots, k) && Belongs(k, n) :: k.ordinal as int;
    assert forall k :: Vacant(slots, k) && Belongs(k, n) ==> k.ordinal as int in free;
    var least := Least(free);
    if least.None? then None else Some(SlotKey(n.zone, n.pool, least.value))
  }

  /** The slot an unplaced node gets: its own ground, or the lowest vacancy of its pool, or a new
      slot. */
  function Choice(prior: SlotMap, slots: SlotMap, n: ObservedNode): Option<SlotKey> {
    var home := HomeOf(prior, n.name);
    if home.Some? && Belongs(home.value, n) && Vacant(slots, home.value) then home
    else if LowestVacancy(slots, n).Some? then LowestVacancy(slots, n)
    else
      var next := NextOrdinal(slots, n.zone);
      if next.Some? then Some(SlotKey(n.zone, n.pool, next.value)) else None
  }

  // ---- All of them ---------------------------------------------------------

  function Cleared(slots: SlotMap): SlotMap {
    map k | k in slots :: slots[k].(occupant := None)
  }

  /** Does this node keep this slot? */
  predicate StaysAt(prior: SlotMap, n: ObservedNode, k: SlotKey) {
    SlotOf(prior, n.name) == Some(k) && Belongs(k, n)
  }

  predicate Stays(prior: SlotMap, n: ObservedNode) {
    SlotOf(prior, n.name).Some? && StaysAt(prior, n, SlotOf(prior, n.name).value)
  }

  function Carried(prior: SlotMap, ns: seq<ObservedNode>): SlotMap {
    if ns == [] then Cleared(prior)
    else
      var n, before := ns[|ns| - 1], Carried(prior, ns[..|ns| - 1]);
      if Stays(prior, n) then Place(before, SlotOf(prior, n.name).value, n) else before
  }

  function Unplaced(prior: SlotMap, ns: seq<ObservedNode>): seq<ObservedNode> {
    if ns == [] then []
    else
      var n, before := ns[|ns| - 1], Unplaced(prior, ns[..|ns| - 1]);
      if Stays(prior, n) then before else before + [n]
  }

  function Turn(prior: SlotMap, slots: SlotMap, n: ObservedNode): SlotMap {
    var k := Choice(prior, slots, n);
    if k.Some? then Place(slots, k.value, n) else slots
  }

  /** The nodes take their turns. */
  function Turns(prior: SlotMap, slots: SlotMap, ns: seq<ObservedNode>): SlotMap {
    if ns == [] then slots else Turn(prior, Turns(prior, slots, ns[..|ns| - 1]), ns[|ns| - 1])
  }

  /** By hash, and by name where hashes agree. */
  predicate HashLe(hash: string -> nat, a: ObservedNode, b: ObservedNode) {
    hash(a.name) < hash(b.name) || (hash(a.name) == hash(b.name) && TextLe(a.name, b.name))
  }

  function InOrder(prior: SlotMap, ns: seq<ObservedNode>, hash: string -> nat): seq<ObservedNode> {
    SortBy(Unplaced(prior, ns), (a, b) => HashLe(hash, a, b))
  }

  /** The zones seen for the first time, in order. */
  function FreshZones(zones: map<string, U16>, ns: seq<ObservedNode>): seq<string> {
    if ns == [] then []
    else
      var z, before := ns[|ns| - 1].zone, FreshZones(zones, ns[..|ns| - 1]);
      if z in zones then before else before + [z]
  }

  function Dedup<T(==)>(s: seq<T>): seq<T> {
    if |s| <= 1 then s
    else
      var before, n := Dedup(s[..|s| - 1]), |s| - 1;
      if s[n] == s[n - 1] then before else before + [s[n]]
  }

  function LastOrdinal(zones: map<string, U16>): (r: Option<int>)
    ensures r.Some? ==> exists z :: z in zones && zones[z] == r.value
    ensures forall z :: z in zones ==> r.Some? && zones[z] <= r.value
  {
    var used := set y | y in zones :: zones[y] as int;
    assert forall z :: z in zones ==> zones[z] as int in used;
    Greatest(used)
  }

  /** The ordinal after the last, in 16 bits. */
  function AddZone(zones: map<string, U16>, z: string): map<string, U16> {
    var top := LastOrdinal(zones);
    zones[z := if top.None? then 0 else (top.value + 1) % (U16_MAX + 1)]
  }

  function AddZones(zones: map<string, U16>, more: seq<string>): map<string, U16> {
    if more == [] then zones else AddZone(AddZones(zones, more[..|more| - 1]), more[|more| - 1])
  }

  /** The fresh zones in order, each once. */
  function InZoneOrder(zones: map<string, U16>, ns: seq<ObservedNode>): seq<string> {
    Dedup(SortBy(FreshZones(zones, ns), TextLe))
  }

  function ZonesOf(zones: map<string, U16>, ns: seq<ObservedNode>): map<string, U16> {
    AddZones(zones, InZoneOrder(zones, ns))
  }

  function Assigned(prior: Layout, observed: seq<ObservedNode>, hash: string -> nat): Layout {
    Layout(Turns(prior.slots, Carried(prior.slots, observed), InOrder(prior.slots, observed, hash)),
           ZonesOf(prior.zoneOrdinals, observed))
  }

  // ---- The engine ----------------------------------------------------------

  method AssignZones(prior: map<string, U16>, observed: seq<ObservedNode>) returns (zones: map<string, U16>)
    ensures zones == ZonesOf(prior, observed)
  {
    hide Dedup, SortBy, AddZone, TextLe;
    var found := [];
    for i := 0 to |observed|
      invariant found == FreshZones(prior, observed[..i])
    {
      assert observed[..i + 1][..i] == observed[..i];
      if observed[i].zone !in prior {
        found := found + [observed[i].zone];
      }
    }
    assert observed[..|observed|] == observed;
    found := Dedup(SortBy(found, TextLe));
    zones := prior;
    for i := 0 to |found|
      invariant zones == AddZones(prior, found[..i])
    {
      assert found[..i + 1][..i] == found[..i];
      zones := AddZone(zones, found[i]);
    }
    assert found[..|found|] == found;
  }

  method SeatOne(prior: SlotMap, slots: SlotMap, n: ObservedNode) returns (seated: SlotMap)
    ensures seated == Turn(prior, slots, n)
  {
    var home := HomeOf(prior, n.name);
    if home.Some? && !(Belongs(home.value, n) && Vacant(slots, home.value)) {
      home := None;
    }
    var key := if home.Some? then home else LowestVacancy(slots, n);
    if key == None {
      var ordinal := NextOrdinal(slots, n.zone);
      if ordinal == None {
        return slots;
      }
      key := Some(SlotKey(n.zone, n.pool, ordinal.value));
    }
    seated := Place(slots, key.value, n);
  }

  /** `assign_layout`; the hash is any function. */
  method AssignLayout(prior: Layout, observed: seq<ObservedNode>, hash: string -> nat) returns (layout: Layout)
    ensures layout == Assigned(prior, observed, hash)
  {
    hide Cleared, Turn, Place, HashLe, ZonesOf, SortBy;
    var slots := Cleared(prior.slots);
    var zones := AssignZones(prior.zoneOrdinals, observed);
    var unplaced := [];
    for i := 0 to |observed|
      invariant slots == Carried(prior.slots, observed[..i]) && unplaced == Unplaced(prior.slots, observed[..i])
    {
      assert observed[..i + 1][..i] == observed[..i];
      var n := observed[i];
      var k := SlotOf(prior.slots, n.name);
      if k.Some? && k.value.zone == n.zone && k.value.pool == n.pool {
        slots := Place(slots, k.value, n);
      } else {
        unplaced := unplaced + [n];
      }
    }
    assert observed[..|observed|] == observed;
    unplaced := SortBy(unplaced, (a, b) => HashLe(hash, a, b));
    assert unplaced == InOrder(prior.slots, observed, hash);
    ghost var carried := slots;
    for i := 0 to |unplaced|
      invariant slots == Turns(prior.slots, carried, unplaced[..i])
    {
      assert unplaced[..i + 1][..i] == unplaced[..i];
      slots := SeatOne(prior.slots, slots, unplaced[i]);
    }
    assert unplaced[..|unplaced|] == unplaced;
    layout := Layout(slots, zones);
  }

  // ---- What a turn keeps ---------------------------------------------------

  /** Every name is seen once. */
  ghost predicate OneEach(ns: seq<ObservedNode>) {
    forall i, j :: 0 <= i < j < |ns| ==> ns[i].name != ns[j].name
  }

  /** No node sits in two slots. */
  ghost predicate OnceEach(slots: SlotMap) {
    forall j, k, name :: Holds(slots, j, name) && Holds(slots, k, name) ==> j == k
  }

  /** An ordinal is used once in its zone, whatever the pool. */
  ghost predicate UniqueOrdinals(slots: SlotMap) {
    forall j, k :: j in slots && k in slots && j.zone == k.zone && j.ordinal == k.ordinal ==> j == k
  }

  predicate Sits(slots: SlotMap, k: SlotKey, n: ObservedNode) {
    k in slots && slots[k].occupant == Some(Occupancy(n.name, n.source))
    && slots[k].lastOccupant == Some(n.name) && slots[k].vacatedAt == None
  }

  /** No slot is gone, none that was occupied has changed, and none has become vacant. */
  ghost predicate Grown(s: SlotMap, t: SlotMap) {
    && (forall k :: k in s ==> k in t && (s[k].occupant.Some? ==> t[k] == s[k]))
    && (forall k :: Vacant(t, k) ==> k in s && t[k] == s[k])
  }

  /** The node's pool has no vacancy, and the last ordinal of its zone is used. */
  ghost predicate Full(slots: SlotMap, n: ObservedNode) {
    && (forall k :: Vacant(slots, k) ==> !Belongs(k, n))
    && exists k :: k in slots && k.zone == n.zone && k.ordinal == U16_MAX
  }

  ghost predicate HasSeat(slots: SlotMap, n: ObservedNode) {
    exists k :: Belongs(k, n) && Sits(slots, k, n)
  }

  /** A node finds no slot exactly if none is free in its pool and none is left in its zone. */
  lemma ChoiceFailsIffFull(prior: SlotMap, slots: SlotMap, n: ObservedNode)
    ensures Choice(prior, slots, n).None? <==> Full(slots, n)
  {
  }

  lemma GrownKeeps(s: SlotMap, t: SlotMap, n: ObservedNode)
    requires Grown(s, t)
    ensures HasSeat(s, n) ==> HasSeat(t, n)
    ensures Full(s, n) ==> Full(t, n)
  {
    if HasSeat(s, n) {
      var k :| Belongs(k, n) && Sits(s, k, n);
      assert Sits(t, k, n);
    }
    if Full(s, n) {
      var k :| k in s && k.zone == n.zone && k.ordinal == U16_MAX;
      assert k in t;
    }
  }

  /** A node has been seated in the slot as it was in `s`. */
  predicate SeatedIn(s: SlotMap, t: SlotMap, k: SlotKey, n: ObservedNode) {
    Belongs(k, n) && k in t && t[k] == SeatedState(StateAt(s, k), n)
  }

  /** Who sits where afterwards: those who did, and each of the nodes at most once, where it belongs. */
  ghost predicate Seated(s: SlotMap, t: SlotMap, ns: seq<ObservedNode>) {
    && Grown(s, t)
    && forall k :: k in t && t[k].occupant.Some? ==>
         || (k in s && s[k].occupant.Some?)
         || exists n :: n in ns && SeatedIn(s, t, k, n)
  }

  lemma ChoiceIsFree(prior: SlotMap, slots: SlotMap, n: ObservedNode)
    ensures var k := Choice(prior, slots, n);
      k.Some? ==> Belongs(k.value, n) && (k.value in slots ==> Vacant(slots, k.value))
  {
  }

  lemma ChoiceIsUnique(prior: SlotMap, slots: SlotMap, n: ObservedNode, j: SlotKey)
    requires Choice(prior, slots, n).Some? && Choice(prior, slots, n).value !in slots && j in slots
    ensures j.zone == n.zone ==> j.ordinal < Choice(prior, slots, n).value.ordinal
  {
  }

  lemma TurnSeats(prior: SlotMap, slots: SlotMap, n: ObservedNode)
    requires OnceEach(slots) && forall k :: !Holds(slots, k, n.name)
    ensures var t := Turn(prior, slots, n);
      && Seated(slots, t, [n]) && OnceEach(t) && (UniqueOrdinals(slots) ==> UniqueOrdinals(t))
      && (forall k :: Holds(t, k, n.name) <==> Choice(prior, slots, n) == Some(k))
      && (HasSeat(t, n) || Full(t, n))
      && (forall k, name :: Holds(t, k, name) && name != n.name ==> Holds(slots, k, name))
  {
    hide Choice, Full;
    ChoiceIsFree(prior, slots, n);
    ChoiceFailsIffFull(prior, slots, n);
    var k := Choice(prior, slots, n);
    if k.Some? {
      var t := Turn(prior, slots, n);
      assert SeatedIn(slots, t, k.value, n) && Sits(t, k.value, n);
      assert forall j, name :: Holds(t, j, name) <==> if j == k.value then name == n.name else Holds(slots, j, name);
      if k.value !in slots {
        forall j | j in slots
          ensures j.zone == n.zone ==> j.ordinal < k.value.ordinal
        {
          ChoiceIsUnique(prior, slots, n, j);
        }
      }
    }
  }

  lemma SeatedMore(s: SlotMap, t: SlotMap, u: SlotMap, ns: seq<ObservedNode>, n: ObservedNode)
    requires Seated(s, t, ns) && Seated(t, u, [n])
    ensures Seated(s, u, ns + [n])
  {
    forall k | k in u && u[k].occupant.Some?
      ensures (k in s && s[k].occupant.Some?) || exists m :: m in ns + [n] && SeatedIn(s, u, k, m)
    {
      if k in t && t[k].occupant.Some? {
        if !(k in s && s[k].occupant.Some?) {
          var m :| m in ns && SeatedIn(s, t, k, m);
          assert m in ns + [n] && SeatedIn(s, u, k, m);
        }
      } else {
        assert StateAt(t, k) == StateAt(s, k);
        assert n in ns + [n] && SeatedIn(s, u, k, n);
      }
    }
  }

  /** Nobody is evicted, and nobody sits twice. */
  lemma {:induction false} TurnsSeat(prior: SlotMap, slots: SlotMap, ns: seq<ObservedNode>)
    requires OnceEach(slots) && OneEach(ns) && forall n, k :: n in ns ==> !Holds(slots, k, n.name)
    ensures var t := Turns(prior, slots, ns);
      && Seated(slots, t, ns) && OnceEach(t) && (UniqueOrdinals(slots) ==> UniqueOrdinals(t))
      && (forall k, name :: Holds(t, k, name) ==> Holds(slots, k, name) || exists n :: n in ns && n.name == name)
      && (forall n :: n in ns ==> HasSeat(t, n) || Full(t, n))
  {
    hide Turn, HasSeat, Full;
    if ns != [] {
      var before, n := ns[..|ns| - 1], ns[|ns| - 1];
      assert ns == before + [n];
      TurnsSeat(prior, slots, before);
      var t := Turns(prior, slots, before);
      assert forall k :: !Holds(t, k, n.name);
      TurnSeats(prior, t, n);
      SeatedMore(slots, t, Turn(prior, t, n), before, n);
      forall m | m in before
        ensures HasSeat(Turn(prior, t, n), m) || Full(Turn(prior, t, n), m)
      {
        GrownKeeps(t, Turn(prior, t, n), m);
      }
    }
  }

  // ---- Those who stay ------------------------------------------------------

  /** Carrying keeps every slot, seats each staying node in its own, and leaves the others vacant. */
  lemma {:induction false} CarriedAt(prior: SlotMap, ns: seq<ObservedNode>, k: SlotKey)
    requires OneEach(ns)
    ensures k in Carried(prior, ns) <==> k in prior
    ensures forall n :: n in ns && StaysAt(prior, n, k) ==>
      k in prior && Carried(prior, ns)[k] == SeatedState(Some(prior[k].(occupant := None)), n)
    ensures k in prior && (forall n :: n in ns ==> !StaysAt(prior, n, k)) ==>
      Carried(prior, ns)[k] == prior[k].(occupant := None)
  {
    hide SeatedState;
    if ns != [] {
      var before, last := ns[..|ns| - 1], ns[|ns| - 1];
      assert ns == before + [last];
      CarriedAt(prior, before, k);
      assert StaysAt(prior, last, k) ==> Stays(prior, last);
    }
  }

  lemma CarriedSits(prior: SlotMap, ns: seq<ObservedNode>, n: ObservedNode, k: SlotKey)
    requires OneEach(ns) && n in ns && StaysAt(prior, n, k)
    ensures Sits(Carried(prior, ns), k, n)
  {
    CarriedAt(prior, ns, k);
  }

  lemma CarriedHolds(prior: SlotMap, ns: seq<ObservedNode>, k: SlotKey)
    requires OneEach(ns) && k in Carried(prior, ns) && Carried(prior, ns)[k].occupant.Some?
    ensures k in prior
    ensures exists n :: n in ns && StaysAt(prior, n, k) && Sits(Carried(prior, ns), k, n)
  {
    CarriedAt(prior, ns, k);
    var n :| n in ns && StaysAt(prior, n, k);
    CarriedSits(prior, ns, n, k);
  }

  lemma CarriedOnce(prior: SlotMap, ns: seq<ObservedNode>)
    requires OneEach(ns)
    ensures OnceEach(Carried(prior, ns))
    ensures UniqueOrdinals(prior) ==> UniqueOrdinals(Carried(prior, ns))
  {
    var t := Carried(prior, ns);
    forall j, k, name | Holds(t, j, name) && Holds(t, k, name)
      ensures j == k
    {
      CarriedHolds(prior, ns, j);
      CarriedHolds(prior, ns, k);
    }
    forall k
      ensures k in t <==> k in prior
    {
      CarriedAt(prior, ns, k);
    }
  }

  // ---- Those who take turns ------------------------------------------------

  lemma {:induction false} UnplacedAre(prior: SlotMap, ns: seq<ObservedNode>)
    ensures forall n :: n in Unplaced(prior, ns) <==> n in ns && !Stays(prior, n)
  {
    hide Stays;
    if ns != [] {
      var before, last := ns[..|ns| - 1], ns[|ns| - 1];
      assert ns == before + [last];
      UnplacedAre(prior, before);
    }
  }

  lemma {:induction false} UnplacedOnce(prior: SlotMap, ns: seq<ObservedNode>)
    requires OneEach(ns)
    ensures OneEach(Unplaced(prior, ns))
  {
    hide Stays;
    if ns != [] {
      var before, last := ns[..|ns| - 1], ns[|ns| - 1];
      UnplacedOnce(prior, before);
      UnplacedAre(prior, before);
      assert forall m :: m in before ==> m.name != last.name;
    }
  }

  lemma OneEachByMultiset(s: seq<ObservedNode>, t: seq<ObservedNode>)
    requires OneEach(s) && multiset(s) == multiset(t)
    ensures OneEach(t)
  {
    DistinctByMultiset(s);
    DistinctByMultiset(t);
    SameElements(s, t);
    forall i, j | 0 <= i < j < |t|
      ensures t[i].name != t[j].name
    {
      assert t[i] in s && t[j] in s && t[i] != t[j];
    }
  }

  lemma InOrderAre(prior: SlotMap, ns: seq<ObservedNode>, hash: string -> nat)
    requires OneEach(ns)
    ensures OneEach(InOrder(prior, ns, hash))
    ensures forall n :: n in InOrder(prior, ns, hash) <==> n in ns && !Stays(prior, n)
  {
    hide Stays;
    UnplacedAre(prior, ns);
    UnplacedOnce(prior, ns);
    OneEachByMultiset(Unplaced(prior, ns), InOrder(prior, ns, hash));
    SameElements(Unplaced(prior, ns), InOrder(prior, ns, hash));
  }

  lemma NotYetSeated(prior: SlotMap, ns: seq<ObservedNode>, n: ObservedNode, k: SlotKey)
    requires OneEach(ns) && n in ns && !Stays(prior, n)
    ensures !Holds(Carried(prior, ns), k, n.name)
  {
    var t := Carried(prior, ns);
    if k in t && t[k].occupant.Some? {
      CarriedHolds(prior, ns, k);
      var m :| m in ns && StaysAt(prior, m, k) && Sits(t, k, m);
      assert m.name == n.name ==> m == n;
    }
  }

  // ---- One frame -----------------------------------------------------------

  /** A frame's layout: no slot is gone, a node that stays keeps its slot, nobody sits but the nodes
      observed, each where it belongs and at most once, and ordinals stay unique in their zones. */
  lemma AssignSeats(prior: Layout, observed: seq<ObservedNode>, hash: string -> nat)
    requires OneEach(observed)
    ensures var t := Assigned(prior, observed, hash).slots;
      && prior.slots.Keys <= t.Keys && OnceEach(t) && (UniqueOrdinals(prior.slots) ==> UniqueOrdinals(t))
      && (forall n, k :: n in observed && StaysAt(prior.slots, n, k) ==> Sits(t, k, n))
      && (forall k :: k in t && t[k].occupant.Some? ==> exists n :: n in observed && SeatedIn(prior.slots, t, k, n))
      && (forall k :: Vacant(t, k) ==> k in prior.slots && t[k] == prior.slots[k].(occupant := None))
      && (forall n :: n in observed ==> HasSeat(t, n) || Full(t, n))
  {
    hide Carried, Turns, InOrder, StaysAt, Sits, Full;
    var carried, order := Carried(prior.slots, observed), InOrder(prior.slots, observed, hash);
    var t := Turns(prior.slots, carried, order);
    CarriedOnce(prior.slots, observed);
    InOrderAre(prior.slots, observed, hash);
    forall n, k | n in order
      ensures !Holds(carried, k, n.name)
    {
      NotYetSeated(prior.slots, observed, n, k);
    }
    TurnsSeat(prior.slots, carried, order);
    forall k | k in prior.slots
      ensures k in t
    {
      CarriedAt(prior.slots, observed, k);
    }
    forall n, k | n in observed && StaysAt(prior.slots, n, k)
      ensures Sits(t, k, n)
    {
      CarriedSits(prior.slots, observed, n, k);
      GrownKeepsSeat(carried, t, k, n);
    }
    forall n | n in observed
      ensures HasSeat(t, n) || Full(t, n)
    {
      if Stays(prior.slots, n) {
        StaysWhereItBelongs(prior.slots, n, SlotOf(prior.slots, n.name).value);
      }
    }
    forall k | k in t && t[k].occupant.Some?
      ensures exists n :: n in observed && SeatedIn(prior.slots, t, k, n)
    {
      CarriedAt(prior.slots, observed, k);
      if k in carried && carried[k].occupant.Some? {
        CarriedHolds(prior.slots, observed, k);
        var n :| n in observed && StaysAt(prior.slots, n, k) && Sits(carried, k, n);
        StaysWhereItBelongs(prior.slots, n, k);
        assert SeatedIn(prior.slots, t, k, n);
      } else {
        var n :| n in order && SeatedIn(carried, t, k, n);
        VacantIsCleared(prior.slots, observed, k);
        assert SeatedIn(prior.slots, t, k, n);
      }
    }
    forall k | Vacant(t, k)
      ensures k in prior.slots && t[k] == prior.slots[k].(occupant := None)
    {
      VacantIsCleared(prior.slots, observed, k);
    }
  }

  lemma VacantIsCleared(prior: SlotMap, ns: seq<ObservedNode>, k: SlotKey)
    requires OneEach(ns)
    ensures Vacant(Carried(prior, ns), k) ==> k in prior && Carried(prior, ns)[k] == prior[k].(occupant := None)
  {
    CarriedAt(prior, ns, k);
  }

  lemma StaysWhereItBelongs(prior: SlotMap, n: ObservedNode, k: SlotKey)
    requires StaysAt(prior, n, k)
    ensures Belongs(k, n)
  {
  }

  lemma GrownKeepsSeat(s: SlotMap, t: SlotMap, k: SlotKey, n: ObservedNode)
    requires Grown(s, t) && Sits(s, k, n)
    ensures Sits(t, k, n)
  {
  }

  // ---- Slots without holes -------------------------------------------------

  /** A slot stands first in its zone, or right after another. */
  ghost predicate Adjoins(slots: SlotMap, k: SlotKey) {
    k.ordinal == 0 || exists j :: j in slots && j.zone == k.zone && j.ordinal == k.ordinal - 1
  }

  lemma TurnAdjoins(prior: SlotMap, slots: SlotMap, n: ObservedNode, k: SlotKey)
    requires k in Turn(prior, slots, n) && k !in slots
    ensures Adjoins(Turn(prior, slots, n), k)
  {
    hide HomeOf, LowestVacancy;
    assert forall j :: j in slots ==> j in Turn(prior, slots, n);
  }

  lemma {:induction false} TurnsAdjoin(prior: SlotMap, slots: SlotMap, ns: seq<ObservedNode>, k: SlotKey)
    requires k in Turns(prior, slots, ns) && k !in slots
    ensures Adjoins(Turns(prior, slots, ns), k)
  {
    hide Choice;
    var n := ns[|ns| - 1];
    var before := Turns(prior, slots, ns[..|ns| - 1]);
    if k in before {
      TurnsAdjoin(prior, slots, ns[..|ns| - 1], k);
      assert forall j :: j in before ==> j in Turn(prior, before, n);
    } else {
      TurnAdjoins(prior, before, n, k);
    }
  }

  /** Whatever slot is new stands first in its zone, or right after another: no frame leaves a hole. */
  lemma NewSlotsAdjoin(prior: Layout, observed: seq<ObservedNode>, hash: string -> nat, k: SlotKey)
    requires OneEach(observed) && k in Assigned(prior, observed, hash).slots && k !in prior.slots
    ensures Adjoins(Assigned(prior, observed, hash).slots, k)
  {
    hide Turns, Carried, InOrder;
    CarriedAt(prior.slots, observed, k);
    TurnsAdjoin(prior.slots, Carried(prior.slots, observed), InOrder(prior.slots, observed, hash), k);
  }

  /** The nodes of one zone. */
  function InZone(ns: seq<ObservedNode>, zone: string): set<ObservedNode> {
    set n | n in ns && n.zone == zone
  }

  /** The slots of a zone are the first `m`, and all are occupied. */
  ghost predicate FirstSlots(slots: SlotMap, zone: string, m: int) {
    && (forall k :: k in slots && k.zone == zone ==> slots[k].occupant.Some? && k.ordinal < m)
    && forall o :: 0 <= o < m ==> HasOrdinal(slots, zone, o)
  }

  ghost predicate HasOrdinal(slots: SlotMap, zone: string, o: int) {
    exists k :: k in slots && k.zone == zone && k.ordinal == o
  }

  lemma HasMore(s: SlotMap, t: SlotMap, zone: string, o: int)
    requires HasOrdinal(s, zone, o) && forall k :: k in s ==> k in t
    ensures HasOrdinal(t, zone, o)
  {
  }

  lemma TurnFills(prior: SlotMap, slots: SlotMap, n: ObservedNode, zone: string, m: nat)
    requires (forall k :: k in prior ==> k.zone != zone) && FirstSlots(slots, zone, m)
    requires n.zone == zone ==> m <= U16_MAX
    ensures FirstSlots(Turn(prior, slots, n), zone, if n.zone == zone then m + 1 else m)
  {
    hide Choice, HasOrdinal;
    var k, t := Choice(prior, slots, n), Turn(prior, slots, n);
    ChoiceIsFree(prior, slots, n);
    assert forall j :: j in slots ==> j in t;
    forall o | 0 <= o < m
      ensures HasOrdinal(t, zone, o)
    {
      HasMore(slots, t, zone, o);
    }
    if n.zone == zone {
      NextInZone(prior, slots, n, m);
      Has(t, k.value);
    }
  }

  lemma Has(slots: SlotMap, k: SlotKey)
    requires k in slots
    ensures HasOrdinal(slots, k.zone, k.ordinal)
  {
  }

  lemma NextInZone(prior: SlotMap, slots: SlotMap, n: ObservedNode, m: nat)
    requires (forall k :: k in prior ==> k.zone != n.zone) && FirstSlots(slots, n.zone, m) && m <= U16_MAX
    ensures Choice(prior, slots, n) == Some(SlotKey(n.zone, n.pool, m))
  {
    assert m > 0 ==> HasOrdinal(slots, n.zone, m - 1);
  }

  lemma {:induction false} TurnsFill(prior: SlotMap, slots: SlotMap, ns: seq<ObservedNode>, zone: string)
    requires (forall k :: k in prior ==> k.zone != zone) && FirstSlots(slots, zone, 0) && OneEach(ns)
    requires |InZone(ns, zone)| <= U16_MAX + 1
    ensures FirstSlots(Turns(prior, slots, ns), zone, |InZone(ns, zone)|)
  {
    hide Turn, FirstSlots, InZone, OneEach;
    if ns == [] {
      NobodyInZone(zone);
    } else {
      var before, n := ns[..|ns| - 1], ns[|ns| - 1];
      OneMoreInZone(ns, zone);
      TurnsFill(prior, slots, before, zone);
      TurnFills(prior, Turns(prior, slots, before), n, zone, |InZone(before, zone)|);
    }
  }

  lemma NobodyInZone(zone: string)
    ensures InZone([], zone) == {}
  {
  }

  lemma OneMoreInZone(ns: seq<ObservedNode>, zone: string)
    requires ns != [] && OneEach(ns)
    ensures var before, n := ns[..|ns| - 1], ns[|ns| - 1];
      OneEach(before) && |InZone(ns, zone)| == |InZone(before, zone)| + if n.zone == zone then 1 else 0
  {
    var before, n := ns[..|ns| - 1], ns[|ns| - 1];
    assert ns == before + [n] && n !in before;
    assert InZone(ns, zone) == InZone(before, zone) + if n.zone == zone then {n} else {};
  }

  /** In a zone seen for the first time, `n` nodes have the slots 0 to n - 1 between them, whatever their
      pools. */
  lemma FreshZoneIsFilled(prior: Layout, observed: seq<ObservedNode>, hash: string -> nat, zone: string)
    requires OneEach(observed) && (forall k :: k in prior.slots ==> k.zone != zone)
    requires |InZone(observed, zone)| <= 65536
    ensures FirstSlots(Assigned(prior, observed, hash).slots, zone, |InZone(observed, zone)|)
  {
    hide Turns, Carried, InOrder, Stays;
    var ns := InOrder(prior.slots, observed, hash);
    InOrderAre(prior.slots, observed, hash);
    forall n | n in observed && n.zone == zone
      ensures !Stays(prior.slots, n)
    {
      if Stays(prior.slots, n) {
        StaysInPrior(prior.slots, n);
      }
    }
    assert InZone(ns, zone) == InZone(observed, zone);
    forall k | k in Carried(prior.slots, observed)
      ensures k.zone != zone
    {
      CarriedAt(prior.slots, observed, k);
    }
    TurnsFill(prior.slots, Carried(prior.slots, observed), ns, zone);
  }

  lemma StaysInPrior(prior: SlotMap, n: ObservedNode)
    requires Stays(prior, n)
    ensures exists k :: k in prior && Belongs(k, n)
  {
  }

  // ---- Zones ---------------------------------------------------------------

  lemma TextLeIsTotalOrder()
    ensures TotalOrder(TextLe)
  {
    forall a, b
      ensures TextLe(a, b) || TextLe(b, a)
    {
      TextLeIsTotal(a, b);
    }
    forall a, b, c | TextLe(a, b) && TextLe(b, c)
      ensures TextLe(a, c)
    {
      TextLeChains(a, b, c);
    }
  }

  predicate TextLt(a: string, b: string) {
    TextLe(a, b) && a != b
  }

  lemma {:induction false} DedupAscends(s: seq<string>)
    requires SortedBy(s, TextLe)
    ensures Ascending(Dedup(s), TextLt) && (forall z :: z in Dedup(s) <==> z in s)
    ensures s != [] ==> Dedup(s) != [] && Dedup(s)[|Dedup(s)| - 1] == s[|s| - 1]
  {
    hide TextLe;
    if |s| > 1 {
      var n := |s| - 1;
      var before := Dedup(s[..n]);
      DedupAscends(s[..n]);
      assert s == s[..n] + [s[n]];
      assert s[..n][n - 1] == s[n - 1];
      if s[n] != s[n - 1] {
        forall z | z in before
          ensures TextLt(z, s[n])
        {
          var i :| 0 <= i < n && s[..n][i] == z;
          TextLeIsTotal(z, z);
          assert TextLe(s[i], s[n - 1]) && TextLe(s[n - 1], s[n]);
          BelowBoth(z, s[n - 1], s[n]);
        }
      }
    }
  }

  lemma BelowBoth(a: string, b: string, c: string)
    requires TextLe(a, b) && TextLe(b, c) && b != c
    ensures TextLt(a, c)
  {
    TextLeChains(a, b, c);
    TextLeIsTotal(a, b);
    TextLeIsTotal(b, c);
  }

  lemma {:induction false} FreshZonesAre(zones: map<string, U16>, ns: seq<ObservedNode>)
    ensures forall z :: z in FreshZones(zones, ns) <==> z !in zones && exists n :: n in ns && n.zone == z
  {
    if ns != [] {
      var before, last := ns[..|ns| - 1], ns[|ns| - 1];
      assert ns == before + [last];
      FreshZonesAre(zones, before);
    }
  }

  lemma ZoneOrderIs(zones: map<string, U16>, ns: seq<ObservedNode>)
    ensures var r := InZoneOrder(zones, ns);
      Ascending(r, TextLt) && forall z :: z in r <==> z !in zones && exists n :: n in ns && n.zone == z
  {
    hide TextLe, FreshZones;
    var found := FreshZones(zones, ns);
    TextLeIsTotalOrder();
    SortBySorts(found, TextLe);
    SameElements(found, SortBy(found, TextLe));
    DedupAscends(SortBy(found, TextLe));
    FreshZonesAre(zones, ns);
  }

  lemma TextLtIsStrict(a: string, b: string)
    ensures !(TextLt(a, b) && TextLt(b, a))
  {
    TextLeIsTotal(a, b);
  }

  lemma ZoneOrderIsDetermined(zones: map<string, U16>, a: seq<ObservedNode>, b: seq<ObservedNode>)
    requires forall n :: n in a <==> n in b
    ensures InZoneOrder(zones, a) == InZoneOrder(zones, b)
  {
    hide InZoneOrder, TextLt;
    ZoneOrderIs(zones, a);
    ZoneOrderIs(zones, b);
    forall x, y
      ensures !(TextLt(x, y) && TextLt(y, x))
    {
      TextLtIsStrict(x, y);
    }
    OneAscendingOrder(InZoneOrder(zones, a), InZoneOrder(zones, b), TextLt);
  }

  ghost predicate UniqueZones(zones: map<string, U16>) {
    forall y, z :: y in zones && z in zones && y != z ==> zones[y] != zones[z]
  }

  /** The highest ordinal a zone may have. */
  ghost predicate ZonesBelow(zones: map<string, U16>, bound: int) {
    forall z :: z in zones ==> zones[z] < bound
  }

  lemma AddZoneKeeps(zones: map<string, U16>, z: string, bound: nat)
    requires z !in zones && UniqueZones(zones) && ZonesBelow(zones, bound) && bound <= U16_MAX
    ensures UniqueZones(AddZone(zones, z)) && ZonesBelow(AddZone(zones, z), bound + 1)
  {
  }

  lemma {:induction false} AddZonesAddsOnly(zones: map<string, U16>, more: seq<string>)
    requires forall z :: z in more ==> z !in zones
    ensures var r := AddZones(zones, more);
      (forall z :: z in r <==> z in zones || z in more) && (forall z :: z in zones ==> r[z] == zones[z])
  {
    if more != [] {
      var n := |more| - 1;
      assert more == more[..n] + [more[n]];
      AddZonesAddsOnly(zones, more[..n]);
    }
  }

  lemma {:induction false} AddZonesKeeps(zones: map<string, U16>, more: seq<string>, bound: nat)
    requires (forall z :: z in more ==> z !in zones) && Ascending(more, TextLt)
    requires UniqueZones(zones) && ZonesBelow(zones, bound) && bound + |more| <= U16_MAX + 1
    ensures UniqueZones(AddZones(zones, more)) && ZonesBelow(AddZones(zones, more), bound + |more|)
  {
    hide AddZone, UniqueZones, ZonesBelow, TextLe;
    if more != [] {
      var n := |more| - 1;
      assert more[n] !in more[..n];
      AddZonesAddsOnly(zones, more[..n]);
      AddZonesKeeps(zones, more[..n], bound);
      AddZoneKeeps(AddZones(zones, more[..n]), more[n], bound + n);
    }
  }

  /** A zone keeps its ordinal for good, and no two share one, as long as 16 bits suffice. */
  lemma ZonesKeepOrdinals(prior: map<string, U16>, ns: seq<ObservedNode>, bound: nat)
    ensures var r := ZonesOf(prior, ns);
      && (forall z :: z in r <==> z in prior || exists n :: n in ns && n.zone == z)
      && (forall z :: z in prior ==> r[z] == prior[z])
      && (UniqueZones(prior) && ZonesBelow(prior, bound) && bound + |InZoneOrder(prior, ns)| <= U16_MAX + 1 ==>
            UniqueZones(r))
  {
    hide AddZones, TextLt, UniqueZones, ZonesBelow;
    var more := InZoneOrder(prior, ns);
    ZoneOrderIs(prior, ns);
    AddZonesAddsOnly(prior, more);
    if UniqueZones(prior) && ZonesBelow(prior, bound) && bound + |more| <= U16_MAX + 1 {
      AddZonesKeeps(prior, more, bound);
    }
  }

  /** `b` is the ordinal after the last that a zone has. */
  ghost predicate NextZone(zones: map<string, U16>, b: int) {
    ZonesBelow(zones, b) && (if b <= 0 then b == 0 && zones == map[] else exists z :: z in zones && zones[z] == b - 1)
  }

  lemma AddZoneNext(zones: map<string, U16>, z: string, b: nat)
    requires z !in zones && NextZone(zones, b) && b <= U16_MAX
    ensures AddZone(zones, z) == zones[z := b] && NextZone(AddZone(zones, z), b + 1)
  {
    assert AddZone(zones, z)[z] == b;
  }

  lemma {:induction false} AddZonesInOrder(zones: map<string, U16>, more: seq<string>, b: nat)
    requires (forall z :: z in more ==> z !in zones) && Distinct(more)
    requires NextZone(zones, b) && b + |more| <= U16_MAX + 1
    ensures NextZone(AddZones(zones, more), b + |more|)
    ensures forall i :: 0 <= i < |more| ==> more[i] in AddZones(zones, more) && AddZones(zones, more)[more[i]] == b + i
  {
    hide AddZone, NextZone;
    if more != [] {
      var n := |more| - 1;
      var before := AddZones(zones, more[..n]);
      AddZonesAddsOnly(zones, more[..n]);
      AddZonesInOrder(zones, more[..n], b);
      AddZoneNext(before, more[n], b + n);
      assert AddZones(zones, more) == before[more[n] := b + n];
      forall i | 0 <= i < n
        ensures more[i] in before && more[i] != more[n] && before[more[i]] == b + i
      {
        assert more[..n][i] == more[i];
      }
    }
  }

  lemma AscendingAreDistinct(s: seq<string>)
    requires Ascending(s, TextLt)
    ensures Distinct(s)
  {
    hide TextLe;
  }

  /** The zones seen for the first time have the ordinals after the last, one by one, in the order of
      their names. */
  lemma FreshZonesFollow(prior: map<string, U16>, ns: seq<ObservedNode>, b: nat)
    requires NextZone(prior, b) && b + |InZoneOrder(prior, ns)| <= 65536
    ensures var added, r := InZoneOrder(prior, ns), ZonesOf(prior, ns);
      && (forall z :: z in added <==> z !in prior && exists n :: n in ns && n.zone == z)
      && (forall i, j :: 0 <= i < j < |added| ==> TextLe(added[i], added[j]) && added[i] != added[j])
      && (forall i :: 0 <= i < |added| ==> added[i] in r && r[added[i]] == b + i)
  {
    hide AddZones, InZoneOrder, NextZone, TextLe;
    var more := InZoneOrder(prior, ns);
    ZoneOrderIs(prior, ns);
    AscendingAreDistinct(more);
    AddZonesInOrder(prior, more, b);
    assert forall i, j :: 0 <= i < j < |more| ==> TextLt(more[i], more[j]);
  }

  lemma NoFreshZones(zones: map<string, U16>, ns: seq<ObservedNode>)
    requires forall n :: n in ns ==> n.zone in zones
    ensures ZonesOf(zones, ns) == zones
  {
    var found := FreshZones(zones, ns);
    assert found == [] || found[0] in found;
    FreshZonesAre(zones, ns);
  }

  // ---- The same frame again ------------------------------------------------

  lemma {:induction false} FullTurnsAreIdle(prior: SlotMap, slots: SlotMap, ns: seq<ObservedNode>)
    requires forall n :: n in ns ==> Full(slots, n)
    ensures Turns(prior, slots, ns) == slots
  {
    hide Full, Choice;
    if ns != [] {
      FullTurnsAreIdle(prior, slots, ns[..|ns| - 1]);
      ChoiceFailsIffFull(prior, slots, ns[|ns| - 1]);
    }
  }

  lemma OnlySeat(slots: SlotMap, n: ObservedNode, k: SlotKey)
    requires OnceEach(slots) && Belongs(k, n) && Sits(slots, k, n)
    ensures StaysAt(slots, n, k) && Stays(slots, n)
  {
    assert Holds(slots, k, n.name);
    assert SlotOf(slots, n.name) == Some(k);
  }

  /** Where all who can be seated are, nothing moves. */
  lemma NothingToDo(t: SlotMap, observed: seq<ObservedNode>, hash: string -> nat)
    requires OneEach(observed) && OnceEach(t)
    requires forall k :: k in t && t[k].occupant.Some? ==> exists n :: n in observed && Belongs(k, n) && Sits(t, k, n)
    requires forall n :: n in observed ==> HasSeat(t, n) || Full(t, n)
    ensures Turns(t, Carried(t, observed), InOrder(t, observed, hash)) == t
  {
    hide Carried, Turns, InOrder, Full, StaysAt, Stays, OnceEach, Sits;
    CarriedAgain(t, observed);
    InOrderAre(t, observed, hash);
    forall n | n in InOrder(t, observed, hash)
      ensures Full(t, n)
    {
      if HasSeat(t, n) {
        var k :| Belongs(k, n) && Sits(t, k, n);
        OnlySeat(t, n, k);
      }
    }
    FullTurnsAreIdle(t, t, InOrder(t, observed, hash));
  }

  /** Seen again as it is, nothing moves: not even when some node has no slot. */
  lemma Idempotent(prior: Layout, observed: seq<ObservedNode>, hash: string -> nat)
    requires OneEach(observed)
    ensures var once := Assigned(prior, observed, hash); Assigned(once, observed, hash) == once
  {
    hide Carried, Turns, InOrder, Full, ZonesOf, StaysAt, Stays, OnceEach, Sits;
    var once := Assigned(prior, observed, hash);
    var t := once.slots;
    AssignSeats(prior, observed, hash);
    forall k | k in t && t[k].occupant.Some?
      ensures exists n :: n in observed && Belongs(k, n) && Sits(t, k, n)
    {
      var n :| n in observed && SeatedIn(prior.slots, t, k, n);
      SeatedSits(prior.slots, t, k, n);
    }
    NothingToDo(t, observed, hash);
    ZonesKeepOrdinals(prior.zoneOrdinals, observed, 0);
    NoFreshZones(once.zoneOrdinals, observed);
  }

  /** A zone can be full with one node in it: its one slot has the last ordinal, as after many
      departures and reclaimed ground, and a node of another pool gets none. */
  lemma OneNodeFillsZone(hash: string -> nat)
    ensures var k := SlotKey("z", "p", U16_MAX);
      var a, b := ObservedNode("a", "z", "p", Default), ObservedNode("b", "z", "q", Default);
      var prior := map[k := SlotState(Some(Occupancy("a", Default)), Some("a"), None, None)];
      Assigned(Layout(prior, map["z" := 0]), [a, b], hash).slots == prior
  {
    hide Carried, Turns, InOrder, ZonesOf;
    var k := SlotKey("z", "p", U16_MAX);
    var a, b := ObservedNode("a", "z", "p", Default), ObservedNode("b", "z", "q", Default);
    var prior := map[k := SlotState(Some(Occupancy("a", Default)), Some("a"), None, None)];
    assert a in [a, b] && Belongs(k, a) && Sits(prior, k, a);
    assert k in prior && Full(prior, b);
    NothingToDo(prior, [a, b], hash);
  }

  lemma SeatedSits(s: SlotMap, t: SlotMap, k: SlotKey, n: ObservedNode)
    requires SeatedIn(s, t, k, n)
    ensures Belongs(k, n) && Sits(t, k, n)
  {
  }

  lemma CarriedAgain(t: SlotMap, observed: seq<ObservedNode>)
    requires OneEach(observed) && OnceEach(t)
    requires forall k :: k in t && t[k].occupant.Some? ==> exists n :: n in observed && Belongs(k, n) && Sits(t, k, n)
    ensures Carried(t, observed) == t
  {
    hide OnceEach, Carried;
    forall k
      ensures k in Carried(t, observed) <==> k in t
      ensures k in t ==> Carried(t, observed)[k] == t[k]
    {
      CarriedAt(t, observed, k);
      if k in t && t[k].occupant.Some? {
        var n :| n in observed && Belongs(k, n) && Sits(t, k, n);
        OnlySeat(t, n, k);
      }
    }
  }

  // ---- Any order of the nodes ----------------------------------------------

  predicate HashLt(hash: string -> nat, a: ObservedNode, b: ObservedNode) {
    HashLe(hash, a, b) && a.name != b.name
  }

  lemma HashLeIsTotalOrder(hash: string -> nat)
    ensures TotalOrder((a, b) => HashLe(hash, a, b))
  {
    var le := (a, b) => HashLe(hash, a, b);
    forall a, b
      ensures le(a, b) || le(b, a)
    {
      TextLeIsTotal(a.name, b.name);
    }
    forall a, b, c | le(a, b) && le(b, c)
      ensures le(a, c)
    {
      if hash(a.name) == hash(b.name) == hash(c.name) {
        TextLeChains(a.name, b.name, c.name);
      }
    }
  }

  lemma InOrderAscends(prior: SlotMap, ns: seq<ObservedNode>, hash: string -> nat)
    requires OneEach(ns)
    ensures Ascending(InOrder(prior, ns, hash), (a, b) => HashLt(hash, a, b))
  {
    hide HashLe, Unplaced;
    var le := (a, b) => HashLe(hash, a, b);
    var r := InOrder(prior, ns, hash);
    InOrderAre(prior, ns, hash);
    HashLeIsTotalOrder(hash);
    SortBySorts(Unplaced(prior, ns), le);
    forall i, j | 0 <= i < j < |r|
      ensures HashLt(hash, r[i], r[j])
    {
      assert le(r[i], r[j]);
    }
  }

  lemma InOrderIsDetermined(prior: SlotMap, a: seq<ObservedNode>, b: seq<ObservedNode>, hash: string -> nat)
    requires OneEach(a) && OneEach(b) && forall n :: n in a <==> n in b
    ensures InOrder(prior, a, hash) == InOrder(prior, b, hash)
  {
    hide HashLt, InOrder, Stays;
    var lt := (x, y) => HashLt(hash, x, y);
    InOrderAre(prior, a, hash);
    InOrderAre(prior, b, hash);
    InOrderAscends(prior, a, hash);
    InOrderAscends(prior, b, hash);
    forall x, y
      ensures !(lt(x, y) && lt(y, x))
    {
      HashLtIsStrict(hash, x, y);
    }
    OneAscendingOrder(InOrder(prior, a, hash), InOrder(prior, b, hash), lt);
  }

  lemma HashLtIsStrict(hash: string -> nat, a: ObservedNode, b: ObservedNode)
    ensures !(HashLt(hash, a, b) && HashLt(hash, b, a))
  {
    TextLeIsTotal(a.name, b.name);
  }

  lemma CarriedIsDetermined(prior: SlotMap, a: seq<ObservedNode>, b: seq<ObservedNode>)
    requires OneEach(a) && OneEach(b) && forall n :: n in a <==> n in b
    ensures Carried(prior, a) == Carried(prior, b)
  {
    hide Carried, StaysAt, SeatedState;
    var s, t := Carried(prior, a), Carried(prior, b);
    forall k
      ensures k in s <==> k in t
      ensures k in s ==> s[k] == t[k]
    {
      CarriedAt(prior, a, k);
      CarriedAt(prior, b, k);
      if n: ObservedNode :| n in a && StaysAt(prior, n, k) {
        assert n in b;
      }
    }
  }

  /** The layout depends on which nodes are observed, not on the order they are listed in. */
  lemma OrderIsIrrelevant(prior: Layout, a: seq<ObservedNode>, b: seq<ObservedNode>, hash: string -> nat)
    requires OneEach(a) && multiset(a) == multiset(b)
    ensures Assigned(prior, a, hash) == Assigned(prior, b, hash)
  {
    hide Carried, Turns, InOrder, AddZones, Dedup, SortBy, FreshZones, TextLe;
    OneEachByMultiset(a, b);
    SameElements(a, b);
    CarriedIsDetermined(prior.slots, a, b);
    InOrderIsDetermined(prior.slots, a, b, hash);
    ZoneOrderIsDetermined(prior.zoneOrdinals, a, b);
  }
}
