/** The stored form of a map's layout: `to_stored` and `from_stored` in
    `crates/kubernation-core/src/state/layout_store.rs`, over the `Layout` of `layout.rs`. */
module LayoutStore {
  import opened Prelude

  datatype PoolSource = Override | Provider(key: string) | InstanceType | Default

  datatype Occupancy = Occupancy(node: string, source: PoolSource)

  datatype SlotKey = SlotKey(zone: string, pool: string, ordinal: U16)

  /** A point in time, in nanoseconds from the Unix epoch. */
  type Instant = int

  const NANOS := 1_000_000_000

  datatype SlotState = SlotState(occupant: Option<Occupancy>, lastOccupant: Option<string>,
                                 vacatedAt: Option<Instant>, occupiedAt: Option<Instant>)

  datatype Layout = Layout(slots: map<SlotKey, SlotState>, zoneOrdinals: map<string, U16>)

  const LAYOUT_VERSION: nat := 1

  datatype StoredSlot = StoredSlot(zone: string, pool: string, ordinal: U16, occupant: Option<string>,
                                   lastOccupant: Option<string>, vacatedAt: Option<nat>, occupiedAt: Option<nat>)

  datatype StoredLayout = StoredLayout(version: nat, fingerprint: Option<string>,
                                       zoneOrdinals: seq<(string, U16)>, slots: seq<StoredSlot>)

  datatype LoadRefusal = FutureVersion(found: nat, supported: nat) | DifferentCluster

  datatype Trust = Verified | Unverified

  // ---- Storing -------------------------------------------------------------

  /** Whole seconds since the epoch; a time before it is not kept. */
  function ToUnix(t: Option<Instant>): Option<nat> {
    if t == None || t.value < 0 then None else Some(t.value / NANOS)
  }

  function FromUnix(secs: Option<nat>): Option<Instant> {
    if secs == None then None else Some(secs.value * NANOS)
  }

  /** Times are stored in seconds, and a second has a thousand million nanoseconds. */
  lemma SecondsAreWhole(secs: nat, nanos: nat)
    requires nanos < 1000000000
    ensures ToUnix(Some(1000000000 * secs + nanos)) == Some(secs) && ToUnix(Some(-1 - nanos)) == None
    ensures FromUnix(Some(secs)) == Some(1000000000 * secs) && ToUnix(None) == None && FromUnix(None) == None
  {
  }

  function StoredOf(key: SlotKey, state: SlotState): StoredSlot {
    StoredSlot(key.zone, key.pool, key.ordinal,
               if state.occupant == None then None else Some(state.occupant.value.node),
               state.lastOccupant, ToUnix(state.vacatedAt), ToUnix(state.occupiedAt))
  }

  /** An order in which a map's keys are visited: each once. */
  ghost predicate Visits<K(!new)>(keys: seq<K>, all: set<K>) {
    && (forall k :: k in all <==> k in keys)
    && (forall i, j :: 0 <= i < j < |keys| ==> keys[i] != keys[j])
  }

  /** `to_stored`, with the orders in which the two maps are visited. */
  function ToStored(layout: Layout, fingerprint: Option<string>, zones: seq<string>, keys: seq<SlotKey>): StoredLayout
    requires forall z :: z in zones ==> z in layout.zoneOrdinals
    requires forall k :: k in keys ==> k in layout.slots
  {
    StoredLayout(LAYOUT_VERSION, fingerprint,
                 seq(|zones|, i requires 0 <= i < |zones| => (zones[i], layout.zoneOrdinals[zones[i]])),
                 seq(|keys|, i requires 0 <= i < |keys| => StoredOf(keys[i], layout.slots[keys[i]])))
  }

  // ---- Rebuilding ----------------------------------------------------------

  function KeyOf(s: StoredSlot): SlotKey {
    SlotKey(s.zone, s.pool, s.ordinal)
  }

  function StateOf(s: StoredSlot): SlotState {
    SlotState(if s.occupant == None then None else Some(Occupancy(s.occupant.value, Default)),
              s.lastOccupant, FromUnix(s.vacatedAt), FromUnix(s.occupiedAt))
  }

  /** `collect` into a map: a later entry replaces an earlier one with its key. */
  function Collect<K, V>(entries: seq<(K, V)>): map<K, V> {
    if entries == [] then map[]
    else
      var (k, v) := entries[|entries| - 1];
      Collect(entries[..|entries| - 1])[k := v]
  }

  function Entries(slots: seq<StoredSlot>): seq<(SlotKey, SlotState)> {
    seq(|slots|, i requires 0 <= i < |slots| => (KeyOf(slots[i]), StateOf(slots[i])))
  }

  function FromStored(stored: StoredLayout, observed: Option<string>): Result<(Layout, Trust), LoadRefusal> {
    if stored.version > LAYOUT_VERSION then Err(FutureVersion(stored.version, LAYOUT_VERSION))
    else if stored.fingerprint.Some? && observed.Some? && stored.fingerprint != observed then Err(DifferentCluster)
    else
      var trust := if stored.fingerprint.Some? && observed.Some? then Verified else Unverified;
      Ok((Layout(Collect(Entries(stored.slots)), Collect(stored.zoneOrdinals)), trust))
  }

  /** What is refused: a later version than 1, whatever else; and of version 1 or less what is known to
      come from another cluster. What is not is verified where both fingerprints are known. */
  lemma RefusedIff(stored: StoredLayout, observed: Option<string>)
    ensures var r, both := FromStored(stored, observed), stored.fingerprint.Some? && observed.Some?;
      && (r == Err(FutureVersion(stored.version, 1)) <==> stored.version > 1)
      && (r == Err(DifferentCluster) <==> stored.version <= 1 && both && stored.fingerprint.value != observed.value)
      && (r.Ok? <==> stored.version <= 1 && (both ==> stored.fingerprint.value == observed.value))
      && (r.Ok? ==> (r.value.1 == Verified <==> both))
    ensures ToStored(Layout(map[], map[]), observed, [], []) == StoredLayout(1, observed, [], [])
  {
    hide Collect, Entries;
  }

  // ---- The round trip ------------------------------------------------------

  /** What storing keeps of a time: its whole seconds, if it is not before the epoch. */
  function KeptTime(t: Option<Instant>): Option<Instant> {
    if t == None || t.value < 0 then None else Some(t.value - t.value % NANOS)
  }

  function KeptState(s: SlotState): SlotState {
    SlotState(if s.occupant == None then None else Some(Occupancy(s.occupant.value.node, Default)),
              s.lastOccupant, KeptTime(s.vacatedAt), KeptTime(s.occupiedAt))
  }

  /** What storing keeps of a layout: every slot with its occupant and its ghost, every zone's
      ordinal, and times to the second. */
  function Kept(layout: Layout): Layout {
    Layout(map k | k in layout.slots :: KeptState(layout.slots[k]), layout.zoneOrdinals)
  }

  ghost predicate AreEntriesOf<K, V>(entries: seq<(K, V)>, keys: seq<K>, m: map<K, V>) {
    |entries| == |keys| && forall i :: 0 <= i < |keys| ==> keys[i] in m && entries[i] == (keys[i], m[keys[i]])
  }

  /** Collecting a map's entries gives the map, in whatever order they come. */
  lemma {:induction false} CollectEntries<K(!new), V>(entries: seq<(K, V)>, keys: seq<K>, m: map<K, V>)
    requires AreEntriesOf(entries, keys, m)
    ensures forall k :: k in Collect(entries) <==> k in keys
    ensures forall k :: k in keys ==> Collect(entries)[k] == m[k]
    decreases |entries|
  {
    if entries != [] {
      var n := |entries| - 1;
      CollectEntries(entries[..n], keys[..n], m);
      assert keys == keys[..n] + [keys[n]];
    }
  }

  lemma StateIsKept(key: SlotKey, s: SlotState)
    ensures KeyOf(StoredOf(key, s)) == key && StateOf(StoredOf(key, s)) == KeptState(s)
  {
    TimeIsKept(s.vacatedAt);
    TimeIsKept(s.occupiedAt);
  }

  lemma TimeIsKept(t: Option<Instant>)
    ensures FromUnix(ToUnix(t)) == KeptTime(t)
    ensures KeptTime(t) == t <==> t == None || (t.value >= 0 && t.value % NANOS == 0)
    ensures KeptTime(KeptTime(t)) == KeptTime(t)
  {
  }

  /** Storing a layout and rebuilding it gives what storing keeps, whatever order the maps are
      visited in; it is refused exactly when both fingerprints are known and they differ, and
      trusted exactly when both are known and agree. */
  lemma StoreRoundTrip(layout: Layout, fingerprint: Option<string>, zones: seq<string>, keys: seq<SlotKey>,
                       observed: Option<string>)
    requires Visits(zones, layout.zoneOrdinals.Keys) && Visits(keys, layout.slots.Keys)
    ensures var r := FromStored(ToStored(layout, fingerprint, zones, keys), observed);
      && (r.Err? <==> fingerprint.Some? && observed.Some? && fingerprint != observed)
      && (r.Err? ==> r.error == DifferentCluster)
      && (r.Ok? ==> r.value.0 == Kept(layout))
      && (r.Ok? ==> (r.value.1 == Verified <==> fingerprint.Some? && fingerprint == observed))
  {
    hide KeyOf, StateOf, StoredOf, KeptState;
    var stored := ToStored(layout, fingerprint, zones, keys);
    CollectEntries(stored.zoneOrdinals, zones, layout.zoneOrdinals);
    assert Collect(stored.zoneOrdinals) == layout.zoneOrdinals;
    forall i | 0 <= i < |keys|
      ensures Entries(stored.slots)[i] == (keys[i], Kept(layout).slots[keys[i]])
    {
      StateIsKept(keys[i], layout.slots[keys[i]]);
    }
    CollectEntries(Entries(stored.slots), keys, Kept(layout).slots);
    assert Collect(Entries(stored.slots)) == Kept(layout).slots;
  }

  // ---- What is kept --------------------------------------------------------

  /** Nothing in this slot is lost by storing it. */
  predicate Lossless(s: SlotState) {
    && (s.occupant.Some? ==> s.occupant.value.source == Default)
    && (s.vacatedAt.Some? ==> s.vacatedAt.value >= 0 && s.vacatedAt.value % NANOS == 0)
    && (s.occupiedAt.Some? ==> s.occupiedAt.value >= 0 && s.occupiedAt.value % NANOS == 0)
  }

  /** The layout that comes back is the one that was saved exactly when no occupant's pool was
      read from a label, and every stamp is a whole second at or after the epoch. */
  lemma ReturnsItselfIff(layout: Layout)
    ensures Kept(layout) == layout <==> forall k :: k in layout.slots ==> Lossless(layout.slots[k])
  {
    hide KeptState, Lossless;
    forall k | k in layout.slots
      ensures KeptState(layout.slots[k]) == layout.slots[k] <==> Lossless(layout.slots[k])
    {
      LosslessIff(layout.slots[k]);
    }
    if Kept(layout) == layout {
      forall k | k in layout.slots
        ensures Lossless(layout.slots[k])
      {
        assert Kept(layout).slots[k] == KeptState(layout.slots[k]);
      }
    }
  }

  /** A slot vacated between two seconds comes back as vacated at the first of them. */
  lemma SubSecondIsLost()
    ensures var key := SlotKey("z", "p", 0);
      var layout := Layout(map[key := SlotState(None, Some("n"), Some(NANOS + 1), None)], map["z" := 0]);
      Kept(layout) != layout && Kept(layout).slots[key].vacatedAt == Some(NANOS)
  {
    var key := SlotKey("z", "p", 0);
    var layout := Layout(map[key := SlotState(None, Some("n"), Some(NANOS + 1), None)], map["z" := 0]);
    assert Kept(layout).slots[key] == KeptState(layout.slots[key]);
  }

  lemma LosslessIff(s: SlotState)
    ensures KeptState(s) == s <==> Lossless(s)
  {
    TimeIsKept(s.vacatedAt);
    TimeIsKept(s.occupiedAt);
  }

  /** What matters for the map always comes back: the same slots with the same occupants, the same
      last occupants, the same zone ordinals. And what comes back once comes back again. */
  lemma MapComesBack(layout: Layout)
    ensures Kept(layout).slots.Keys == layout.slots.Keys && Kept(layout).zoneOrdinals == layout.zoneOrdinals
    ensures forall k :: k in layout.slots ==>
      var s, t := layout.slots[k], Kept(layout).slots[k];
      (s.occupant == None <==> t.occupant == None)
        && (s.occupant.Some? ==> t.occupant.value.node == s.occupant.value.node)
      && t.lastOccupant == s.lastOccupant
    ensures Kept(Kept(layout)) == Kept(layout)
  {
    hide KeptTime;
    forall k | k in layout.slots
      ensures KeptState(KeptState(layout.slots[k])) == KeptState(layout.slots[k])
    {
      TimeIsKept(layout.slots[k].vacatedAt);
      TimeIsKept(layout.slots[k].occupiedAt);
    }
  }
}
