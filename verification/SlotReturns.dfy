/** When a node that comes back gets its own ground again, under `assign_layout` in
    `crates/kubernation-core/src/state/layout.rs`. */
module SlotReturns {
  import opened Prelude
  import opened Sorting
  import opened LayoutStore
  import opened Slots

  // ---- Part of the way -----------------------------------------------------

  /** The slots when `i` nodes have had their turns. */
  function After(prior: SlotMap, observed: seq<ObservedNode>, hash: string -> nat, i: nat): SlotMap
    requires i <= |InOrder(prior, observed, hash)|
  {
    Turns(prior, Carried(prior, observed), InOrder(prior, observed, hash)[..i])
  }

  lemma AfterNone(prior: SlotMap, observed: seq<ObservedNode>, hash: string -> nat)
    ensures After(prior, observed, hash, 0) == Carried(prior, observed)
  {
    assert InOrder(prior, observed, hash)[..0] == [];
  }

  /** Those who wait do not sit, and each turn begins where the last one ended. */
  lemma Midway(prior: SlotMap, observed: seq<ObservedNode>, hash: string -> nat, i: nat)
    requires OneEach(observed) && i <= |InOrder(prior, observed, hash)|
    ensures var ns, s := InOrder(prior, observed, hash), After(prior, observed, hash, i);
      && OneEach(ns) && OnceEach(s) && Grown(Carried(prior, observed), s)
      && (forall m, k :: m in ns[i..] ==> !Holds(s, k, m.name))
      && (i < |ns| ==> After(prior, observed, hash, i + 1) == Turn(prior, s, ns[i]))
  {
    hide InOrder, Carried, Turn, Grown, OnceEach, Stays;
    var ns, carried := InOrder(prior, observed, hash), Carried(prior, observed);
    InOrderAre(prior, observed, hash);
    CarriedOnce(prior, observed);
    forall n, k | n in ns
      ensures !Holds(carried, k, n.name)
    {
      NotYetSeated(prior, observed, n, k);
    }
    TurnsSeat(prior, carried, ns[..i]);
    assert i < |ns| ==> ns[..i + 1][..i] == ns[..i];
  }

  lemma NextGrows(prior: SlotMap, observed: seq<ObservedNode>, hash: string -> nat, i: nat)
    requires OneEach(observed) && i < |InOrder(prior, observed, hash)|
    ensures Grown(After(prior, observed, hash, i), After(prior, observed, hash, i + 1))
  {
    hide InOrder, After, Turn, Choice, OneEach, Grown;
    Midway(prior, observed, hash, i);
    var n := InOrder(prior, observed, hash)[i];
    assert n in InOrder(prior, observed, hash)[i..];
    TurnSeats(prior, After(prior, observed, hash, i), n);
  }

  lemma GrownChains(s: SlotMap, t: SlotMap, u: SlotMap)
    requires Grown(s, t) && Grown(t, u)
    ensures Grown(s, u)
  {
  }

  lemma {:induction false} LaterGrows(prior: SlotMap, observed: seq<ObservedNode>, hash: string -> nat, i: nat, j: nat)
    requires OneEach(observed) && i <= j <= |InOrder(prior, observed, hash)|
    ensures Grown(After(prior, observed, hash, i), After(prior, observed, hash, j))
    decreases j
  {
    hide InOrder, After;
    if i < j {
      hide Grown;
      LaterGrows(prior, observed, hash, i, j - 1);
      NextGrows(prior, observed, hash, j - 1);
      GrownChains(After(prior, observed, hash, i), After(prior, observed, hash, j - 1),
                  After(prior, observed, hash, j));
    }
  }

  lemma AfterAll(prior: Layout, observed: seq<ObservedNode>, hash: string -> nat)
    ensures var ns := InOrder(prior.slots, observed, hash);
      Assigned(prior, observed, hash).slots == After(prior.slots, observed, hash, |ns|)
  {
    var ns := InOrder(prior.slots, observed, hash);
    assert ns[..|ns|] == ns;
  }

  lemma SameNode(ns: seq<ObservedNode>, m: ObservedNode, n: ObservedNode)
    requires OneEach(ns) && m in ns && n in ns && m.name == n.name
    ensures m == n
  {
  }

  // ---- A node that comes back ----------------------------------------------

  predicate LastHeld(slots: SlotMap, k: SlotKey, name: string) {
    k in slots && slots[k].lastOccupant == Some(name)
  }

  /** A slot that no observed node keeps: after those who stay, it is vacant. */
  predicate Free(prior: SlotMap, observed: seq<ObservedNode>, k: SlotKey) {
    k in prior && forall m :: m in observed ==> !StaysAt(prior, m, k)
  }

  /** Node `n` is back, and nobody keeps the slot `h` of its pool that it last held. */
  ghost predicate IsBack(prior: SlotMap, observed: seq<ObservedNode>, n: ObservedNode, h: SlotKey) {
    && OneEach(observed) && n in observed && !Stays(prior, n)
    && LastHeld(prior, h, n.name) && Belongs(h, n) && Free(prior, observed, h)
  }

  /** The ground that is looked at for a node is in its pool, and nobody keeps it. */
  predicate HasGround(prior: SlotMap, observed: seq<ObservedNode>, m: ObservedNode) {
    var home := HomeOf(prior, m.name);
    home.Some? && Belongs(home.value, m) && Free(prior, observed, home.value)
  }

  /** The nodes of the pool that need a slot and have no ground of their own. */
  function Wanderers(prior: SlotMap, observed: seq<ObservedNode>, h: SlotKey): set<ObservedNode> {
    set m | m in observed && Belongs(h, m) && !Stays(prior, m) && !HasGround(prior, observed, m)
  }

  /** A slot of the same pool with a lower ordinal. */
  predicate Below(k: SlotKey, h: SlotKey) {
    k.zone == h.zone && k.pool == h.pool && k.ordinal < h.ordinal
  }

  /** Is this slot the ground of a node that needs one? */
  predicate IsGround(prior: SlotMap, observed: seq<ObservedNode>, k: SlotKey) {
    exists m :: m in observed && !Stays(prior, m) && HasGround(prior, observed, m) && HomeOf(prior, m.name) == Some(k)
  }

  /** The lower slots of the pool that nobody keeps and that are nobody's ground. */
  function Unclaimed(prior: SlotMap, observed: seq<ObservedNode>, h: SlotKey): set<SlotKey> {
    set k | k in prior && Below(k, h) && Free(prior, observed, k) && !IsGround(prior, observed, k)
  }

  /** Whether the node has `h` again, whatever the hash. */
  ghost predicate ComesBack(prior: SlotMap, observed: seq<ObservedNode>, n: ObservedNode, h: SlotKey) {
    if HomeOf(prior, n.name) == Some(h) then
      |Wanderers(prior, observed, h)| <= |Unclaimed(prior, observed, h)|
    else
      && !HasGround(prior, observed, n) && Wanderers(prior, observed, h) == {n}
      && forall k :: k in prior && Below(k, h) ==> !Free(prior, observed, k)
  }

  lemma FreeIsVacant(prior: SlotMap, observed: seq<ObservedNode>, k: SlotKey)
    requires OneEach(observed)
    ensures Vacant(Carried(prior, observed), k) <==> Free(prior, observed, k)
  {
    CarriedAt(prior, observed, k);
  }

  /** Slots part of the way: what is vacant was so after those who stay. */
  ghost predicate Within(prior: SlotMap, observed: seq<ObservedNode>, slots: SlotMap) {
    forall k :: Vacant(slots, k) ==> Free(prior, observed, k)
  }

  lemma MidwayWithin(prior: SlotMap, observed: seq<ObservedNode>, hash: string -> nat, i: nat)
    requires OneEach(observed) && i <= |InOrder(prior, observed, hash)|
    ensures Within(prior, observed, After(prior, observed, hash, i))
  {
    hide InOrder, Carried, After, Free;
    Midway(prior, observed, hash, i);
    forall k | Vacant(After(prior, observed, hash, i), k)
      ensures Free(prior, observed, k)
    {
      assert Vacant(Carried(prior, observed), k);
      FreeIsVacant(prior, observed, k);
    }
  }

  /** What a node chooses: its ground while that is vacant, and the lowest vacancy where it has none. */
  lemma ChoiceIs(prior: SlotMap, observed: seq<ObservedNode>, slots: SlotMap, m: ObservedNode)
    requires Within(prior, observed, slots)
    ensures var home, k := HomeOf(prior, m.name), Choice(prior, slots, m);
      && (HasGround(prior, observed, m) && Vacant(slots, home.value) ==> k == home)
      && (!(HasGround(prior, observed, m) && Vacant(slots, home.value)) && LowestVacancy(slots, m).Some? ==>
            k == LowestVacancy(slots, m))
  {
  }

  lemma GroundIsHeld(prior: SlotMap, observed: seq<ObservedNode>, m: ObservedNode)
    requires HasGround(prior, observed, m)
    ensures LastHeld(prior, HomeOf(prior, m.name).value, m.name) && Belongs(HomeOf(prior, m.name).value, m)
    ensures Free(prior, observed, HomeOf(prior, m.name).value)
  {
  }

  // ---- Enough lower ground is enough ---------------------------------------

  /** A node that can take a lower slot than `h`: it has no ground, or its ground is lower. */
  predicate Claims(prior: SlotMap, observed: seq<ObservedNode>, h: SlotKey, m: ObservedNode) {
    Belongs(h, m) && (!HasGround(prior, observed, m) || Below(HomeOf(prior, m.name).value, h))
  }

  /** A node whose ground is `h` or higher. */
  predicate Owns(prior: SlotMap, observed: seq<ObservedNode>, h: SlotKey, m: ObservedNode) {
    Belongs(h, m) && HasGround(prior, observed, m) && !Below(HomeOf(prior, m.name).value, h)
  }

  function Claimants(prior: SlotMap, observed: seq<ObservedNode>, ns: seq<ObservedNode>, h: SlotKey):
    set<ObservedNode>
  {
    set m | m in ns && Claims(prior, observed, h, m)
  }

  /** The lower vacancies. */
  function Open(slots: SlotMap, h: SlotKey): set<SlotKey> {
    set k | k in slots && Vacant(slots, k) && Below(k, h)
  }

  /** The ground of those who wait, where it is `h` or higher, is vacant. */
  ghost predicate OwnersCan(prior: SlotMap, observed: seq<ObservedNode>, slots: SlotMap, waiting: seq<ObservedNode>,
                            h: SlotKey) {
    forall m :: m in waiting && Owns(prior, observed, h, m) ==> Vacant(slots, HomeOf(prior, m.name).value)
  }

  /** Before each turn: a lower vacancy for each node that can take one, and the other nodes' ground
      vacant. */
  ghost predicate RoomBelow(prior: SlotMap, observed: seq<ObservedNode>, slots: SlotMap, waiting: seq<ObservedNode>,
                            h: SlotKey) {
    |Claimants(prior, observed, waiting, h)| <= |Open(slots, h)| && OwnersCan(prior, observed, slots, waiting, h)
  }

  lemma ClaimantTakesLower(prior: SlotMap, observed: seq<ObservedNode>, slots: SlotMap, h: SlotKey, m: ObservedNode)
    requires Within(prior, observed, slots) && Claims(prior, observed, h, m) && Open(slots, h) != {}
    ensures var k := Choice(prior, slots, m); k.Some? && Below(k.value, h) && Vacant(slots, k.value)
  {
    hide Choice, NextOrdinal, Free;
    ChoiceIs(prior, observed, slots, m);
    var o :| o in Open(slots, h);
    assert Vacant(slots, o) && Belongs(o, m);
  }

  lemma OthersChooseElsewhere(prior: SlotMap, observed: seq<ObservedNode>, slots: SlotMap, h: SlotKey, m: ObservedNode)
    requires Within(prior, observed, slots) && !Claims(prior, observed, h, m)
    requires Owns(prior, observed, h, m) ==> Vacant(slots, HomeOf(prior, m.name).value)
    ensures var k := Choice(prior, slots, m);
      && (k.Some? ==> !Below(k.value, h) && Belongs(k.value, m))
      && (Belongs(h, m) ==> k == HomeOf(prior, m.name))
  {
    hide Choice, NextOrdinal, HasGround, Free;
    ChoiceIs(prior, observed, slots, m);
    ChoiceIsFree(prior, slots, m);
  }

  lemma OneLess(prior: SlotMap, observed: seq<ObservedNode>, m: ObservedNode, waiting: seq<ObservedNode>, h: SlotKey)
    requires OneEach([m] + waiting)
    ensures forall w :: w in waiting ==> w.name != m.name
    ensures Claimants(prior, observed, waiting, h) == Claimants(prior, observed, [m] + waiting, h) - {m}
  {
    hide Claims;
    var all := [m] + waiting;
    forall w | w in waiting
      ensures w.name != m.name
    {
      var i :| 0 <= i < |waiting| && waiting[i] == w;
      assert all[0] == m && all[i + 1] == w;
    }
    assert forall w :: w in all <==> w == m || w in waiting;
  }

  /** The lower vacancies and the ground of the others, after a turn. */
  lemma TurnTakesOne(prior: SlotMap, observed: seq<ObservedNode>, slots: SlotMap, m: ObservedNode, h: SlotKey)
    requires Within(prior, observed, slots)
    requires Claims(prior, observed, h, m) ==> Open(slots, h) != {}
    requires Owns(prior, observed, h, m) ==> Vacant(slots, HomeOf(prior, m.name).value)
    ensures var t := Turn(prior, slots, m);
      && |Open(slots, h)| - (if Claims(prior, observed, h, m) then 1 else 0) <= |Open(t, h)|
      && forall w: ObservedNode :: w.name != m.name && Owns(prior, observed, h, w) ==>
           Vacant(slots, HomeOf(prior, w.name).value) ==> Vacant(t, HomeOf(prior, w.name).value)
  {
    hide Choice, Free, Within;
    var k, t := Choice(prior, slots, m), Turn(prior, slots, m);
    if Claims(prior, observed, h, m) {
      ClaimantTakesLower(prior, observed, slots, h, m);
      assert Open(t, h) == Open(slots, h) - {k.value};
    } else {
      OthersChooseElsewhere(prior, observed, slots, h, m);
      assert Open(t, h) == Open(slots, h);
    }
    forall w: ObservedNode | w.name != m.name && Owns(prior, observed, h, w)
      && Vacant(slots, HomeOf(prior, w.name).value)
      ensures Vacant(t, HomeOf(prior, w.name).value)
    {
      GroundIsHeld(prior, observed, w);
      assert HomeOf(prior, m.name).Some? ==> LastHeld(prior, HomeOf(prior, m.name).value, m.name);
      assert k.Some? ==> k.value != HomeOf(prior, w.name).value;
    }
  }

  lemma RoomStays(prior: SlotMap, observed: seq<ObservedNode>, slots: SlotMap, m: ObservedNode,
                  waiting: seq<ObservedNode>, h: SlotKey)
    requires Within(prior, observed, slots) && OneEach([m] + waiting)
    requires RoomBelow(prior, observed, slots, [m] + waiting, h)
    ensures RoomBelow(prior, observed, Turn(prior, slots, m), waiting, h)
  {
    hide Turn, Claims, Owns, HomeOf, OneEach, Within;
    var all := [m] + waiting;
    assert m in all && forall w :: w in waiting ==> w in all;
    OneLess(prior, observed, m, waiting, h);
    if Claims(prior, observed, h, m) {
      assert m in Claimants(prior, observed, all, h);
    } else {
      assert m !in Claimants(prior, observed, all, h);
    }
    TurnTakesOne(prior, observed, slots, m, h);
  }

  /** The ground of a node; some slot where there is none. */
  function Ground(prior: SlotMap, m: ObservedNode): SlotKey {
    if HomeOf(prior, m.name).Some? then HomeOf(prior, m.name).value else SlotKey(m.zone, m.pool, 0)
  }

  function Grounds(prior: SlotMap, ms: set<ObservedNode>): set<SlotKey> {
    set m | m in ms :: Ground(prior, m)
  }

  lemma GroundIsOnes(prior: SlotMap, m: ObservedNode, n: ObservedNode)
    requires HomeOf(prior, m.name).Some? && HomeOf(prior, n.name).Some? && Ground(prior, m) == Ground(prior, n)
    ensures m.name == n.name
  {
    assert prior[Ground(prior, m)].lastOccupant == Some(m.name);
  }

  lemma {:induction false} GroundsDiffer(prior: SlotMap, ms: set<ObservedNode>)
    requires forall m :: m in ms ==> HomeOf(prior, m.name).Some?
    requires forall m, n :: m in ms && n in ms && m.name == n.name ==> m == n
    ensures |Grounds(prior, ms)| == |ms|
  {
    hide Ground, HomeOf;
    if ms != {} {
      var x :| x in ms;
      var rest := ms - {x};
      GroundsDiffer(prior, rest);
      assert Grounds(prior, ms) == Grounds(prior, rest) + {Ground(prior, x)};
      forall m | m in rest
        ensures Ground(prior, m) != Ground(prior, x)
      {
        if Ground(prior, m) == Ground(prior, x) {
          GroundIsOnes(prior, m, x);
        }
      }
    }
  }

  /** The nodes that come back to lower ground. */
  function Returners(prior: SlotMap, observed: seq<ObservedNode>, ns: seq<ObservedNode>, h: SlotKey):
    set<ObservedNode>
  {
    set m | m in ns && Claims(prior, observed, h, m) && HasGround(prior, observed, m)
  }

  lemma OwnersCanAtFirst(prior: SlotMap, observed: seq<ObservedNode>, ns: seq<ObservedNode>, h: SlotKey)
    requires OneEach(observed)
    ensures OwnersCan(prior, observed, Carried(prior, observed), ns, h)
  {
    hide Carried;
    forall m | m in ns && Owns(prior, observed, h, m)
      ensures Vacant(Carried(prior, observed), HomeOf(prior, m.name).value)
    {
      FreeIsVacant(prior, observed, HomeOf(prior, m.name).value);
    }
  }

  lemma LowerGroundIsFree(prior: SlotMap, observed: seq<ObservedNode>, hash: string -> nat, h: SlotKey)
    requires OneEach(observed)
    ensures var s, r := Carried(prior, observed), Returners(prior, observed, InOrder(prior, observed, hash), h);
      && Unclaimed(prior, observed, h) !! Grounds(prior, r)
      && Unclaimed(prior, observed, h) + Grounds(prior, r) <= Open(s, h)
  {
    hide InOrder, Carried, Stays, Free, HasGround;
    var ns, s := InOrder(prior, observed, hash), Carried(prior, observed);
    InOrderAre(prior, observed, hash);
    forall k | k in Unclaimed(prior, observed, h)
      ensures k in Open(s, h)
    {
      FreeIsVacant(prior, observed, k);
    }
    forall m | m in Returners(prior, observed, ns, h)
      ensures Ground(prior, m) !in Unclaimed(prior, observed, h) && Ground(prior, m) in Open(s, h)
    {
      GroundIsHeld(prior, observed, m);
      FreeIsVacant(prior, observed, Ground(prior, m));
      assert IsGround(prior, observed, Ground(prior, m));
    }
  }

  /** At first there is room: the nodes that come back to lower ground have theirs. */
  lemma RoomAtFirst(prior: SlotMap, observed: seq<ObservedNode>, hash: string -> nat, h: SlotKey)
    requires OneEach(observed) && |Wanderers(prior, observed, h)| <= |Unclaimed(prior, observed, h)|
    ensures RoomBelow(prior, observed, Carried(prior, observed), InOrder(prior, observed, hash), h)
  {
    hide InOrder, Carried, HomeOf, Stays, Unclaimed, Open, Ground, OneEach, HasGround, OwnersCan;
    var ns, s := InOrder(prior, observed, hash), Carried(prior, observed);
    InOrderAre(prior, observed, hash);
    LowerGroundIsFree(prior, observed, hash, h);
    OwnersCanAtFirst(prior, observed, ns, h);
    var wanderers, returners := Wanderers(prior, observed, h), Returners(prior, observed, ns, h);
    forall m, n | m in returners && n in returners && m.name == n.name
      ensures m == n
    {
      SameNode(ns, m, n);
    }
    forall m | m in returners
      ensures HomeOf(prior, m.name).Some?
    {
      GroundIsHeld(prior, observed, m);
    }
    GroundsDiffer(prior, returners);
    assert Claimants(prior, observed, ns, h) <= wanderers + returners;
    Fits(Claimants(prior, observed, ns, h), wanderers, returners, Unclaimed(prior, observed, h),
         Grounds(prior, returners), Open(s, h));
  }

  lemma Fits<A, B>(all: set<A>, a: set<A>, b: set<A>, c: set<B>, d: set<B>, whole: set<B>)
    requires all <= a + b && |a| <= |c| && |b| <= |d| && c !! d && c + d <= whole
    ensures |all| <= |whole|
  {
    Fewer(all, a + b);
    Fewer(c + d, whole);
  }

  lemma Fewer<T>(a: set<T>, b: set<T>)
    requires a <= b
    ensures |a| <= |b|
  {
    assert b == a + (b - a);
  }

  lemma {:induction false} RoomUntil(prior: SlotMap, observed: seq<ObservedNode>, hash: string -> nat, h: SlotKey,
                                     i: nat)
    requires OneEach(observed) && |Wanderers(prior, observed, h)| <= |Unclaimed(prior, observed, h)|
    requires i <= |InOrder(prior, observed, hash)|
    ensures RoomBelow(prior, observed, After(prior, observed, hash, i), InOrder(prior, observed, hash)[i..], h)
  {
    hide InOrder, After, RoomBelow, Wanderers, Unclaimed, Turn, Within;
    var ns := InOrder(prior, observed, hash);
    if i == 0 {
      RoomAtFirst(prior, observed, hash, h);
      AfterNone(prior, observed, hash);
      assert ns[0..] == ns;
    } else {
      RoomUntil(prior, observed, hash, h, i - 1);
      Midway(prior, observed, hash, i - 1);
      MidwayWithin(prior, observed, hash, i - 1);
      assert ns[i - 1..] == [ns[i - 1]] + ns[i..];
      RoomStays(prior, observed, After(prior, observed, hash, i - 1), ns[i - 1], ns[i..], h);
    }
  }

  /** A node whose turn it is has the slot it chooses, and keeps it. */
  lemma ChoiceIsKept(prior: SlotMap, observed: seq<ObservedNode>, hash: string -> nat, i: nat)
    requires OneEach(observed) && i < |InOrder(prior, observed, hash)|
    ensures var ns := InOrder(prior, observed, hash);
      var k, t := Choice(prior, After(prior, observed, hash, i), ns[i]), After(prior, observed, hash, |ns|);
      OnceEach(t) && (k.Some? ==> Holds(t, k.value, ns[i].name))
  {
    hide InOrder, Carried, After, Choice, Turn;
    var ns := InOrder(prior, observed, hash);
    Midway(prior, observed, hash, i);
    Midway(prior, observed, hash, |ns|);
    assert ns[i] in ns[i..];
    TurnSeats(prior, After(prior, observed, hash, i), ns[i]);
    LaterGrows(prior, observed, hash, i + 1, |ns|);
  }

  lemma TurnOf(prior: SlotMap, observed: seq<ObservedNode>, hash: string -> nat, n: ObservedNode) returns (i: nat)
    requires OneEach(observed) && n in observed && !Stays(prior, n)
    ensures i < |InOrder(prior, observed, hash)| && InOrder(prior, observed, hash)[i] == n
    ensures n in InOrder(prior, observed, hash)[i..]
  {
    hide InOrder, Stays;
    InOrderAre(prior, observed, hash);
    i :| 0 <= i < |InOrder(prior, observed, hash)| && InOrder(prior, observed, hash)[i] == n;
  }

  lemma RoomBringsBack(prior: SlotMap, observed: seq<ObservedNode>, hash: string -> nat, n: ObservedNode, h: SlotKey)
    requires IsBack(prior, observed, n, h) && HomeOf(prior, n.name) == Some(h)
    requires |Wanderers(prior, observed, h)| <= |Unclaimed(prior, observed, h)|
    ensures Holds(After(prior, observed, hash, |InOrder(prior, observed, hash)|), h, n.name)
  {
    hide InOrder, After, Wanderers, Unclaimed, HomeOf, Stays, Claimants, Choice, Within;
    var p := TurnOf(prior, observed, hash, n);
    RoomUntil(prior, observed, hash, h, p);
    MidwayWithin(prior, observed, hash, p);
    ChoiceIs(prior, observed, After(prior, observed, hash, p), n);
    ChoiceIsKept(prior, observed, hash, p);
  }

  // ---- Too little lower ground is too little -------------------------------

  /** The order in which `h` is lost: those with lower ground, then the wanderers, then the rest. */
  function WorstHash(prior: SlotMap, observed: seq<ObservedNode>, h: SlotKey): string -> nat {
    name =>
      if exists m :: m in observed && m.name == name && Claims(prior, observed, h, m) then
        if exists m :: m in observed && m.name == name && HasGround(prior, observed, m) then 0 else 1
      else 2
  }

  lemma HashOf(prior: SlotMap, observed: seq<ObservedNode>, h: SlotKey, m: ObservedNode)
    requires OneEach(observed) && m in observed
    ensures WorstHash(prior, observed, h)(m.name) ==
      if Claims(prior, observed, h, m) then if HasGround(prior, observed, m) then 0 else 1 else 2
  {
    hide Claims, HasGround, OneEach;
    forall w | w in observed && w.name == m.name
      ensures w == m
    {
      SameNode(observed, w, m);
    }
  }

  /** The nodes are taken by hash. */
  lemma HashesAscend(prior: SlotMap, observed: seq<ObservedNode>, hash: string -> nat, i: nat, j: nat)
    requires OneEach(observed) && i < j < |InOrder(prior, observed, hash)|
    ensures hash(InOrder(prior, observed, hash)[i].name) <= hash(InOrder(prior, observed, hash)[j].name)
  {
    InOrderAscends(prior, observed, hash);
    var ns := InOrder(prior, observed, hash);
    var lt := (a, b) => HashLt(hash, a, b);
    assert lt(ns[i], ns[j]);
  }

  /** Those with lower ground come first and take it. */
  lemma {:induction false} FirstTakeTheirs(prior: SlotMap, observed: seq<ObservedNode>, h: SlotKey, i: nat,
                                           m: ObservedNode)
    requires OneEach(observed) && HasGround(prior, observed, m)
    requires var hash := WorstHash(prior, observed, h);
      var ns := InOrder(prior, observed, hash);
      i <= |ns| && m in ns[i..] && forall j :: 0 <= j < i ==> hash(ns[j].name) == 0
    ensures var s := After(prior, observed, WorstHash(prior, observed, h), i);
      Vacant(s, HomeOf(prior, m.name).value) && Choice(prior, s, m) == HomeOf(prior, m.name)
  {
    hide InOrder, Carried, After, WorstHash, Stays, HomeOf, Choice, Turn, HasGround, Free, Within;
    var hash := WorstHash(prior, observed, h);
    var ns := InOrder(prior, observed, hash);
    InOrderAre(prior, observed, hash);
    GroundIsHeld(prior, observed, m);
    if i == 0 {
      AfterNone(prior, observed, hash);
      FreeIsVacant(prior, observed, HomeOf(prior, m.name).value);
    } else {
      var before, prev := After(prior, observed, hash, i - 1), ns[i - 1];
      assert m in ns[i - 1..] && prev in ns[i - 1..];
      Midway(prior, observed, hash, i - 1);
      HashOf(prior, observed, h, prev);
      FirstTakeTheirs(prior, observed, h, i - 1, m);
      FirstTakeTheirs(prior, observed, h, i - 1, prev);
      GroundIsHeld(prior, observed, prev);
      Apart(ns, i, m);
      TurnElsewhere(prior, before, prev, m);
    }
    MidwayWithin(prior, observed, hash, i);
    ChoiceIs(prior, observed, After(prior, observed, hash, i), m);
  }

  lemma Apart(ns: seq<ObservedNode>, i: nat, m: ObservedNode)
    requires OneEach(ns) && 0 < i <= |ns| && m in ns[i..]
    ensures ns[i - 1].name != m.name && m in ns
  {
    var j :| 0 <= j < |ns[i..]| && ns[i..][j] == m;
    assert ns[i + j] == m;
  }

  /** A node that takes its own ground leaves another's vacant. */
  lemma TurnElsewhere(prior: SlotMap, slots: SlotMap, n: ObservedNode, m: ObservedNode)
    requires n.name != m.name
    requires HomeOf(prior, n.name).Some? && Choice(prior, slots, n) == HomeOf(prior, n.name)
    requires HomeOf(prior, m.name).Some? && Vacant(slots, HomeOf(prior, m.name).value)
    ensures Vacant(Turn(prior, slots, n), HomeOf(prior, m.name).value)
  {
    assert LastHeld(prior, HomeOf(prior, m.name).value, m.name);
    assert LastHeld(prior, HomeOf(prior, n.name).value, n.name);
  }

  /** When the wanderers' turns come, the lower ground of the others is taken. */
  lemma ClaimedIsTaken(prior: SlotMap, observed: seq<ObservedNode>, h: SlotKey, i: nat, k: SlotKey)
    requires OneEach(observed) && IsGround(prior, observed, k) && Below(k, h)
    requires var hash := WorstHash(prior, observed, h);
      i < |InOrder(prior, observed, hash)| && InOrder(prior, observed, hash)[i] in Wanderers(prior, observed, h)
    ensures !Vacant(After(prior, observed, WorstHash(prior, observed, h), i), k)
  {
    hide InOrder, Carried, After, Stays, WorstHash, HomeOf, Choice, Turn, HasGround;
    var hash := WorstHash(prior, observed, h);
    var ns := InOrder(prior, observed, hash);
    var m :| m in observed && !Stays(prior, m) && HasGround(prior, observed, m) && HomeOf(prior, m.name) == Some(k);
    GroundIsHeld(prior, observed, m);
    var p := TurnOf(prior, observed, hash, m);
    HashOf(prior, observed, h, m);
    HashOf(prior, observed, h, ns[i]);
    if i < p {
      HashesAscend(prior, observed, hash, i, p);
    }
    forall j | 0 <= j < p
      ensures hash(ns[j].name) == 0
    {
      HashesAscend(prior, observed, hash, j, p);
    }
    FirstTakeTheirs(prior, observed, h, p, m);
    TakenSince(prior, observed, hash, p, i, k);
  }

  lemma TakenSince(prior: SlotMap, observed: seq<ObservedNode>, hash: string -> nat, p: nat, i: nat, k: SlotKey)
    requires OneEach(observed) && p < i <= |InOrder(prior, observed, hash)|
    requires Choice(prior, After(prior, observed, hash, p), InOrder(prior, observed, hash)[p]) == Some(k)
    ensures !Vacant(After(prior, observed, hash, i), k)
  {
    hide InOrder, Carried, After, Choice, Turn;
    var m := InOrder(prior, observed, hash)[p];
    assert m in InOrder(prior, observed, hash)[p..];
    Midway(prior, observed, hash, p);
    TurnSeats(prior, After(prior, observed, hash, p), m);
    LaterGrows(prior, observed, hash, p + 1, i);
  }

  /** While `h` stands vacant, a wanderer takes a lower slot that nobody claims. */
  lemma WandererTakesUnclaimed(prior: SlotMap, observed: seq<ObservedNode>, h: SlotKey, i: nat)
    requires OneEach(observed)
    requires var hash := WorstHash(prior, observed, h);
      && i < |InOrder(prior, observed, hash)|
      && InOrder(prior, observed, hash)[i] in Wanderers(prior, observed, h)
      && Vacant(After(prior, observed, hash, i), h) && Vacant(After(prior, observed, hash, i + 1), h)
    ensures var hash := WorstHash(prior, observed, h);
      var k := Choice(prior, After(prior, observed, hash, i), InOrder(prior, observed, hash)[i]);
      k.Some? && k.value in Unclaimed(prior, observed, h)
  {
    hide InOrder, After, Stays, HasGround, Free, Choice, NextOrdinal, IsGround;
    var hash := WorstHash(prior, observed, h);
    var ns, s := InOrder(prior, observed, hash), After(prior, observed, hash, i);
    Midway(prior, observed, hash, i);
    MidwayWithin(prior, observed, hash, i);
    ChoiceIs(prior, observed, s, ns[i]);
    var k := Choice(prior, s, ns[i]).value;
    assert Below(k, h) && Vacant(s, k);
    FreeIsInPrior(prior, observed, k);
    if IsGround(prior, observed, k) {
      ClaimedIsTaken(prior, observed, h, i, k);
    }
  }

  lemma FreeIsInPrior(prior: SlotMap, observed: seq<ObservedNode>, k: SlotKey)
    requires Free(prior, observed, k)
    ensures k in prior
  {
  }

  /** Then every wanderer sits in a lower slot that nobody claims. */
  lemma WandererSitsUnclaimed(prior: SlotMap, observed: seq<ObservedNode>, n: ObservedNode, h: SlotKey,
                              m: ObservedNode) returns (k: SlotKey)
    requires IsBack(prior, observed, n, h) && HomeOf(prior, n.name) == Some(h) && m in Wanderers(prior, observed, h)
    requires var hash := WorstHash(prior, observed, h);
      Holds(After(prior, observed, hash, |InOrder(prior, observed, hash)|), h, n.name)
    ensures var hash := WorstHash(prior, observed, h);
      && k in Unclaimed(prior, observed, h)
      && Holds(After(prior, observed, hash, |InOrder(prior, observed, hash)|), k, m.name)
  {
    hide InOrder, Carried, After, Stays, WorstHash, HomeOf, Choice, Turn, Unclaimed;
    var hash := WorstHash(prior, observed, h);
    var p := TurnOf(prior, observed, hash, n);
    var i := TurnOf(prior, observed, hash, m);
    HashOf(prior, observed, h, m);
    HashOf(prior, observed, h, n);
    if p < i {
      HashesAscend(prior, observed, hash, p, i);
    }
    VacantUntil(prior, observed, hash, n, h, p, i);
    VacantUntil(prior, observed, hash, n, h, p, i + 1);
    WandererTakesUnclaimed(prior, observed, h, i);
    ChoiceIsKept(prior, observed, hash, i);
    k := Choice(prior, After(prior, observed, hash, i), m).value;
  }

  /** A slot that a node ends up in was vacant until its turn, if it was there. */
  lemma VacantUntil(prior: SlotMap, observed: seq<ObservedNode>, hash: string -> nat, n: ObservedNode, h: SlotKey,
                    p: nat, i: nat)
    requires OneEach(observed) && h in prior
    requires var ns := InOrder(prior, observed, hash);
      i <= p < |ns| && ns[p] == n && Holds(After(prior, observed, hash, |ns|), h, n.name)
    ensures Vacant(After(prior, observed, hash, i), h)
  {
    hide InOrder, Carried, After, Stays;
    var ns := InOrder(prior, observed, hash);
    assert n in ns[i..] by {
      assert ns[i..][p - i] == n;
    }
    Midway(prior, observed, hash, i);
    LaterGrows(prior, observed, hash, i, |ns|);
    CarriedAt(prior, observed, h);
    var s, t := After(prior, observed, hash, i), After(prior, observed, hash, |ns|);
    assert h in Carried(prior, observed) && h in s;
    assert Vacant(s, h) || StateAt(t, h) == StateAt(s, h);
    assert !Holds(s, h, n.name);
  }

  lemma {:induction false} EachHasItsOwn(t: SlotMap, ms: set<ObservedNode>, ks: set<SlotKey>)
    requires OnceEach(t)
    requires forall m, n :: m in ms && n in ms && m.name == n.name ==> m == n
    requires forall m :: m in ms ==> exists k :: k in ks && Holds(t, k, m.name)
    ensures |ms| <= |ks|
  {
    if ms != {} {
      var m :| m in ms;
      var k :| k in ks && Holds(t, k, m.name);
      forall n | n in ms - {m}
        ensures exists j :: j in ks - {k} && Holds(t, j, n.name)
      {
        var j :| j in ks && Holds(t, j, n.name);
        assert j in ks - {k};
      }
      EachHasItsOwn(t, ms - {m}, ks - {k});
    }
  }

  lemma BackMeansRoom(prior: SlotMap, observed: seq<ObservedNode>, n: ObservedNode, h: SlotKey)
    requires IsBack(prior, observed, n, h) && HomeOf(prior, n.name) == Some(h)
    requires var hash := WorstHash(prior, observed, h);
      Holds(After(prior, observed, hash, |InOrder(prior, observed, hash)|), h, n.name)
    ensures |Wanderers(prior, observed, h)| <= |Unclaimed(prior, observed, h)|
  {
    hide InOrder, Carried, After, WorstHash, HomeOf, Unclaimed, Stays, HasGround, OneEach;
    var hash := WorstHash(prior, observed, h);
    var wanderers := Wanderers(prior, observed, h);
    var t := After(prior, observed, hash, |InOrder(prior, observed, hash)|);
    Midway(prior, observed, hash, |InOrder(prior, observed, hash)|);
    forall m | m in wanderers
      ensures exists k :: k in Unclaimed(prior, observed, h) && Holds(t, k, m.name)
    {
      var k := WandererSitsUnclaimed(prior, observed, n, h, m);
    }
    forall m, w | m in wanderers && w in wanderers && m.name == w.name
      ensures m == w
    {
      SameNode(observed, m, w);
    }
    EachHasItsOwn(t, wanderers, Unclaimed(prior, observed, h));
  }

  // ---- Ground that is not looked at ----------------------------------------

  /** A hash that puts one name first. */
  function FirstHash(first: string): string -> nat {
    name => if name == first then 0 else 1
  }

  /** The first node has what it chooses after those who stay, and nothing else. */
  lemma FirstHasItsChoice(prior: SlotMap, observed: seq<ObservedNode>, n: ObservedNode)
    requires OneEach(observed) && n in observed && !Stays(prior, n)
    ensures var hash := FirstHash(n.name);
      var t := After(prior, observed, hash, |InOrder(prior, observed, hash)|);
      OnceEach(t)
      && forall k :: Choice(prior, Carried(prior, observed), n) == Some(k) ==> Holds(t, k, n.name)
  {
    hide InOrder, Carried, After, Stays, Choice;
    var hash := FirstHash(n.name);
    var p := TurnOf(prior, observed, hash, n);
    if 0 < p {
      HashesAscend(prior, observed, hash, 0, p);
      InOrderAre(prior, observed, hash);
    }
    AfterNone(prior, observed, hash);
    ChoiceIsKept(prior, observed, hash, 0);
  }

  /** With no lower slot to be had and no other wanderer, a turn of another leaves `h` alone. */
  lemma QuietTurn(prior: SlotMap, observed: seq<ObservedNode>, slots: SlotMap, n: ObservedNode, h: SlotKey,
                  m: ObservedNode)
    requires IsBack(prior, observed, n, h) && HomeOf(prior, n.name) != Some(h) && ComesBack(prior, observed, n, h)
    requires Within(prior, observed, slots) && Vacant(slots, h)
    requires m in observed && !Stays(prior, m) && m.name != n.name
    requires Owns(prior, observed, h, m) ==> Vacant(slots, HomeOf(prior, m.name).value)
    ensures Vacant(Turn(prior, slots, m), h)
    ensures forall w: ObservedNode :: w.name != m.name && Owns(prior, observed, h, w) ==>
      Vacant(slots, HomeOf(prior, w.name).value) ==> Vacant(Turn(prior, slots, m), HomeOf(prior, w.name).value)
  {
    hide Choice, Stays, Free, Within, Turn;
    assert m !in Wanderers(prior, observed, h);
    assert !Claims(prior, observed, h, m) by {
      if HasGround(prior, observed, m) {
        GroundIsHeld(prior, observed, m);
        FreeIsInPrior(prior, observed, HomeOf(prior, m.name).value);
      }
    }
    TurnTakesOne(prior, observed, slots, m, h);
    OthersChooseElsewhere(prior, observed, slots, h, m);
    TurnLeaves(prior, slots, m, h);
  }

  lemma TurnLeaves(prior: SlotMap, slots: SlotMap, m: ObservedNode, h: SlotKey)
    requires Vacant(slots, h) && Choice(prior, slots, m) != Some(h)
    ensures Vacant(Turn(prior, slots, m), h)
  {
    hide Choice;
  }

  /** With no lower slot to be had, the others leave `h` alone. */
  lemma {:induction false} QuietUntil(prior: SlotMap, observed: seq<ObservedNode>, hash: string -> nat,
                                      n: ObservedNode, h: SlotKey, i: nat)
    requires IsBack(prior, observed, n, h) && HomeOf(prior, n.name) != Some(h) && ComesBack(prior, observed, n, h)
    requires i <= |InOrder(prior, observed, hash)| && n in InOrder(prior, observed, hash)[i..]
    ensures var s := After(prior, observed, hash, i);
      Vacant(s, h) && OwnersCan(prior, observed, s, InOrder(prior, observed, hash)[i..], h)
  {
    hide InOrder, Carried, After, Stays, Choice, Turn, Free, HomeOf, HasGround;
    var ns := InOrder(prior, observed, hash);
    if i == 0 {
      AfterNone(prior, observed, hash);
      FreeIsVacant(prior, observed, h);
      OwnersCanAtFirst(prior, observed, ns, h);
      assert ns[0..] == ns;
    } else {
      var m, s := ns[i - 1], After(prior, observed, hash, i - 1);
      assert m in ns[i - 1..] && n in ns[i - 1..] && forall w :: w in ns[i..] ==> w in ns[i - 1..];
      Midway(prior, observed, hash, i - 1);
      MidwayWithin(prior, observed, hash, i - 1);
      QuietUntil(prior, observed, hash, n, h, i - 1);
      InOrderAre(prior, observed, hash);
      forall w | w in ns[i..]
        ensures w.name != m.name
      {
        Apart(ns, i, w);
      }
      QuietTurn(prior, observed, s, n, h, m);
    }
  }

  lemma QuietBringsBack(prior: SlotMap, observed: seq<ObservedNode>, hash: string -> nat, n: ObservedNode, h: SlotKey)
    requires IsBack(prior, observed, n, h) && HomeOf(prior, n.name) != Some(h) && ComesBack(prior, observed, n, h)
    ensures Holds(After(prior, observed, hash, |InOrder(prior, observed, hash)|), h, n.name)
  {
    hide InOrder, After, Stays, Choice, NextOrdinal;
    var p := TurnOf(prior, observed, hash, n);
    var s := After(prior, observed, hash, p);
    QuietUntil(prior, observed, hash, n, h, p);
    MidwayWithin(prior, observed, hash, p);
    ChoiceIs(prior, observed, s, n);
    var low := LowestVacancy(s, n);
    assert low.Some? && low.value.ordinal <= h.ordinal;
    assert Free(prior, observed, low.value) && !Below(low.value, h);
    ChoiceIsKept(prior, observed, hash, p);
  }

  lemma WithinAtFirst(prior: SlotMap, observed: seq<ObservedNode>)
    requires OneEach(observed)
    ensures Within(prior, observed, Carried(prior, observed))
  {
    hide Carried, Free;
    forall k | Vacant(Carried(prior, observed), k)
      ensures Free(prior, observed, k)
    {
      FreeIsVacant(prior, observed, k);
    }
  }

  lemma NothingLower(prior: SlotMap, observed: seq<ObservedNode>, n: ObservedNode, h: SlotKey)
    requires OneEach(observed) && Belongs(h, n) && LowestVacancy(Carried(prior, observed), n) == Some(h)
    ensures forall k :: k in prior && Below(k, h) ==> !Free(prior, observed, k)
  {
    hide Carried, Free;
    forall k | k in prior && Below(k, h)
      ensures !Free(prior, observed, k)
    {
      FreeIsVacant(prior, observed, k);
    }
  }

  /** Nodes of one pool have one lowest vacancy. */
  lemma SamePool(slots: SlotMap, n: ObservedNode, m: ObservedNode, h: SlotKey)
    requires Belongs(h, n) && Belongs(h, m) && LowestVacancy(slots, n) == Some(h)
    ensures LowestVacancy(slots, m) == Some(h)
  {
    assert Vacant(slots, h);
    var low := LowestVacancy(slots, m);
    assert low.Some? && Belongs(low.value, n);
  }

  /** Otherwise some node, this one or another, does worse by coming first. */
  lemma NotQuietLosesIt(prior: SlotMap, observed: seq<ObservedNode>, n: ObservedNode, h: SlotKey)
    returns (hash: string -> nat)
    requires IsBack(prior, observed, n, h) && HomeOf(prior, n.name) != Some(h) && !ComesBack(prior, observed, n, h)
    ensures !Holds(After(prior, observed, hash, |InOrder(prior, observed, hash)|), h, n.name)
  {
    hide InOrder, After, Stays, Choice, NextOrdinal, Carried, OneEach;
    var s := Carried(prior, observed);
    FreeIsVacant(prior, observed, h);
    WithinAtFirst(prior, observed);
    if HasGround(prior, observed, n) {
      FreeIsVacant(prior, observed, HomeOf(prior, n.name).value);
    }
    assert LowestVacancy(s, n).Some?;
    ChoiceIs(prior, observed, s, n);
    FirstHasItsChoice(prior, observed, n);
    var k := Choice(prior, s, n);
    assert k.Some?;
    hash := FirstHash(n.name);
    if !HasGround(prior, observed, n) && Choice(prior, s, n) == Some(h) {
      assert LowestVacancy(s, n) == Some(h);
      assert n in Wanderers(prior, observed, h);
      NothingLower(prior, observed, n, h);
      var m :| m in Wanderers(prior, observed, h) && m != n;
      ChoiceIs(prior, observed, s, m);
      SamePool(s, n, m, h);
      FirstHasItsChoice(prior, observed, m);
      hash := FirstHash(m.name);
      if m.name == n.name {
        SameNode(observed, m, n);
      }
    }
  }

  /** The exact condition, for any layout: a node that is back, while nobody keeps the slot it last
      held, has that slot again, however names hash, if and only if: where that is the slot that is
      looked at, its pool has no more nodes without ground than lower slots that nobody claims; and
      where it is not, the node has no ground at all, nor any other to share its pool's vacancies with,
      and every lower slot of the pool is kept. */
  lemma ComesBackIff(prior: Layout, observed: seq<ObservedNode>, n: ObservedNode, h: SlotKey)
    requires IsBack(prior.slots, observed, n, h)
    ensures (forall hash :: Holds(Assigned(prior, observed, hash).slots, h, n.name))
            <==> ComesBack(prior.slots, observed, n, h)
  {
    hide IsBack, Wanderers, Unclaimed, Assigned, Holds, After, HasGround, Free, InOrder;
    forall hash
      ensures Assigned(prior, observed, hash).slots
        == After(prior.slots, observed, hash, |InOrder(prior.slots, observed, hash)|)
    {
      AfterAll(prior, observed, hash);
    }
    var s := prior.slots;
    if ComesBack(s, observed, n, h) {
      forall hash
        ensures Holds(Assigned(prior, observed, hash).slots, h, n.name)
      {
        BackAgain(s, observed, hash, n, h);
      }
    } else {
      var hash := LostAtWorst(s, observed, n, h);
      assert !Holds(Assigned(prior, observed, hash).slots, h, n.name);
    }
  }

  lemma BackAgain(prior: SlotMap, observed: seq<ObservedNode>, hash: string -> nat, n: ObservedNode, h: SlotKey)
    requires IsBack(prior, observed, n, h) && ComesBack(prior, observed, n, h)
    ensures Holds(After(prior, observed, hash, |InOrder(prior, observed, hash)|), h, n.name)
  {
    hide IsBack, Wanderers, Unclaimed, After, HasGround, Free, InOrder;
    if HomeOf(prior, n.name) == Some(h) {
      RoomBringsBack(prior, observed, hash, n, h);
    } else {
      QuietBringsBack(prior, observed, hash, n, h);
    }
  }

  lemma LostAtWorst(prior: SlotMap, observed: seq<ObservedNode>, n: ObservedNode, h: SlotKey)
    returns (hash: string -> nat)
    requires IsBack(prior, observed, n, h) && !ComesBack(prior, observed, n, h)
    ensures !Holds(After(prior, observed, hash, |InOrder(prior, observed, hash)|), h, n.name)
  {
    hide IsBack, Wanderers, Unclaimed, After, HasGround, Free, InOrder, Holds, WorstHash;
    if HomeOf(prior, n.name) == Some(h) {
      hash := WorstHash(prior, observed, h);
      if Holds(After(prior, observed, hash, |InOrder(prior, observed, hash)|), h, n.name) {
        BackMeansRoom(prior, observed, n, h);
      }
    } else {
      hash := NotQuietLosesIt(prior, observed, n, h);
    }
  }

  // ---- Nodes that keep their zones and pools -------------------------------

  /** The zone and pool of every node, by name. */
  type Regions = string -> (string, string)

  predicate In(k: SlotKey, region: (string, string)) {
    (k.zone, k.pool) == region
  }

  /** Nodes are observed where they always are. */
  ghost predicate Settled(ns: seq<ObservedNode>, regions: Regions) {
    forall n :: n in ns ==> (n.zone, n.pool) == regions(n.name)
  }

  /** Every node has last held one slot at most, in its own region, and sits in no other. */
  ghost predicate Homely(slots: SlotMap, regions: Regions) {
    && (forall k, name :: LastHeld(slots, k, name) ==> In(k, regions(name)))
    && (forall j, k, name :: LastHeld(slots, j, name) && LastHeld(slots, k, name) ==> j == k)
    && (forall k, name :: Holds(slots, k, name) ==> LastHeld(slots, k, name))
  }

  /** Then the slot a node last held is the one that is looked at. */
  lemma HomeIsTheOne(slots: SlotMap, regions: Regions, k: SlotKey, name: string)
    requires Homely(slots, regions) && LastHeld(slots, k, name)
    ensures HomeOf(slots, name) == Some(k) && OnceEach(slots)
  {
    var home := HomeOf(slots, name);
    assert home.Some? ==> LastHeld(slots, home.value, name);
  }

  /** Where the turns stand: a node has last held the slot it had last held before, unless it sits. */
  ghost predicate MidTurns(prior: SlotMap, slots: SlotMap, regions: Regions) {
    && Homely(slots, regions) && OnceEach(slots)
    && forall k, name :: LastHeld(slots, k, name) ==> LastHeld(prior, k, name) || Holds(slots, k, name)
  }

  lemma TurnKeepsHomes(prior: SlotMap, slots: SlotMap, regions: Regions, n: ObservedNode)
    requires Homely(prior, regions) && MidTurns(prior, slots, regions)
    requires (n.zone, n.pool) == regions(n.name) && forall k :: !Holds(slots, k, n.name)
    ensures MidTurns(prior, Turn(prior, slots, n), regions)
  {
    hide Choice;
    var k, t := Choice(prior, slots, n), Turn(prior, slots, n);
    ChoiceIsFree(prior, slots, n);
    if k.Some? {
      assert forall j, name ::
          LastHeld(t, j, name) <==> if j == k.value then name == n.name else LastHeld(slots, j, name);
      assert forall j, name :: Holds(t, j, name) <==> if j == k.value then name == n.name else Holds(slots, j, name);
      forall j | LastHeld(slots, j, n.name)
        ensures j == k.value
      {
        HomeIsTaken(prior, slots, regions, n, j);
      }
    }
  }

  /** A node whose ground nobody has taken takes it. */
  lemma HomeIsTaken(prior: SlotMap, slots: SlotMap, regions: Regions, n: ObservedNode, k: SlotKey)
    requires Homely(prior, regions) && MidTurns(prior, slots, regions)
    requires (n.zone, n.pool) == regions(n.name) && forall j :: !Holds(slots, j, n.name)
    requires LastHeld(slots, k, n.name)
    ensures Choice(prior, slots, n) == Some(k)
  {
    HomeIsTheOne(prior, regions, k, n.name);
    if slots[k].occupant.Some? {
      assert Holds(slots, k, slots[k].occupant.value.node);
    }
  }

  lemma CarriedIsHomely(prior: SlotMap, ns: seq<ObservedNode>, regions: Regions)
    requires Homely(prior, regions) && OneEach(ns)
    ensures MidTurns(prior, Carried(prior, ns), regions)
    ensures forall k, name :: LastHeld(Carried(prior, ns), k, name) <==> LastHeld(prior, k, name)
  {
    var t := Carried(prior, ns);
    CarriedOnce(prior, ns);
    forall k, name
      ensures LastHeld(t, k, name) <==> LastHeld(prior, k, name)
      ensures Holds(t, k, name) ==> LastHeld(t, k, name)
    {
      CarriedAt(prior, ns, k);
      if n: ObservedNode :| n in ns && StaysAt(prior, n, k) {
        assert Holds(prior, k, n.name);
      }
    }
  }

  lemma {:induction false} MidwayHomes(prior: SlotMap, observed: seq<ObservedNode>, hash: string -> nat, i: nat,
                                       regions: Regions)
    requires Homely(prior, regions) && OneEach(observed) && Settled(observed, regions)
    requires i <= |InOrder(prior, observed, hash)|
    ensures MidTurns(prior, After(prior, observed, hash, i), regions)
  {
    hide Homely, MidTurns, InOrder, Turn, Stays;
    if i == 0 {
      CarriedIsHomely(prior, observed, regions);
    } else {
      var ns := InOrder(prior, observed, hash);
      MidwayHomes(prior, observed, hash, i - 1, regions);
      Midway(prior, observed, hash, i - 1);
      InOrderAre(prior, observed, hash);
      assert ns[i - 1] in ns[i - 1..] && ns[i - 1] in ns;
      TurnKeepsHomes(prior, After(prior, observed, hash, i - 1), regions, ns[i - 1]);
    }
  }

  /** Where nodes keep their zones and pools, each has last held one slot at most, for good. */
  lemma FrameKeepsHomes(prior: Layout, observed: seq<ObservedNode>, hash: string -> nat, regions: Regions)
    requires Homely(prior.slots, regions) && OneEach(observed) && Settled(observed, regions)
    ensures Homely(Assigned(prior, observed, hash).slots, regions)
  {
    var ns := InOrder(prior.slots, observed, hash);
    assert ns[..|ns|] == ns;
    MidwayHomes(prior.slots, observed, hash, |ns|, regions);
  }
}
