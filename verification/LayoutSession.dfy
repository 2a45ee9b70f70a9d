/** Sessions: any loads and saves of any maps, by `load` and `save` in
    `crates/kubernation/src/layout_io.rs`, a crash, and the session after it. */
module LayoutSession {
  import opened Prelude
  import opened LayoutStore
  import opened LayoutFile
  import LayoutName

  /** A layout as it was given to `save`, with the orders its maps were visited in. */
  datatype Saved = Saved(layout: Layout, fingerprint: Option<string>, zones: seq<string>, keys: seq<SlotKey>) {
    ghost predicate Valid() {
      Visits(zones, layout.zoneOrdinals.Keys) && Visits(keys, layout.slots.Keys)
    }

    function Stored(): StoredLayout
      requires Valid()
    {
      ToStored(layout, fingerprint, zones, keys)
    }

    /** It is known to be of another cluster. */
    predicate Foreign(observed: Option<string>) {
      fingerprint.Some? && observed.Some? && fingerprint != observed
    }

    /** What loading it gives: the layout that storing keeps, with the trust that the fingerprints
        earn, unless it is known to be of another cluster. */
    predicate LoadsAs(observed: Option<string>, out: (Layout, Loaded)) {
      if Foreign(observed) then out == (FRESH, Discarded(Refused(DifferentCluster)))
      else out == (Kept(layout),
                   Restored(|layout.slots|, if fingerprint.Some? && observed.Some? then Verified else Unverified))
    }
  }

  /** What was saved loads. */
  lemma LoadAfterSave(codec: Codec, saved: Saved, observed: Option<string>)
    requires RoundTrips(codec) && saved.Valid() && codec.encode(saved.Stored()).Some?
    ensures saved.LoadsAs(observed, Outcome(codec, codec.encode(saved.Stored()), observed, false))
  {
    hide FromStored, ToStored, Kept;
    StoreRoundTrip(saved.layout, saved.fingerprint, saved.zones, saved.keys, observed);
    MapComesBack(saved.layout);
    assert |Kept(saved.layout).slots.Keys| == |Kept(saved.layout).slots|;
    assert |saved.layout.slots.Keys| == |saved.layout.slots|;
  }

  /** A map's file holds nothing, or what one of these saves wrote. */
  ghost predicate WrittenBy(codec: Codec, saves: seq<Saved>, content: Option<Bytes>)
    requires forall s :: s in saves ==> s.Valid()
  {
    content == None || exists m :: 0 <= m < |saves| && codec.encode(saves[m].Stored()) == content
  }

  ghost predicate HistoryOf(codec: Codec, trail: seq<Fs>, base: nat, path: string, saves: seq<Saved>)
    requires forall s :: s in saves ==> s.Valid()
  {
    forall k :: base <= k < |trail| ==> trail[k].Valid() && WrittenBy(codec, saves, trail[k].Content(path))
  }

  lemma WrittenByMore(codec: Codec, saves: seq<Saved>, saved: Saved, content: Option<Bytes>)
    requires saved.Valid() && forall s :: s in saves ==> s.Valid()
    requires WrittenBy(codec, saves, content) || content == codec.encode(saved.Stored())
    ensures WrittenBy(codec, saves + [saved], content)
  {
    var more := saves + [saved];
    if content != None && WrittenBy(codec, saves, content) {
      var m :| 0 <= m < |saves| && codec.encode(saves[m].Stored()) == content;
      assert more[m] == saves[m];
    } else {
      assert more[|saves|] == saved;
    }
  }

  /** One more save. */
  lemma SaveExtendsHistory(codec: Codec, trail: seq<Fs>, base: nat, from: nat, saves: seq<Saved>, saved: Saved,
                           tmp: string, path: string)
    requires saved.Valid() && (forall s :: s in saves ==> s.Valid()) && base <= from < |trail|
    requires HistoryOf(codec, trail[..from + 1], base, path, saves)
    requires MeanwhileSince(trail, from + 1, trail[from], tmp, path, codec.encode(saved.Stored()))
    ensures forall s :: s in saves + [saved] ==> s.Valid()
    ensures HistoryOf(codec, trail, base, path, saves + [saved])
  {
    hide WrittenBy;
    var before := trail[..from + 1];
    assert before[from] == trail[from] && WrittenBy(codec, saves, before[from].Content(path));
    forall k | base <= k < |trail|
      ensures trail[k].Valid() && WrittenBy(codec, saves + [saved], trail[k].Content(path))
    {
      if k <= from {
        assert before[k] == trail[k];
      } else {
        assert Meanwhile(trail[from], trail[k], tmp, path, codec.encode(saved.Stored()));
      }
      WrittenByMore(codec, saves, saved, trail[k].Content(path));
    }
  }

  /** A load: nothing changes, or some context's file is moved aside. */
  lemma LoadExtendsHistory(codec: Codec, trail: seq<Fs>, base: nat, path: string, saves: seq<Saved>, from: string,
                           aside: string)
    requires (forall s :: s in saves ==> s.Valid()) && base < |trail| && HistoryOf(codec, trail, base, path, saves)
    requires aside != path && from in trail[|trail| - 1].dir
    ensures HistoryOf(codec, trail + [Renamed(trail[|trail| - 1], from, aside)], base, path, saves)
  {
    hide WrittenBy;
    var f := trail[|trail| - 1];
    var g := Renamed(f, from, aside);
    assert g.Content(path) == if from == path then None else f.Content(path);
    NothingIsWritten(codec, saves);
    forall k | base <= k < |trail + [g]|
      ensures (trail + [g])[k].Valid() && WrittenBy(codec, saves, (trail + [g])[k].Content(path))
    {
      assert WrittenBy(codec, saves, f.Content(path));
    }
  }

  lemma NothingIsWritten(codec: Codec, saves: seq<Saved>)
    requires forall s :: s in saves ==> s.Valid()
    ensures WrittenBy(codec, saves, None)
  {
  }

  /** A save of another map. */
  lemma SaveElsewhereKeepsHistory(codec: Codec, trail: seq<Fs>, base: nat, from: nat, saves: seq<Saved>, path: string,
                                  tmp: string, other: string, json: Option<Bytes>)
    requires (forall s :: s in saves ==> s.Valid()) && base <= from < |trail|
    requires HistoryOf(codec, trail[..from + 1], base, path, saves)
    requires MeanwhileSince(trail, from + 1, trail[from], tmp, other, json) && path != other && path != tmp
    ensures HistoryOf(codec, trail, base, path, saves)
  {
    hide WrittenBy;
    var before := trail[..from + 1];
    assert before[from] == trail[from] && WrittenBy(codec, saves, before[from].Content(path));
    forall k | base <= k < |trail|
      ensures trail[k].Valid() && WrittenBy(codec, saves, trail[k].Content(path))
    {
      if k <= from {
        assert before[k] == trail[k];
      } else {
        assert Meanwhile(trail[from], trail[k], tmp, other, json);
      }
    }
  }

  /** What a session does with its maps: any loads and saves, of any contexts. */
  datatype Op =
    | LoadMap(context: string, observed: Option<string>, secs: nat, readFails: bool, renameFails: bool)
    | SaveMap(context: string, saved: Saved, faults: Faults)

  ghost predicate ValidOps(ops: seq<Op>) {
    forall i :: 0 <= i < |ops| && ops[i].SaveMap? ==> ops[i].saved.Valid()
  }

  /** What one operation saves to a file. */
  function Adds(op: Op, path: string): seq<Saved> {
    if op.SaveMap? && LayoutName.FileName(op.context) == path then [op.saved] else []
  }

  /** The layouts saved to one file, in order. */
  ghost function SavesOf(ops: seq<Op>, path: string): (saves: seq<Saved>)
    requires ValidOps(ops)
    ensures forall s :: s in saves ==> s.Valid()
  {
    if ops == [] then []
    else
      var n := |ops| - 1;
      SavesOf(ops[..n], path) + Adds(ops[n], path)
  }

  lemma SavesSnoc(ops: seq<Op>, i: nat, path: string)
    requires ValidOps(ops) && i < |ops|
    ensures ValidOps(ops[..i]) && ValidOps(ops[..i + 1])
    ensures SavesOf(ops[..i + 1], path) == SavesOf(ops[..i], path) + Adds(ops[i], path)
  {
    assert ops[..i + 1][..i] == ops[..i];
  }

  /** What an operation makes of the disk: a load may move the map aside; a save of which nothing fails that
      must not puts the layout in the map's file, any other leaves what was there, and neither touches
      anything else that is visible. */
  ghost predicate Did(codec: Codec, op: Op, f: Fs, g: Fs)
    requires f.Valid() && g.Valid()
  {
    var path := LayoutName.FileName(op.context);
    match op
    case LoadMap(context, observed, secs, readFails, renameFails) =>
      var why := MovesAside(codec, f.Content(path), observed, readFails);
      if why == None || renameFails then g == f
      else path in f.dir && g == Renamed(f, path, LayoutName.AsideName(context, why.value, secs))
    case SaveMap(context, saved, faults) =>
      saved.Valid() &&
      var json := codec.encode(saved.Stored());
      && g.Content(path) == (if faults.Pass(json) then json else f.Content(path))
      && forall n :: n != path && n != LayoutName.TmpName(context) ==> g.Content(n) == f.Content(n)
  }

  /** Each operation did what it does, one after the other, at these moments. */
  ghost predicate DidAll(codec: Codec, ops: seq<Op>, trail: seq<Fs>, at: seq<nat>) {
    && |at| == |ops| + 1 && at[0] == 0 && at[|ops|] == |trail| - 1
    && forall i: nat :: i < |ops| ==> DidNext(codec, ops, trail, at, i)
  }

  ghost predicate DidNext(codec: Codec, ops: seq<Op>, trail: seq<Fs>, at: seq<nat>, i: nat)
    requires i < |ops| && |at| == |ops| + 1
  {
    at[i] <= at[i + 1] < |trail| && DidAt(codec, ops[i], trail, at[i], at[i + 1])
  }

  ghost predicate DidAt(codec: Codec, op: Op, trail: seq<Fs>, i: nat, j: nat)
    requires i <= j < |trail|
  {
    trail[i].Valid() && trail[j].Valid() && Did(codec, op, trail[i], trail[j])
  }

  lemma DidStill(codec: Codec, op: Op, trail: seq<Fs>, longer: seq<Fs>, i: nat, j: nat)
    requires i <= j < |trail| && trail <= longer && DidAt(codec, op, trail, i, j)
    ensures DidAt(codec, op, longer, i, j)
  {
    hide Did;
  }

  lemma OneMoreDid(codec: Codec, ops: seq<Op>, op: Op, trail: seq<Fs>, longer: seq<Fs>, at: seq<nat>)
    requires DidAll(codec, ops, trail, at) && trail != [] && trail <= longer
    requires DidAt(codec, op, longer, |trail| - 1, |longer| - 1)
    ensures DidAll(codec, ops + [op], longer, at + [|longer| - 1])
  {
    hide DidAt;
    var all, more := ops + [op], at + [|longer| - 1];
    forall i: nat | i < |all|
      ensures DidNext(codec, all, longer, more, i)
    {
      if i < |ops| {
        assert DidNext(codec, ops, trail, at, i);
        DidStill(codec, ops[i], trail, longer, at[i], at[i + 1]);
      }
    }
  }

  /** A whole session: whatever is loaded and saved, and whatever fails, each operation does what it does,
      and at every moment the map's file holds nothing, or what a save of this session or of an earlier
      one wrote. */
  method Session(found: Fs, codec: Codec, ops: seq<Op>, ghost context: string, ghost earlier: seq<Saved>)
    returns (disk: Disk, ghost at: seq<nat>)
    requires Sound(found) && ValidOps(ops) && forall s :: s in earlier ==> s.Valid()
    requires WrittenBy(codec, earlier, found.Content(LayoutName.FileName(context)))
    ensures fresh(disk) && disk.Good() && disk.trail[0] == found
    ensures forall s :: s in earlier + SavesOf(ops, LayoutName.FileName(context)) ==> s.Valid()
    ensures HistoryOf(codec, disk.trail, 0, LayoutName.FileName(context),
                      earlier + SavesOf(ops, LayoutName.FileName(context)))
    ensures DidAll(codec, ops, disk.trail, at)
  {
    hide Inv, LayoutName.FileName, WrittenBy, SavesOf, HistoryOf, DidAll, DidAt;
    ghost var path := LayoutName.FileName(context);
    disk := new Disk(found);
    ghost var saves := earlier;
    SessionStarts(codec, found, path, earlier);
    NoSaves(path, earlier);
    assert ops[..0] == [];
    at := [0];
    NothingDid(codec, disk.trail);
    for i := 0 to |ops|
      invariant DidAll(codec, ops[..i], disk.trail, at)
      invariant fresh(disk) && disk.Good() && disk.trail != [] && disk.trail[0] == found
      invariant ValidOps(ops[..i]) && saves == earlier + SavesOf(ops[..i], path)
      invariant (forall s :: s in saves ==> s.Valid()) && HistoryOf(codec, disk.trail, 0, path, saves)
    {
      SavesSnoc(ops, i, path);
      ghost var before := disk.trail;
      Perform(disk, codec, ops[i], context, saves);
      OneMoreDid(codec, ops[..i], ops[i], before, disk.trail, at);
      assert ops[..i + 1] == ops[..i] + [ops[i]];
      at := at + [|disk.trail| - 1];
      saves := saves + Adds(ops[i], path);
    }
    assert ops[..|ops|] == ops;
  }

  lemma NothingDid(codec: Codec, trail: seq<Fs>)
    requires |trail| == 1
    ensures DidAll(codec, [], trail, [0])
  {
  }

  lemma SaveDid(codec: Codec, op: Op, f: Fs, g: Fs)
    requires op.SaveMap? && op.saved.Valid()
    requires var path, json := LayoutName.FileName(op.context), codec.encode(op.saved.Stored());
      && Meanwhile(f, g, LayoutName.TmpName(op.context), path, json)
      && g.Content(path) == (if op.faults.Pass(json) then json else f.Content(path))
    ensures f.Valid() && g.Valid() && Did(codec, op, f, g)
  {
  }

  /** One load or save. */
  method Perform(disk: Disk, codec: Codec, op: Op, ghost context: string, ghost saves: seq<Saved>)
    requires disk.Good() && disk.trail != []
    requires (op.SaveMap? ==> op.saved.Valid()) && forall s :: s in saves ==> s.Valid()
    requires HistoryOf(codec, disk.trail, 0, LayoutName.FileName(context), saves)
    modifies disk
    ensures disk.Good() && old(disk.trail) <= disk.trail
    ensures forall s :: s in saves + Adds(op, LayoutName.FileName(context)) ==> s.Valid()
    ensures var path := LayoutName.FileName(context);
      HistoryOf(codec, disk.trail, 0, path, saves + Adds(op, path))
    ensures DidAt(codec, op, disk.trail, |old(disk.trail)| - 1, |disk.trail| - 1)
  {
    hide Inv, LayoutName.FileName, LayoutName.TmpName, LayoutName.AsideName, WrittenBy, ToStored, Renamed, HistoryOf,
      Meanwhile;
    ghost var path, before, from := LayoutName.FileName(context), disk.trail, |disk.trail| - 1;
    InvIsSound(disk.trail);
    match op {
      case LoadMap(ctx, observed, secs, readFails, renameFails) =>
        ghost var content := disk.fs.Content(LayoutName.FileName(ctx));
        var _, _ := disk.Load(ctx, observed, codec, secs, readFails, renameFails);
        assert saves + [] == saves;
        if disk.trail != before {
          ghost var why := MovesAside(codec, content, observed, readFails);
          if why.Some? && !renameFails {
            LayoutName.NamesNeverMeet(ctx, context, why.value, secs);
            LoadExtendsHistory(codec, before, 0, path, saves, LayoutName.FileName(ctx),
                               LayoutName.AsideName(ctx, why.value, secs));
          } else {
            StandingKeepsHistory(codec, before, 0, path, saves);
          }
        }
      case SaveMap(ctx, saved, faults) =>
        ghost var was := disk.fs;
        var _ := disk.Save(ctx, saved.Stored(), codec, faults);
        SaveDid(codec, op, was, disk.fs);
        LayoutName.NamesNeverMeet(ctx, context, LayoutName.Corrupt, 0);
        assert disk.trail[..from + 1] == before;
        if LayoutName.FileName(ctx) == path {
          SaveExtendsHistory(codec, disk.trail, 0, from, saves, saved, LayoutName.TmpName(ctx), path);
        } else {
          assert saves + [] == saves;
          SaveElsewhereKeepsHistory(codec, disk.trail, 0, from, saves, path, LayoutName.TmpName(ctx),
                                    LayoutName.FileName(ctx), codec.encode(saved.Stored()));
        }
    }
    InvIsSound(disk.trail);
    assert disk.trail[from] == old(disk.fs);
  }

  lemma SessionStarts(codec: Codec, found: Fs, path: string, earlier: seq<Saved>)
    requires found.Valid() && (forall s :: s in earlier ==> s.Valid()) && WrittenBy(codec, earlier, found.Content(path))
    ensures HistoryOf(codec, [found], 0, path, earlier)
  {
  }

  lemma NoSaves(path: string, earlier: seq<Saved>)
    ensures ValidOps([]) && earlier + SavesOf([], path) == earlier
  {
  }

  lemma StandingKeepsHistory(codec: Codec, trail: seq<Fs>, base: nat, path: string, saves: seq<Saved>)
    requires (forall s :: s in saves ==> s.Valid()) && base < |trail| && HistoryOf(codec, trail, base, path, saves)
    ensures HistoryOf(codec, trail + [trail[|trail| - 1]], base, path, saves)
  {
    hide WrittenBy;
  }

  /** The disk a new session finds: what the crash left, all of it now on the disk. */
  ghost predicate Restart(files: map<string, Bytes>, found: Fs) {
    Sound(found) && found.dir.Keys == files.Keys && forall n :: n in files ==> found.Content(n) == Some(files[n])
  }

  /** There is one. */
  lemma RestartIsSound(trail: seq<Fs>, base: nat, i: nat, k: nat, files: map<string, Bytes>) returns (found: Fs)
    requires Inv(trail) && base <= i < |trail| && CanRecover(trail, base, i, k, files)
    ensures Restart(files, found)
  {
    var dir, data := trail[k].dir, trail[k].files;
    var left: seq<Data> := seq(|data|, (d: nat) => Data([], true));
    var todo := dir.Keys;
    while todo != {}
      invariant todo <= dir.Keys && |left| == |data|
      invariant forall d :: 0 <= d < |left| ==> left[d].synced
      invariant forall n :: n in dir && n !in todo ==> left[dir[n]].bytes == files[n]
    {
      var n :| n in todo;
      left := left[dir[n] := Data(files[n], true)];
      todo := todo - {n};
    }
    found := Fs(dir, left);
  }

  /** Saving, crashing and loading: whenever the crash comes, the next session loads what one of the
      saves wrote, or finds no map where there was none at some moment since the base. */
  method LoadAfterCrash(found: Fs, context: string, observed: Option<string>, codec: Codec, secs: nat,
                        ghost trail: seq<Fs>, ghost base: nat, ghost i: nat, ghost k: nat,
                        ghost files: map<string, Bytes>, ghost saves: seq<Saved>)
    returns (layout: Layout, loaded: Loaded)
    requires RoundTrips(codec) && Inv(trail) && forall s :: s in saves ==> s.Valid()
    requires HistoryOf(codec, trail, base, LayoutName.FileName(context), saves)
    requires base <= i < |trail| && CanRecover(trail, base, i, k, files) && Restart(files, found)
    ensures if trail[k].Content(LayoutName.FileName(context)) == None then (layout, loaded) == (FRESH, Fresh)
            else exists m :: 0 <= m < |saves| && saves[m].LoadsAs(observed, (layout, loaded))
  {
    hide Inv, CanRecover, LayoutName.FileName, Sound;
    ghost var path := LayoutName.FileName(context);
    AllValid(trail);
    LayoutName.NamesNeverMeet(context, context, LayoutName.Corrupt, 0);
    CrashLeavesWhole(trail, base, i, k, files, path);
    FoundAfterRestart(files, found, path);
    var disk := new Disk(found);
    layout, loaded := disk.Load(context, observed, codec, secs, false, false);
    if trail[k].Content(path) != None {
      assert WrittenBy(codec, saves, trail[k].Content(path));
      ghost var m :| 0 <= m < |saves| && codec.encode(saves[m].Stored()) == trail[k].Content(path);
      LoadAfterSave(codec, saves[m], observed);
    }
  }

  lemma FoundAfterRestart(files: map<string, Bytes>, found: Fs, n: string)
    requires Restart(files, found)
    ensures Sound(found) && found.Valid() && found.Content(n) == Found(files, n)
  {
  }
}
