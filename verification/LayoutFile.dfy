/** Saving and loading a map, `save`, `write_then_sync` and `load` in
    `crates/kubernation/src/layout_io.rs`, on a file system that can fail at any call and crash
    between any two. */
module LayoutFile {
  import opened Prelude
  import opened LayoutStore
  import LayoutName

  // ---- The file system -----------------------------------------------------

  /** A file's bytes, and whether they are on the disk. */
  datatype Data = Data(bytes: Bytes, synced: bool)

  /** The layouts directory: its names, and the files they name. */
  datatype Fs = Fs(dir: map<string, nat>, files: seq<Data>) {
    ghost predicate Valid() {
      forall n :: n in dir ==> dir[n] < |files|
    }

    /** What the name holds, if anything. */
    function Content(n: string): Option<Bytes>
      requires Valid()
    {
      if n in dir then Some(files[dir[n]].bytes) else None
    }
  }

  /** Temporary files have hidden names, all others do not. */
  predicate Visible(n: string) {
    n != "" && n[0] != '.'
  }

  function Removed(fs: Fs, n: string): Fs {
    fs.(dir := map m | m in fs.dir && m != n :: fs.dir[m])
  }

  /** `File::create`: an existing file is emptied, a missing one is made. */
  function Created(fs: Fs, n: string): Fs
    requires fs.Valid()
  {
    if n in fs.dir then fs.(files := fs.files[fs.dir[n] := Data([], false)])
    else Fs(fs.dir[n := |fs.files|], fs.files + [Data([], false)])
  }

  function Appended(fs: Fs, n: string, more: Bytes): Fs
    requires fs.Valid() && n in fs.dir
  {
    fs.(files := fs.files[fs.dir[n] := Data(fs.files[fs.dir[n]].bytes + more, false)])
  }

  function Synced(fs: Fs, n: string): Fs
    requires fs.Valid() && n in fs.dir
  {
    fs.(files := fs.files[fs.dir[n] := fs.files[fs.dir[n]].(synced := true)])
  }

  /** `rename`: the name moves, and what the target named is unnamed. */
  function Renamed(fs: Fs, a: string, b: string): Fs
    requires a in fs.dir
  {
    fs.(dir := (map m | m in fs.dir && m != a :: fs.dir[m])[b := fs.dir[a]])
  }

  // ---- Crashes -------------------------------------------------------------

  /** A crash at moment `i`, when the directory was last known to be on the disk at moment `base`:
      the directory comes back as it was at some moment since, and a file that was not synced may
      hold anything. */
  ghost predicate CanRecover(trail: seq<Fs>, base: nat, i: nat, k: nat, files: map<string, Bytes>)
    requires base <= i < |trail| && forall j :: 0 <= j < |trail| ==> trail[j].Valid()
  {
    && base <= k <= i
    && files.Keys == trail[k].dir.Keys
    && forall n :: n in files ==>
         var d := trail[k].dir[n];
         d < |trail[i].files| && trail[i].files[d].synced ==> files[n] == trail[i].files[d].bytes
  }

  /** What a visible name once held stays as it was, on the disk. */
  ghost predicate Settled(trail: seq<Fs>, k: nat, n: string, g: Fs)
    requires k < |trail| && trail[k].Valid() && n in trail[k].dir
  {
    var d := trail[k].dir[n];
    d < |g.files| && g.files[d] == trail[k].files[d] && g.files[d].synced
  }

  /** No temporary file shares its data with a visible name, past or present. */
  ghost predicate Apart(trail: seq<Fs>, k: nat, n: string, g: Fs)
    requires k < |trail| && n in trail[k].dir
  {
    forall h :: h in g.dir && !Visible(h) ==> g.dir[h] != trail[k].dir[n]
  }

  /** No two names share their data. */
  ghost predicate Distinct(g: Fs) {
    forall a, b :: a in g.dir && b in g.dir && a != b ==> g.dir[a] != g.dir[b]
  }

  /** What every call keeps, of all moments since the process began. */
  ghost predicate Inv(trail: seq<Fs>) {
    && trail != []
    && (forall j :: 0 <= j < |trail| ==> trail[j].Valid() && Distinct(trail[j]))
    && (forall k: nat, n :: k < |trail| && n in trail[k].dir && Visible(n) ==> forall i :: k <= i < |trail| ==>
        Settled(trail, k, n, trail[i]))
    && (forall k: nat, n :: k < |trail| && n in trail[k].dir && Visible(n) ==> Apart(trail, k, n, trail[|trail| - 1]))
  }

  /** After a crash every visible name holds, in full, something it held before, or is missing as
      it was then. */
  lemma CrashLeavesWhole(trail: seq<Fs>, base: nat, i: nat, k: nat, files: map<string, Bytes>, n: string)
    requires Inv(trail) && base <= i < |trail| && CanRecover(trail, base, i, k, files) && Visible(n)
    ensures base <= k <= i && (if n in files then Some(files[n]) else None) == trail[k].Content(n)
  {
    if n in files {
      assert Settled(trail, k, n, trail[i]);
    }
  }

  // ---- What a call may do --------------------------------------------------

  /** A call that changes nothing but a temporary file's data, and names nothing visible that is
      not on the disk. */
  ghost predicate Tame(f: Fs, g: Fs) {
    && g.Valid() && Distinct(g) && |f.files| <= |g.files|
    && (forall d :: 0 <= d < |f.files| && g.files[d] != f.files[d] ==>
        exists h :: h in f.dir && !Visible(h) && f.dir[h] == d)
    && (forall h :: h in g.dir && !Visible(h) ==> (h in f.dir && g.dir[h] == f.dir[h]) || g.dir[h] >= |f.files|)
    && (forall n :: n in g.dir && Visible(n) ==> g.files[g.dir[n]].synced)
  }

  lemma TameKeepsInv(trail: seq<Fs>, g: Fs)
    requires Inv(trail) && Tame(trail[|trail| - 1], g)
    ensures Inv(trail + [g])
  {
    var f, longer := trail[|trail| - 1], trail + [g];
    forall k: nat, n | k < |longer| && n in longer[k].dir && Visible(n)
      ensures (forall i :: k <= i < |longer| ==> Settled(longer, k, n, longer[i])) && Apart(longer, k, n, g)
    {
      if k < |trail| {
        TameKeepsSettled(trail, g, k, n);
        forall i | k <= i < |longer|
          ensures Settled(longer, k, n, longer[i])
        {
          assert i < |trail| ==> Settled(trail, k, n, trail[i]);
        }
      }
    }
  }

  lemma TameKeepsSettled(trail: seq<Fs>, g: Fs, k: nat, n: string)
    requires Inv(trail) && Tame(trail[|trail| - 1], g) && k < |trail| && n in trail[k].dir && Visible(n)
    ensures Settled(trail, k, n, g) && Apart(trail, k, n, g)
  {
    var f, d := trail[|trail| - 1], trail[k].dir[n];
    assert Settled(trail, k, n, f) && Apart(trail, k, n, f);
    assert g.files[d] == f.files[d];
  }

  /** Every name but one holds what it held. */
  ghost predicate Others(f: Fs, g: Fs, n: string) {
    f.Valid() && g.Valid() && forall m :: m != n ==> g.Content(m) == f.Content(m)
  }

  /** No name but these two names another file than before. */
  ghost predicate SameNames(f: Fs, g: Fs, a: string, b: string) {
    forall m :: m != a && m != b ==> (m in g.dir <==> m in f.dir) && (m in f.dir ==> g.dir[m] == f.dir[m])
  }

  /** Where the process stands: what is on the disk is named once and, if visible, synced. */
  ghost predicate Sound(f: Fs) {
    f.Valid() && Distinct(f) && forall n :: n in f.dir && Visible(n) ==> f.files[f.dir[n]].synced
  }

  lemma InvIsSound(trail: seq<Fs>)
    requires Inv(trail)
    ensures Sound(trail[|trail| - 1])
  {
    var last := |trail| - 1;
    forall n | n in trail[last].dir && Visible(n)
      ensures trail[last].files[trail[last].dir[n]].synced
    {
      assert Settled(trail, last, n, trail[last]);
    }
  }

  lemma RemoveIsTame(f: Fs, n: string)
    requires Sound(f)
    ensures Tame(f, Removed(f, n)) && Others(f, Removed(f, n), n) && SameNames(f, Removed(f, n), n, n)
    ensures n !in Removed(f, n).dir && Removed(f, n).files == f.files
  {
  }

  lemma CreateIsTame(f: Fs, n: string)
    requires Sound(f) && !Visible(n)
    ensures var g := Created(f, n);
      && Tame(f, g) && Others(f, g, n) && g.Content(n) == Some([]) && SameNames(f, g, n, n)
      && g.dir[n] == (if n in f.dir then f.dir[n] else |f.files|)
  {
    hide Tame, Others;
    if n in f.dir {
      EmptiedIsTame(f, n);
    } else {
      MadeIsTame(f, n);
    }
  }

  lemma EmptiedIsTame(f: Fs, n: string)
    requires Sound(f) && !Visible(n) && n in f.dir
    ensures var g := f.(files := f.files[f.dir[n] := Data([], false)]);
      Tame(f, g) && Others(f, g, n) && g.Content(n) == Some([])
  {
  }

  lemma MadeIsTame(f: Fs, n: string)
    requires Sound(f) && !Visible(n) && n !in f.dir
    ensures var g := Fs(f.dir[n := |f.files|], f.files + [Data([], false)]);
      Tame(f, g) && Others(f, g, n) && g.Content(n) == Some([])
  {
  }

  lemma AppendIsTame(f: Fs, n: string, more: Bytes)
    requires Sound(f) && !Visible(n) && n in f.dir
    ensures var g := Appended(f, n, more);
      && Tame(f, g) && Others(f, g, n) && SameNames(f, g, n, n)
      && g.Content(n) == Some(f.Content(n).value + more) && g.dir == f.dir
  {
  }

  lemma SyncIsTame(f: Fs, n: string)
    requires Sound(f) && !Visible(n) && n in f.dir
    ensures var g := Synced(f, n);
      && Tame(f, g) && Others(f, g, n) && g.Content(n) == f.Content(n) && SameNames(f, g, n, n)
      && g.files[g.dir[n]].synced && g.dir == f.dir
  {
  }

  /** A synced file may take a visible name; its own name is gone then. */
  lemma RenameIsTame(f: Fs, a: string, b: string)
    requires Sound(f) && a in f.dir && Visible(b) && a != b && f.files[f.dir[a]].synced
    ensures var g := Renamed(f, a, b); Tame(f, g) && g.Content(b) == f.Content(a) && g.Content(a) == None
    ensures var g := Renamed(f, a, b); forall n :: n != a && n != b ==> g.Content(n) == f.Content(n)
    ensures var g := Renamed(f, a, b); SameNames(f, g, a, b) && a !in g.dir && b in g.dir && g.dir[b] == f.dir[a]
  {
  }

  // ---- Saving --------------------------------------------------------------

  /** The text form: encoding may fail, decoding refuses what is not a stored layout, and `text` is
      what `read_to_string` accepts. */
  datatype Codec = Codec(encode: StoredLayout -> Option<Bytes>, text: Bytes -> bool,
                         decode: Bytes -> Option<StoredLayout>)

  ghost predicate RoundTrips(codec: Codec) {
    forall s, b :: codec.encode(s) == Some(b) ==> codec.text(b) && codec.decode(b) == Some(s)
  }

  datatype SaveError = NoDirectory | NotSerialised | NotWritten | NotRenamed

  /** Which calls of a save fail; a write does after so many bytes. */
  datatype Faults = Faults(directory: bool, remove: bool, create: bool, write: Option<nat>, sync: bool, rename: bool) {
    /** Are these bytes written and on the disk? */
    predicate Spare(bytes: Bytes) {
      !create && (write == None || |bytes| <= write.value) && !sync
    }

    /** Does the save succeed? */
    predicate Pass(json: Option<Bytes>) {
      !directory && json.Some? && Spare(json.value) && !rename
    }
  }

  /** A moment while `json` is saved over what `was` there: the map's file is the old one or the new
      one, whole, and no other name but the temporary one has changed. */
  ghost predicate Meanwhile(was: Fs, g: Fs, tmp: string, path: string, json: Option<Bytes>) {
    && was.Valid() && g.Valid()
    && (g.Content(path) == was.Content(path) || (json.Some? && g.Content(path) == json))
    && forall n :: n != tmp && n != path ==> g.Content(n) == was.Content(n)
  }

  /** Every moment from `from` on. */
  ghost predicate MeanwhileSince(trail: seq<Fs>, from: nat, was: Fs, tmp: string, path: string, json: Option<Bytes>) {
    forall i :: from <= i < |trail| ==> Meanwhile(was, trail[i], tmp, path, json)
  }

  ghost predicate OthersSince(trail: seq<Fs>, from: nat, was: Fs, tmp: string) {
    forall i :: from <= i < |trail| ==> Others(was, trail[i], tmp)
  }

  /** One more call that touches only the temporary file. */
  lemma OneMoreCall(trail: seq<Fs>, from: nat, was: Fs, f: Fs, g: Fs, tmp: string)
    requires OthersSince(trail, from, was, tmp) && Others(was, f, tmp) && Others(f, g, tmp)
    ensures OthersSince(trail + [g], from, was, tmp) && Others(was, g, tmp) && was.Valid() && g.Valid()
  {
  }

  lemma NoCallYet(trail: seq<Fs>, was: Fs, tmp: string)
    requires was.Valid()
    ensures OthersSince(trail, |trail|, was, tmp) && Others(was, was, tmp) && SameNames(was, was, tmp, tmp)
  {
  }

  lemma SameDirectory(f: Fs, g: Fs, h: Fs, tmp: string)
    requires SameNames(f, g, tmp, tmp) && h.dir == g.dir
    ensures SameNames(f, h, tmp, tmp)
  {
  }

  /** Many more. */
  lemma MoreCalls(trail: seq<Fs>, longer: seq<Fs>, from: nat, was: Fs, f: Fs, g: Fs, tmp: string)
    requires OthersSince(trail, from, was, tmp) && Others(was, f, tmp) && trail <= longer
    requires OthersSince(longer, |trail|, f, tmp) && Others(f, g, tmp)
    ensures OthersSince(longer, from, was, tmp) && Others(was, g, tmp) && was.Valid() && g.Valid()
  {
    forall i | from <= i < |longer|
      ensures Others(was, longer[i], tmp)
    {
      assert i < |trail| ==> longer[i] == trail[i];
    }
  }

  // ---- Loading -------------------------------------------------------------

  datatype Why = Unreadable | NotALayout | Refused(refusal: LoadRefusal)

  datatype Loaded = Fresh | Restored(slots: nat, trust: Trust) | Discarded(why: Why)

  const FRESH := Layout(map[], map[])

  /** What `load` makes of the file's content. */
  function Outcome(codec: Codec, content: Option<Bytes>, observed: Option<string>, readFails: bool): (Layout, Loaded) {
    if content == None then (FRESH, Fresh)
    else if readFails || !codec.text(content.value) then (FRESH, Discarded(Unreadable))
    else
      match codec.decode(content.value)
      case None => (FRESH, Discarded(NotALayout))
      case Some(stored) =>
        match FromStored(stored, observed)
        case Ok((layout, trust)) => (layout, Restored(|layout.slots|, trust))
        case Err(refusal) => (FRESH, Discarded(Refused(refusal)))
  }

  /** Why the file is moved aside, if it is. */
  function MovesAside(codec: Codec, content: Option<Bytes>, observed: Option<string>,
                      readFails: bool): Option<LayoutName.Reason> {
    if content == None then None
    else
      match Outcome(codec, content, observed, readFails).1
      case Discarded(NotALayout) => Some(LayoutName.Corrupt)
      case Discarded(Refused(DifferentCluster)) => Some(LayoutName.OtherCluster)
      case _ => None
  }

  // ---- The disk ------------------------------------------------------------

  class Disk {
    var fs: Fs
    ghost var trail: seq<Fs>

    /** `trail` is every state since the process began, `fs` the present one. */
    ghost predicate Good()
      reads this
    {
      Inv(trail) && fs == trail[|trail| - 1]
    }

    constructor (found: Fs)
      requires Sound(found)
      ensures Good() && trail == [found]
    {
      fs := found;
      trail := [found];
    }

    method Become(g: Fs)
      requires Good() && Tame(fs, g)
      modifies this
      ensures Good() && fs == g && trail == old(trail) + [g]
    {
      TameKeepsInv(trail, g);
      fs := g;
      trail := trail + [g];
    }

    /** `write_all`, in as many writes as it takes. */
    method WriteAll(tmp: string, bytes: Bytes)
      requires Good() && !Visible(tmp) && fs.Valid() && tmp in fs.dir
      modifies this
      ensures Good() && old(trail) <= trail && fs.Valid() && old(fs).Valid() && fs.dir == old(fs).dir
      ensures fs.Content(tmp) == Some(old(fs).Content(tmp).value + bytes)
      ensures OthersSince(trail, |old(trail)|, old(fs), tmp) && Others(old(fs), fs, tmp)
    {
      hide Inv, Tame, Appended, Distinct, Others, OthersSince, SameNames;
      ghost var was, from := fs, |trail|;
      NoCallYet(trail, was, tmp);
      var rest := bytes;
      while rest != []
        invariant Good() && old(trail) <= trail && fs.Valid() && fs.dir == was.dir
        invariant fs.Content(tmp).value + rest == was.Content(tmp).value + bytes
        invariant Others(was, fs, tmp) && OthersSince(trail, from, was, tmp)
        decreases |rest|
      {
        var n :| 1 <= n <= |rest|;
        InvIsSound(trail);
        AppendIsTame(fs, tmp, rest[..n]);
        OneMoreCall(trail, from, was, fs, Appended(fs, tmp, rest[..n]), tmp);
        Become(Appended(fs, tmp, rest[..n]));
        rest := rest[n..];
      }
      assert fs.Content(tmp).value + [] == fs.Content(tmp).value;
    }

    /** `write_then_sync`: the whole of `bytes` is in the temporary file and on the disk, or some
        call failed and it may hold any part of them. */
    method WriteThenSync(tmp: string, bytes: Bytes, faults: Faults) returns (ok: bool)
      requires Good() && !Visible(tmp)
      modifies this
      ensures Good() && old(trail) <= trail && OthersSince(trail, |old(trail)|, old(fs), tmp)
        && Others(old(fs), fs, tmp)
      ensures ok <==> faults.Spare(bytes)
      ensures ok ==> fs.Content(tmp) == Some(bytes) && tmp in fs.dir && fs.files[fs.dir[tmp]].synced
      ensures SameNames(old(fs), fs, tmp, tmp)
      ensures ok ==> fs.dir[tmp] == if tmp in old(fs).dir then old(fs).dir[tmp] else |old(fs).files|
    {
      hide Inv, Tame, Created, Synced, Distinct, Fs.Valid, Others, OthersSince, SameNames;
      InvIsSound(trail);
      ghost var was, from := fs, |trail|;
      NoCallYet(trail, was, tmp);
      if faults.create {
        return false;
      }
      CreateIsTame(fs, tmp);
      OneMoreCall(trail, from, was, fs, Created(fs, tmp), tmp);
      Become(Created(fs, tmp));
      ghost var made, mid := fs, trail;
      var short := faults.write != None && faults.write.value < |bytes|;
      WriteAll(tmp, if short then bytes[..faults.write.value] else bytes);
      MoreCalls(mid, trail, from, was, made, fs, tmp);
      SameDirectory(was, made, fs, tmp);
      assert [] + bytes == bytes;
      if short || faults.sync {
        return false;
      }
      InvIsSound(trail);
      SyncIsTame(fs, tmp);
      OneMoreCall(trail, from, was, fs, Synced(fs, tmp), tmp);
      SameDirectory(was, made, Synced(fs, tmp), tmp);
      Become(Synced(fs, tmp));
      ok := true;
    }

    /** `save`, with nothing else writing this map meanwhile. Any call may fail; the result says
        which. A map that is replaced is named by nothing any more, and its successor is a new file,
        not a stale temporary one, if that could be removed. */
    method Save(context: string, stored: StoredLayout, codec: Codec, faults: Faults)
      returns (r: Result<string, SaveError>)
      requires Good()
      modifies this
      ensures Good() && old(trail) <= trail
      ensures var path := LayoutName.FileName(context);
        && MeanwhileSince(trail, |old(trail)|, old(fs), LayoutName.TmpName(context), path, codec.encode(stored))
        && Meanwhile(old(fs), fs, LayoutName.TmpName(context), path, codec.encode(stored))
        && (r.Ok? ==> r.value == path && codec.encode(stored).Some? && fs.Content(path) == codec.encode(stored))
        && (r.Err? ==> fs.Content(path) == old(fs).Content(path))
        && (r.Ok? && path in old(fs).dir ==> old(fs).dir[path] !in fs.dir.Values)
        && (r.Ok? ==> SameNames(old(fs), fs, LayoutName.TmpName(context), path))
      ensures var json := codec.encode(stored);
        r == if faults.directory then Err(NoDirectory)
             else if json == None then Err(NotSerialised)
             else if !faults.Spare(json.value) then Err(NotWritten)
             else if faults.rename then Err(NotRenamed)
             else Ok(LayoutName.FileName(context))
      ensures r == Err(NoDirectory) || r == Err(NotSerialised) ==> fs == old(fs) && trail == old(trail)
      ensures r == Err(NotRenamed) ==> fs.Content(LayoutName.TmpName(context)) == codec.encode(stored)
      ensures r.Ok? ==> LayoutName.TmpName(context) !in fs.dir
      ensures r.Ok? ==>
        var path, tmp, stale := LayoutName.FileName(context), LayoutName.TmpName(context), old(fs).dir;
        path in fs.dir && fs.dir[path] == if faults.remove && tmp in stale then stale[tmp] else |old(fs).files|
    {
      hide Inv, Tame, Renamed, Removed, Distinct, Fs.Valid, LayoutName.FileName, LayoutName.TmpName,
        LayoutName.AsideName;
      var path := LayoutName.FileName(context);
      ghost var was, from := fs, |trail|;
      InvIsSound(trail);
      if faults.directory {
        return Err(NoDirectory);
      }
      var json := codec.encode(stored);
      if json == None {
        return Err(NotSerialised);
      }
      var tmp := LayoutName.TmpName(context);
      LayoutName.NamesNeverMeet(context, context, LayoutName.Corrupt, 0);
      if !faults.remove {
        RemoveIsTame(fs, tmp);
        Become(Removed(fs, tmp));
      }
      ghost var cleared, mid := fs, |trail|;
      var ok := WriteThenSync(tmp, json.value, faults);
      OthersMeanwhile(trail, from, mid, was, cleared, tmp, path, json);
      if !ok {
        return Err(NotWritten);
      }
      if faults.rename {
        return Err(NotRenamed);
      }
      InvIsSound(trail);
      RenameIsTame(fs, tmp, path);
      OldIsUnnamed(was, fs, tmp, path);
      Become(Renamed(fs, tmp, path));
      r := Ok(path);
    }

    /** `load`, at second `secs`, of a cluster whose fingerprint is `observed`. A file that decodes
        to no layout or belongs to another cluster is moved aside, unless that fails too. */
    method Load(context: string, observed: Option<string>, codec: Codec, secs: nat, readFails: bool, renameFails: bool)
      returns (layout: Layout, loaded: Loaded)
      requires Good()
      modifies this
      ensures Good() && (trail == old(trail) || trail == old(trail) + [fs])
      ensures var path := LayoutName.FileName(context);
        && (layout, loaded) == Outcome(codec, old(fs).Content(path), observed, readFails)
        && fs == match MovesAside(codec, old(fs).Content(path), observed, readFails)
                 case None => old(fs)
                 case Some(why) => if renameFails then old(fs)
                   else Renamed(old(fs), path, LayoutName.AsideName(context, why, secs))
    {
      hide Inv, Tame, Renamed, Distinct, LayoutName.FileName, LayoutName.TmpName, LayoutName.AsideName, FromStored;
      var path := LayoutName.FileName(context);
      InvIsSound(trail);
      if path !in fs.dir {
        return FRESH, Fresh;
      }
      var raw := fs.files[fs.dir[path]].bytes;
      if readFails || !codec.text(raw) {
        return FRESH, Discarded(Unreadable);
      }
      var parsed := codec.decode(raw);
      if parsed == None {
        MoveAside(context, LayoutName.Corrupt, secs, renameFails);
        return FRESH, Discarded(NotALayout);
      }
      match FromStored(parsed.value, observed)
      case Ok((l, trust)) =>
        layout, loaded := l, Restored(|l.slots|, trust);
      case Err(refusal) =>
        if refusal == DifferentCluster {
          MoveAside(context, LayoutName.OtherCluster, secs, renameFails);
        }
        layout, loaded := FRESH, Discarded(Refused(refusal));
    }

    method MoveAside(context: string, why: LayoutName.Reason, secs: nat, fails: bool)
      requires Good() && LayoutName.FileName(context) in fs.dir
      modifies this
      ensures Good() && (trail == old(trail) || trail == old(trail) + [fs])
      ensures fs == if fails then old(fs)
        else Renamed(old(fs), LayoutName.FileName(context), LayoutName.AsideName(context, why, secs))
    {
      hide Inv, Tame, Renamed, Distinct, LayoutName.FileName, LayoutName.TmpName, LayoutName.AsideName;
      var path, aside := LayoutName.FileName(context), LayoutName.AsideName(context, why, secs);
      if !fails {
        InvIsSound(trail);
        LayoutName.NamesNeverMeet(context, context, why, secs);
        RenameIsTame(fs, path, aside);
        Become(Renamed(fs, path, aside));
      }
    }
  }

  lemma OldIsUnnamed(was: Fs, f: Fs, tmp: string, path: string)
    requires Sound(was) && Sound(f) && SameNames(was, f, tmp, tmp) && tmp in f.dir && tmp != path
    ensures SameNames(was, Renamed(f, tmp, path), tmp, path)
    ensures path in was.dir ==> was.dir[path] !in Renamed(f, tmp, path).dir.Values
  {
    var g := Renamed(f, tmp, path);
    if path in was.dir {
      forall m | m in g.dir
        ensures g.dir[m] != was.dir[path]
      {
        assert f.dir[path] == was.dir[path];
      }
    }
  }

  lemma OthersMeanwhile(trail: seq<Fs>, from: nat, mid: nat, was: Fs, cleared: Fs, tmp: string, path: string,
                        json: Option<Bytes>)
    requires from <= mid <= |trail| && tmp != path && Others(was, cleared, tmp)
    requires OthersSince(trail, mid, cleared, tmp) && forall i :: from <= i < mid ==> Others(was, trail[i], tmp)
    ensures MeanwhileSince(trail, from, was, tmp, path, json)
  {
    forall i | from <= i < |trail|
      ensures Meanwhile(was, trail[i], tmp, path, json)
    {
      assert i >= mid ==> Others(cleared, trail[i], tmp);
    }
  }

  // ---- The promises --------------------------------------------------------

  lemma AllValid(trail: seq<Fs>)
    requires Inv(trail)
    ensures forall j :: 0 <= j < |trail| ==> trail[j].Valid()
  {
  }

  /** What a name holds after a crash. */
  function Found(files: map<string, Bytes>, n: string): Option<Bytes> {
    if n in files then Some(files[n]) else None
  }

  /** A crash at any moment of a save, or after it. If the directory comes back as it was at moment
      `k`, before the save, so does every visible file. If it comes back as it was during the save,
      the map's file is the old one or the new one, whole, and every other visible file is as it
      was. The directory is never synced, so `base` may be as far back as the process's start. */
  lemma SaveIsAtomic(trail: seq<Fs>, base: nat, from: nat, tmp: string, path: string, json: Option<Bytes>,
                     i: nat, k: nat, files: map<string, Bytes>)
    requires Inv(trail) && Visible(path) && !Visible(tmp)
    requires base <= from <= i < |trail| && MeanwhileSince(trail, from + 1, trail[from], tmp, path, json)
    requires CanRecover(trail, base, i, k, files)
    ensures base <= k <= i
    ensures k <= from ==> forall n :: Visible(n) ==> Found(files, n) == trail[k].Content(n)
    ensures from <= k ==> Found(files, path) == trail[from].Content(path) || (json.Some? && Found(files, path) == json)
    ensures from <= k ==> forall n :: Visible(n) && n != path ==> Found(files, n) == trail[from].Content(n)
  {
    hide Inv, CanRecover;
    AllValid(trail);
    CrashLeavesWhole(trail, base, i, k, files, path);
    assert k > from ==> Meanwhile(trail[from], trail[k], tmp, path, json);
    forall n | Visible(n)
      ensures Found(files, n) == trail[k].Content(n)
    {
      CrashLeavesWhole(trail, base, i, k, files, n);
    }
  }

  /** Every moment since the directory was last on the disk can come back. */
  lemma CrashCanReturnTo(trail: seq<Fs>, base: nat, i: nat, k: nat) returns (files: map<string, Bytes>)
    requires Inv(trail) && base <= k <= i < |trail|
    ensures CanRecover(trail, base, i, k, files)
    ensures forall n :: Visible(n) ==> Found(files, n) == trail[k].Content(n)
  {
    AllValid(trail);
    var dir, data := trail[k].dir, trail[i].files;
    files := map n | n in dir :: if dir[n] < |data| then data[dir[n]].bytes else [];
    forall n | Visible(n) && n in dir
      ensures files[n] == trail[k].files[dir[n]].bytes
    {
      assert Settled(trail, k, n, trail[i]);
    }
  }

  /** So a save that has returned can still be undone by a crash: the map's file can come back as it
      was when the save began, and as it was at any earlier moment of the session. */
  lemma SaveCanBeUndone(trail: seq<Fs>, base: nat, k: nat, from: nat, path: string) returns (files: map<string, Bytes>)
    requires Inv(trail) && base <= k <= from < |trail| && Visible(path)
    ensures CanRecover(trail, base, |trail| - 1, k, files) && Found(files, path) == trail[k].Content(path)
  {
    files := CrashCanReturnTo(trail, base, |trail| - 1, k);
  }

  // ---- What becomes of a file that is not used -----------------------------

  /** A load and then a save of the same map: a discarded file is still there, under the name it was
      moved to, exactly when it was moved aside and the move did not fail. */
  method LoadThenSave(disk: Disk, context: string, observed: Option<string>, codec: Codec, secs: nat,
                      readFails: bool, renameFails: bool, stored: StoredLayout, faults: Faults)
    returns (layout: Layout, loaded: Loaded, r: Result<string, SaveError>)
    requires disk.Good()
    modifies disk
    ensures disk.Good()
    ensures var was, path := old(disk.fs), LayoutName.FileName(context);
      loaded.Discarded? && r.Ok? ==>
      && path in was.dir
      && var moves := MovesAside(codec, was.Content(path), observed, readFails);
         && (was.dir[path] in disk.fs.dir.Values <==> moves.Some? && !renameFails)
         && (moves.Some? && !renameFails ==>
               disk.fs.Content(LayoutName.AsideName(context, moves.value, secs)) == was.Content(path))
  {
    hide Inv, LayoutName.FileName, LayoutName.TmpName, LayoutName.AsideName, Meanwhile, MeanwhileSince;
    ghost var was, path, tmp := disk.fs, LayoutName.FileName(context), LayoutName.TmpName(context);
    InvIsSound(disk.trail);
    layout, loaded := disk.Load(context, observed, codec, secs, readFails, renameFails);
    ghost var mid := disk.fs;
    ghost var moves := MovesAside(codec, was.Content(path), observed, readFails);
    r := disk.Save(context, stored, codec, faults);
    if loaded.Discarded? && r.Ok? && moves.Some? && !renameFails {
      var aside := LayoutName.AsideName(context, moves.value, secs);
      LayoutName.NamesNeverMeet(context, context, moves.value, secs);
      RenameIsTame(was, path, aside);
      StillThere(mid, disk.fs, tmp, path, aside, codec.encode(stored));
      assert disk.fs.dir[aside] == was.dir[path];
    }
  }

  lemma StillThere(f: Fs, g: Fs, tmp: string, path: string, n: string, json: Option<Bytes>)
    requires SameNames(f, g, tmp, path) && Meanwhile(f, g, tmp, path, json) && n != tmp && n != path && n in f.dir
    ensures n in g.dir && g.dir[n] == f.dir[n] && g.Content(n) == f.Content(n)
  {
  }

  /** A file that is not text is discarded and stays where the next save replaces it. */
  lemma NonTextIsNotMoved(codec: Codec, content: Bytes, observed: Option<string>)
    requires !codec.text(content)
    ensures Outcome(codec, Some(content), observed, false) == (FRESH, Discarded(Unreadable))
    ensures MovesAside(codec, Some(content), observed, false) == None
  {
  }

  /** So does one that a later version wrote. */
  lemma LaterVersionIsNotMoved(codec: Codec, stored: StoredLayout, observed: Option<string>)
    requires RoundTrips(codec) && stored.version > LAYOUT_VERSION && codec.encode(stored).Some?
    ensures Outcome(codec, codec.encode(stored), observed, false)
         == (FRESH, Discarded(Refused(FutureVersion(stored.version, LAYOUT_VERSION))))
    ensures MovesAside(codec, codec.encode(stored), observed, false) == None
  {
  }

  /** Moving a file aside loses nothing exactly when nothing of that name was there. */
  lemma AsideLosesNothingIff(fs: Fs, path: string, aside: string)
    requires Sound(fs) && path in fs.dir && path != aside
    ensures var g := Renamed(fs, path, aside);
      && (forall d :: d in fs.dir.Values ==> d in g.dir.Values) <==> aside !in fs.dir
  {
    var g := Renamed(fs, path, aside);
    if aside in fs.dir {
      assert fs.dir[aside] in fs.dir.Values && fs.dir[aside] !in g.dir.Values;
    } else {
      forall d | d in fs.dir.Values
        ensures d in g.dir.Values
      {
        var n :| n in fs.dir && fs.dir[n] == d;
        assert g.dir[if n == path then aside else n] == d;
      }
    }
  }

  /** Two corrupt files of one context, loaded in the same second: the first is lost. */
  lemma TwoCorruptLoads(codec: Codec, context: string, secs: nat, a: Bytes, b: Bytes)
    returns (f: Fs, g: Fs, h: Fs, last: Fs)
    requires codec.text(a) && codec.text(b) && codec.decode(a) == None && codec.decode(b) == None
    ensures var path, aside := LayoutName.FileName(context), LayoutName.AsideName(context, LayoutName.Corrupt, secs);
      && f.Valid() && h.Valid() && path in f.dir && path in h.dir
      && MovesAside(codec, f.Content(path), None, false) == Some(LayoutName.Corrupt) && g == Renamed(f, path, aside)
      && h == Fs(g.dir[path := |g.files|], g.files + [Data(b, true)])
      && MovesAside(codec, h.Content(path), None, false) == Some(LayoutName.Corrupt) && last == Renamed(h, path, aside)
      && f.dir[path] in g.dir.Values && f.dir[path] !in last.dir.Values
  {
    hide LayoutName.FileName, LayoutName.AsideName;
    var path, aside := LayoutName.FileName(context), LayoutName.AsideName(context, LayoutName.Corrupt, secs);
    LayoutName.NamesNeverMeet(context, context, LayoutName.Corrupt, secs);
    f := Fs(map[path := 0], [Data(a, true)]);
    g := Renamed(f, path, aside);
    h := Fs(g.dir[path := |g.files|], g.files + [Data(b, true)]);
    last := Renamed(h, path, aside);
    assert g.dir == map[aside := 0] && last.dir == map[aside := 1];
    assert g.dir[aside] in g.dir.Values;
    assert forall n :: n in last.dir ==> last.dir[n] == 1;
  }

  /** When a file is moved aside: it was read and is no layout, or it is one of this version from a
      cluster known to be another. A file of a later version stays where the next save replaces it. */
  lemma MovesAsideIff(codec: Codec, content: Option<Bytes>, observed: Option<string>, readFails: bool)
    ensures var moves, read := MovesAside(codec, content, observed, readFails), content.Some? && !readFails
      && codec.text(content.value);
      && (moves == Some(LayoutName.Corrupt) <==> read && codec.decode(content.value) == None)
      && (moves == Some(LayoutName.OtherCluster) <==>
            read && codec.decode(content.value).Some?
            && var stored := codec.decode(content.value).value;
               stored.version <= LAYOUT_VERSION && stored.fingerprint.Some? && observed.Some?
                 && stored.fingerprint != observed)
  {
    hide Collect, Entries;
  }

  /** Why the temporary file is synced before it is renamed: without that, a crash after the rename
      can leave neither the old map nor the new one. */
  lemma SyncIsNeeded() returns (trail: seq<Fs>, tmp: string, path: string, json: Bytes, files: map<string, Bytes>)
    ensures |trail| == 4 && Sound(trail[0]) && forall j :: 0 <= j < 4 ==> trail[j].Valid()
    ensures trail[1] == Created(trail[0], tmp) && tmp in trail[1].dir && trail[2] == Appended(trail[1], tmp, json)
    ensures tmp in trail[2].dir && trail[3] == Renamed(trail[2], tmp, path)
    ensures CanRecover(trail, 0, 3, 3, files) && path in files && Some(files[path]) != trail[0].Content(path)
      && files[path] != json
  {
    path, tmp, json := "m.json", ".m.json.tmp", [2, 2];
    var f := Fs(map[path := 0], [Data([1], true)]);
    var g := Created(f, tmp);
    var h := Appended(g, tmp, json);
    trail := [f, g, h, Renamed(h, tmp, path)];
    files := map[path := []];
    assert trail[3].dir == map[path := 1];
  }
}
