/** Applying a storage plan on a host: every step keeps the run undoable, a failed run is
    rolled back, and a successful one leaves the metadata that the profile checker expects. */
module StoragePreparation {
  import opened Options
  import opened ByteStrings
  import opened Sorting
  import opened StoragePlan
  import opened UndoLog
  import opened StorageEffects
  import Fstab

  // ---------------------------------------------------------------------------
  // What actions keep and achieve

  ghost predicate Kept(before: Tree, after: Tree, except: set<Path>) {
    forall p :: p in before ==> p in after && (p !in except ==> after[p] == before[p])
  }

  // At or above something the plan asks for.
  ghost predicate Reached(p: Path, targets: set<Path>) { exists t :: t in targets && p <= t }

  // What is new is on the way to a target, or is one of the exceptions.
  ghost predicate Grown(before: Tree, after: Tree, targets: set<Path>, except: set<Path>) {
    forall p :: p in after && p !in before ==> p in except || Reached(p, targets)
  }

  // The tree without a file that a failed step left unrecorded.
  function Without(fs: Tree, stray: Option<Path>): Tree { if stray.Some? then fs - {stray.value} else fs }

  // What a successful action has established.
  ghost predicate Achieved(config: Config, json: SlotMetadata -> Bytes, a: Action, before: Tree, after: Tree) {
    match a
    case EnsureDir(path) => path in after
    case EnsureImage(path, _) => path in after
    case EnsureMount(_, mount) => mount in after
    case EnsureFstab(image, mount) =>
      FileBytes(after, FstabPath()) == Fstab.Ensure(FileBytes(before, FstabPath()), Text(image), Text(mount))
    case EnsureSlot(_, _, _, _) => SlotReady(config, json, a, after)
    case ChownOwnedPaths => after == before
  }

  ghost predicate SlotReady(config: Config, json: SlotMetadata -> Bytes, a: Action, fs: Tree)
    requires a.EnsureSlot?
  {
    var slot := SlotDir(config, a);
    && slot in fs && fs[slot].Dir?
    && MetadataFile(slot) in fs && fs[MetadataFile(slot)] == File(json(PlannedMetadata(config, a)))
  }

  // The fstab entries that actions ask for.
  function FstabSteps(actions: seq<Action>): seq<(Bytes, Bytes)> {
    if actions == [] then []
    else
      var a := actions[|actions| - 1];
      FstabSteps(actions[..|actions| - 1]) + if a.EnsureFstab? then [(Text(a.image), Text(a.mount))] else []
  }

  // The fstab, which is empty if it was absent, has become what these actions make of it. (An absent
  // fstab could also come into being as a target of the plan.)
  ghost predicate FstabDone(init: Tree, fs: Tree, actions: seq<Action>, targets: set<Path>) {
    FstabPath() in init || !Reached(FstabPath(), targets) ==>
      && (FstabPath() in init ==> FstabPath() in fs)
      && FileBytes(fs, FstabPath()) == Fstab.EnsureAll(FileBytes(init, FstabPath()), FstabSteps(actions))
  }

  /** What a rollback must leave: the initial tree, plus directories on the way to a target. */
  ghost predicate Restored(init: Tree, fs: Tree, targets: set<Path>) {
    && (forall p :: p in init ==> p in fs && fs[p] == init[p])
    && (forall p :: p in fs && p !in init ==> fs[p] == Dir && Ancestral(p, targets))
  }

  // A failed `truncate` left a file unrecorded: it is all that the rollback leaves besides, and it
  // is left exactly when the log covers neither the file nor a directory above it.
  ghost predicate StrayLeft(init: Tree, fs: Tree, log: Log, config: Config, stray: Option<Path>, content: Bytes) {
    stray.Some? ==>
      && stray.value !in init && (exists a :: a in Plan(config) && a.EnsureImage? && a.path == stray.value)
      && (stray.value in fs <==> !Under(stray.value, log) && !Absent(stray.value, log))
      && (stray.value in fs ==> fs[stray.value] == File(content))
  }

  // ---------------------------------------------------------------------------
  // The host

  class Host {
    var fs: Tree
    var log: Log
    // The external commands issued so far.
    var issued: seq<Cmd>
    // How many more operations go well; the next one fails. This covers every run, because a
    // run stops at its first failure.
    var good: nat
    // What a failed write leaves in the file, how deep a failed create_dir_all gets, and what
    // truncate and mkfs leave in an image.
    const torn: Bytes
    const depth: nat
    const blank: Bytes
    // Whether a failed `truncate` leaves a file all the same.
    const strays: bool
    // Mount points that findmnt reports as active.
    const mounts: set<Path>

    constructor (fs: Tree, good: nat, torn: Bytes, depth: nat, blank: Bytes, strays: bool, mounts: set<Path>)
      ensures this.fs == fs && this.log == Log([], []) && this.issued == [] && this.good == good && this.mounts == mounts
    {
      this.fs, this.log, this.issued, this.good := fs, Log([], []), [], good;
      this.torn, this.depth, this.blank, this.strays, this.mounts := torn, depth, blank, strays, mounts;
    }

    // An operation goes well or it does not.
    method Operation() returns (ok: bool)
      modifies this`good
      ensures ok == (old(good) > 0) && good + 1 >= old(good)
    {
      ok := good > 0;
      if ok { good := good - 1; }
    }

    // An external command.
    method Command(c: Cmd) returns (ok: bool)
      modifies this`issued, this`good
      ensures ok == (old(good) > 0) && good + 1 >= old(good) && issued == old(issued) + [c]
    {
      issued := issued + [c];
      ok := Operation();
    }

    // `tokio::fs::create_dir_all`; on failure some leading directories may have been made.
    method CreateDirAll(p: Path) returns (ok: bool)
      modifies this`fs, this`good
      ensures ok <==> CanMake(old(fs), p) && old(good) > 0
      ensures ok ==> fs == MakeDirs(old(fs), p)
      ensures good + 1 >= old(good)
      ensures !ok ==> fs == old(fs) || exists q :: q < p && CanMake(old(fs), q) && fs == MakeDirs(old(fs), q)
    {
      var blocked := exists q | q in Prefixes(p) :: q in fs && fs[q].File?;
      forall q ensures q in Prefixes(p) <==> q <= p { PrefixesMembers(p, q); }
      if blocked { return false; }
      ok := Operation();
      if ok {
        fs := MakeDirs(fs, p);
      } else if depth < |p| {
        assert p[..depth] < p;
        assert CanMake(fs, p[..depth]);
        fs := MakeDirs(fs, p[..depth]);
      }
    }

    // `tokio::fs::write`; on failure the file may hold anything.
    method Write(p: Path, content: Bytes) returns (ok: bool)
      modifies this`fs, this`good
      ensures ok <==> Writable(old(fs), p) && old(good) > 0
      ensures ok ==> fs == old(fs)[p := File(content)]
      ensures good + 1 >= old(good)
      ensures !ok ==> fs == old(fs) || (Writable(old(fs), p) && fs == old(fs)[p := File(torn)])
    {
      if !Writable(fs, p) { return false; }
      ok := Operation();
      fs := fs[p := File(if ok then content else torn)];
    }

    // `read_optional_file_bytes`
    method ReadOptional(p: Path) returns (ok: bool, content: Option<Bytes>)
      modifies this`good
      ensures ok ==> Reads(fs, p, content)
      ensures (ok <==> Readable(fs, p) && old(good) > 0) && good + 1 >= old(good)
    {
      forall q ensures q in Prefixes(p) <==> q <= p { PrefixesMembers(p, q); }
      content := None;
      ok := Operation();
      if ok && p in fs {
        if fs[p].Dir? { return false, None; }
        content := Some(fs[p].content);
      } else if ok && exists q | q in Prefixes(p) :: q in fs && fs[q].File? {
        return false, None;
      }
    }

    /** `create_dir_all_recorded` */
    method CreateDirAllRecorded(p: Path, ghost init: Tree, ghost targets: set<Path>, ghost t: Path)
      returns (ok: bool)
      requires Undoable(init, fs, log, targets) && t in targets && p <= t
      modifies this`fs, this`log, this`good
      ensures Undoable(init, fs, log, targets) && Kept(old(fs), fs, {}) && Grown(old(fs), fs, targets, {})
      ensures ok ==> p in fs && fs == MadeDir(old(fs), p)
      ensures ok <==> p in old(fs) || (CanMake(old(fs), p) && old(good) > 0)
      ensures good + 1 >= old(good)
    {
      hide Undoable, MakeDirs, CanMake;
      if p in fs { return true; }
      ok := CreateDirAll(p);
      if fs != old(fs) {
        ghost var q :| q <= p && fs == MakeDirs(old(fs), q);
        MakeDirsGrows(old(fs), q, targets, t);
      }
      if ok {
        log := Created(log, p);
        RecordedDirUndoable(init, old(fs), old(log), targets, p, t);
        MakeDirsAt(old(fs), p, p);
      } else if fs != old(fs) {
        ghost var q :| q < p && CanMake(old(fs), q) && fs == MakeDirs(old(fs), q);
        assert q < t;
        MakeDirsUndoable(init, old(fs), log, targets, q);
      }
    }

    /** `RollbackLog::backup_file`: the first backup of a path wins. */
    method BackupFile(p: Path, ghost init: Tree, ghost targets: set<Path>) returns (ok: bool)
      requires Undoable(init, fs, log, targets)
      modifies this`log, this`good
      ensures Undoable(init, fs, log, targets)
      ensures ok ==> Backed(p, log)
      ensures old(log.backups) <= log.backups && log.created == old(log.created)
      ensures (Readable(fs, p) && old(good) > 0 ==> ok) && (ok ==> Readable(fs, p) || Backed(p, old(log)))
      ensures good + 1 >= old(good)
    {
      if exists i :: 0 <= i < |log.backups| && log.backups[i].path == p { return true; }
      var content;
      ok, content := ReadOptional(p);
      if ok {
        BackupUndoable(init, fs, log, targets, p, content);
        log := Saved(log, p, content);
      }
    }

    // A write to a path that the log covers.
    method CoveredWrite(p: Path, content: Bytes, ghost init: Tree, ghost targets: set<Path>) returns (ok: bool)
      requires Undoable(init, fs, log, targets) && (Backed(p, log) || Under(p, log))
      modifies this`fs, this`good
      ensures Undoable(init, fs, log, targets) && Kept(old(fs), fs, {p}) && Grown(old(fs), fs, targets, {p})
      ensures ok ==> fs == old(fs)[p := File(content)]
      ensures (ok <==> Writable(old(fs), p) && old(good) > 0) && good + 1 >= old(good)
    {
      ok := Write(p, content);
      if Writable(old(fs), p) {
        WriteUndoable(init, old(fs), log, targets, p, content);
        WriteUndoable(init, old(fs), log, targets, p, torn);
      }
    }

    // `create_dir_all` of a directory on the way to a target: nothing is recorded.
    method CreateDirAllUnrecorded(p: Path, ghost init: Tree, ghost targets: set<Path>, ghost t: Path)
      returns (ok: bool)
      requires Undoable(init, fs, log, targets) && t in targets && p < t
      modifies this`fs, this`good
      ensures Undoable(init, fs, log, targets) && Kept(old(fs), fs, {}) && Grown(old(fs), fs, targets, {})
      ensures (ok <==> CanMake(old(fs), p) && old(good) > 0) && good + 1 >= old(good)
      ensures ok ==> fs == MakeDirs(old(fs), p)
    {
      hide Undoable, MakeDirs, CanMake;
      ok := CreateDirAll(p);
      if fs != old(fs) {
        ghost var q :| q <= p && CanMake(old(fs), q) && fs == MakeDirs(old(fs), q);
        assert q < t;
        MakeDirsUndoable(init, old(fs), log, targets, q);
        MakeDirsGrows(old(fs), q, targets, t);
      }
    }

    // `truncate` makes the file and it is recorded, but not if the command fails; `mkfs` then fills
    // the file, or fails.
    method MakeImage(p: Path, size: Bytes, ghost init: Tree, ghost targets: set<Path>) returns (ok: bool, ghost stray: Option<Path>)
      requires Undoable(init, fs, log, targets) && p !in fs && Writable(fs, p) && p in targets
      modifies this`fs, this`log, this`issued, this`good
      ensures Undoable(init, Without(fs, stray), log, targets)
      ensures Kept(old(fs), fs, {}) && Grown(old(fs), fs, targets, {})
      ensures ok ==> fs == old(fs)[p := File(blank)] && stray == None
      ensures stray.Some? ==> strays && Stray(Without(fs, stray), fs, stray.value, p, torn)
      ensures (old(good) >= 2 ==> ok) && good + 2 >= old(good)
      ensures ok ==> issued == old(issued) + [Truncate(size, p), MakeXfs(p)]
    {
      hide Undoable, Under;
      stray := None;
      ok := Command(Truncate(size, p));
      if !ok {
        if strays {
          fs, stray := fs[p := File(torn)], Some(p);
          assert Without(fs, stray) == old(fs);
        }
        return;
      }
      RecordUndoable(init, fs, log, targets, p);
      UnderCreated(log, p, p);
      WriteUndoable(init, fs, Created(log, p), targets, p, torn);
      fs := fs[p := File(torn)];
      log := Created(log, p);
      ok := Command(MakeXfs(p));
      WriteUndoable(init, fs, log, targets, p, blank);
      fs := fs[p := File(blank)];
      assert fs == old(fs)[p := File(blank)];
    }

    method EnsureXfsImage(p: Path, size: Bytes, ghost init: Tree, ghost targets: set<Path>) returns (ok: bool, ghost stray: Option<Path>)
      requires Undoable(init, fs, log, targets) && p in targets
      modifies this`fs, this`log, this`issued, this`good
      ensures Undoable(init, Without(fs, stray), log, targets)
      ensures Kept(old(fs), fs, {}) && Grown(old(fs), fs, targets, {})
      ensures ok ==> p in fs && stray == None && fs == MadeImage(old(fs), p, blank)
      ensures stray.Some? ==> strays && Stray(Without(fs, stray), fs, stray.value, p, torn)
      ensures ok ==> p in old(fs) || CanMake(old(fs), Up(p))
      ensures (p in old(fs) || CanMake(old(fs), Up(p))) && old(good) >= 3 ==> ok
      ensures good + 3 >= old(good)
      ensures ok ==> issued == old(issued) + if p in old(fs) then [] else [Truncate(size, p), MakeXfs(p)]
    {
      hide Undoable, MakeDirs;
      stray := None;
      if p in fs { return true, None; }
      RootThere(init, fs, log, targets);
      var up := p[..|p| - 1];
      assert up < p;
      ok := CreateDirAllUnrecorded(up, init, targets, p);
      if !ok { return; }
      // Its directory is there and the file itself is still absent.
      MakeDirsAt(old(fs), up, p);
      MakeDirsAt(old(fs), up, up);
      ok, stray := MakeImage(p, size, init, targets);
    }

    // Only mount points that are already active.
    method EnsureActiveMount(mount: Path, ghost init: Tree, ghost targets: set<Path>) returns (ok: bool)
      requires Undoable(init, fs, log, targets) && mount in targets && mount in mounts
      modifies this`fs, this`log, this`issued, this`good
      ensures Undoable(init, fs, log, targets) && Kept(old(fs), fs, {}) && Grown(old(fs), fs, targets, {})
      ensures ok ==> mount in fs && fs == MadeDir(old(fs), mount) && Makeable(old(fs), mount)
      ensures (Makeable(old(fs), mount) && old(good) >= 2 ==> ok) && good + 2 >= old(good)
      ensures ok ==> issued == old(issued) + [FindMount(mount)]
    {
      ok := CreateDirAllRecorded(mount, init, targets, mount);
      if ok { ok := Command(FindMount(mount)); }
    }

    method EnsureFstabEntry(image: Path, mount: Path, ghost init: Tree, ghost targets: set<Path>) returns (ok: bool)
      requires Undoable(init, fs, log, targets)
      modifies this`fs, this`log, this`good
      ensures Undoable(init, fs, log, targets)
      ensures Kept(old(fs), fs, {FstabPath()}) && Grown(old(fs), fs, targets, {FstabPath()})
      ensures ok ==>
        FileBytes(fs, FstabPath()) == Fstab.Ensure(FileBytes(old(fs), FstabPath()), Text(image), Text(mount))
      ensures ok ==> fs == WithEntry(old(fs), image, mount) && EntryFeasible(old(fs), mount)
      ensures (EntryFeasible(old(fs), mount) && old(good) >= 3 ==> ok) && good + 3 >= old(good)
    {
      hide Fstab.HasMountEntry, Fstab.Append, Text, FstabPath, CanMake;
      var content;
      ok, content := ReadOptional(FstabPath());
      if !ok { return; }
      var current := if content.Some? then content.value else [];
      assert current == FileBytes(fs, FstabPath());
      if Fstab.HasMountEntry(current, Text(mount)) { return true; }
      ok := BackupFile(FstabPath(), init, targets);
      if !ok { return; }
      ok := CoveredWrite(FstabPath(), Fstab.Append(current, Text(image), Text(mount)), init, targets);
    }

    method WriteSlotMetadata(file: Path, content: Bytes, ghost init: Tree, ghost targets: set<Path>)
      returns (ok: bool)
      requires Undoable(init, fs, log, targets)
      modifies this`fs, this`log, this`good
      ensures Undoable(init, fs, log, targets) && Kept(old(fs), fs, {file}) && Grown(old(fs), fs, targets, {file})
      ensures ok ==> fs == old(fs)[file := File(content)] && Writable(old(fs), file)
      ensures (Writable(old(fs), file) && old(good) >= 2 ==> ok) && good + 2 >= old(good)
    {
      if file in fs {
        ok := BackupFile(file, init, targets);
        if !ok { return; }
      } else {
        RecordUndoable(init, fs, log, targets, file);
        UnderCreated(log, file, file);
        log := Created(log, file);
      }
      ok := CoveredWrite(file, content, init, targets);
    }

    // The parent and then the slot directory itself.
    method MakeSlotDirs(slot: Path, ghost init: Tree, ghost targets: set<Path>, ghost t: Path) returns (ok: bool)
      requires Undoable(init, fs, log, targets) && t in targets && slot <= t
      modifies this`fs, this`log, this`good
      ensures Undoable(init, fs, log, targets) && Kept(old(fs), fs, {}) && Grown(old(fs), fs, targets, {})
      ensures ok ==> fs == MadeSlot(old(fs), slot)
      ensures ok ==> Makeable(old(fs), Up(slot)) && Makeable(MadeDir(old(fs), Up(slot)), slot)
      ensures Makeable(old(fs), Up(slot)) && Makeable(MadeDir(old(fs), Up(slot)), slot) && old(good) >= 2 ==> ok
      ensures good + 2 >= old(good)
    {
      hide Undoable, MadeDir, CanMake;
      assert Up(slot) <= t;
      ok := CreateDirAllRecorded(Up(slot), init, targets, t);
      if !ok { return; }
      ok := CreateDirAllRecorded(slot, init, targets, t);
    }

    method EnsureQuotaSlot(config: Config, json: SlotMetadata -> Bytes, a: Action,
                           ghost init: Tree, ghost targets: set<Path>) returns (ok: bool)
      requires a.EnsureSlot? && Undoable(init, fs, log, targets) && Target(config, a) <= targets
      modifies this`fs, this`log, this`issued, this`good
      ensures Undoable(init, fs, log, targets)
      ensures Kept(old(fs), fs, Rewrites(config, a)) && Grown(old(fs), fs, targets, Rewrites(config, a))
      ensures ok ==> SlotReady(config, json, a, fs) && Feasible(config, a, old(fs))
      ensures ok ==> fs == Effect(config, json, blank, a, old(fs))
      ensures (Feasible(config, a, old(fs)) && old(good) >= 6 ==> ok) && good + 6 >= old(good)
      ensures ok ==> issued == old(issued) + Commands(config, a, old(fs))
    {
      hide Ascii, SlotPath, Undoable, MadeSlot, Makeable, MadeDir, Writable;
      var slot := SlotDir(config, a);
      var file := MetadataFile(slot);
      assert file in Target(config, a);
      assert slot <= file;
      ok := MakeSlotDirs(slot, init, targets, file);
      if !ok { return; }
      var mount, metadata := PhaseMount(config, a.phase), PlannedMetadata(config, a);
      ok := Command(AssignProject(mount, slot, a.projectId));
      if !ok { return; }
      ok := Command(LimitProject(mount, a.classMb, metadata.inodeHardLimit, a.projectId));
      if !ok { return; }
      ok := WriteSlotMetadata(file, json(metadata), init, targets);
      if ok { SlotIsDir(init, fs, log, targets, slot, file); }
    }

    // Gives the writable roots that exist to the service.
    method ChownPaths(paths: seq<Path>) returns (ok: bool)
      modifies this`issued, this`good
      ensures ok ==> issued == old(issued) + OwnerCommands(paths, fs)
      ensures (old(good) >= 2 * |paths| ==> ok) && good + 2 * |paths| >= old(good)
    {
      ok := true;
      for i := 0 to |paths|
        invariant ok && issued == old(issued) + OwnerCommands(paths[..i], fs)
        invariant good + 2 * i >= old(good)
      {
        assert paths[..i + 1][..i] == paths[..i];
        if paths[i] in fs {
          ok := Command(ChangeOwner(paths[i]));
          if !ok { return; }
          ok := Command(ChangeMode(paths[i]));
          if !ok { return; }
        }
      }
      assert paths[..|paths|] == paths;
    }

    /** `apply_action` */
    method ApplyAction(config: Config, json: SlotMetadata -> Bytes, a: Action, ghost init: Tree, ghost targets: set<Path>)
      returns (ok: bool, ghost stray: Option<Path>)
      requires Undoable(init, fs, log, targets) && Target(config, a) <= targets
      requires a.EnsureMount? ==> a.mount in mounts
      modifies this`fs, this`log, this`issued, this`good
      ensures Undoable(init, Without(fs, stray), log, targets)
      ensures Kept(old(fs), fs, Rewrites(config, a)) && Grown(old(fs), fs, targets, Rewrites(config, a))
      ensures ok ==> stray == None && Achieved(config, json, a, old(fs), fs)
      ensures ok ==> fs == Effect(config, json, blank, a, old(fs)) && Feasible(config, a, old(fs))
      ensures (Feasible(config, a, old(fs)) && old(good) >= 10 ==> ok) && good + 10 >= old(good)
      ensures ok ==> issued == old(issued) + Commands(config, a, old(fs))
      ensures stray.Some? ==> strays && a.EnsureImage? && Stray(Without(fs, stray), fs, stray.value, a.path, torn)
    {
      hide Undoable, FstabPath, MetadataFile, SlotReady, Fstab.Ensure, SlotPath, Grown, MadeDir, MadeImage, MadeSlot, WithEntry, CanMake, OwnerCommands, OwnedPaths;
      stray := None;
      match a
      case EnsureDir(path) => ok := CreateDirAllRecorded(path, init, targets, path);
      case EnsureImage(path, size) => ok, stray := EnsureXfsImage(path, size, init, targets);
      case EnsureMount(_, mount) => ok := EnsureActiveMount(mount, init, targets);
      case EnsureFstab(image, mount) => ok := EnsureFstabEntry(image, mount, init, targets);
      case EnsureSlot(_, _, _, _) => ok := EnsureQuotaSlot(config, json, a, init, targets);
      case ChownOwnedPaths =>
        ok := ChownPaths(OwnedPaths(config));
        NothingGrown(fs, targets, Rewrites(config, a));
    }

    /** `RollbackLog::rollback`, when its own input and output goes well and nothing was mounted. */
    method Rollback()
      modifies this`fs
      ensures fs == RolledBack(old(fs), log)
    {
      for i := 0 to |log.backups|
        invariant fs == RestoreAll(old(fs), log.backups[..i])
      {
        fs := RestoreOne(fs, log.backups[i]);
        assert log.backups[..i + 1][..i] == log.backups[..i];
      }
      assert log.backups[..|log.backups|] == log.backups;
      assert log.created[..|log.created|] == log.created;
      ghost var mid := fs;
      for i := |log.created| downto 0
        invariant RemoveAll(fs, log.created[..i]) == RemoveAll(mid, log.created)
      {
        assert log.created[..i + 1][..i] == log.created[..i];
        fs := RemoveOne(fs, log.created[i]);
      }
    }

    /** The apply loop of `prepare_storage_config`. */
    method Prepare(config: Config, json: SlotMetadata -> Bytes) returns (ok: bool, ghost stray: Option<Path>)
      requires WellFormed(fs) && log == Log([], [])
      requires NoRepeats(config.phases) && NoRepeats(config.classes)
      requires forall i :: 0 <= i < |Plan(config)| && Plan(config)[i].EnsureMount? ==> Plan(config)[i].mount in mounts
      modifies this`fs, this`log, this`issued, this`good
      ensures !ok ==> Restored(old(fs), Without(fs, stray), Targets(config, Plan(config)))
      ensures StrayLeft(old(fs), fs, log, config, stray, torn) && (stray.Some? ==> !ok && strays)
      ensures ok ==> forall a :: a in Plan(config) && a.EnsureSlot? ==> SlotReady(config, json, a, fs)
      ensures ok ==> Undoable(old(fs), fs, log, Targets(config, Plan(config)))
      ensures ok ==> FstabDone(old(fs), fs, Plan(config), Targets(config, Plan(config)))
      // The tree is exactly what the actions make of the initial one, and everything is in place.
      ensures ok ==> fs == Effects(config, json, blank, Plan(config), old(fs)) && AllInPlace(config, Plan(config), old(fs), fs)
      // Exactly the commands of the plan were issued.
      ensures ok ==> issued == old(issued) + AllCommands(config, json, blank, Plan(config), old(fs))
      // The run succeeds if its operations go well and nothing is in the way.
      ensures old(good) >= 10 * |Plan(config)| && Unobstructed(config, Plan(config), old(fs)) ==> ok
    {
      hide Undoable, Plan, Midway, SlotPathsApart, Target, Targets, Rewrites, Restored, FstabDone, AllInPlace, Unobstructed, Kept, Grown, Achieved, Effect, Effects, Feasible, Commands, AllCommands;
      var actions := FromConfig(config);
      ghost var targets := Targets(config, actions);
      PlanPathsDistinct(config);
      MidwayStart(config, json, blank, actions, fs);
      NoCommands(config, json, blank, actions, fs);
      for i := 0 to |actions|
        invariant Midway(config, json, blank, actions, i, old(fs), fs, log)
        invariant good + 10 * i >= old(good)
        invariant issued == old(issued) + AllCommands(config, json, blank, actions[..i], old(fs))
      {
        MidwayFacts(config, json, blank, actions, i, old(fs), fs, log);
        ghost var before, logged := fs, log;
        ok, stray := ApplyAction(config, json, actions[i], old(fs), targets);
        if !ok {
          RollbackRestoresBut(old(fs), Without(fs, stray), fs, log, targets, actions[i], stray, torn);
          assert actions[i] in actions;
          Rollback();
          return;
        }
        CommandsNext(config, json, blank, actions, i, old(fs));
        MidwayStep(config, json, blank, actions, i, old(fs), before, logged, fs, log);
      }
      assert actions[..|actions|] == actions;
      MidwayEnd(config, json, blank, actions, old(fs), fs, log);
      ok, stray := true, None;
    }
  }

  /** What the apply loop has established after i actions. */
  ghost predicate Midway(config: Config, json: SlotMetadata -> Bytes, blank: Bytes, actions: seq<Action>, i: nat, init: Tree, fs: Tree, log: Log) {
    var targets := Targets(config, actions);
    && i <= |actions| && Undoable(init, fs, log, targets)
    && (forall j :: 0 <= j < i && actions[j].EnsureSlot? ==> SlotReady(config, json, actions[j], fs))
    && FstabDone(init, fs, actions[..i], targets)
    && fs == Effects(config, json, blank, actions[..i], init)
    && (forall j :: 0 <= j < i ==> Feasible(config, actions[j], Effects(config, json, blank, actions[..j], init)))
  }

  lemma {:induction false} NoCommands(config: Config, json: SlotMetadata -> Bytes, blank: Bytes, actions: seq<Action>, fs: Tree)
    ensures AllCommands(config, json, blank, actions[..0], fs) == []
  {}

  lemma {:induction false} MidwayStart(config: Config, json: SlotMetadata -> Bytes, blank: Bytes, actions: seq<Action>, fs: Tree)
    requires WellFormed(fs)
    ensures Midway(config, json, blank, actions, 0, fs, fs, Log([], []))
  {
    hide Undoable, FstabDone;
    StartUndoable(fs, Targets(config, actions));
    StartFstab(fs, actions, Targets(config, actions));
    assert actions[..0] == [];
  }

  // The next action can be applied, and is feasible if nothing was in the way at the start.
  lemma {:induction false} MidwayFacts(config: Config, json: SlotMetadata -> Bytes, blank: Bytes, actions: seq<Action>,
                                       i: nat, init: Tree, fs: Tree, log: Log)
    ensures Midway(config, json, blank, actions, i, init, fs, log) && i < |actions| ==>
      && Undoable(init, fs, log, Targets(config, actions))
      && fs == Effects(config, json, blank, actions[..i], init)
      && Target(config, actions[i]) <= Targets(config, actions)
      && (Unobstructed(config, actions, init) ==> Feasible(config, actions[i], fs))
  {
    hide Undoable, FstabDone, SlotReady, Feasible, Unobstructed, Shaped, Effect, Target;
    if Midway(config, json, blank, actions, i, init, fs, log) && i < |actions| {
      UndoableWellFormed(init, fs, log, Targets(config, actions));
      EffectsShaped(config, json, blank, actions, i, init);
      if Unobstructed(config, actions, init) { UnobstructedFeasible(config, actions, init, fs, i); }
    }
  }

  lemma {:induction false} MidwayStep(config: Config, json: SlotMetadata -> Bytes, blank: Bytes, actions: seq<Action>, i: nat, init: Tree,
                                      before: Tree, logged: Log, after: Tree, log: Log)
    requires SlotPathsApart(config.phaseMountRoot, actions)
    requires Midway(config, json, blank, actions, i, init, before, logged) && i < |actions|
    requires var a, targets := actions[i], Targets(config, actions);
      && Undoable(init, after, log, targets)
      && Kept(before, after, Rewrites(config, a)) && Grown(before, after, targets, Rewrites(config, a))
      && Achieved(config, json, a, before, after)
      && after == Effect(config, json, blank, a, before) && Feasible(config, a, before)
    ensures Midway(config, json, blank, actions, i + 1, init, after, log)
  {
    hide Undoable, FstabDone, SlotReady, Feasible, Effect, Effects, Target, Targets, Rewrites, Kept, Grown, Achieved;
    forall j | 0 <= j < i && actions[j].EnsureSlot? ensures SlotReady(config, json, actions[j], after) {
      EarlierSlotKept(config, json, actions, j, i, before, after);
    }
    if actions[i].EnsureSlot? { AchievedSlot(config, json, actions[i], before, after); }
    FstabStep(config, json, init, actions, Targets(config, actions), i, before, after);
    EffectsNext(config, json, blank, actions, i, init);
  }

  lemma {:induction false} MidwayEnd(config: Config, json: SlotMetadata -> Bytes, blank: Bytes, actions: seq<Action>,
                                     init: Tree, fs: Tree, log: Log)
    ensures Midway(config, json, blank, actions, |actions|, init, fs, log) ==>
      && (forall a :: a in actions && a.EnsureSlot? ==> SlotReady(config, json, a, fs))
      && Undoable(init, fs, log, Targets(config, actions))
      && FstabDone(init, fs, actions, Targets(config, actions))
      && fs == Effects(config, json, blank, actions, init) && AllInPlace(config, actions, init, fs)
  {
    hide Undoable, FstabDone, SlotReady, Feasible, Effect, AllInPlace;
    if Midway(config, json, blank, actions, |actions|, init, fs, log) {
      assert actions[..|actions|] == actions;
      PlanInPlace(config, json, blank, actions, init);
    }
  }

  // p is a file with this content on top of a tree that lacks it.
  ghost predicate Stray(base: Tree, fs: Tree, p: Path, image: Path, content: Bytes) {
    p == image && p !in base && Writable(base, p) && fs == base[p := File(content)]
  }

  lemma {:induction false} RollbackRestoresBut(init: Tree, base: Tree, fs: Tree, log: Log, targets: set<Path>,
                                               a: Action, stray: Option<Path>, content: Bytes)
    requires Undoable(init, base, log, targets) && (stray.None? ==> base == fs)
    requires stray.Some? ==> a.EnsureImage? && Stray(base, fs, stray.value, a.path, content)
    ensures var r := RolledBack(fs, log);
      && Restored(init, Without(r, stray), targets)
      && (stray.Some? ==>
            && stray.value !in init
            && (stray.value in r <==> !Under(stray.value, log) && !Absent(stray.value, log))
            && (stray.value in r ==> r[stray.value] == File(content)))
  {
    hide Undoable, RolledBack, Under, Absent;
    RollbackRestores(init, base, log, targets);
    if stray.Some? { RollbackWithStray(init, base, log, targets, stray.value, content); }
  }

  lemma {:induction false} MakeDirsGrows(fs: Tree, q: Path, targets: set<Path>, t: Path)
    requires t in targets && q <= t
    ensures Kept(fs, MakeDirs(fs, q), {}) && Grown(fs, MakeDirs(fs, q), targets, {})
  {
    hide MakeDirs;
    var next := MakeDirs(fs, q);
    forall r ensures r in fs ==> r in next && next[r] == fs[r] { MakeDirsAt(fs, q, r); }
    forall r | r in next && r !in fs ensures Reached(r, targets) {
      MakeDirsAt(fs, q, r);
      assert r <= q <= t;
    }
  }

  lemma {:induction false} NothingGrown(fs: Tree, targets: set<Path>, except: set<Path>)
    ensures Grown(fs, fs, targets, except)
  {}

  lemma {:induction false} UndoableWellFormed(init: Tree, fs: Tree, log: Log, targets: set<Path>)
    requires Undoable(init, fs, log, targets)
    ensures WellFormed(fs)
  {}

  lemma {:induction false} RootThere(init: Tree, fs: Tree, log: Log, targets: set<Path>)
    requires Undoable(init, fs, log, targets)
    ensures [] in fs
  {}

  // In a well-formed tree the directory of a file is a directory.
  lemma {:induction false} SlotIsDir(init: Tree, fs: Tree, log: Log, targets: set<Path>, slot: Path, file: Path)
    requires Undoable(init, fs, log, targets) && file == MetadataFile(slot) && file in fs
    ensures slot in fs && fs[slot].Dir?
  {
    assert HasParent(fs, file);
    assert file[..|file| - 1] == slot;
  }

  lemma {:induction false} AchievedSlot(config: Config, json: SlotMetadata -> Bytes, a: Action, before: Tree, after: Tree)
    requires a.EnsureSlot? && Achieved(config, json, a, before, after)
    ensures SlotReady(config, json, a, after)
  {}

  lemma {:induction false} StartFstab(fs: Tree, actions: seq<Action>, targets: set<Path>)
    ensures FstabDone(fs, fs, actions[..0], targets)
  {}

  // An fstab action adds its entry if it is missing, and no other action touches the fstab.
  lemma {:induction false} FstabStep(config: Config, json: SlotMetadata -> Bytes, init: Tree, actions: seq<Action>,
                                     targets: set<Path>, i: nat, before: Tree, after: Tree)
    requires i < |actions| && FstabDone(init, before, actions[..i], targets)
    requires var a := actions[i];
      && Kept(before, after, Rewrites(config, a)) && Grown(before, after, targets, Rewrites(config, a))
      && Achieved(config, json, a, before, after)
    ensures FstabDone(init, after, actions[..i + 1], targets)
  {
    hide FstabPath, MetadataFile, SlotReady, Fstab.Ensure, Fstab.EnsureAll, Text, SlotPath, Reached;
    var a := actions[i];
    assert actions[..i + 1][..i] == actions[..i];
    if a.EnsureSlot? { NotFstab(SlotDir(config, a)); }
    if a.EnsureFstab? {
      Fstab.EnsureAllStep(FileBytes(init, FstabPath()), FstabSteps(actions[..i]), Text(a.image), Text(a.mount));
    } else {
      assert FstabSteps(actions[..i + 1]) == FstabSteps(actions[..i]);
    }
  }

  // No later action overwrites the metadata of an earlier slot.
  lemma {:induction false} EarlierSlotKept(config: Config, json: SlotMetadata -> Bytes, actions: seq<Action>, j: nat, i: nat, before: Tree, after: Tree)
    requires SlotPathsApart(config.phaseMountRoot, actions)
    requires j < i < |actions| && actions[j].EnsureSlot?
    requires SlotReady(config, json, actions[j], before)
    requires Kept(before, after, Rewrites(config, actions[i]))
    ensures SlotReady(config, json, actions[j], after)
  {
    hide SlotPath, Ascii;
    var a, b := actions[j], actions[i];
    var slot := SlotDir(config, a);
    NotFstab(slot);
    NotMetadata(config, slot, a);
    if b.EnsureSlot? {
      assert slot != SlotDir(config, b);
      var other := SlotDir(config, b);
      MetadataFileInjective(slot, other);
      NotMetadata(config, slot, b);
    }
  }

  lemma {:induction false} NotFstab(slot: Path)
    ensures MetadataFile(slot) != FstabPath()
  {
    var file := MetadataFile(slot);
    assert |file[|file| - 1]| == 19;
    assert |FstabPath()[1]| == 5;
  }

  lemma {:induction false} MetadataFileInjective(s: Path, t: Path)
    ensures MetadataFile(s) == MetadataFile(t) ==> s == t
  {
    assert MetadataFile(s)[..|MetadataFile(s)| - 1] == s;
    assert MetadataFile(t)[..|MetadataFile(t)| - 1] == t;
  }

  // A slot directory is not a metadata file: its last component starts with "s", not a dot.
  lemma {:induction false} NotMetadata(config: Config, slot: Path, a: Action)
    requires a.EnsureSlot? && exists p, c, i :: slot == SlotPath(config.phaseMountRoot, p, c, i)
    ensures slot != MetadataFile(SlotDir(config, a)) && slot != FstabPath()
  {
    var p, c, i :| slot == SlotPath(config.phaseMountRoot, p, c, i);
    var last := slot[|slot| - 1];
    assert last == SlotName(i);
    assert last[0] == "slot-"[0] as int;
    var file := MetadataFile(SlotDir(config, a));
    assert file[|file| - 1][0] == ".agentics-slot.json"[0] as int;
    assert FstabPath()[1][0] == "fstab"[0] as int;
  }
}
