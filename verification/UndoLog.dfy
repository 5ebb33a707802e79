/** A file tree and the undo log that storage preparation keeps: what every recorded
    step maintains, and what rolling the log back restores. */
module UndoLog {
  import opened Options
  import opened ByteStrings

  datatype Node = Dir | File(content: Bytes)

  type Tree = map<Path, Node>

  // Every entry lies in a directory, up to the root.
  ghost predicate WellFormed(fs: Tree) {
    && [] in fs && fs[[]].Dir?
    && forall p :: p in fs && p != [] ==> HasParent(fs, p)
  }

  predicate HasParent(fs: Tree, p: Path)
    requires p != []
  {
    p[..|p| - 1] in fs && fs[p[..|p| - 1]].Dir?
  }

  lemma {:induction false} AncestorsAreDirs(fs: Tree, q: Path, p: Path)
    requires WellFormed(fs) && p in fs && q < p
    ensures q in fs && fs[q].Dir?
    decreases |p|
  {
    assert HasParent(fs, p);
    var up := p[..|p| - 1];
    if q != up {
      assert q <= up;
      AncestorsAreDirs(fs, q, up);
    }
  }

  // ---------------------------------------------------------------------------
  // Primitive operations

  function Prefixes(p: Path): set<Path> { set k | 0 <= k <= |p| :: p[..k] }

  lemma {:induction false} PrefixesMembers(p: Path, q: Path)
    ensures q in Prefixes(p) <==> q <= p
  {
    if q <= p { assert q == p[..|q|]; }
  }

  // `create_dir_all` can succeed: no file is in the way.
  ghost predicate CanMake(fs: Tree, p: Path) { forall q :: q <= p && q in fs ==> fs[q].Dir? }

  function MakeDirs(fs: Tree, p: Path): Tree { fs + (map q | q in Prefixes(p) && q !in fs :: Dir) }

  lemma {:induction false} MakeDirsAt(fs: Tree, p: Path, q: Path)
    ensures q in MakeDirs(fs, p) <==> q in fs || q <= p
    ensures q in fs ==> MakeDirs(fs, p)[q] == fs[q]
    ensures q !in fs && q <= p ==> MakeDirs(fs, p)[q] == Dir
  {
    PrefixesMembers(p, q);
  }

  lemma {:induction false} MakeDirsWellFormed(fs: Tree, p: Path)
    requires WellFormed(fs) && CanMake(fs, p)
    ensures WellFormed(MakeDirs(fs, p))
  {
    hide MakeDirs;
    var next := MakeDirs(fs, p);
    MakeDirsAt(fs, p, []);
    forall q | q in next && q != [] ensures HasParent(next, q) {
      var up := q[..|q| - 1];
      MakeDirsAt(fs, p, q);
      MakeDirsAt(fs, p, up);
      if q in fs { assert HasParent(fs, q); } else { assert up <= q <= p; }
    }
  }

  // A write replaces a file, or makes one in an existing directory.
  predicate Writable(fs: Tree, p: Path) {
    p != [] && if p in fs then fs[p].File? else HasParent(fs, p)
  }

  lemma {:induction false} WriteWellFormed(fs: Tree, p: Path, content: Bytes)
    requires WellFormed(fs) && Writable(fs, p)
    ensures WellFormed(fs[p := File(content)])
  {
    var next := fs[p := File(content)];
    forall q | q in next && q != [] ensures HasParent(next, q) {
      var up := q[..|q| - 1];
      if q == p {
        if p in fs { assert HasParent(fs, p); }
        assert up != p;
      } else {
        assert HasParent(fs, q);
      }
    }
  }

  // ---------------------------------------------------------------------------
  // The log

  datatype Backup = Backup(path: Path, content: Option<Bytes>)

  datatype Log = Log(created: seq<Path>, backups: seq<Backup>)

  // At or below something the log says this run created.
  ghost predicate Under(p: Path, log: Log) { exists i :: 0 <= i < |log.created| && log.created[i] <= p }

  ghost predicate Backed(p: Path, log: Log) { exists i :: 0 <= i < |log.backups| && log.backups[i].path == p }

  // Recorded as absent before the run.
  ghost predicate Absent(p: Path, log: Log) { Backup(p, None) in log.backups }

  // A directory on the way to something the plan asks for.
  ghost predicate Ancestral(p: Path, targets: set<Path>) { exists t :: t in targets && p < t }

  ghost predicate BackupSound(b: Backup, init: Tree, fs: Tree, log: Log) {
    && (b.path in init ==> init[b.path].File? && b.content == Some(init[b.path].content))
    && (b.content.Some? ==> b.path in fs && fs[b.path].File?)
    && (b.path !in init && b.content.Some? ==> Under(b.path, log))
  }

  ghost predicate OldSound(p: Path, init: Tree, fs: Tree, log: Log)
    requires p in init
  {
    p in fs && (init[p].Dir? <==> fs[p].Dir?) && (fs[p] == init[p] || Backed(p, log))
  }

  ghost predicate NewSound(p: Path, fs: Tree, log: Log, targets: set<Path>)
    requires p in fs
  {
    Under(p, log) || if fs[p].Dir? then Ancestral(p, targets) else Absent(p, log)
  }

  /** What every step of a run keeps: each difference from the initial tree is covered by the
      log, except directories made on the way to a target. */
  ghost predicate Undoable(init: Tree, fs: Tree, log: Log, targets: set<Path>) {
    && WellFormed(init) && WellFormed(fs)
    && (forall p :: p in init ==> OldSound(p, init, fs, log))
    && (forall p :: p in fs && p !in init ==> NewSound(p, fs, log, targets))
    && (forall b :: b in log.backups ==> BackupSound(b, init, fs, log))
    && (forall i, j :: 0 <= i < j < |log.backups| ==> log.backups[i].path != log.backups[j].path)
    && (forall i :: 0 <= i < |log.created| ==> log.created[i] !in init)
  }

  lemma {:induction false} StartUndoable(fs: Tree, targets: set<Path>)
    requires WellFormed(fs)
    ensures Undoable(fs, fs, Log([], []), targets)
  {}

  // Directories that are not recorded: they lead to a target.
  lemma {:induction false} MakeDirsUndoable(init: Tree, fs: Tree, log: Log, targets: set<Path>, p: Path)
    requires Undoable(init, fs, log, targets) && CanMake(fs, p) && Ancestral(p, targets)
    ensures Undoable(init, MakeDirs(fs, p), log, targets)
  {
    hide MakeDirs, WellFormed, CanMake;
    var next := MakeDirs(fs, p);
    MakeDirsWellFormed(fs, p);
    forall q ensures q in fs ==> q in next && next[q] == fs[q] { MakeDirsAt(fs, p, q); }
    forall q | q in next && q !in init ensures NewSound(q, next, log, targets) {
      MakeDirsAt(fs, p, q);
      var t :| t in targets && p < t;
      if q in fs { assert NewSound(q, fs, log, targets); } else { assert q < t; }
    }
    forall q | q in init ensures OldSound(q, init, next, log) { assert OldSound(q, init, fs, log); }
    forall b | b in log.backups ensures BackupSound(b, init, next, log) { assert BackupSound(b, init, fs, log); }
  }

  function Created(log: Log, p: Path): Log { log.(created := log.created + [p]) }

  lemma {:induction false} UnderCreated(log: Log, p: Path, q: Path)
    ensures Under(q, Created(log, p)) <==> Under(q, log) || p <= q
  {
    var next := Created(log, p).created;
    assert next[|log.created|] == p;
    assert forall i :: 0 <= i < |log.created| ==> next[i] == log.created[i];
  }

  // Recording a path that does not exist yet.
  lemma {:induction false} RecordUndoable(init: Tree, fs: Tree, log: Log, targets: set<Path>, p: Path)
    requires Undoable(init, fs, log, targets) && p !in fs
    ensures Undoable(init, fs, Created(log, p), targets)
  {
    hide WellFormed, Ancestral;
    var next := Created(log, p);
    forall q ensures Under(q, log) ==> Under(q, next) { UnderCreated(log, p, q); }
    assert p in init ==> OldSound(p, init, fs, log);
    forall q | q in init ensures OldSound(q, init, fs, next) { assert OldSound(q, init, fs, log); }
    forall q | q in fs && q !in init ensures NewSound(q, fs, next, targets) { assert NewSound(q, fs, log, targets); }
    forall b | b in next.backups ensures BackupSound(b, init, fs, next) { assert BackupSound(b, init, fs, log); }
  }

  /** `create_dir_all_recorded` on an absent path: only the path itself is recorded. */
  lemma {:induction false} RecordedDirUndoable(init: Tree, fs: Tree, log: Log, targets: set<Path>, p: Path, t: Path)
    requires Undoable(init, fs, log, targets) && p !in fs && CanMake(fs, p) && t in targets && p <= t
    ensures Undoable(init, MakeDirs(fs, p), Created(log, p), targets)
  {
    hide MakeDirs, WellFormed, CanMake;
    RecordUndoable(init, fs, log, targets, p);
    var next, made := Created(log, p), MakeDirs(fs, p);
    MakeDirsWellFormed(fs, p);
    forall q ensures q in fs ==> q in made && made[q] == fs[q] { MakeDirsAt(fs, p, q); }
    forall q | q in made && q !in init ensures NewSound(q, made, next, targets) {
      MakeDirsAt(fs, p, q);
      UnderCreated(log, p, q);
      if q in fs { assert NewSound(q, fs, next, targets); } else if q != p { assert q < t; }
    }
    forall q | q in init ensures OldSound(q, init, made, next) { assert OldSound(q, init, fs, next); }
    forall b | b in next.backups ensures BackupSound(b, init, made, next) { assert BackupSound(b, init, fs, next); }
  }

  // Nothing initially present lies at or below a created path.
  lemma {:induction false} NotUnder(init: Tree, fs: Tree, log: Log, targets: set<Path>, p: Path)
    requires Undoable(init, fs, log, targets) && p in init
    ensures !Under(p, log)
  {
    forall i | 0 <= i < |log.created| ensures !(log.created[i] <= p) { UpwardClosed(init, log.created[i], p); }
  }

  lemma {:induction false} UpwardClosed(fs: Tree, q: Path, p: Path)
    requires WellFormed(fs) && p in fs
    ensures q <= p ==> q in fs
  {
    if q <= p {
      if |q| < |p| { AncestorsAreDirs(fs, q, p); } else { assert q == p; }
    }
  }

  // Writing a path that the log covers.
  lemma {:induction false} WriteUndoable(init: Tree, fs: Tree, log: Log, targets: set<Path>, p: Path, content: Bytes)
    requires Undoable(init, fs, log, targets) && Writable(fs, p)
    requires Backed(p, log) || Under(p, log)
    ensures Undoable(init, fs[p := File(content)], log, targets)
  {
    hide WellFormed, Ancestral, Under;
    var next := fs[p := File(content)];
    WriteWellFormed(fs, p, content);
    forall q | q in init ensures OldSound(q, init, next, log) {
      assert OldSound(q, init, fs, log);
      if q == p { NotUnder(init, fs, log, targets, p); }
    }
    forall q | q in next && q !in init ensures NewSound(q, next, log, targets) {
      if q != p {
        assert NewSound(q, fs, log, targets);
      } else if !Under(p, log) {
        var i :| 0 <= i < |log.backups| && log.backups[i].path == p;
        assert BackupSound(log.backups[i], init, fs, log);
        assert log.backups[i] == Backup(p, None);
      }
    }
    forall b | b in log.backups ensures BackupSound(b, init, next, log) { assert BackupSound(b, init, fs, log); }
  }

  function Saved(log: Log, p: Path, content: Option<Bytes>): Log { log.(backups := log.backups + [Backup(p, content)]) }

  // What `read_optional_file_bytes` returns when it succeeds.
  predicate Reads(fs: Tree, p: Path, content: Option<Bytes>) {
    if p in fs then fs[p].File? && content == Some(fs[p].content) else content == None
  }

  /** `backup_file` on a path without a backup: the first backup is the initial state. */
  lemma {:induction false} BackupUndoable(init: Tree, fs: Tree, log: Log, targets: set<Path>, p: Path, content: Option<Bytes>)
    requires Undoable(init, fs, log, targets) && !Backed(p, log) && Reads(fs, p, content)
    ensures Undoable(init, fs, Saved(log, p, content), targets) && Backed(p, Saved(log, p, content))
  {
    hide WellFormed, Ancestral;
    var next := Saved(log, p, content);
    assert next.backups[|log.backups|].path == p;
    assert forall b :: b in log.backups ==> Backed(b.path, log);
    forall q ensures Backed(q, log) ==> Backed(q, next) {
      if i :| 0 <= i < |log.backups| && log.backups[i].path == q { assert next.backups[i].path == q; }
    }
    assert forall q :: Under(q, log) ==> Under(q, next);
    forall q | q in init ensures OldSound(q, init, fs, next) { assert OldSound(q, init, fs, log); }
    forall q | q in fs && q !in init ensures NewSound(q, fs, next, targets) { assert NewSound(q, fs, log, targets); }
    forall b | b in next.backups ensures BackupSound(b, init, fs, next) {
      if b in log.backups {
        assert BackupSound(b, init, fs, log);
      } else {
        assert b == Backup(p, content);
        if p in init { assert OldSound(p, init, fs, log); }
        if p in fs && p !in init {
          assert NewSound(p, fs, log, targets);
        }
      }
    }
  }

  // ---------------------------------------------------------------------------
  // Rolling back

  function RestoreOne(fs: Tree, b: Backup): Tree {
    match b.content
    case Some(bytes) => if Writable(fs, b.path) then fs[b.path := File(bytes)] else fs
    case None => if b.path in fs && fs[b.path].File? then fs - {b.path} else fs
  }

  // Backups in the order they were taken.
  function RestoreAll(fs: Tree, bs: seq<Backup>): Tree {
    if bs == [] then fs else RestoreOne(RestoreAll(fs, bs[..|bs| - 1]), bs[|bs| - 1])
  }

  function RemoveOne(fs: Tree, p: Path): Tree {
    if p !in fs then fs
    else if fs[p].Dir? then map q | q in fs && !(p <= q) :: fs[q]
    else fs - {p}
  }

  // Created paths from the last to the first.
  function RemoveAll(fs: Tree, cs: seq<Path>): Tree {
    if cs == [] then fs else RemoveAll(RemoveOne(fs, cs[|cs| - 1]), cs[..|cs| - 1])
  }

  function RolledBack(fs: Tree, log: Log): Tree { RemoveAll(RestoreAll(fs, log.backups), log.created) }

  ghost predicate RestoredAt(p: Path, fs: Tree, bs: seq<Backup>, r: Tree) {
    && (forall c :: Backup(p, Some(c)) in bs ==> p in r && r[p] == File(c))
    && (Backup(p, None) in bs ==> (p in r <==> p in fs && fs[p].Dir?))
    && ((forall i :: 0 <= i < |bs| ==> bs[i].path != p) ==> (p in r <==> p in fs))
    && ((forall c :: Backup(p, Some(c)) !in bs) && p in r ==> p in fs && r[p] == fs[p])
  }

  ghost predicate Restorable(fs: Tree, bs: seq<Backup>) {
    && WellFormed(fs)
    && (forall b :: b in bs && b.content.Some? ==> b.path in fs && fs[b.path].File?)
    && (forall i, j :: 0 <= i < j < |bs| ==> bs[i].path != bs[j].path)
  }

  lemma {:induction false} RemoveFileWellFormed(fs: Tree, p: Path)
    requires WellFormed(fs) && p in fs && fs[p].File?
    ensures WellFormed(fs - {p})
  {
    forall q | q in fs - {p} && q != [] ensures HasParent(fs - {p}, q) { assert HasParent(fs, q); }
  }

  // One more backup restored: at its own path, and nowhere else.
  lemma {:induction false} RestoreOneAt(m: Tree, b: Backup)
    requires WellFormed(m) && (b.content.Some? ==> b.path in m && m[b.path].File?)
    ensures WellFormed(RestoreOne(m, b))
    ensures forall p :: p != b.path ==>
      (p in RestoreOne(m, b) <==> p in m) && (p in m ==> RestoreOne(m, b)[p] == m[p])
    ensures b.content.Some? ==> b.path in RestoreOne(m, b) && RestoreOne(m, b)[b.path] == File(b.content.value)
    ensures b.content.None? ==> (b.path in RestoreOne(m, b) <==> b.path in m && m[b.path].Dir?)
    ensures b.content.None? && b.path in RestoreOne(m, b) ==> RestoreOne(m, b)[b.path] == m[b.path]
  {
    if b.path in m && m[b.path].File? {
      ExistingWritable(m, b.path);
      if b.content.Some? { WriteWellFormed(m, b.path, b.content.value); } else { RemoveFileWellFormed(m, b.path); }
    }
  }

  lemma {:induction false} RestoreAllAt(fs: Tree, bs: seq<Backup>)
    requires Restorable(fs, bs)
    ensures WellFormed(RestoreAll(fs, bs))
    ensures forall p :: RestoredAt(p, fs, bs, RestoreAll(fs, bs))
  {
    hide WellFormed, RestoreOne;
    if bs != [] {
      var front, b := bs[..|bs| - 1], bs[|bs| - 1];
      assert bs == front + [b];
      assert forall i :: 0 <= i < |front| ==> bs[i] == front[i];
      RestoreAllAt(fs, front);
      var m := RestoreAll(fs, front);
      assert RestoredAt(b.path, fs, front, m);
      assert b in bs;
      RestoreOneAt(m, b);
      forall p ensures RestoredAt(p, fs, bs, RestoreOne(m, b)) { RestoredNext(p, fs, front, b, m); }
    }
  }

  lemma {:induction false} RestoredNext(p: Path, fs: Tree, front: seq<Backup>, b: Backup, m: Tree)
    requires WellFormed(m) && (b.content.Some? ==> b.path in m && m[b.path].File?)
    requires forall i :: 0 <= i < |front| ==> front[i].path != b.path
    requires RestoredAt(p, fs, front, m) && RestoredAt(b.path, fs, front, m)
    ensures RestoredAt(p, fs, front + [b], RestoreOne(m, b))
  {
    hide WellFormed, RestoreOne;
    RestoreOneAt(m, b);
    var bs := front + [b];
    assert forall x :: x in bs <==> x in front || x == b;
    assert forall i :: 0 <= i < |front| ==> bs[i] == front[i];
    assert bs[|front|] == b;
  }

  lemma {:induction false} ExistingWritable(fs: Tree, p: Path)
    requires WellFormed(fs) && p in fs && fs[p].File?
    ensures Writable(fs, p)
  {}

  lemma {:induction false} RemoveOneAt(fs: Tree, p: Path)
    requires WellFormed(fs) && p != []
    ensures WellFormed(RemoveOne(fs, p))
    ensures forall q :: q in RemoveOne(fs, p) <==> q in fs && !(p <= q)
    ensures forall q :: q in RemoveOne(fs, p) ==> RemoveOne(fs, p)[q] == fs[q]
  {
    var r := RemoveOne(fs, p);
    forall q | q in fs && p <= q && q != p ensures p in fs && fs[p].Dir? { AncestorsAreDirs(fs, p, q); }
    forall q | q in r && q != [] ensures HasParent(r, q) {
      assert HasParent(fs, q);
      assert !(p <= q[..|q| - 1]);
    }
  }

  // Neither equal to nor below any of the paths.
  ghost predicate Clear(q: Path, cs: seq<Path>) { forall i :: 0 <= i < |cs| ==> !(cs[i] <= q) }

  lemma {:induction false} RemoveAllAt(fs: Tree, cs: seq<Path>)
    requires WellFormed(fs) && forall i :: 0 <= i < |cs| ==> cs[i] != []
    ensures forall q :: q in RemoveAll(fs, cs) <==> q in fs && Clear(q, cs)
    ensures forall q :: q in RemoveAll(fs, cs) ==> RemoveAll(fs, cs)[q] == fs[q]
  {
    hide WellFormed, RemoveOne;
    if cs != [] {
      var last, front := cs[|cs| - 1], cs[..|cs| - 1];
      RemoveOneAt(fs, last);
      RemoveAllAt(RemoveOne(fs, last), front);
      forall q ensures Clear(q, cs) <==> !(last <= q) && Clear(q, front) {
        assert forall i :: 0 <= i < |front| ==> front[i] == cs[i];
      }
    }
  }

  /** Rolling back gives every initially present path its initial state, removes nothing that
      was present, and leaves of what the run made exactly the unrecorded directories, each of
      which leads to a target. */
  lemma {:induction false} RollbackRestores(init: Tree, fs: Tree, log: Log, targets: set<Path>)
    requires Undoable(init, fs, log, targets)
    ensures var r := RolledBack(fs, log);
      && (forall p :: p in init ==> p in r && r[p] == init[p])
      && (forall p :: p !in init ==> (p in r <==> p in fs && fs[p].Dir? && !Under(p, log)))
      && (forall p :: p in r && p !in init ==> r[p] == Dir && Ancestral(p, targets))
  {
    hide WellFormed, RestoreAll, RemoveAll, Ancestral;
    var m, r := RestoreAll(fs, log.backups), RolledBack(fs, log);
    forall b | b in log.backups ensures b.content.Some? ==> b.path in fs && fs[b.path].File? {
      assert BackupSound(b, init, fs, log);
    }
    RestoreAllAt(fs, log.backups);
    RootIsOld(init);
    RemoveAllAt(m, log.created);
    assert forall p :: Clear(p, log.created) <==> !Under(p, log);
    forall p | p in init ensures p in r && r[p] == init[p] {
      RestoredOld(init, fs, log, targets, p);
      NotUnder(init, fs, log, targets, p);
    }
    forall p | p !in init ensures p in r <==> p in fs && fs[p].Dir? && !Under(p, log) {
      if !Under(p, log) { RestoredNew(init, fs, log, targets, p); }
    }
    forall p | p in r && p !in init ensures r[p] == Dir && Ancestral(p, targets) {
      RestoredNew(init, fs, log, targets, p);
      assert NewSound(p, fs, log, targets);
    }
  }

  /** A file that a failed step left without recording it: rolling back treats everything else as
      if it were not there, and leaves it exactly when no created path lies at or above it and it
      was not backed up as absent. */
  lemma {:induction false} RollbackWithStray(init: Tree, base: Tree, log: Log, targets: set<Path>, p: Path, content: Bytes)
    requires Undoable(init, base, log, targets) && p !in base && Writable(base, p)
    ensures var r, s := RolledBack(base, log), RolledBack(base[p := File(content)], log);
      && p !in init && s - {p} == r
      && (p in s <==> !Under(p, log) && !Absent(p, log))
      && (p in s ==> s[p] == File(content))
  {
    hide WellFormed, RestoreAll, RemoveAll, Ancestral, RestoredAt;
    var fs := base[p := File(content)];
    assert p !in init by { assert p in init ==> OldSound(p, init, base, log); }
    RestoredWithStray(init, base, log, targets, p, content);
    RootIsOld(init);
    var m, n := RestoreAll(base, log.backups), RestoreAll(fs, log.backups);
    hide Undoable;
    RemoveAllAt(m, log.created);
    RemoveAllAt(n, log.created);
    assert forall q :: Clear(q, log.created) <==> !Under(q, log);
  }

  lemma {:induction false} RestoredWithStray(init: Tree, base: Tree, log: Log, targets: set<Path>, p: Path, content: Bytes)
    requires Undoable(init, base, log, targets) && p !in base && Writable(base, p)
    ensures var m, n := RestoreAll(base, log.backups), RestoreAll(base[p := File(content)], log.backups);
      && WellFormed(m) && WellFormed(n) && p !in m
      && (forall q :: q != p ==> (q in n <==> q in m) && (q in n ==> n[q] == m[q]))
      && (p in n <==> !Absent(p, log)) && (p in n ==> n[p] == File(content))
  {
    hide WellFormed, RestoreAll, Ancestral;
    var fs, bs := base[p := File(content)], log.backups;
    WriteWellFormed(base, p, content);
    forall b | b in bs ensures b.content.Some? ==> b.path in base && base[b.path].File? {
      assert BackupSound(b, init, base, log);
    }
    RestoreAllAt(base, bs);
    RestoreAllAt(fs, bs);
    var m, n := RestoreAll(base, bs), RestoreAll(fs, bs);
    forall q ensures q != p ==> (q in n <==> q in m) && (q in n ==> n[q] == m[q]) {
      SameRestored(q, base, fs, bs, m, n);
    }
    StrayRestored(p, base, fs, bs, m, n);
  }

  // Restoring depends, at each path, on what is there.
  lemma {:induction false} SameRestored(q: Path, fs: Tree, gs: Tree, bs: seq<Backup>, m: Tree, n: Tree)
    requires RestoredAt(q, fs, bs, m) && RestoredAt(q, gs, bs, n)
    ensures (q in fs <==> q in gs) && (q in fs ==> fs[q] == gs[q]) ==> (q in m <==> q in n) && (q in m ==> m[q] == n[q])
  {
    if i :| 0 <= i < |bs| && bs[i].path == q {
      assert bs[i] == Backup(q, bs[i].content);
      if bs[i].content.Some? { assert Backup(q, Some(bs[i].content.value)) in bs; }
    } else {
      assert forall c :: Backup(q, Some(c)) !in bs;
    }
  }

  lemma {:induction false} StrayRestored(p: Path, fs: Tree, gs: Tree, bs: seq<Backup>, m: Tree, n: Tree)
    requires p !in fs && p in gs && gs[p].File? && RestoredAt(p, fs, bs, m) && RestoredAt(p, gs, bs, n)
    requires forall b :: b in bs && b.content.Some? ==> b.path in fs
    ensures p !in m && (p in n <==> Backup(p, None) !in bs) && (p in n ==> n[p] == gs[p])
  {
    assert forall c :: Backup(p, Some(c)) !in bs;
    if i :| 0 <= i < |bs| && bs[i].path == p {
      assert bs[i] == Backup(p, None);
    }
  }

  lemma {:induction false} RootIsOld(init: Tree)
    requires WellFormed(init)
    ensures [] in init
  {}

  lemma {:induction false} RestoredOld(init: Tree, fs: Tree, log: Log, targets: set<Path>, p: Path)
    requires Undoable(init, fs, log, targets) && p in init
    requires RestoredAt(p, fs, log.backups, RestoreAll(fs, log.backups))
    ensures p in RestoreAll(fs, log.backups) && RestoreAll(fs, log.backups)[p] == init[p]
  {
    hide WellFormed, RestoreAll, Under;
    assert OldSound(p, init, fs, log);
    if Backed(p, log) {
      var i :| 0 <= i < |log.backups| && log.backups[i].path == p;
      assert BackupSound(log.backups[i], init, fs, log);
      assert log.backups[i] == Backup(p, Some(init[p].content));
    } else {
      assert forall c :: Backup(p, Some(c)) in log.backups ==> Backed(p, log);
    }
  }

  lemma {:induction false} RestoredNew(init: Tree, fs: Tree, log: Log, targets: set<Path>, p: Path)
    requires Undoable(init, fs, log, targets) && p !in init && !Under(p, log)
    requires RestoredAt(p, fs, log.backups, RestoreAll(fs, log.backups))
    ensures p in RestoreAll(fs, log.backups) <==> p in fs && fs[p].Dir?
    ensures p in RestoreAll(fs, log.backups) ==> RestoreAll(fs, log.backups)[p] == fs[p]
  {
    hide WellFormed, RestoreAll, Under, Ancestral;
    forall b | b in log.backups && b.path == p ensures b == Backup(p, None) {
      assert BackupSound(b, init, fs, log);
    }
    if p in fs { assert NewSound(p, fs, log, targets); }
  }
}
