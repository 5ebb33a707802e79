/** Copying backup objects between two stores: verified, resumable, and predictable by a dry run. */
module BackupCopy {
  import opened Options
  import opened ByteStrings
  import opened StorageKey
  import opened BackupKeys

  type Store = map<string, Bytes>

  datatype Settings = Settings(root: Option<string>, prefix: Option<string>, maxBytes: nat, overwrite: bool, dryRun: bool)

  datatype Stats = Stats(seen: nat, copied: nat, skipped: nat, bytes: nat)

  datatype Result = Result(ok: bool, store: Store, stats: Stats)

  const NO_STATS := Stats(0, 0, 0, 0)

  function Dest(cfg: Settings, key: string): Option<string> { Destination(cfg.root, cfg.prefix, key) }

  predicate Overflows(n: nat) { n >= U64 }

  // ---------------------------------------------------------------------------
  // A run in which every request goes well

  function Skip(store: Store, stats: Stats): Result {
    if Overflows(stats.skipped + 1) then Result(false, store, stats)
    else Result(true, store, stats.(skipped := stats.skipped + 1))
  }

  function Count(store: Store, stats: Stats): Result {
    if Overflows(stats.copied + 1) then Result(false, store, stats)
    else Result(true, store, stats.(copied := stats.copied + 1))
  }

  // After the source has been downloaded and counted.
  function Settle(cfg: Settings, dkey: string, content: Bytes, store: Store, stats: Stats): Result {
    if dkey in store && |store[dkey]| > cfg.maxBytes then Result(false, store, stats)
    else if dkey in store && store[dkey] == content then Skip(store, stats)
    else if dkey in store && !cfg.overwrite then Result(false, store, stats)
    else if cfg.dryRun then Count(store, stats)
    else if |content| >= I64 then Result(false, store, stats)
    else Count(store[dkey := content], stats)
  }

  /** `copy_one_object` when no request fails. */
  function CopyOne(source: Store, cfg: Settings, skey: string, dkey: string, store: Store, stats: Stats): Result {
    if skey !in source || |source[skey]| > cfg.maxBytes || Overflows(stats.seen + 1) then Result(false, store, stats)
    else
      var seen := stats.(seen := stats.seen + 1);
      if Overflows(seen.bytes + |source[skey]|) then Result(false, store, seen)
      else Settle(cfg, dkey, source[skey], store, seen.(bytes := seen.bytes + |source[skey]|))
  }

  // One listed key.
  function CopyKey(source: Store, cfg: Settings, key: string, store: Store, stats: Stats): Result {
    if !ValidKey(key) || Dest(cfg, key).None? then Result(false, store, stats)
    else CopyOne(source, cfg, key, Dest(cfg, key).value, store, stats)
  }

  /** The loop of `run` when no request fails. */
  function CopyAll(source: Store, cfg: Settings, keys: seq<string>, store: Store, stats: Stats): Result
    decreases |keys|
  {
    if keys == [] then Result(true, store, stats)
    else
      var r := CopyKey(source, cfg, keys[0], store, stats);
      if !r.ok then r else CopyAll(source, cfg, keys[1..], r.store, r.stats)
  }

  // ---------------------------------------------------------------------------
  // Any run

  // How a request goes. An upload can also store the wrong bytes, report failure after storing, or
  // come after another writer has put an object where there was none.
  datatype Fault = Fine | Broken | Garbled(bytes: Bytes) | Late | Raced(bytes: Bytes)

  ghost predicate Extends(before: Store, after: Store) {
    forall k :: k in before ==> k in after && after[k] == before[k]
  }

  ghost predicate SameExcept(before: Store, after: Store, key: string) {
    forall k :: k != key ==> (k in after <==> k in before) && (k in before ==> after[k] == before[k])
  }

  // What a successful copy did to the counters.
  ghost predicate Counted(before: Stats, after: Stats, size: nat, skipped: bool) {
    after == Stats(before.seen + 1, before.copied + (if skipped then 0 else 1),
                   before.skipped + (if skipped then 1 else 0), before.bytes + size)
  }

  class Copier {
    const source: Store
    var store: Store
    var stats: Stats
    const faults: nat -> Fault
    var clock: nat
    // What other writers have put into the store meanwhile.
    ghost var foreign: Store

    constructor (source: Store, store: Store, faults: nat -> Fault)
      ensures this.source == source && this.store == store && this.stats == NO_STATS && this.faults == faults
      ensures foreign == map[]
    {
      this.source, this.store, this.stats, this.faults, this.clock := source, store, NO_STATS, faults, 0;
      foreign := map[];
    }

    ghost predicate AllFine() { forall n :: faults(n) == Fine }

    method Request() returns (f: Fault)
      modifies this`clock
      ensures AllFine() ==> f == Fine
    {
      f := faults(clock);
      clock := clock + 1;
    }

    method Download(key: string, maxBytes: nat) returns (content: Option<Bytes>)
      modifies this`clock
      ensures content.Some? ==> key in source && source[key] == content.value && |content.value| <= maxBytes
      ensures AllFine() && content.None? ==> key !in source || |source[key]| > maxBytes
    {
      var f := Request();
      if f != Fine || key !in source || |source[key]| > maxBytes { return None; }
      content := Some(source[key]);
    }

    // `object_snapshot`, with content standing for length and digest.
    method Snapshot(key: string, maxBytes: nat) returns (ok: bool, content: Option<Bytes>)
      modifies this`clock
      ensures ok ==> content == (if key in store then Some(store[key]) else None)
      ensures ok && key in store ==> |store[key]| <= maxBytes
      ensures AllFine() && !ok ==> key in store && |store[key]| > maxBytes
    {
      content := None;
      var f := Request();
      ok := f == Fine && (key in store ==> |store[key]| <= maxBytes);
      if ok && key in store { content := Some(store[key]); }
    }

    method Upload(key: string, content: Bytes, failIfExists: bool) returns (ok: bool)
      modifies this`store, this`foreign, this`clock
      ensures SameExcept(old(store), store, key)
      ensures failIfExists ==> Extends(old(store), store)
      ensures failIfExists && Extends(old(foreign), old(store)) ==> Extends(foreign, store)
      ensures AllFine() && |content| < I64 && !(failIfExists && key in old(store))
              ==> ok && store == old(store)[key := content]
      ensures |content| >= I64 ==> !ok && store == old(store)
    {
      if |content| >= I64 { return false; }
      var f := Request();
      if f.Raced? && key !in store {
        store, foreign := store[key := f.bytes], foreign[key := f.bytes];
      }
      if f == Broken || (failIfExists && key in store) { return false; }
      store := store[key := if f.Garbled? then f.bytes else content];
      ok := f != Late;
    }

    method Cleanup() returns (ok: bool)
      modifies this`clock
      ensures AllFine() ==> ok
    {
      var f := Request();
      ok := f == Fine;
    }

    /** `copy_one_object` */
    method CopyOneObject(cfg: Settings, skey: string, dkey: string) returns (ok: bool)
      modifies this`store, this`stats, this`foreign, this`clock
      ensures ok ==> skey in source
      ensures ok && !cfg.dryRun ==> dkey in store && store[dkey] == source[skey]
      ensures ok ==> Counted(old(stats), stats, |source[skey]|, dkey in old(store) && old(store)[dkey] == source[skey])
      ensures cfg.dryRun ==> store == old(store)
      ensures !cfg.overwrite ==> Extends(old(store), store)
      ensures !cfg.overwrite && Extends(old(foreign), old(store)) ==> Extends(foreign, store)
      ensures SameExcept(old(store), store, dkey)
      ensures AllFine() ==> Result(ok, store, stats) == CopyOne(source, cfg, skey, dkey, old(store), old(stats))
    {
      ok := false;
      var download := Download(skey, cfg.maxBytes);
      if download.None? { return; }
      var content := download.value;
      if Overflows(stats.seen + 1) { return; }
      stats := stats.(seen := stats.seen + 1);
      if Overflows(stats.bytes + |content|) { return; }
      stats := stats.(bytes := stats.bytes + |content|);
      ok := SettleObject(cfg, skey, dkey, content);
    }

    // The second half of `copy_one_object`: compare, then skip, refuse, plan or upload and verify.
    method SettleObject(cfg: Settings, skey: string, dkey: string, content: Bytes) returns (ok: bool)
      requires |content| <= cfg.maxBytes
      modifies this`store, this`stats, this`foreign, this`clock
      ensures ok && !cfg.dryRun ==> dkey in store && store[dkey] == content
      ensures ok ==> stats == (if dkey in old(store) && old(store)[dkey] == content
                               then old(stats).(skipped := old(stats).skipped + 1)
                               else old(stats).(copied := old(stats).copied + 1))
      ensures cfg.dryRun ==> store == old(store)
      ensures !cfg.overwrite ==> Extends(old(store), store)
      ensures !cfg.overwrite && Extends(old(foreign), old(store)) ==> Extends(foreign, store)
      ensures SameExcept(old(store), store, dkey)
      ensures AllFine() ==> Result(ok, store, stats) == Settle(cfg, dkey, content, old(store), old(stats))
    {
      var existing;
      ok, existing := Snapshot(dkey, cfg.maxBytes);
      if !ok { return; }
      if existing.Some? {
        if existing.value == content {
          if Overflows(stats.skipped + 1) { return false; }
          stats := stats.(skipped := stats.skipped + 1);
          ok := Cleanup();
          return;
        }
        if !cfg.overwrite {
          var _ := Cleanup();
          return false;
        }
      }
      if !cfg.dryRun {
        ok := Upload(dkey, content, !cfg.overwrite);
        if !ok { return; }
        var verified;
        ok, verified := Snapshot(dkey, cfg.maxBytes);
        if !ok { return; }
        if verified != Some(content) { return false; }
      }
      if Overflows(stats.copied + 1) { return false; }
      stats := stats.(copied := stats.copied + 1);
      ok := Cleanup();
    }

    /** The loop of `run`, over the listed source keys. */
    method Run(cfg: Settings, keys: seq<string>) returns (ok: bool)
      requires stats == NO_STATS
      modifies this`store, this`stats, this`foreign, this`clock
      // Every successful non-dry run: the last key with a given destination is what is stored there.
      ensures ok && !cfg.dryRun ==> LastWins(source, cfg, keys, store)
      // Without overwriting, every key is, even when two keys share a destination.
      ensures ok && !cfg.dryRun && !cfg.overwrite ==> AllStored(source, cfg, keys, store)
      // Aborted or not, a run without overwriting only extends the store.
      ensures !cfg.overwrite ==> Extends(old(store), store)
      // Nor does it replace what other writers put there while it ran.
      ensures !cfg.overwrite && Extends(old(foreign), old(store)) ==> Extends(foreign, store)
      ensures cfg.dryRun ==> store == old(store)
      ensures ok ==> stats.seen == |keys| == stats.copied + stats.skipped && stats.bytes == TotalBytes(source, keys)
      ensures AllFine() && cfg.maxBytes > 0 ==>
        Result(ok, store, stats) == CopyAll(source, cfg, keys, old(store), NO_STATS)
    {
      hide Dest, ValidKey, CopyOne;
      if cfg.maxBytes == 0 { return false; }
      for i := 0 to |keys|
        invariant Progress(source, cfg, keys, i, store, stats)
        invariant !cfg.overwrite ==> Extends(old(store), store)
        invariant !cfg.overwrite && Extends(old(foreign), old(store)) ==> Extends(foreign, store)
        invariant cfg.dryRun ==> store == old(store)
        invariant AllFine() ==>
          CopyAll(source, cfg, keys[i..], store, stats) == CopyAll(source, cfg, keys, old(store), NO_STATS)
      {
        var key := keys[i];
        assert keys[i..][0] == key && keys[i..][1..] == keys[i + 1..];
        var destination := Dest(cfg, key);
        if !ValidKey(key) || destination.None? { return false; }
        ghost var before, counted := store, stats;
        ok := CopyOneObject(cfg, key, destination.value);
        if !ok { return; }
        StepProgress(source, cfg, keys, i, before, store, counted, stats);
      }
      assert keys[..|keys|] == keys;
      ok := true;
    }
  }

  function TotalBytes(source: Store, keys: seq<string>): nat {
    if keys == [] then 0
    else TotalBytes(source, keys[..|keys| - 1])
         + if keys[|keys| - 1] in source then |source[keys[|keys| - 1]]| else 0
  }

  // The object of source key j is at its destination.
  ghost predicate Stored(source: Store, cfg: Settings, key: string, store: Store) {
    && key in source && Dest(cfg, key).Some?
    && Dest(cfg, key).value in store && store[Dest(cfg, key).value] == source[key]
  }

  ghost predicate AllStored(source: Store, cfg: Settings, keys: seq<string>, store: Store) {
    forall j :: 0 <= j < |keys| ==> Stored(source, cfg, keys[j], store)
  }

  predicate LastFor(cfg: Settings, keys: seq<string>, j: int)
    requires 0 <= j < |keys|
  {
    forall l :: j < l < |keys| ==> Dest(cfg, keys[l]) != Dest(cfg, keys[j])
  }

  ghost predicate LastWins(source: Store, cfg: Settings, keys: seq<string>, store: Store) {
    forall j :: 0 <= j < |keys| && LastFor(cfg, keys, j) ==> Stored(source, cfg, keys[j], store)
  }

  // What holds after the first i keys.
  ghost predicate Progress(source: Store, cfg: Settings, keys: seq<string>, i: nat, store: Store, stats: Stats)
    requires i <= |keys|
  {
    && stats.seen == i == stats.copied + stats.skipped
    && stats.bytes == TotalBytes(source, keys[..i])
    && (!cfg.dryRun ==> LastWins(source, cfg, keys[..i], store))
    && (!cfg.dryRun && !cfg.overwrite ==> AllStored(source, cfg, keys[..i], store))
  }

  lemma {:induction false} StepProgress(source: Store, cfg: Settings, keys: seq<string>, i: nat,
                     before: Store, after: Store, counted: Stats, stats: Stats)
    requires i < |keys| && keys[i] in source && Dest(cfg, keys[i]).Some?
    requires Progress(source, cfg, keys, i, before, counted)
    requires var d := Dest(cfg, keys[i]).value;
      && SameExcept(before, after, d)
      && (!cfg.overwrite ==> Extends(before, after))
      && (!cfg.dryRun ==> d in after && after[d] == source[keys[i]])
      && Counted(counted, stats, |source[keys[i]]|, d in before && before[d] == source[keys[i]])
    ensures Progress(source, cfg, keys, i + 1, after, stats)
  {
    hide Dest;
    var front, now := keys[..i], keys[..i + 1];
    assert now[..i] == front && now[i] == keys[i];
    if !cfg.dryRun {
      forall j | 0 <= j < |now| && LastFor(cfg, now, j) ensures Stored(source, cfg, now[j], after) {
        if j < i {
          assert Dest(cfg, now[i]) != Dest(cfg, now[j]);
          assert LastFor(cfg, front, j) by {
            forall l | j < l < |front| ensures Dest(cfg, front[l]) != Dest(cfg, front[j]) {
              assert Dest(cfg, now[l]) != Dest(cfg, now[j]);
            }
          }
          assert Stored(source, cfg, front[j], before);
        }
      }
      if !cfg.overwrite {
        forall j | 0 <= j < |now| ensures Stored(source, cfg, now[j], after) {
          if j < i { assert Stored(source, cfg, front[j], before); }
        }
      }
    }
  }

  // ---------------------------------------------------------------------------
  // Dry runs

  // Two listed keys share a destination only where the dry run and the real run leave the same object.
  ghost predicate Separate(cfg: Settings, keys: seq<string>, store: Store) {
    forall i, j :: 0 <= i < j < |keys| && Dest(cfg, keys[i]) == Dest(cfg, keys[j]) && Dest(cfg, keys[i]).Some?
      ==> !cfg.overwrite && Dest(cfg, keys[i]).value in store
  }

  ghost predicate InjectiveOn(cfg: Settings, keys: seq<string>) {
    forall i, j :: 0 <= i < j < |keys| ==> Dest(cfg, keys[i]) != Dest(cfg, keys[j])
  }

  // Two stores that hold the same at the destinations of the keys.
  ghost predicate AgreeAt(cfg: Settings, keys: seq<string>, s: Store, t: Store) {
    forall i :: 0 <= i < |keys| && Dest(cfg, keys[i]).Some? ==> SameAt(s, t, Dest(cfg, keys[i]).value)
  }

  predicate SameAt(s: Store, t: Store, d: string) { (d in s <==> d in t) && (d in s ==> s[d] == t[d]) }

  // Objects that a signed 64-bit content length can describe.
  predicate Uploadable(source: Store) { forall k :: k in source ==> |source[k]| < I64 }

  lemma {:induction false} CopyKeySame(source: Store, cfg: Settings, key: string, s: Store, t: Store, stats: Stats)
    requires Uploadable(source) && (Dest(cfg, key).Some? ==> SameAt(s, t, Dest(cfg, key).value))
    ensures var dry := CopyKey(source, cfg.(dryRun := true), key, s, stats);
            var live := CopyKey(source, cfg.(dryRun := false), key, t, stats);
      && dry.ok == live.ok && dry.stats == live.stats && dry.store == s
      && (live.store == t || (Dest(cfg, key).Some? && key in source
                              && live.store == t[Dest(cfg, key).value := source[key]]
                              && (Dest(cfg, key).value !in t || cfg.overwrite)))
  {
    hide ValidKey, Destination;
    assert Dest(cfg.(dryRun := true), key) == Dest(cfg, key) == Dest(cfg.(dryRun := false), key);
  }

  lemma {:induction false} DryRunAgrees(source: Store, cfg: Settings, keys: seq<string>, s: Store, t: Store, stats: Stats)
    requires Uploadable(source) && Separate(cfg, keys, s) && AgreeAt(cfg, keys, s, t)
    ensures var dry := CopyAll(source, cfg.(dryRun := true), keys, s, stats);
            var live := CopyAll(source, cfg.(dryRun := false), keys, t, stats);
      dry.ok == live.ok && dry.stats == live.stats && dry.store == s
    decreases |keys|
  {
    hide CopyKey, Dest;
    if keys != [] {
      CopyKeySame(source, cfg, keys[0], s, t, stats);
      var dry := CopyKey(source, cfg.(dryRun := true), keys[0], s, stats);
      var live := CopyKey(source, cfg.(dryRun := false), keys[0], t, stats);
      if dry.ok {
        var rest := keys[1..];
        forall i, j | 0 <= i < j < |rest| && Dest(cfg, rest[i]) == Dest(cfg, rest[j]) && Dest(cfg, rest[i]).Some?
          ensures !cfg.overwrite && Dest(cfg, rest[i]).value in s
        {
          assert keys[i + 1] == rest[i] && keys[j + 1] == rest[j];
        }
        forall i | 0 <= i < |rest| && Dest(cfg, rest[i]).Some? ensures SameAt(s, live.store, Dest(cfg, rest[i]).value) {
          assert keys[i + 1] == rest[i];
          assert SameAt(s, t, Dest(cfg, keys[i + 1]).value);
        }
        DryRunAgrees(source, cfg, rest, s, live.store, dry.stats);
      }
    }
  }

  /** When no two listed keys share a destination, a dry run changes nothing and predicts the
      real run's outcome and counters exactly, in either mode. */
  lemma {:induction false} DryRunPredicts(source: Store, cfg: Settings, keys: seq<string>, store: Store)
    requires Uploadable(source) && InjectiveOn(cfg, keys)
    ensures var dry := CopyAll(source, cfg.(dryRun := true), keys, store, NO_STATS);
            var live := CopyAll(source, cfg.(dryRun := false), keys, store, NO_STATS);
      dry.ok == live.ok && dry.stats == live.stats && dry.store == store
  {
    hide Dest, CopyAll;
    DryRunAgrees(source, cfg, keys, store, store, NO_STATS);
  }

  // Real runs copy at most what the dry run counts; strictly less once a destination that was
  // absent at the start is met again.
  lemma {:induction false} RealCopiesLess(source: Store, cfg: Settings, keys: seq<string>, s: Store, t: Store,
                                          a: Stats, b: Stats, met: set<string>)
    requires !cfg.overwrite && Extends(s, t) && b.copied <= a.copied
    requires forall d :: d in met ==> d in t && d !in s
    ensures var dry := CopyAll(source, cfg.(dryRun := true), keys, s, a);
            var live := CopyAll(source, cfg.(dryRun := false), keys, t, b);
      dry.ok && live.ok ==>
        && live.stats.copied <= dry.stats.copied
        && (b.copied < a.copied || Remeets(cfg, keys, s, met) ==> live.stats.copied < dry.stats.copied)
    decreases |keys|
  {
    hide Destination, ValidKey;
    if keys != [] {
      var d := Dest(cfg, keys[0]);
      assert Dest(cfg.(dryRun := true), keys[0]) == d == Dest(cfg.(dryRun := false), keys[0]);
      var dry := CopyKey(source, cfg.(dryRun := true), keys[0], s, a);
      var live := CopyKey(source, cfg.(dryRun := false), keys[0], t, b);
      if dry.ok && live.ok {
        var next := if d.value in s then met else met + {d.value};
        RealCopiesLess(source, cfg, keys[1..], s, live.store, dry.stats, live.stats, next);
        RemeetsStep(cfg, keys, s, met);
      }
    }
  }

  // Some key has a destination that was already met, or met earlier in the list, while absent at first.
  ghost predicate Remeets(cfg: Settings, keys: seq<string>, store: Store, met: set<string>) {
    exists j :: 0 <= j < |keys| && Dest(cfg, keys[j]).Some? && Dest(cfg, keys[j]).value !in store
      && (Dest(cfg, keys[j]).value in met || exists i :: 0 <= i < j && Dest(cfg, keys[i]) == Dest(cfg, keys[j]))
  }

  lemma {:induction false} RemeetsStep(cfg: Settings, keys: seq<string>, store: Store, met: set<string>)
    requires keys != [] && Dest(cfg, keys[0]).Some?
    ensures var d := Dest(cfg, keys[0]).value;
      Remeets(cfg, keys, store, met) ==>
        (d !in store && d in met) || Remeets(cfg, keys[1..], store, if d in store then met else met + {d})
  {
    hide Dest;
    var d := Dest(cfg, keys[0]).value;
    var next := if d in store then met else met + {d};
    if Remeets(cfg, keys, store, met) {
      var j :| 0 <= j < |keys| && Dest(cfg, keys[j]).Some? && Dest(cfg, keys[j]).value !in store
        && (Dest(cfg, keys[j]).value in met || exists i :: 0 <= i < j && Dest(cfg, keys[i]) == Dest(cfg, keys[j]));
      if j > 0 {
        assert keys[1..][j - 1] == keys[j];
        if Dest(cfg, keys[j]).value !in next {
          var i :| 0 <= i < j && Dest(cfg, keys[i]) == Dest(cfg, keys[j]);
          assert i > 0 && keys[1..][i - 1] == keys[i];
        }
      }
    }
  }

  // Without overwriting, what stops the dry run stops the real run.
  lemma {:induction false} RealRunFailsToo(source: Store, cfg: Settings, keys: seq<string>, s: Store, t: Store, a: Stats, b: Stats)
    requires !cfg.overwrite && Extends(s, t)
    requires a.seen == b.seen == a.copied + a.skipped == b.copied + b.skipped && a.bytes == b.bytes
    ensures CopyAll(source, cfg.(dryRun := false), keys, t, b).ok ==> CopyAll(source, cfg.(dryRun := true), keys, s, a).ok
    decreases |keys|
  {
    hide Destination, ValidKey;
    if keys != [] {
      assert Dest(cfg.(dryRun := true), keys[0]) == Dest(cfg, keys[0]) == Dest(cfg.(dryRun := false), keys[0]);
      var dry := CopyKey(source, cfg.(dryRun := true), keys[0], s, a);
      var live := CopyKey(source, cfg.(dryRun := false), keys[0], t, b);
      if live.ok { RealRunFailsToo(source, cfg, keys[1..], s, live.store, dry.stats, live.stats); }
    }
  }

  /** Without overwriting, a dry run predicts the real run: if it fails, so does the real run; if it
      succeeds, the real run does so with the same counters exactly when no two listed keys share a
      destination that is absent at the start. */
  lemma {:induction false} DryRunPredictsIff(source: Store, cfg: Settings, keys: seq<string>, store: Store)
    requires Uploadable(source) && !cfg.overwrite
    ensures var dry := CopyAll(source, cfg.(dryRun := true), keys, store, NO_STATS);
            var live := CopyAll(source, cfg.(dryRun := false), keys, store, NO_STATS);
      && (!dry.ok ==> !live.ok)
      && (dry.ok ==> (live.ok && live.stats == dry.stats <==> !Remeets(cfg, keys, store, {})))
  {
    hide Dest, CopyAll;
    RealRunFailsToo(source, cfg, keys, store, store, NO_STATS, NO_STATS);
    if !Remeets(cfg, keys, store, {}) {
      forall i, j | 0 <= i < j < |keys| && Dest(cfg, keys[i]) == Dest(cfg, keys[j]) && Dest(cfg, keys[i]).Some?
        ensures Dest(cfg, keys[i]).value in store
      {}
      DryRunAgrees(source, cfg, keys, store, store, NO_STATS);
    } else {
      RealCopiesLess(source, cfg, keys, store, store, NO_STATS, NO_STATS, {});
    }
  }

  // ---------------------------------------------------------------------------
  // Dry runs that overwrite

  // The last of the first i keys that goes to d, or -1.
  function LastBefore(cfg: Settings, keys: seq<string>, i: nat, d: string): (r: int)
    requires i <= |keys|
    ensures -1 <= r < i && (r >= 0 ==> Dest(cfg, keys[r]) == Some(d))
    ensures forall k :: r < k < i ==> Dest(cfg, keys[k]) != Some(d)
  {
    if i == 0 then -1 else if Dest(cfg, keys[i - 1]) == Some(d) then i - 1 else LastBefore(cfg, keys, i - 1, d)
  }

  // What is at d once the first i objects have been put at their destinations.
  function ObjectAt(source: Store, cfg: Settings, keys: seq<string>, i: nat, d: string, store: Store): Option<Bytes>
    requires i <= |keys|
  {
    var k := LastBefore(cfg, keys, i, d);
    if k >= 0 && keys[k] in source then Some(source[keys[k]])
    else if d in store then Some(store[d]) else None
  }

  // Key j finds its own object at its destination after the first i keys.
  predicate Finds(source: Store, cfg: Settings, keys: seq<string>, j: nat, i: nat, store: Store)
    requires j < |keys| && i <= |keys|
  {
    && keys[j] in source && Dest(cfg, keys[j]).Some?
    && ObjectAt(source, cfg, keys, i, Dest(cfg, keys[j]).value, store) == Some(source[keys[j]])
  }

  // How many of the first n keys find their own object: in the store as it was at the start, or
  // as the keys before them have left it.
  function Found(source: Store, cfg: Settings, keys: seq<string>, n: nat, store: Store, asLeft: bool): nat
    requires n <= |keys|
  {
    if n == 0 then 0
    else Found(source, cfg, keys, n - 1, store, asLeft)
         + if Finds(source, cfg, keys, n - 1, if asLeft then n - 1 else 0, store) then 1 else 0
  }

  // The key has been copied or skipped in a run that overwrites.
  predicate Passed(source: Store, cfg: Settings, key: string, store: Store) {
    && key in source && |source[key]| <= cfg.maxBytes && Dest(cfg, key).Some?
    && (Dest(cfg, key).value in store ==> |store[Dest(cfg, key).value]| <= cfg.maxBytes)
  }

  function At(store: Store, d: string): Option<Bytes> { if d in store then Some(store[d]) else None }

  // A dry run and a real run after the first i keys.
  ghost predicate Parallel(source: Store, cfg: Settings, keys: seq<string>, i: nat, store: Store, t: Store, a: Stats, b: Stats)
    requires i <= |keys|
  {
    && (forall k :: 0 <= k < i ==> Passed(source, cfg, keys[k], store))
    && (forall d :: At(t, d) == ObjectAt(source, cfg, keys, i, d, store))
    && a.seen == b.seen == a.copied + a.skipped == b.copied + b.skipped && a.bytes == b.bytes
    && a.skipped == Found(source, cfg, keys, i, store, false)
    && b.skipped == Found(source, cfg, keys, i, store, true)
  }

  lemma {:induction false} ObjectAtStart(source: Store, cfg: Settings, keys: seq<string>, d: string, store: Store)
    ensures ObjectAt(source, cfg, keys, 0, d, store) == At(store, d)
  {}

  lemma {:induction false} ObjectAtNext(source: Store, cfg: Settings, keys: seq<string>, i: nat, d: string, store: Store)
    requires i < |keys| && keys[i] in source
    ensures ObjectAt(source, cfg, keys, i + 1, d, store)
         == if Dest(cfg, keys[i]) == Some(d) then Some(source[keys[i]]) else ObjectAt(source, cfg, keys, i, d, store)
  {
    hide Dest;
  }

  // A real run meets an object that is too large only where the dry run does.
  lemma {:induction false} SizesAgree(source: Store, cfg: Settings, keys: seq<string>, i: nat, store: Store, d: string)
    requires i <= |keys| && forall k :: 0 <= k < i ==> Passed(source, cfg, keys[k], store)
    ensures var o := ObjectAt(source, cfg, keys, i, d, store);
      (o.Some? && |o.value| > cfg.maxBytes) <==> (d in store && |store[d]| > cfg.maxBytes)
  {
    hide Dest;
    var k := LastBefore(cfg, keys, i, d);
    if k >= 0 { assert Passed(source, cfg, keys[k], store); }
  }

  // A key can be copied or skipped: it is valid, its object and what is at its destination are not
  // too large, and they are the same unless the run overwrites.
  predicate KeyFits(source: Store, cfg: Settings, key: string, store: Store) {
    && ValidKey(key) && Passed(source, cfg, key, store)
    && (!cfg.overwrite && Dest(cfg, key).value in store ==> store[Dest(cfg, key).value] == source[key])
  }

  /** What one key comes to, in either mode. */
  lemma {:induction false} KeyOutcome(source: Store, cfg: Settings, key: string, store: Store, stats: Stats)
    requires Uploadable(source) && stats.seen == stats.copied + stats.skipped
    ensures var r := CopyKey(source, cfg, key, store, stats);
      && (r.ok <==> KeyFits(source, cfg, key, store) && stats.seen + 1 < U64 && stats.bytes + |source[key]| < U64)
      && (r.ok ==>
           var skip := At(store, Dest(cfg, key).value) == Some(source[key]);
           && r.stats == Stats(stats.seen + 1, stats.copied + (if skip then 0 else 1),
                               stats.skipped + (if skip then 1 else 0), stats.bytes + |source[key]|)
           && r.store == if skip || cfg.dryRun then store else store[Dest(cfg, key).value := source[key]])
  {
    hide Dest, ValidKey;
  }

  lemma {:induction false} ParallelStep(source: Store, cfg: Settings, keys: seq<string>, i: nat,
                                        store: Store, t: Store, a: Stats, b: Stats)
    requires cfg.overwrite && Uploadable(source) && i < |keys| && Parallel(source, cfg, keys, i, store, t, a, b)
    ensures var dry := CopyKey(source, cfg.(dryRun := true), keys[i], store, a);
            var live := CopyKey(source, cfg.(dryRun := false), keys[i], t, b);
      && dry.ok == live.ok
      && (dry.ok ==> dry.store == store && Parallel(source, cfg, keys, i + 1, store, live.store, dry.stats, live.stats))
  {
    hide Destination, ValidKey, ObjectAt, CopyKey, Found;
    var key, d := keys[i], Dest(cfg, keys[i]);
    assert Dest(cfg.(dryRun := true), key) == d == Dest(cfg.(dryRun := false), key);
    KeyOutcome(source, cfg.(dryRun := true), key, store, a);
    KeyOutcome(source, cfg.(dryRun := false), key, t, b);
    if d.Some? {
      SizesAgree(source, cfg, keys, i, store, d.value);
      ObjectAtStart(source, cfg, keys, d.value, store);
      assert At(t, d.value) == ObjectAt(source, cfg, keys, i, d.value, store);
    }
    var dry := CopyKey(source, cfg.(dryRun := true), key, store, a);
    var live := CopyKey(source, cfg.(dryRun := false), key, t, b);
    assert dry.ok == live.ok;
    if dry.ok {
      forall e ensures At(live.store, e) == ObjectAt(source, cfg, keys, i + 1, e, store) {
        ObjectAtNext(source, cfg, keys, i, e, store);
        assert At(t, e) == ObjectAt(source, cfg, keys, i, e, store);
      }
      FoundNext(source, cfg, keys, i, store);
      assert Passed(source, cfg, key, store);
    }
  }

  lemma {:induction false} FoundNext(source: Store, cfg: Settings, keys: seq<string>, i: nat, store: Store)
    requires i < |keys|
    ensures Found(source, cfg, keys, i + 1, store, true)
         == Found(source, cfg, keys, i, store, true) + if Finds(source, cfg, keys, i, i, store) then 1 else 0
    ensures Found(source, cfg, keys, i + 1, store, false)
         == Found(source, cfg, keys, i, store, false) + if Finds(source, cfg, keys, i, 0, store) then 1 else 0
  {}

  lemma {:induction false} ParallelRuns(source: Store, cfg: Settings, keys: seq<string>, i: nat,
                                        store: Store, t: Store, a: Stats, b: Stats)
    requires cfg.overwrite && Uploadable(source) && i <= |keys| && Parallel(source, cfg, keys, i, store, t, a, b)
    ensures var dry := CopyAll(source, cfg.(dryRun := true), keys[i..], store, a);
            var live := CopyAll(source, cfg.(dryRun := false), keys[i..], t, b);
      && dry.ok == live.ok
      && (dry.ok ==> Parallel(source, cfg, keys, |keys|, store, live.store, dry.stats, live.stats))
    decreases |keys| - i
  {
    hide Parallel, CopyKey;
    if i < |keys| {
      ParallelStep(source, cfg, keys, i, store, t, a, b);
      var dry := CopyKey(source, cfg.(dryRun := true), keys[i], store, a);
      var live := CopyKey(source, cfg.(dryRun := false), keys[i], t, b);
      assert keys[i..][1..] == keys[i + 1..];
      if dry.ok { ParallelRuns(source, cfg, keys, i + 1, store, live.store, dry.stats, live.stats); }
    }
  }

  /** With overwriting, a dry run always predicts whether the real run succeeds. It predicts the
      counters exactly when as many keys find their own object in the store as it was at the start
      as find it there after the keys before them have been copied. */
  lemma {:induction false} OverwriteDryRunPredictsIff(source: Store, cfg: Settings, keys: seq<string>, store: Store)
    requires Uploadable(source) && cfg.overwrite
    ensures var dry := CopyAll(source, cfg.(dryRun := true), keys, store, NO_STATS);
            var live := CopyAll(source, cfg.(dryRun := false), keys, store, NO_STATS);
      && dry.ok == live.ok
      && (dry.ok ==> (live.stats == dry.stats <==>
            Found(source, cfg, keys, |keys|, store, false) == Found(source, cfg, keys, |keys|, store, true)))
  {
    hide CopyAll, Dest;
    assert Parallel(source, cfg, keys, 0, store, store, NO_STATS, NO_STATS) by {
      forall d ensures At(store, d) == ObjectAt(source, cfg, keys, 0, d, store) { ObjectAtStart(source, cfg, keys, d, store); }
    }
    assert keys[0..] == keys;
    ParallelRuns(source, cfg, keys, 0, store, store, NO_STATS, NO_STATS);
  }

  // ---------------------------------------------------------------------------
  // When a run succeeds

  ghost predicate AllFit(source: Store, cfg: Settings, keys: seq<string>, store: Store) {
    forall j :: 0 <= j < |keys| ==> KeyFits(source, cfg, keys[j], store)
  }

  // A key against what the first key leaves.
  lemma {:induction false} FitsAfter(source: Store, cfg: Settings, first: string, key: string, store: Store, after: Store)
    requires KeyFits(source, cfg, first, store)
    requires var d := Dest(cfg, first).value; after == store[d := source[first]] || (after == store && At(store, d) == Some(source[first]))
    ensures KeyFits(source, cfg, key, after) <==>
      KeyFits(source, cfg, key, store)
      && (!cfg.overwrite && Dest(cfg, first) == Dest(cfg, key) ==> At(source, first) == At(source, key))
  {
    hide Dest, ValidKey;
  }

  lemma {:induction false} AllFitFirst(source: Store, cfg: Settings, keys: seq<string>, store: Store)
    requires keys != []
    ensures AllFit(source, cfg, keys, store) <==> KeyFits(source, cfg, keys[0], store) && AllFit(source, cfg, keys[1..], store)
  {
    hide KeyFits;
    assert forall j :: 0 <= j < |keys[1..]| ==> keys[1..][j] == keys[j + 1];
    assert forall j :: 0 < j < |keys| ==> keys[j] == keys[1..][j - 1];
  }

  lemma {:induction false} SharedEqualFirst(source: Store, cfg: Settings, keys: seq<string>)
    requires keys != [] && forall j :: 0 <= j < |keys| ==> keys[j] in source
    ensures SharedEqual(source, cfg, keys) <==>
      && SharedEqual(source, cfg, keys[1..])
      && forall j :: 0 <= j < |keys[1..]| && Dest(cfg, keys[0]) == Dest(cfg, keys[1..][j]) ==> At(source, keys[0]) == At(source, keys[1..][j])
  {
    hide Dest;
    var rest := keys[1..];
    assert forall j :: 0 <= j < |rest| ==> rest[j] == keys[j + 1];
    if SharedEqual(source, cfg, rest)
       && forall j :: 0 <= j < |rest| && Dest(cfg, keys[0]) == Dest(cfg, rest[j]) ==> At(source, keys[0]) == At(source, rest[j])
    {
      forall i, j | 0 <= i < j < |keys| && Dest(cfg, keys[i]) == Dest(cfg, keys[j]) ensures source[keys[i]] == source[keys[j]] {
        assert keys[j] == rest[j - 1];
        if i > 0 { assert keys[i] == rest[i - 1]; }
      }
    }
  }

  // The rest of a run, after its first key.
  lemma {:induction false} RestFits(source: Store, cfg: Settings, keys: seq<string>, store: Store, after: Store)
    requires keys != [] && KeyFits(source, cfg, keys[0], store)
    requires var d := Dest(cfg, keys[0]).value;
      after == store[d := source[keys[0]]] || (after == store && At(store, d) == Some(source[keys[0]]))
    ensures AllFit(source, cfg, keys[1..], after) && (!cfg.overwrite ==> SharedEqual(source, cfg, keys[1..])) <==>
            AllFit(source, cfg, keys, store) && (!cfg.overwrite ==> SharedEqual(source, cfg, keys))
  {
    hide KeyFits, Dest;
    var rest := keys[1..];
    AllFitFirst(source, cfg, keys, store);
    forall j | 0 <= j < |rest|
      ensures KeyFits(source, cfg, rest[j], after) <==>
        KeyFits(source, cfg, rest[j], store)
        && (!cfg.overwrite && Dest(cfg, keys[0]) == Dest(cfg, rest[j]) ==> At(source, keys[0]) == At(source, rest[j]))
    {
      FitsAfter(source, cfg, keys[0], rest[j], store, after);
      FitsInSource(source, cfg, rest[j], after);
    }
    forall k, s | KeyFits(source, cfg, k, s) ensures k in source { FitsInSource(source, cfg, k, s); }
    if AllFit(source, cfg, rest, store) {
      assert forall j :: 0 <= j < |keys| ==> keys[j] in source by {
        forall j | 0 <= j < |keys| ensures keys[j] in source { assert j > 0 ==> keys[j] == rest[j - 1]; }
      }
      SharedEqualFirst(source, cfg, keys);
    }
  }

  lemma {:induction false} FitsInSource(source: Store, cfg: Settings, key: string, store: Store)
    ensures KeyFits(source, cfg, key, store) ==> key in source
  {}

  /** A fault-free run succeeds exactly when every key fits the store as it was at the start, the
      counters can hold the numbers of objects and bytes, and, without overwriting, keys that share
      a destination have equal objects. */
  lemma {:induction false} RunSucceedsIff(source: Store, cfg: Settings, keys: seq<string>, store: Store, stats: Stats)
    requires !cfg.dryRun && Uploadable(source) && stats.seen == stats.copied + stats.skipped
    requires stats.seen < U64 && stats.bytes < U64
    ensures CopyAll(source, cfg, keys, store, stats).ok <==>
      && AllFit(source, cfg, keys, store) && (!cfg.overwrite ==> SharedEqual(source, cfg, keys))
      && stats.seen + |keys| < U64 && stats.bytes + TotalBytes(source, keys) < U64
    decreases |keys|
  {
    hide KeyFits, Dest, CopyKey, SharedEqual, AllFit;
    if keys == [] {
      NoKeysFit(source, cfg, store);
    } else {
      KeyOutcome(source, cfg, keys[0], store, stats);
      FitsInSource(source, cfg, keys[0], store);
      AllFitFirst(source, cfg, keys, store);
      TotalFirst(source, keys);
      var r := CopyKey(source, cfg, keys[0], store, stats);
      if r.ok {
        RestFits(source, cfg, keys, store, r.store);
        RunSucceedsIff(source, cfg, keys[1..], r.store, r.stats);
      }
    }
  }

  lemma {:induction false} NoKeysFit(source: Store, cfg: Settings, store: Store)
    ensures AllFit(source, cfg, [], store) && SharedEqual(source, cfg, [])
  {}

  // ---------------------------------------------------------------------------
  // Running again

  lemma {:induction false} AllSkipped(source: Store, cfg: Settings, keys: seq<string>, store: Store, stats: Stats)
    requires AllStored(source, cfg, keys, store)
    requires forall j :: 0 <= j < |keys| ==> ValidKey(keys[j]) && keys[j] in source && |source[keys[j]]| <= cfg.maxBytes
    requires stats.seen + |keys| < U64 && stats.skipped + |keys| < U64
    requires stats.bytes + TotalBytes(source, keys) < U64
    ensures CopyAll(source, cfg, keys, store, stats) ==
            Result(true, store, Stats(stats.seen + |keys|, stats.copied, stats.skipped + |keys|,
                                      stats.bytes + TotalBytes(source, keys)))
    decreases |keys|
  {
    hide Dest, ValidKey;
    if keys != [] {
      assert Stored(source, cfg, keys[0], store);
      TotalFirst(source, keys);
      var r := CopyKey(source, cfg, keys[0], store, stats);
      assert forall j :: 0 <= j < |keys[1..]| ==> keys[1..][j] == keys[j + 1];
      AllSkipped(source, cfg, keys[1..], store, r.stats);
    }
  }

  lemma {:induction false} TotalFirst(source: Store, keys: seq<string>)
    requires keys != []
    ensures TotalBytes(source, keys)
         == (if keys[0] in source then |source[keys[0]]| else 0) + TotalBytes(source, keys[1..])
  {
    if |keys| > 1 {
      var front := keys[..|keys| - 1];
      TotalFirst(source, front);
      assert front[1..] == keys[1..][..|keys| - 2];
    } else {
      assert keys[1..] == [] && keys[..0] == [];
    }
  }

  // A successful run had valid keys, small enough objects, and counters that did not overflow.
  lemma {:induction false} SuccessFacts(source: Store, cfg: Settings, keys: seq<string>, store: Store, stats: Stats)
    requires stats.seen < U64 && stats.bytes < U64 && CopyAll(source, cfg, keys, store, stats).ok
    ensures forall j :: 0 <= j < |keys| ==> ValidKey(keys[j]) && keys[j] in source && |source[keys[j]]| <= cfg.maxBytes
    ensures stats.seen + |keys| < U64 && stats.bytes + TotalBytes(source, keys) < U64
    decreases |keys|
  {
    hide Dest, ValidKey;
    if keys != [] {
      TotalFirst(source, keys);
      var r := CopyKey(source, cfg, keys[0], store, stats);
      SuccessFacts(source, cfg, keys[1..], r.store, r.stats);
      assert forall j :: 0 < j < |keys| ==> keys[j] == keys[1..][j - 1];
    }
  }

  lemma {:induction false} SuccessStores(source: Store, cfg: Settings, keys: seq<string>, store: Store, stats: Stats)
    requires !cfg.dryRun && !cfg.overwrite && CopyAll(source, cfg, keys, store, stats).ok
    ensures Extends(store, CopyAll(source, cfg, keys, store, stats).store)
    ensures AllStored(source, cfg, keys, CopyAll(source, cfg, keys, store, stats).store)
    decreases |keys|
  {
    hide Dest, ValidKey;
    if keys != [] {
      var r := CopyKey(source, cfg, keys[0], store, stats);
      assert Stored(source, cfg, keys[0], r.store);
      SuccessStores(source, cfg, keys[1..], r.store, r.stats);
      var last := CopyAll(source, cfg, keys, store, stats).store;
      forall j | 0 <= j < |keys| ensures Stored(source, cfg, keys[j], last) {
        if j > 0 { assert keys[j] == keys[1..][j - 1]; }
      }
    }
  }

  // Listed keys that share a destination have equal objects.
  ghost predicate SharedEqual(source: Store, cfg: Settings, keys: seq<string>) {
    forall i, j :: 0 <= i < j < |keys| && keys[i] in source && keys[j] in source && Dest(cfg, keys[i]) == Dest(cfg, keys[j])
      ==> source[keys[i]] == source[keys[j]]
  }

  // An object stays at its destination if every later key that goes there has the same object.
  lemma {:induction false} StaysStored(source: Store, cfg: Settings, keys: seq<string>, store: Store, stats: Stats,
                                       d: string, content: Bytes)
    requires At(store, d) == Some(content)
    requires forall j :: 0 <= j < |keys| && Dest(cfg, keys[j]) == Some(d) && keys[j] in source ==> source[keys[j]] == content
    ensures At(CopyAll(source, cfg, keys, store, stats).store, d) == Some(content)
    decreases |keys|
  {
    hide Dest, ValidKey;
    if keys != [] {
      var r := CopyKey(source, cfg, keys[0], store, stats);
      assert forall j :: 0 <= j < |keys[1..]| ==> keys[1..][j] == keys[j + 1];
      assert At(r.store, d) == Some(content);
      StaysStored(source, cfg, keys[1..], r.store, r.stats, d, content);
    }
  }

  lemma {:induction false} EqualObjectsStored(source: Store, cfg: Settings, keys: seq<string>, store: Store, stats: Stats)
    requires !cfg.dryRun && SharedEqual(source, cfg, keys) && CopyAll(source, cfg, keys, store, stats).ok
    ensures AllStored(source, cfg, keys, CopyAll(source, cfg, keys, store, stats).store)
    decreases |keys|
  {
    hide Dest, ValidKey;
    if keys != [] {
      var r, rest := CopyKey(source, cfg, keys[0], store, stats), keys[1..];
      assert forall j :: 0 <= j < |rest| ==> rest[j] == keys[j + 1];
      EqualObjectsStored(source, cfg, rest, r.store, r.stats);
      assert Stored(source, cfg, keys[0], r.store);
      StaysStored(source, cfg, rest, r.store, r.stats, Dest(cfg, keys[0]).value, source[keys[0]]);
      var last := CopyAll(source, cfg, keys, store, stats).store;
      forall j | 0 <= j < |keys| ensures Stored(source, cfg, keys[j], last) {
        if j > 0 { assert Stored(source, cfg, rest[j - 1], last); }
      }
    }
  }

  // A run that copies nothing found everything stored.
  lemma {:induction false} NothingCopied(source: Store, cfg: Settings, keys: seq<string>, store: Store, stats: Stats)
    ensures CopyAll(source, cfg, keys, store, stats).stats.copied >= stats.copied
    ensures CopyAll(source, cfg, keys, store, stats).ok && CopyAll(source, cfg, keys, store, stats).stats.copied == stats.copied
            ==> AllStored(source, cfg, keys, store)
    decreases |keys|
  {
    hide Dest, ValidKey;
    if keys != [] {
      var r, rest := CopyKey(source, cfg, keys[0], store, stats), keys[1..];
      NothingCopied(source, cfg, rest, r.store, r.stats);
      var all := CopyAll(source, cfg, keys, store, stats);
      if all.ok && all.stats.copied == stats.copied {
        assert r.store == store && Stored(source, cfg, keys[0], store);
        forall j | 0 <= j < |keys| ensures Stored(source, cfg, keys[j], store) {
          if j > 0 { assert rest[j - 1] == keys[j] && Stored(source, cfg, rest[j - 1], store); }
        }
      }
    }
  }

  lemma {:induction false} StoredMeansEqual(source: Store, cfg: Settings, keys: seq<string>, store: Store)
    requires AllStored(source, cfg, keys, store)
    ensures SharedEqual(source, cfg, keys)
  {
    hide Dest;
    forall i, j | 0 <= i < j < |keys| && Dest(cfg, keys[i]) == Dest(cfg, keys[j]) ensures source[keys[i]] == source[keys[j]] {
      assert Stored(source, cfg, keys[i], store) && Stored(source, cfg, keys[j], store);
    }
  }

  /** Running again after a successful run copies nothing and skips everything exactly when
      listed keys that share a destination have equal objects. */
  lemma {:induction false} RerunSkipsAllIff(source: Store, cfg: Settings, keys: seq<string>, store: Store)
    requires !cfg.dryRun && CopyAll(source, cfg, keys, store, NO_STATS).ok
    ensures var first := CopyAll(source, cfg, keys, store, NO_STATS);
      CopyAll(source, cfg, keys, first.store, NO_STATS)
      == Result(true, first.store, Stats(|keys|, 0, |keys|, TotalBytes(source, keys)))
      <==> SharedEqual(source, cfg, keys)
  {
    hide Dest, ValidKey, CopyAll, SharedEqual;
    var first := CopyAll(source, cfg, keys, store, NO_STATS);
    if SharedEqual(source, cfg, keys) {
      EqualObjectsStored(source, cfg, keys, store, NO_STATS);
      SuccessFacts(source, cfg, keys, store, NO_STATS);
      AllSkipped(source, cfg, keys, first.store, NO_STATS);
    } else {
      NothingCopied(source, cfg, keys, first.store, NO_STATS);
      if AllStored(source, cfg, keys, first.store) { StoredMeansEqual(source, cfg, keys, first.store); }
    }
  }

  /** That is so after every success without overwriting, and with it when no two listed keys
      share a destination. */
  lemma {:induction false} RerunSkipsAll(source: Store, cfg: Settings, keys: seq<string>, store: Store)
    requires !cfg.dryRun && CopyAll(source, cfg, keys, store, NO_STATS).ok
    requires !cfg.overwrite || InjectiveOn(cfg, keys)
    ensures var first := CopyAll(source, cfg, keys, store, NO_STATS);
      CopyAll(source, cfg, keys, first.store, NO_STATS)
      == Result(true, first.store, Stats(|keys|, 0, |keys|, TotalBytes(source, keys)))
  {
    hide Dest, CopyAll;
    if !cfg.overwrite {
      SuccessStores(source, cfg, keys, store, NO_STATS);
      StoredMeansEqual(source, cfg, keys, CopyAll(source, cfg, keys, store, NO_STATS).store);
    }
    RerunSkipsAllIff(source, cfg, keys, store);
  }

  /** With overwriting, a key and the same key under the destination prefix that hold different
      objects are copied over each other, and a rerun does not skip them. */
  lemma {:induction false} RerunCopiesAgain(p: string, l: string, a: Bytes, b: Bytes, maxBytes: nat)
    requires ValidKey(p) && ValidKey(l) && !Inside(p, l) && a != b
    requires |a| <= maxBytes && |b| <= maxBytes && |a| < I64 && |b| < I64
    ensures var cfg := Settings(None, Some(p), maxBytes, true, false);
            var keys, source := [Under(p, l), l], map[Under(p, l) := a, l := b];
            var first := CopyAll(source, cfg, keys, map[], NO_STATS);
            first.ok && CopyAll(source, cfg, keys, first.store, NO_STATS).stats == Stats(2, 2, 0, |a| + |b|)
  {
    var cfg := Settings(None, Some(p), maxBytes, true, false);
    var k := Under(p, l);
    var keys, source := [k, l], map[k := a, l := b];
    UnderValid(p, l);
    CollideIff(None, Some(p), k, l);
    DestinationNeverFails(None, Some(p), l);
    var d := Dest(cfg, l).value;
    assert Dest(cfg, k) == Some(d) == Dest(cfg, l);
    hide ValidKey, Dest, Under, CopyKey, CopyAll;
    CopiedOver(source, cfg, k, l, d, map[]);
    CopiedOver(source, cfg, k, l, d, map[d := b]);
  }

  lemma {:induction false} CopiedOver(source: Store, cfg: Settings, k: string, l: string, d: string, store: Store)
    requires cfg.overwrite && !cfg.dryRun && Uploadable(source) && ValidKey(k) && ValidKey(l)
    requires Dest(cfg, k) == Some(d) == Dest(cfg, l) && k in source && l in source && source[k] != source[l]
    requires |source[k]| <= cfg.maxBytes && |source[l]| <= cfg.maxBytes
    requires store == map[] || store == map[d := source[l]]
    ensures CopyAll(source, cfg, [k, l], store, NO_STATS)
         == Result(true, map[d := source[l]], Stats(2, 2, 0, |source[k]| + |source[l]|))
  {
    hide ValidKey, Dest, CopyKey, CopyAll;
    TwoKeys(source, cfg, k, l, store);
    KeyOutcome(source, cfg, k, store, NO_STATS);
    var one := CopyKey(source, cfg, k, store, NO_STATS);
    assert one.ok && one.store == map[d := source[k]] && one.stats == Stats(1, 1, 0, |source[k]|);
    KeyOutcome(source, cfg, l, one.store, one.stats);
    var two := CopyKey(source, cfg, l, one.store, one.stats);
    assert two.store == map[d := source[l]];
  }

  lemma {:induction false} TwoKeys(source: Store, cfg: Settings, k: string, l: string, store: Store)
    ensures var one := CopyKey(source, cfg, k, store, NO_STATS);
      one.ok ==> CopyAll(source, cfg, [k, l], store, NO_STATS) == CopyKey(source, cfg, l, one.store, one.stats)
  {
    hide CopyKey;
    var one := CopyKey(source, cfg, k, store, NO_STATS);
    assert [k, l][1..] == [l] && [l][1..] == [];
    var two := CopyKey(source, cfg, l, one.store, one.stats);
    assert CopyAll(source, cfg, [], two.store, two.stats) == Result(true, two.store, two.stats);
  }
}
