/** How an evaluation job ends: its log is put under a create-only key unless the job ran out of
    capacity, its workspace is cleaned, and one outcome is chosen. Attempts may share a log key
    and may interleave. */
module RunnerLog {
  import opened Options
  import opened ByteStrings

  // What the execution itself came to.
  datatype Execution = Ran | Failed(error: ServiceError)

  datatype ServiceError = Capacity | Runner | Validation | Io

  datatype StorageError = InvalidKey | SymlinkRejected | TooLarge | Conflict | NotFound | Internal | Backend | StorageIo

  // How the storage backend behaves towards one put: it works, it refuses, or it stores the
  // object and then fails, with or without taking it back.
  datatype Backing = Fine | Refuses(error: StorageError) | FailsLate(error: StorageError, left: bool)

  datatype Attempt = Attempt(execution: Execution, log: Bytes, maxBytes: nat, redacted: bool, backing: Backing, cleans: bool)

  datatype Outcome = Succeeded | Ended(error: ServiceError)

  // ---------------------------------------------------------------------------
  // The pieces

  // A put on a create-only key: the object then stored, and the error if any.
  function Put(stored: Option<Bytes>, a: Attempt): (Option<Bytes>, Option<StorageError>) {
    if |a.log| > a.maxBytes then (stored, Some(TooLarge))
    else if stored.Some? then (stored, Some(Conflict))
    else
      match a.backing
      case Fine => (Some(a.log), None)
      case Refuses(error) => (None, Some(error))
      case FailsLate(error, left) => (if left then Some(a.log) else None, Some(error))
  }

  predicate ShouldPersist(a: Attempt) { a.execution != Failed(Capacity) }

  /** `persist_runner_log` */
  function Persist(stored: Option<Bytes>, a: Attempt): (Option<Bytes>, Option<StorageError>) {
    if ShouldPersist(a) then Put(stored, a) else (stored, None)
  }

  /** `storage_error_to_runner_error` */
  function RunnerError(e: StorageError): ServiceError {
    match e
    case InvalidKey => Validation
    case SymlinkRejected => Validation
    case StorageIo => Io
    case _ => Runner
  }

  /** `sanitize_runner_error` */
  function Sanitize(redacted: bool, e: ServiceError): ServiceError { if redacted then Runner else e }

  /** The final match of `execute_evaluation_job`. */
  function Outcomes(a: Attempt, logError: Option<StorageError>): Outcome {
    match a.execution
    case Ran =>
      if logError.None? then (if a.cleans then Succeeded else Ended(Io))
      else if a.cleans then Ended(RunnerError(logError.value)) else Ended(Runner)
    case Failed(error) =>
      if a.cleans then Ended(Sanitize(a.redacted, error)) else Ended(Runner)
  }

  class Storage {
    var stored: Option<Bytes>

    constructor ()
      ensures stored == None
    {
      stored := None;
    }

    method PersistLog(a: Attempt) returns (error: Option<StorageError>)
      modifies this
      ensures (stored, error) == Persist(old(stored), a)
      ensures old(stored).Some? ==> stored == old(stored)
      // A log is stored whole or not at all, within its limit, and never for a job that ran out of capacity.
      ensures stored != old(stored) ==> stored == Some(a.log) && |a.log| <= a.maxBytes && a.execution != Failed(Capacity)
      ensures a.execution == Failed(Capacity) ==> error == None
      ensures a.execution != Failed(Capacity) && error == None ==> old(stored) == None && stored == Some(a.log)
      ensures a.execution != Failed(Capacity) && |a.log| > a.maxBytes ==> error == Some(TooLarge)
      ensures a.execution != Failed(Capacity) && |a.log| <= a.maxBytes && old(stored) != None ==> error == Some(Conflict)
      ensures a.execution != Failed(Capacity) && |a.log| <= a.maxBytes && old(stored) == None && a.backing == Fine ==> error == None
    {
      if !ShouldPersist(a) { return None; }
      if |a.log| > a.maxBytes { return Some(TooLarge); }
      if stored.Some? { return Some(Conflict); }
      match a.backing
      case Fine => stored, error := Some(a.log), None;
      case Refuses(e) => error := Some(e);
      case FailsLate(e, left) =>
        if left { stored := Some(a.log); }
        error := Some(e);
    }

    /** The tail of `execute_evaluation_job`. */
    method FinishJob(a: Attempt) returns (outcome: Outcome, cleaned: bool)
      modifies this
      ensures stored == Persist(old(stored), a).0 && outcome == Outcomes(a, Persist(old(stored), a).1)
      ensures outcome.Succeeded? <==>
        a.execution.Ran? && old(stored).None? && |a.log| <= a.maxBytes && a.backing.Fine? && a.cleans
      ensures outcome.Succeeded? ==> stored == Some(a.log) && cleaned
      ensures outcome == Ended(Capacity) <==> a.execution == Failed(Capacity) && !a.redacted && a.cleans
      ensures cleaned == a.cleans
      // Every failure is hidden behind a runner error if it is redacted or cleanup fails too.
      ensures a.execution.Failed? ==>
        outcome == Ended(if a.redacted || !a.cleans then Runner else a.execution.error)
      // A job that ran but whose log was not stored ends with the storage error, as far as it is told apart.
      ensures a.execution.Ran? && (|a.log| > a.maxBytes || old(stored) != None) ==> outcome == Ended(Runner)
      ensures a.execution.Ran? && |a.log| <= a.maxBytes && old(stored) == None && a.backing != Fine ==>
        var e := a.backing.error;
        outcome == Ended(if !a.cleans then Runner
                         else if e == InvalidKey || e == SymlinkRejected then Validation
                         else if e == StorageIo then Io else Runner)
      ensures a.execution.Ran? && |a.log| <= a.maxBytes && old(stored) == None && a.backing == Fine && !a.cleans ==>
        outcome == Ended(Io)
    {
      var logError := PersistLog(a);
      cleaned := a.cleans;
      outcome := Outcomes(a, logError);
    }
  }

  // ---------------------------------------------------------------------------
  // Interleaved attempts

  datatype Phase = Executing | LogWritten(error: Option<StorageError>) | Done(outcome: Outcome)

  datatype State = State(stored: Option<Bytes>, phases: seq<Phase>)

  // The next step of attempt i: write the log, then clean up and choose the outcome.
  function Next(attempts: seq<Attempt>, s: State, i: nat): State
    requires |attempts| == |s.phases| && i < |attempts|
  {
    match s.phases[i]
    case Executing =>
      var (stored, error) := Persist(s.stored, attempts[i]);
      State(stored, s.phases[i := LogWritten(error)])
    case LogWritten(error) => s.(phases := s.phases[i := Done(Outcomes(attempts[i], error))])
    case Done(_) => s
  }

  function Start(n: nat): State { State(None, seq(n, _ => Executing)) }

  // Any interleaving: the schedule names the attempt that steps.
  function After(attempts: seq<Attempt>, schedule: seq<nat>): (s: State)
    requires forall k :: 0 <= k < |schedule| ==> schedule[k] < |attempts|
    ensures |s.phases| == |attempts|
  {
    if schedule == [] then Start(|attempts|)
    else Next(attempts, After(attempts, schedule[..|schedule| - 1]), schedule[|schedule| - 1])
  }

  // Attempt i wrote its log without error.
  predicate Logged(attempts: seq<Attempt>, s: State, i: nat)
    requires |attempts| == |s.phases| && i < |attempts|
  {
    ShouldPersist(attempts[i]) && match s.phases[i]
    case Executing => false
    case LogWritten(error) => error.None?
    case Done(outcome) => outcome.Succeeded?
  }

  /** What every interleaving keeps. */
  predicate Sound(attempts: seq<Attempt>, s: State)
    requires |attempts| == |s.phases|
  {
    && (forall i :: 0 <= i < |attempts| && Logged(attempts, s, i) ==> s.stored == Some(attempts[i].log))
    && (forall i, j :: 0 <= i < j < |attempts| ==> !(Logged(attempts, s, i) && Logged(attempts, s, j)))
    && (forall i :: 0 <= i < |attempts| && s.phases[i] == Done(Succeeded) ==> attempts[i].cleans && attempts[i].execution.Ran?)
    && (s.stored.Some? ==> exists i :: 0 <= i < |attempts| && ShouldPersist(attempts[i]) && !s.phases[i].Executing?)
  }

  lemma {:induction false} NextSound(attempts: seq<Attempt>, s: State, i: nat)
    requires |attempts| == |s.phases| && i < |attempts| && Sound(attempts, s)
    ensures Sound(attempts, Next(attempts, s, i))
  {
    var t := Next(attempts, s, i);
    assert forall j :: 0 <= j < |attempts| && j != i ==> t.phases[j] == s.phases[j];
    forall j | 0 <= j < |attempts| && j != i ensures Logged(attempts, t, j) <==> Logged(attempts, s, j) {}
    // A log newly written means that the key was free, so no other attempt had written one.
    assert Logged(attempts, t, i) && !Logged(attempts, s, i) ==> s.stored.None?;
    assert forall j :: 0 <= j < |attempts| && j != i && Logged(attempts, t, j) ==> s.stored.Some?;
    forall j, k | 0 <= j < k < |attempts| ensures !(Logged(attempts, t, j) && Logged(attempts, t, k)) {}
    if s.stored.Some? {
      var j :| 0 <= j < |attempts| && ShouldPersist(attempts[j]) && !s.phases[j].Executing?;
      assert !t.phases[j].Executing?;
    } else if t.stored.Some? {
      assert ShouldPersist(attempts[i]) && !t.phases[i].Executing?;
    }
  }

  lemma {:induction false} AlwaysSound(attempts: seq<Attempt>, schedule: seq<nat>)
    requires forall k :: 0 <= k < |schedule| ==> schedule[k] < |attempts|
    ensures Sound(attempts, After(attempts, schedule))
  {
    if schedule != [] {
      var front := schedule[..|schedule| - 1];
      AlwaysSound(attempts, front);
      NextSound(attempts, After(attempts, front), schedule[|schedule| - 1]);
    }
  }

  /** Of attempts sharing a log key, at most one succeeds, whatever the interleaving. */
  lemma {:induction false} AtMostOneSucceeds(attempts: seq<Attempt>, schedule: seq<nat>, i: nat, j: nat)
    requires forall k :: 0 <= k < |schedule| ==> schedule[k] < |attempts|
    requires i < |attempts| && j < |attempts|
    requires After(attempts, schedule).phases[i] == Done(Succeeded) && After(attempts, schedule).phases[j] == Done(Succeeded)
    ensures i == j
  {
    AlwaysSound(attempts, schedule);
    var s := After(attempts, schedule);
    assert Logged(attempts, s, i) && Logged(attempts, s, j);
  }

  /** A success means that this attempt's log is what is stored, from then on, and that its workspace was cleaned. */
  lemma {:induction false} SuccessMeans(attempts: seq<Attempt>, schedule: seq<nat>, i: nat)
    requires forall k :: 0 <= k < |schedule| ==> schedule[k] < |attempts|
    requires i < |attempts| && After(attempts, schedule).phases[i] == Done(Succeeded)
    ensures After(attempts, schedule).stored == Some(attempts[i].log) && attempts[i].cleans
  {
    AlwaysSound(attempts, schedule);
    assert Logged(attempts, After(attempts, schedule), i);
  }

  /** Attempts that ran out of capacity never occupy the key. */
  lemma {:induction false} CapacityLeavesKeyFree(attempts: seq<Attempt>, schedule: seq<nat>)
    requires forall k :: 0 <= k < |schedule| ==> schedule[k] < |attempts| && !ShouldPersist(attempts[schedule[k]])
    ensures After(attempts, schedule).stored == None
  {
    if schedule != [] {
      CapacityLeavesKeyFree(attempts, schedule[..|schedule| - 1]);
    }
  }

  // Attempt i has not stepped yet if the schedule does not name it.
  lemma {:induction false} Untouched(attempts: seq<Attempt>, schedule: seq<nat>, i: nat)
    requires forall k :: 0 <= k < |schedule| ==> schedule[k] < |attempts| && schedule[k] != i
    requires i < |attempts|
    ensures After(attempts, schedule).phases[i] == Executing
  {
    if schedule != [] { Untouched(attempts, schedule[..|schedule| - 1], i); }
  }

  lemma {:induction false} OneMoreStep(attempts: seq<Attempt>, schedule: seq<nat>, i: nat)
    requires i < |attempts| && forall k :: 0 <= k < |schedule| ==> schedule[k] < |attempts|
    ensures After(attempts, schedule + [i]) == Next(attempts, After(attempts, schedule), i)
  {
    assert (schedule + [i])[..|schedule|] == schedule;
  }

  /** So a retry after only such attempts succeeds exactly when it would have with a fresh key. */
  lemma {:induction false} RetryAfterCapacity(attempts: seq<Attempt>, schedule: seq<nat>, i: nat)
    requires i < |attempts|
    requires forall k :: 0 <= k < |schedule| ==>
      schedule[k] < |attempts| && !ShouldPersist(attempts[schedule[k]]) && schedule[k] != i
    ensures var a := attempts[i];
      After(attempts, schedule + [i, i]).phases[i] == Done(Succeeded) <==>
      a.execution.Ran? && |a.log| <= a.maxBytes && a.backing.Fine? && a.cleans
  {
    hide After;
    CapacityLeavesKeyFree(attempts, schedule);
    Untouched(attempts, schedule, i);
    OneMoreStep(attempts, schedule, i);
    OneMoreStep(attempts, schedule + [i], i);
    assert schedule + [i] + [i] == schedule + [i, i];
  }
}
