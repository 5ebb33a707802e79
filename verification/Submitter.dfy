/** The resumable baseline submitter: an append-only log, an index that must equal its replay,
    and runs that may stop at any step. */
module Submitter {
  import opened Options

  datatype Status = Pending | Queued | Running | Completed | Failed | FailedToWait | FailedToSubmit

  datatype Key = Key(challenge: string, target: string)

  type Id = string

  datatype Record = Record(key: Key, id: Option<Id>, status: Status)

  type Log = seq<Record>

  /** `load_state`: the last record of each key. */
  function Replay(log: Log): map<Key, Record> {
    if log == [] then map[] else Replay(log[..|log| - 1])[log[|log| - 1].key := log[|log| - 1]]
  }

  function Lookup(state: map<Key, Record>, key: Key): Option<Record> {
    if key in state then Some(state[key]) else None
  }

  // ---------------------------------------------------------------------------
  // One visit of a challenge-target pair

  datatype Args = Args(resubmit: bool, dryRun: bool, limit: Option<nat>, includeDeferred: bool)

  // The server's answer to a creation request.
  datatype Creation = Refused | Accepted(id: Id, status: Status)

  // What waiting ends with: an error, or a final status. A server that answers for another
  // submission than the one asked about names it.
  datatype Waited = WaitError | Final(completed: bool, other: Option<Id>)

  datatype Answers = Answers(creation: Creation, waited: Waited)

  /** `resumable_submission_id` */
  function Resumable(record: Option<Record>, resubmit: bool): Option<Id> {
    if resubmit || record.None? || record.value.status == Completed then None else record.value.id
  }

  predicate AlreadyDone(args: Args, record: Option<Record>) {
    !args.resubmit && record.Some? && record.value.status == Completed
  }

  // The record appended after waiting for a submission.
  function WaitRecord(key: Key, asked: Id, waited: Waited): Record {
    match waited
    case WaitError => Record(key, Some(asked), FailedToWait)
    case Final(completed, other) =>
      Record(key, Some(if other.Some? then other.value else asked), if completed then Completed else Failed)
  }

  // A creation request is sent.
  predicate Creates(args: Args, record: Option<Record>) {
    !args.dryRun && !AlreadyDone(args, record) && Resumable(record, args.resubmit).None?
  }

  // The records that one visit appends, if it is not interrupted.
  function VisitRecords(args: Args, record: Option<Record>, key: Key, answers: Answers): seq<Record> {
    if args.dryRun || AlreadyDone(args, record) then []
    else if Resumable(record, args.resubmit).Some? then
      [WaitRecord(key, Resumable(record, args.resubmit).value, answers.waited)]
    else
      match answers.creation
      case Refused => [Record(key, None, FailedToSubmit)]
      case Accepted(id, status) => [Record(key, Some(id), status), WaitRecord(key, id, answers.waited)]
  }

  // ---------------------------------------------------------------------------
  // Histories: any number of runs, each stopping anywhere

  // A visit of which only the first `kept` records reached the log. A new run starts from the
  // replayed log, which is also what a run in progress has in memory.
  datatype Step = Step(args: Args, key: Key, answers: Answers, kept: nat)

  function StepRecords(log: Log, step: Step): seq<Record> {
    var records := VisitRecords(step.args, Lookup(Replay(log), step.key), step.key, step.answers);
    if step.kept < |records| then records[..step.kept] else records
  }

  function History(log: Log, steps: seq<Step>): Log {
    if steps == [] then log
    else var before := History(log, steps[..|steps| - 1]); before + StepRecords(before, steps[|steps| - 1])
  }

  predicate NoResubmit(steps: seq<Step>) { forall i :: 0 <= i < |steps| ==> !steps[i].args.resubmit }

  // The server answers for the submission it is asked about.
  predicate Echoes(steps: seq<Step>) {
    forall i :: 0 <= i < |steps| ==> steps[i].answers.waited.Final? ==> steps[i].answers.waited.other.None?
  }

  // ---------------------------------------------------------------------------
  // Replay

  predicate IsLast(log: Log, key: Key, i: int) {
    0 <= i < |log| && log[i].key == key && forall j :: i < j < |log| ==> log[j].key != key
  }

  // Adding a record of another key leaves the last record of a key where it is.
  lemma {:induction false} LastKept(front: Log, record: Record, key: Key, i: int)
    requires record.key != key
    ensures IsLast(front + [record], key, i) <==> IsLast(front, key, i)
  {
    var log := front + [record];
    assert forall j :: 0 <= j < |front| ==> log[j] == front[j];
    if IsLast(log, key, i) {
      assert i != |front|;
      forall j | i < j < |front| ensures front[j].key != key { assert log[j].key != key; }
    }
    if IsLast(front, key, i) {
      forall j | i < j < |log| ensures log[j].key != key { assert j < |front| ==> front[j].key != key; }
    }
  }

  lemma {:induction false} ReplayLast(log: Log, key: Key)
    ensures key in Replay(log) <==> exists i :: 0 <= i < |log| && log[i].key == key
    ensures forall i :: IsLast(log, key, i) ==> key in Replay(log) && Replay(log)[key] == log[i]
    ensures key in Replay(log) ==> exists i :: IsLast(log, key, i)
  {
    if log != [] {
      var n := |log| - 1;
      var front, last := log[..n], log[n];
      assert log == front + [last];
      if last.key == key {
        assert IsLast(log, key, n);
        assert forall i :: IsLast(log, key, i) ==> i == n;
      } else {
        ReplayLast(front, key);
        assert Replay(log) == Replay(front)[last.key := last];
        forall i ensures IsLast(log, key, i) <==> IsLast(front, key, i) { LastKept(front, last, key, i); }
        assert (exists i :: 0 <= i < |log| && log[i].key == key) ==> key in Replay(front) by {
          if i :| 0 <= i < |log| && log[i].key == key { assert front[i] == log[i]; }
        }
      }
    }
  }

  lemma {:induction false} ReplayConcat(log: Log, more: seq<Record>)
    ensures Replay(log + more) == if more == [] then Replay(log) else
              Replay(log + more[..|more| - 1])[more[|more| - 1].key := more[|more| - 1]]
  {
    if more == [] {
      assert log + more == log;
    } else {
      assert (log + more)[..|log + more| - 1] == log + more[..|more| - 1];
    }
  }

  // The records of one visit are all for its key, so replay and the in-memory insert of the
  // visit's last record come to the same index.
  lemma {:induction false} VisitReplay(args: Args, log: Log, key: Key, answers: Answers)
    ensures var records := VisitRecords(args, Lookup(Replay(log), key), key, answers);
      Replay(log + records) == if records == [] then Replay(log) else Replay(log)[key := records[|records| - 1]]
  {
    var records := VisitRecords(args, Lookup(Replay(log), key), key, answers);
    ReplayConcat(log, records);
    if |records| == 2 { ReplayConcat(log, records[..1]); ReplayConcat(log, []); assert records[..1][..0] == []; }
    if |records| == 1 { assert records[..0] == []; ReplayConcat(log, []); }
  }

  // ---------------------------------------------------------------------------
  // No two submissions are logged for one key

  // Once a key has an id, every later record of that key has the same id.
  predicate IdsStick(log: Log) {
    forall i, j :: 0 <= i < j < |log| && log[i].key == log[j].key && log[i].id.Some? ==> log[j].id == log[i].id
  }

  lemma {:induction false} LastHasId(log: Log, key: Key, i: int)
    requires IdsStick(log) && 0 <= i < |log| && log[i].key == key && log[i].id.Some?
    ensures key in Replay(log) && Replay(log)[key].id == log[i].id
  {
    ReplayLast(log, key);
    var l :| IsLast(log, key, l);
    assert i <= l;
  }

  lemma {:induction false} StepKeepsIds(log: Log, step: Step)
    requires IdsStick(log) && !step.args.resubmit && (step.answers.waited.Final? ==> step.answers.waited.other.None?)
    ensures IdsStick(log + StepRecords(log, step))
  {
    var records := StepRecords(log, step);
    var all := log + records;
    assert forall r :: r in records ==> r.key == step.key;
    forall i, j | 0 <= i < j < |all| && all[i].key == all[j].key && all[i].id.Some? ensures all[j].id == all[i].id {
      if j >= |log| {
        assert all[j] == records[j - |log|] && all[j] in records;
        if i < |log| {
          LastHasId(log, step.key, i);
        } else {
          assert all[i] == records[i - |log|];
        }
      }
    }
  }

  /** Across any number of runs without resubmission, stopping anywhere, no two distinct
      submission ids are logged for one key. */
  lemma {:induction false} IdsNeverDiffer(steps: seq<Step>)
    requires NoResubmit(steps) && Echoes(steps)
    ensures IdsStick(History([], steps))
  {
    if steps != [] {
      IdsNeverDiffer(steps[..|steps| - 1]);
      StepKeepsIds(History([], steps[..|steps| - 1]), steps[|steps| - 1]);
    }
  }

  lemma {:induction false} HistoryGrows(log: Log, steps: seq<Step>, n: nat)
    requires n <= |steps|
    ensures History(log, steps[..n]) <= History(log, steps)
  {
    if n < |steps| {
      var front := steps[..|steps| - 1];
      HistoryGrows(log, front, n);
      assert front[..n] == steps[..n];
      assert History(log, front) <= History(log, steps);
    } else {
      assert steps[..n] == steps;
    }
  }

  /** Runs one after the other make one history. */
  lemma {:induction false} RunsCompose(log: Log, first: seq<Step>, second: seq<Step>)
    ensures History(History(log, first), second) == History(log, first + second)
  {
    hide StepRecords;
    if second == [] {
      assert first + second == first;
    } else {
      var n := |second| - 1;
      RunsCompose(log, first, second[..n]);
      assert (first + second)[..|first| + n] == first + second[..n];
    }
  }

  // Step i sends a creation request and the server accepts it.
  predicate AcceptedAt(steps: seq<Step>, i: nat)
    requires i < |steps|
  {
    var log := History([], steps[..i]);
    Creates(steps[i].args, Lookup(Replay(log), steps[i].key)) && steps[i].answers.creation.Accepted?
  }

  // Once a key has an id, every later record of that key has some id.
  predicate SomeIdSticks(log: Log) {
    forall i, j :: 0 <= i < j < |log| && log[i].key == log[j].key && log[i].id.Some? ==> log[j].id.Some?
  }

  lemma {:induction false} LastHasSomeId(log: Log, key: Key, i: int)
    requires SomeIdSticks(log) && 0 <= i < |log| && log[i].key == key && log[i].id.Some?
    ensures key in Replay(log) && Replay(log)[key].id.Some?
  {
    ReplayLast(log, key);
    var l :| IsLast(log, key, l);
    assert i <= l;
  }

  lemma {:induction false} StepKeepsSomeId(log: Log, step: Step)
    requires SomeIdSticks(log) && !step.args.resubmit
    ensures SomeIdSticks(log + StepRecords(log, step))
  {
    var records := StepRecords(log, step);
    var all := log + records;
    assert forall r :: r in records ==> r.key == step.key;
    forall i, j | 0 <= i < j < |all| && all[i].key == all[j].key && all[i].id.Some? ensures all[j].id.Some? {
      if j >= |log| {
        assert all[j] == records[j - |log|] && all[j] in records;
        if i < |log| {
          LastHasSomeId(log, step.key, i);
        } else {
          assert all[i] == records[i - |log|];
        }
      }
    }
  }

  lemma {:induction false} SomeIdAlwaysSticks(steps: seq<Step>)
    requires NoResubmit(steps)
    ensures SomeIdSticks(History([], steps))
  {
    if steps != [] {
      SomeIdAlwaysSticks(steps[..|steps| - 1]);
      StepKeepsSomeId(History([], steps[..|steps| - 1]), steps[|steps| - 1]);
    }
  }

  /** A key is submitted a second time only if the record of the first submission was lost:
      the run stopped between the server's acceptance and the append. */
  lemma {:induction false} SecondSubmissionMeansLostRecord(steps: seq<Step>, i: nat, j: nat)
    requires NoResubmit(steps) && i < j < |steps| && steps[i].key == steps[j].key
    requires AcceptedAt(steps, i) && AcceptedAt(steps, j)
    ensures steps[i].kept == 0
  {
    hide History, Replay, SomeIdSticks;
    var before, log := History([], steps[..i]), History([], steps[..j]);
    LoggedAt(steps, i, j);
    SomeIdAlwaysSticks(steps[..j]);
    if steps[i].kept > 0 {
      var records := StepRecords(before, steps[i]);
      assert records[0].id.Some? && records[0].key == steps[i].key;
      LastHasSomeId(log, steps[j].key, |before|);
    }
  }

  // A step that logs nothing, or is for another key, leaves the key's record alone.
  lemma {:induction false} RecordLeft(log: Log, step: Step, key: Key)
    requires step.key != key || step.kept == 0
    ensures Lookup(Replay(log + StepRecords(log, step)), key) == Lookup(Replay(log), key)
  {
    hide Replay;
    var records := StepRecords(log, step);
    ReplayConcat(log, records);
    if |records| > 0 { ReplayConcat(log, records[..|records| - 1]); }
    if |records| == 2 { ReplayConcat(log, records[..1][..0]); }
  }

  lemma {:induction false} RecordLeftBetween(steps: seq<Step>, i: nat, j: nat, key: Key)
    requires i < j <= |steps| && steps[i].kept == 0 && forall k :: i < k < j ==> steps[k].key != key
    ensures Lookup(Replay(History([], steps[..j])), key) == Lookup(Replay(History([], steps[..i])), key)
  {
    hide Replay, Lookup, StepRecords;
    var front := steps[..j - 1];
    assert steps[..j][..j - 1] == front;
    RecordLeft(History([], front), steps[j - 1], key);
    if i < j - 1 { RecordLeftBetween(steps, i, j - 1, key); }
  }

  /** When a key is next visited after an accepted submission, it is submitted again exactly when
      the run stopped before the first record was appended. */
  lemma {:induction false} SubmittedAgainIff(steps: seq<Step>, i: nat, j: nat)
    requires NoResubmit(steps) && i < j < |steps| && steps[i].key == steps[j].key
    requires AcceptedAt(steps, i) && forall k :: i < k < j ==> steps[k].key != steps[i].key
    requires !steps[j].args.dryRun && steps[j].answers.creation.Accepted?
    ensures AcceptedAt(steps, j) <==> steps[i].kept == 0
  {
    hide History, Replay;
    if steps[i].kept == 0 {
      RecordLeftBetween(steps, i, j, steps[i].key);
    } else if AcceptedAt(steps, j) {
      SecondSubmissionMeansLostRecord(steps, i, j);
    }
  }

  // What step i logged is still there at step j.
  lemma {:induction false} LoggedAt(steps: seq<Step>, i: nat, j: nat)
    requires i < j <= |steps|
    ensures History([], steps[..i]) + StepRecords(History([], steps[..i]), steps[i]) <= History([], steps[..j])
  {
    hide StepRecords;
    assert steps[..i + 1][..i] == steps[..i];
    HistoryGrows([], steps[..j], i + 1);
    assert steps[..j][..i + 1] == steps[..i + 1];
  }

  // ---------------------------------------------------------------------------
  // Completed stays completed

  predicate CompletedIn(log: Log, key: Key) { key in Replay(log) && Replay(log)[key].status == Completed }

  // A key whose replayed status is completed gets no further record.
  lemma {:induction false} DoneIsLeftAlone(log: Log, step: Step)
    requires !step.args.resubmit && CompletedIn(log, step.key)
    ensures StepRecords(log, step) == []
  {}

  /** From any log, a key that is replayed as completed when a run stops, or at any loop head, keeps
      that very record over all further visits without resubmission, whatever the server answers. */
  lemma {:induction false} CompletedStays(base: Log, steps: seq<Step>, n: nat, key: Key)
    requires NoResubmit(steps) && n <= |steps| && CompletedIn(History(base, steps[..n]), key)
    ensures CompletedIn(History(base, steps), key)
    ensures Replay(History(base, steps))[key] == Replay(History(base, steps[..n]))[key]
    decreases |steps|
  {
    hide Replay, StepRecords;
    if n == |steps| {
      assert steps[..n] == steps;
    } else {
      var front, step := steps[..|steps| - 1], steps[|steps| - 1];
      assert front[..n] == steps[..n];
      CompletedStays(base, front, n, key);
      var log := History(base, front);
      if step.key == key {
        DoneIsLeftAlone(log, step);
        assert log + [] == log;
      } else {
        RecordLeft(log, step, key);
      }
    }
  }

  // No record of a key follows a completed record of that key with another status.
  predicate Sticky(log: Log) {
    forall i, j :: 0 <= i < j < |log| && log[i].key == log[j].key && log[i].status == Completed
      ==> log[j].status == Completed
  }

  // A submission is created, reported completed at once, and then awaited without success, and
  // both records reach the log.
  predicate Relapses(log: Log, step: Step) {
    && Creates(step.args, Lookup(Replay(log), step.key))
    && step.answers.creation.Accepted? && step.answers.creation.status == Completed
    && !(step.answers.waited.Final? && step.answers.waited.completed)
    && step.kept >= 2
  }

  lemma {:induction false} CompletedAtEnd(log: Log, key: Key, i: int)
    requires Sticky(log) && 0 <= i < |log| && log[i].key == key && log[i].status == Completed
    ensures CompletedIn(log, key)
  {
    ReplayLast(log, key);
    var l :| IsLast(log, key, l);
    assert i <= l;
  }

  lemma {:induction false} StepSticky(log: Log, step: Step)
    requires !step.args.resubmit
    ensures Sticky(log + StepRecords(log, step)) <==> Sticky(log) && !Relapses(log, step)
  {
    var records := StepRecords(log, step);
    var all := log + records;
    assert forall i :: 0 <= i < |log| ==> all[i] == log[i];
    assert forall i :: 0 <= i < |records| ==> all[|log| + i] == records[i] && records[i].key == step.key;
    assert Relapses(log, step) <==> |records| == 2 && records[0].status == Completed && records[1].status != Completed;
    if Relapses(log, step) {
      assert all[|log|] == records[0] && all[|log| + 1] == records[1];
    }
    if Sticky(log) && !Relapses(log, step) {
      forall i, j | 0 <= i < j < |all| && all[i].key == all[j].key && all[i].status == Completed
        ensures all[j].status == Completed
      {
        if i < |log| <= j {
          CompletedAtEnd(log, step.key, i);
          DoneIsLeftAlone(log, step);
        }
      }
    }
  }

  lemma {:induction false} EmptySticky()
    ensures Sticky([])
  {}

  // Step i of a history relapses.
  predicate RelapsesAt(steps: seq<Step>, i: nat)
    requires i < |steps|
  {
    Relapses(History([], steps[..i]), steps[i])
  }

  /** About single records, not replayed states: every record after a completed one of its key is
      completed too, exactly when no visit logs a submission as completed on creation and then
      fails to await it. */
  lemma {:induction false} CompletedRecordsStickIff(steps: seq<Step>)
    requires NoResubmit(steps)
    ensures Sticky(History([], steps)) <==> forall i :: 0 <= i < |steps| ==> !RelapsesAt(steps, i)
  {
    hide StepRecords, Sticky, Relapses, Replay;
    if steps == [] {
      EmptySticky();
    }
    if steps != [] {
      var front, n := steps[..|steps| - 1], |steps| - 1;
      CompletedRecordsStickIff(front);
      StepSticky(History([], front), steps[n]);
      assert RelapsesAt(steps, n) <==> Relapses(History([], front), steps[n]);
      forall i | 0 <= i < n ensures RelapsesAt(front, i) <==> RelapsesAt(steps, i) {
        assert front[..i] == steps[..i];
      }
    }
  }

  /** Such a visit: its two records, of which the first is never a replayed state unless the run
      stops between them. */
  lemma {:induction false} CompletedRecordFollowed(key: Key, id: Id)
    ensures var args := Args(false, false, None, false);
            var steps := [Step(args, key, Answers(Accepted(id, Completed), WaitError), 2)];
      NoResubmit(steps) && Echoes(steps) && !Sticky(History([], steps))
  {
    var args := Args(false, false, None, false);
    var steps := [Step(args, key, Answers(Accepted(id, Completed), WaitError), 2)];
    assert steps[..0] == [] && History([], []) == [];
    assert Replay([]) == map[];
    var log := History([], steps);
    assert log == [] + [Record(key, Some(id), Completed), Record(key, Some(id), FailedToWait)];
    assert log[0].status == Completed && log[1].status == FailedToWait;
  }

  // ---------------------------------------------------------------------------
  // The code

  datatype Summary = Summary(planned: nat, submitted: nat, completed: nat, failed: nat, skipped: nat, deferred: nat)

  datatype Challenge = Challenge(name: string, allowed: bool, onDeferlist: bool, hasSolution: bool, marked: bool,
                                 targets: Option<seq<string>>)

  // How a part of the run ended: stopped, done with the whole run, or on to the next challenge.
  datatype Next = Interrupted | LimitHit | Onward

  const NO_COUNTS := Summary(0, 0, 0, 0, 0, 0)

  // What one visit that is not cut comes to.
  datatype Effect = Skipped | Planned | Finished(created: bool, completed: bool)

  function EffectOf(args: Args, record: Option<Record>, key: Key, answers: Answers): Effect {
    if AlreadyDone(args, record) then Skipped
    else if args.dryRun then Planned
    else
      var records := VisitRecords(args, record, key, answers);
      Finished(Creates(args, record) && answers.creation.Accepted?, records[|records| - 1].status == Completed)
  }

  function Counted(s: Summary, e: Effect): Summary {
    match e
    case Skipped => s.(skipped := s.skipped + 1)
    case Planned => s.(planned := s.planned + 1)
    case Finished(created, completed) =>
      s.(submitted := s.submitted + (if created then 1 else 0),
         completed := s.completed + (if completed then 1 else 0),
         failed := s.failed + (if completed then 0 else 1))
  }

  // The counts that a history of visits comes to.
  function Tally(base: Log, steps: seq<Step>): Summary {
    if steps == [] then NO_COUNTS
    else
      var front, step := steps[..|steps| - 1], steps[|steps| - 1];
      Counted(Tally(base, front), EffectOf(step.args, Lookup(Replay(History(base, front)), step.key), step.key, step.answers))
  }

  // Challenges passed over without a visit.
  datatype Passes = Passes(skipped: nat, deferred: nat)

  function WithPasses(s: Summary, over: Passes): Summary {
    s.(skipped := s.skipped + over.skipped, deferred := s.deferred + over.deferred)
  }

  predicate IsDeferred(args: Args, c: Challenge) {
    c.allowed && (c.onDeferlist || (c.hasSolution && !args.includeDeferred && c.marked))
  }

  predicate IsSkipped(args: Args, c: Challenge) {
    c.allowed && !IsDeferred(args, c) && (!c.hasSolution || c.targets == Some([]))
  }

  function PassedOne(args: Args, c: Challenge, over: Passes): Passes {
    Passes(over.skipped + (if IsSkipped(args, c) then 1 else 0), over.deferred + (if IsDeferred(args, c) then 1 else 0))
  }

  function PassedOver(args: Args, challenges: seq<Challenge>): Passes {
    if challenges == [] then Passes(0, 0)
    else PassedOne(args, challenges[|challenges| - 1], PassedOver(args, challenges[..|challenges| - 1]))
  }

  // ---------------------------------------------------------------------------
  // What visits log and count, in terms of the records found and the server's answers

  // The key's record says completed, and completed keys are not submitted again.
  predicate Settled(args: Args, found: Option<Record>) {
    found.Some? && found.value.status == Completed && args.resubmit == false
  }

  // There is a submission to wait for.
  predicate Pursues(args: Args, found: Option<Record>, id: Id) {
    found.Some? && found.value.status != Completed && found.value.id == Some(id) && args.resubmit == false
  }

  // How waiting for a submission is recorded.
  predicate Awaited(r: Record, key: Key, asked: Id, waited: Waited) {
    && r.key == key
    && (waited == WaitError ==> r.id == Some(asked) && r.status == FailedToWait)
    && (waited.Final? && waited.other == None ==> r.id == Some(asked))
    && (waited.Final? && waited.other != None ==> r.id == waited.other)
    && (waited.Final? ==> r.status == if waited.completed then Completed else Failed)
  }

  /** Everything that a visit which is not cut can log: nothing in a dry run or for a settled key; the
      outcome of waiting, for a submission that is pursued; otherwise a submission is created, and a
      refusal is logged as such, an acceptance with its status and then the outcome of waiting. */
  lemma {:induction false} VisitLogs(log: Log, step: Step)
    requires step.kept >= 2
    ensures var found, added := Lookup(Replay(log), step.key), StepRecords(log, step);
      && (step.args.dryRun || Settled(step.args, found) ==> added == [])
      && (!step.args.dryRun ==>
           && (forall id :: Pursues(step.args, found, id) ==> |added| == 1 && Awaited(added[0], step.key, id, step.answers.waited))
           && (!Settled(step.args, found) && (forall id :: !Pursues(step.args, found, id)) ==>
                match step.answers.creation
                case Refused => added == [Record(step.key, None, FailedToSubmit)]
                case Accepted(id, status) =>
                  && |added| == 2 && added[0] == Record(step.key, Some(id), status)
                  && Awaited(added[1], step.key, id, step.answers.waited)))
  {
    var found := Lookup(Replay(log), step.key);
    assert found.Some? && found.value.id.Some? && !Settled(step.args, found) && !step.args.resubmit ==>
      Pursues(step.args, found, found.value.id.value);
  }

  // The server reported a submission of the key completed.
  predicate ReportedCompleted(step: Step, key: Key) {
    && step.key == key
    && ((step.answers.creation.Accepted? && step.answers.creation.status == Completed)
        || (step.answers.waited.Final? && step.answers.waited.completed))
  }

  lemma {:induction false} StepCompleted(log: Log, step: Step, r: Record)
    requires r in StepRecords(log, step) && r.status == Completed
    ensures ReportedCompleted(step, r.key)
  {}

  /** A completed record is logged only for a key that the server reported completed, whatever runs
      there were and wherever they stopped. */
  lemma {:induction false} CompletedOnlyIfReported(base: Log, steps: seq<Step>, r: Record)
    requires r in History(base, steps) && r.status == Completed
    ensures r in base || exists i :: 0 <= i < |steps| && ReportedCompleted(steps[i], r.key)
  {
    hide StepRecords, ReportedCompleted;
    if steps != [] {
      var front, step := steps[..|steps| - 1], steps[|steps| - 1];
      var log := History(base, front);
      if r in log {
        CompletedOnlyIfReported(base, front, r);
        if i :| 0 <= i < |front| && ReportedCompleted(front[i], r.key) { assert steps[i] == front[i]; }
      } else {
        StepCompleted(log, step, r);
      }
    }
  }

  // The visit acts on the key: no dry run, and the key is not settled.
  predicate Acts(step: Step, found: Option<Record>) { step.args.dryRun == false && !Settled(step.args, found) }

  // It then has a submission to wait for, pursued or newly accepted.
  ghost predicate HasSubmission(step: Step, found: Option<Record>) {
    step.answers.creation.Accepted? || exists id :: Pursues(step.args, found, id)
  }

  ghost predicate Completes(step: Step, found: Option<Record>) {
    Acts(step, found) && HasSubmission(step, found) && step.answers.waited.Final? && step.answers.waited.completed
  }

  ghost predicate CreatesNew(step: Step, found: Option<Record>) {
    Acts(step, found) && step.answers.creation.Accepted? && forall id :: !Pursues(step.args, found, id)
  }

  // What step i finds in the log.
  function Found(base: Log, steps: seq<Step>, i: nat): Option<Record>
    requires i < |steps|
  {
    Lookup(Replay(History(base, steps[..i])), steps[i].key)
  }

  lemma {:induction false} EffectMeans(step: Step, found: Option<Record>)
    ensures var e := EffectOf(step.args, found, step.key, step.answers);
      && (e.Skipped? <==> Settled(step.args, found))
      && (e.Planned? <==> step.args.dryRun && !Settled(step.args, found))
      && (e.Finished? <==> Acts(step, found))
      && (e.Finished? ==> (e.completed <==> Completes(step, found)) && (e.created <==> CreatesNew(step, found)))
      && (!e.Finished? ==> !Completes(step, found) && !CreatesNew(step, found))
  {
    assert found.Some? && found.value.id.Some? && !Settled(step.args, found) && !step.args.resubmit ==>
      Pursues(step.args, found, found.value.id.value);
  }

  ghost predicate Fails(step: Step, found: Option<Record>) { Acts(step, found) && !Completes(step, found) }

  predicate Skips(step: Step, found: Option<Record>) { Settled(step.args, found) }

  predicate Plans(step: Step, found: Option<Record>) { step.args.dryRun && !Settled(step.args, found) }

  // The visits of a kind.
  ghost function Visits(base: Log, steps: seq<Step>, kind: (Step, Option<Record>) -> bool): set<int> {
    set i | 0 <= i < |steps| && kind(steps[i], Found(base, steps, i))
  }

  // One more visit: the earlier ones find what they found.
  lemma {:induction false} OneMoreVisit(base: Log, steps: seq<Step>, kind: (Step, Option<Record>) -> bool)
    requires steps != []
    ensures var n := |steps| - 1;
      |Visits(base, steps, kind)|
      == |Visits(base, steps[..n], kind)| + if kind(steps[n], Found(base, steps, n)) then 1 else 0
  {
    hide Found;
    var n := |steps| - 1;
    var front := steps[..n];
    forall i | 0 <= i < n ensures front[i] == steps[i] && Found(base, front, i) == Found(base, steps, i) {
      SameFound(base, steps, n, i);
    }
    var before := Visits(base, front, kind);
    assert n !in before;
    assert Visits(base, steps, kind) == before + if kind(steps[n], Found(base, steps, n)) then {n} else {};
  }

  lemma {:induction false} SameFound(base: Log, steps: seq<Step>, n: nat, i: nat)
    requires i < n <= |steps|
    ensures Found(base, steps[..n], i) == Found(base, steps, i)
  {
    assert steps[..n][..i] == steps[..i];
  }

  /** Every counter of a summary is a number of visits, told apart by what they found in the log and
      what the server answered. */
  lemma {:induction false} TallyCounts(base: Log, steps: seq<Step>)
    ensures Tally(base, steps) ==
      Summary(|Visits(base, steps, Plans)|, |Visits(base, steps, CreatesNew)|, |Visits(base, steps, Completes)|,
              |Visits(base, steps, Fails)|, |Visits(base, steps, Skips)|, 0)
  {
    if steps == [] {
      NoVisits(base, Plans);
      NoVisits(base, CreatesNew);
      NoVisits(base, Completes);
      NoVisits(base, Fails);
      NoVisits(base, Skips);
    } else {
      hide Completes, CreatesNew, Settled, Acts, EffectOf, Visits;
      var n := |steps| - 1;
      TallyCounts(base, steps[..n]);
      OneMoreVisit(base, steps, Plans);
      OneMoreVisit(base, steps, CreatesNew);
      OneMoreVisit(base, steps, Completes);
      OneMoreVisit(base, steps, Fails);
      OneMoreVisit(base, steps, Skips);
      EffectMeans(steps[n], Found(base, steps, n));
    }
  }

  lemma {:induction false} NoVisits(base: Log, kind: (Step, Option<Record>) -> bool)
    ensures |Visits(base, [], kind)| == 0
  {
    assert Visits(base, [], kind) == {};
  }

  // What every loop head keeps of the counters.
  predicate Counters(args: Args, s: Summary, count: nat) {
    && count == s.planned + s.completed + s.failed
    && s.submitted <= s.completed + s.failed
    && (args.limit.Some? ==> count <= args.limit.value)
    && (args.dryRun ==> s.submitted == s.completed == s.failed == 0)
    && (!args.dryRun ==> s.planned == 0)
  }

  class Run {
    var log: Log
    var state: map<Key, Record>
    var summary: Summary
    var count: nat
    // How many more fallible operations succeed before the run stops.
    var good: nat
    const answers: nat -> Answers

    constructor (log: Log, good: nat, answers: nat -> Answers)
      ensures this.log == log && state == Replay(log) && summary == NO_COUNTS && count == 0
    {
      this.log, this.good, this.answers := log, good, answers;
      state, summary, count := Replay(log), NO_COUNTS, 0;
    }

    ghost predicate InSync() reads this { state == Replay(log) }

    method Operation() returns (ok: bool)
      modifies this`good
      ensures ok == (old(good) > 0) && good == if ok then old(good) - 1 else old(good)
    {
      ok := good > 0;
      if ok { good := good - 1; }
    }

    // `append_state`
    method Append(record: Record) returns (ok: bool)
      modifies this`log, this`good
      ensures log == if ok then old(log) + [record] else old(log)
      ensures ok == (old(good) > 0) && good + 1 >= old(good)
    {
      ok := Operation();
      if ok { log := log + [record]; }
    }

    // Logs a wait's outcome, indexes it and counts it.
    method Finish(record: Record) returns (ok: bool)
      modifies this`log, this`state, this`summary, this`count, this`good
      ensures ok ==> log == old(log) + [record] && state == old(state)[record.key := record] && count == old(count) + 1
      ensures ok ==> summary == (if record.status == Completed
                                 then old(summary).(completed := old(summary).completed + 1)
                                 else old(summary).(failed := old(summary).failed + 1))
      ensures !ok ==> log == old(log)
      ensures ok == (old(good) > 0) && good + 1 >= old(good)
    {
      ok := Append(record);
      if !ok { return; }
      state := state[record.key := record];
      if record.status == Completed {
        summary := summary.(completed := summary.completed + 1);
      } else {
        summary := summary.(failed := summary.failed + 1);
      }
      count := count + 1;
    }

    /** The body of the target loop, past the limit check. */
    method Visit(args: Args, key: Key, a: Answers) returns (ok: bool, ghost kept: nat)
      requires InSync() && Counters(args, summary, count) && (args.limit.Some? ==> count < args.limit.value)
      modifies this`log, this`state, this`summary, this`count, this`good
      ensures log == History(old(log), [Step(args, key, a, kept)])
      ensures ok ==> InSync() && Counters(args, summary, count)
      ensures ok ==> summary == Counted(old(summary), EffectOf(args, Lookup(old(state), key), key, a))
      ensures ok ==> kept == 2
      ensures args.dryRun ==> log == old(log)
      ensures (old(good) >= 2 ==> ok) && good + 2 >= old(good)
    {
      ghost var record := Lookup(state, key);
      ghost var records := VisitRecords(args, record, key, a);
      VisitReplay(args, log, key, a);
      ok, kept := VisitWork(args, key, a);
      if ok {
        assert log == old(log) + records;
        kept := 2;
      }
      OneStep(old(log), Step(args, key, a, kept));
    }

    method VisitWork(args: Args, key: Key, a: Answers) returns (ok: bool, ghost kept: nat)
      requires Counters(args, summary, count) && (args.limit.Some? ==> count < args.limit.value)
      modifies this`log, this`state, this`summary, this`count, this`good
      ensures var records := VisitRecords(args, Lookup(old(state), key), key, a);
        && kept <= |records| && log == old(log) + records[..kept]
        && (ok ==> kept == |records|
                   && state == (if records == [] then old(state) else old(state)[key := records[|records| - 1]]))
      ensures ok ==> Counters(args, summary, count)
      ensures (old(good) >= 2 ==> ok) && good + 2 >= old(good)
      ensures ok ==> summary == Counted(old(summary), EffectOf(args, Lookup(old(state), key), key, a))
    {
      var record := Lookup(state, key);
      ghost var records := VisitRecords(args, record, key, a);
      ok, kept := true, 0;
      if AlreadyDone(args, record) {
        summary := summary.(skipped := summary.skipped + 1);
        return;
      }
      var resumable := Resumable(record, args.resubmit);
      if args.dryRun {
        summary := summary.(planned := summary.planned + 1);
        count := count + 1;
        return;
      }
      if resumable.Some? {
        ok := Finish(WaitRecord(key, resumable.value, a.waited));
        kept := if ok then 1 else 0;
        return;
      }
      match a.creation
      case Refused =>
        ok := Finish(Record(key, None, FailedToSubmit));
        kept := if ok then 1 else 0;
      case Accepted(id, status) =>
        summary := summary.(submitted := summary.submitted + 1);
        ok := Append(Record(key, Some(id), status));
        if !ok { return; }
        kept := 1;
        ok := Finish(WaitRecord(key, id, a.waited));
        if ok { kept := 2; }
    }

    /** The target loop of one challenge. */
    method SubmitTargets(args: Args, challenge: string, targets: seq<string>,
                         ghost base: Log, ghost made: seq<Step>, ghost over: Passes)
      returns (next: Next, ghost steps: seq<Step>)
      requires Tracks(args, answers, base, made, over, log, state, summary, count)
      modifies this`log, this`state, this`summary, this`count, this`good
      ensures log == History(base, steps) && AllWith(args, answers, steps) && (args.dryRun ==> log == base)
      ensures !next.Interrupted? ==> Tracks(args, answers, base, steps, over, log, state, summary, count)
      ensures Covers(args, steps, made, TargetKeys(challenge, targets), next, count)
      ensures (old(good) >= 2 * |targets| ==> !next.Interrupted?) && good + 2 * |targets| >= old(good)
    {
      hide History, Counters, Tally, EffectOf;
      steps := made;
      for t := 0 to |targets|
        invariant Tracks(args, answers, base, steps, over, log, state, summary, count)
        invariant KeysOf(steps) == KeysOf(made) + TargetKeys(challenge, targets)[..t]
        invariant good + 2 * t >= old(good)
      {
        if LimitReached(args, count) { return LimitHit, steps; }
        BelowLimit(args, summary, count);
        var key, a := Key(challenge, targets[t]), answers(good);
        ghost var kept;
        ghost var before := log;
        var ok;
        ok, kept := Visit(args, key, a);
        ghost var step := Step(args, key, a, kept);
        HistoryStep(base, steps, step, before);
        TallyStep(base, steps, step, over);
        KeysStep(steps, step, challenge, targets, t);
        steps := steps + [step];
        if !ok { return Interrupted, steps; }
      }
      next := Onward;
    }

    // Counts a challenge as skipped or deferred.
    method Pass(args: Args, deferred: bool, ghost base: Log, ghost steps: seq<Step>, ghost over: Passes)
      requires Tracks(args, answers, base, steps, over, log, state, summary, count)
      modifies this`summary
      ensures var next := if deferred then over.(deferred := over.deferred + 1) else over.(skipped := over.skipped + 1);
        Tracks(args, answers, base, steps, next, log, state, summary, count)
    {
      hide History, Replay, Tally;
      summary := if deferred then summary.(deferred := summary.deferred + 1)
                 else summary.(skipped := summary.skipped + 1);
    }

    /** One pass of the challenge loop. */
    method SubmitChallenge(args: Args, challenge: Challenge, ghost base: Log, ghost made: seq<Step>, ghost over: Passes)
      returns (next: Next, ghost steps: seq<Step>)
      requires Tracks(args, answers, base, made, over, log, state, summary, count)
      modifies this`log, this`state, this`summary, this`count, this`good
      ensures log == History(base, steps) && AllWith(args, answers, steps) && (args.dryRun ==> log == base)
      ensures !next.Interrupted? ==>
        Tracks(args, answers, base, steps, PassedOne(args, challenge, over), log, state, summary, count)
      ensures Covers(args, steps, made, ChallengeWork(args, challenge), next, count)
      ensures old(good) >= 1 + 2 * |ChallengeWork(args, challenge)| && Declared(args, challenge) ==> !next.Interrupted?
      ensures good + 1 + 2 * |ChallengeWork(args, challenge)| >= old(good)
    {
      hide History, Replay, Counters, Tally;
      next, steps := Onward, made;
      if !challenge.allowed { return; }
      var deferred := challenge.onDeferlist || (challenge.hasSolution && !args.includeDeferred && challenge.marked);
      if deferred || !challenge.hasSolution {
        Pass(args, deferred, base, made, over);
        return;
      }
      // A failed request, and a target that the challenge does not declare, end the run.
      var ok := Operation();
      if !ok || challenge.targets.None? { return Interrupted, made; }
      if |challenge.targets.value| == 0 {
        Pass(args, false, base, made, over);
      } else {
        next, steps := SubmitTargets(args, challenge.name, challenge.targets.value, base, made, over);
      }
    }

    /** The loops of `run`. The returned steps are the visits made, the last one possibly cut. */
    method Submit(args: Args, challenges: seq<Challenge>) returns (ok: bool, ghost steps: seq<Step>)
      requires InSync() && summary == NO_COUNTS && count == 0
      modifies this`log, this`state, this`summary, this`count, this`good
      ensures log == History(old(log), steps) && AllWith(args, answers, steps)
      ensures ok ==> InSync() && Counters(args, summary, count)
      ensures args.dryRun ==> log == old(log)
      ensures ok ==> Whole(steps)
      // The run is not interrupted if requests and appends go well and the selected targets are declared.
      ensures old(good) >= |challenges| + 2 * |Work(args, challenges)| && AllDeclared(args, challenges) ==> ok
      // The eligible pairs are visited in order, and all of them unless the run was interrupted
      // or the limit was reached.
      ensures KeysOf(steps) <= Work(args, challenges)
      // Every counter is exact: the visits made, and the challenges passed over so far.
      ensures ok ==> Exact(args, challenges, old(log), steps, summary)
      ensures ok && !LimitReached(args, count) ==>
        KeysOf(steps) == Work(args, challenges)
        && summary == WithPasses(Tally(old(log), steps), PassedOver(args, challenges))
    {
      hide History, Replay, ChallengeWork, KeysOf, Work, AllWith, Whole, Declared, Tally, WithPasses, IsSkipped, IsDeferred;
      EmptyHistory(log, args, answers, challenges);
      steps := [];
      ghost var over := Passes(0, 0);
      for c := 0 to |challenges|
        invariant over == PassedOver(args, challenges[..c])
        invariant Tracks(args, answers, old(log), steps, over, log, state, summary, count)
        invariant KeysOf(steps) == Work(args, challenges[..c])
        invariant good + c + 2 * |Work(args, challenges[..c])| >= old(good)
      {
        var next;
        ghost var made := steps;
        next, steps := SubmitChallenge(args, challenges[c], old(log), steps, over);
        assert challenges[..c + 1][..c] == challenges[..c];
        over := PassedOne(args, challenges[c], over);
        WorkStep(args, challenges, c);
        PrefixTransitive(KeysOf(steps), Work(args, challenges[..c + 1]), Work(args, challenges));
        if !next.Onward? { return next.LimitHit?, steps; }
      }
      assert challenges[..|challenges|] == challenges;
      ok := true;
    }
  }

  // What every loop head keeps: the index is the replayed log, the log is the history of the
  // visits made, and the counters add up.
  ghost predicate Tracks(args: Args, answers: nat -> Answers, base: Log, steps: seq<Step>, over: Passes,
                         log: Log, state: map<Key, Record>, summary: Summary, count: nat)
  {
    && state == Replay(log) && Counters(args, summary, count)
    && summary == WithPasses(Tally(base, steps), over)
    && log == History(base, steps) && AllWith(args, answers, steps) && Whole(steps)
    && (args.dryRun ==> log == base)
  }

  // The summary counts the visits made and the challenges passed over up to some point.
  ghost predicate Exact(args: Args, challenges: seq<Challenge>, base: Log, steps: seq<Step>, summary: Summary) {
    exists n :: 0 <= n <= |challenges| && summary == WithPasses(Tally(base, steps), PassedOver(args, challenges[..n]))
  }

  function KeysOf(steps: seq<Step>): (r: seq<Key>)
    ensures |r| == |steps|
  {
    seq(|steps|, i requires 0 <= i < |steps| => steps[i].key)
  }

  function TargetKeys(challenge: string, targets: seq<string>): (r: seq<Key>)
    ensures |r| == |targets|
  {
    seq(|targets|, i requires 0 <= i < |targets| => Key(challenge, targets[i]))
  }

  lemma {:induction false} KeysStep(steps: seq<Step>, step: Step, challenge: string, targets: seq<string>, t: nat)
    requires t < |targets| && step.key == Key(challenge, targets[t])
    ensures KeysOf(steps + [step]) == KeysOf(steps) + [step.key]
    ensures TargetKeys(challenge, targets)[..t + 1] == TargetKeys(challenge, targets)[..t] + [step.key]
  {}

  // The pairs of one challenge that are not passed over.
  function ChallengeWork(args: Args, c: Challenge): seq<Key> {
    if c.allowed && !c.onDeferlist && c.hasSolution && (args.includeDeferred || !c.marked) && c.targets.Some?
    then TargetKeys(c.name, c.targets.value) else []
  }

  // A challenge that is not passed over declares the selected targets.
  predicate Declared(args: Args, c: Challenge) {
    c.allowed && !c.onDeferlist && c.hasSolution && (args.includeDeferred || !c.marked) ==> c.targets.Some?
  }

  predicate AllDeclared(args: Args, challenges: seq<Challenge>) {
    forall i :: 0 <= i < |challenges| ==> Declared(args, challenges[i])
  }

  function Work(args: Args, challenges: seq<Challenge>): seq<Key> {
    if challenges == [] then []
    else Work(args, challenges[..|challenges| - 1]) + ChallengeWork(args, challenges[|challenges| - 1])
  }

  // The new steps are for the first of these keys; for all of them if the run goes on.
  predicate Covers(args: Args, steps: seq<Step>, made: seq<Step>, keys: seq<Key>, next: Next, count: nat) {
    && KeysOf(made) <= KeysOf(steps) <= KeysOf(made) + keys
    && (next.Onward? ==> KeysOf(steps) == KeysOf(made) + keys)
    && (next.LimitHit? ==> LimitReached(args, count))
  }

  lemma {:induction false} WorkStep(args: Args, challenges: seq<Challenge>, c: nat)
    requires c < |challenges|
    ensures Work(args, challenges[..c + 1]) == Work(args, challenges[..c]) + ChallengeWork(args, challenges[c])
    ensures Work(args, challenges[..c + 1]) <= Work(args, challenges)
  {
    hide ChallengeWork;
    assert challenges[..c + 1][..c] == challenges[..c];
    WorkPrefix(args, challenges, c + 1);
  }

  lemma {:induction false} PrefixTransitive(a: seq<Key>, b: seq<Key>, c: seq<Key>)
    requires a <= b <= c
    ensures a <= c
  {}

  lemma {:induction false} WorkPrefix(args: Args, challenges: seq<Challenge>, n: nat)
    requires n <= |challenges|
    ensures Work(args, challenges[..n]) <= Work(args, challenges)
  {
    hide ChallengeWork;
    if n < |challenges| {
      var front := challenges[..|challenges| - 1];
      WorkPrefix(args, front, n);
      assert front[..n] == challenges[..n];
    } else {
      assert challenges[..n] == challenges;
    }
  }

  // Visits of one run: with its arguments, and with answers that the server gave.
  ghost predicate AllWith(args: Args, answers: nat -> Answers, steps: seq<Step>) {
    forall i :: 0 <= i < |steps| ==> steps[i].args == args && exists n :: steps[i].answers == answers(n)
  }

  // No visit was cut.
  predicate Whole(steps: seq<Step>) { forall i :: 0 <= i < |steps| ==> steps[i].kept == 2 }

  predicate LimitReached(args: Args, count: nat) { args.limit.Some? && count >= args.limit.value }

  lemma {:induction false} BelowLimit(args: Args, summary: Summary, count: nat)
    requires Counters(args, summary, count) && !LimitReached(args, count)
    ensures args.limit.Some? ==> count < args.limit.value
  {}

  lemma {:induction false} EmptyHistory(log: Log, args: Args, answers: nat -> Answers, challenges: seq<Challenge>)
    ensures History(log, []) == log && AllWith(args, answers, []) && Whole([]) && NO_COUNTS == WithPasses(Tally(log, []), Passes(0, 0))
    ensures KeysOf([]) == Work(args, challenges[..0])
  {}

  lemma {:induction false} TallyStep(base: Log, steps: seq<Step>, step: Step, over: Passes)
    ensures WithPasses(Tally(base, steps + [step]), over) == Counted(WithPasses(Tally(base, steps), over),
      EffectOf(step.args, Lookup(Replay(History(base, steps)), step.key), step.key, step.answers))
  {
    hide EffectOf;
    assert (steps + [step])[..|steps|] == steps;
  }

  lemma {:induction false} OneStep(log: Log, step: Step)
    ensures History(log, [step]) == log + StepRecords(log, step)
  {
    assert [step][..0] == [];
    assert History(log, []) == log;
  }

  lemma {:induction false} HistoryStep(log: Log, steps: seq<Step>, step: Step, before: Log)
    requires before == History(log, steps)
    ensures History(log, steps + [step]) == History(before, [step])
  {
    OneStep(before, step);
    assert (steps + [step])[..|steps|] == steps;
  }
}
