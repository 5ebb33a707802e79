/** The storage plan: which directories, images, mounts and quota slots are prepared,
    in which order, and with which project ids. */
module StoragePlan {
  import opened ByteStrings
  import opened Sorting

  const U64_MAX: int := U64 - 1

  function SatAdd(a: nat, b: nat): nat { if a + b > U64_MAX then U64_MAX else a + b }
  function SatMul(a: nat, b: nat): nat { if a * b > U64_MAX then U64_MAX else a * b }

  // ---------------------------------------------------------------------------
  // Names

  datatype Phase = SolutionSetup | SolutionBuild | SolutionRun | EvaluatorSetup | EvaluatorScore

  function PhaseText(p: Phase): (r: string)
    ensures IsAscii(r)
  {
    match p
    case SolutionSetup => "solution-setup"
    case SolutionBuild => "solution-build"
    case SolutionRun => "solution-run"
    case EvaluatorSetup => "evaluator-setup"
    case EvaluatorScore => "evaluator-score"
  }

  lemma {:induction false} PhaseTextInjective(p: Phase, q: Phase)
    requires Ascii(PhaseText(p)) == Ascii(PhaseText(q))
    ensures p == q
  {
    var s, t := PhaseText(p), PhaseText(q);
    assert |s| == |t|;
    assert forall i :: 0 <= i < |s| ==> Ascii(s)[i] == s[i] as int && Ascii(t)[i] == t[i] as int;
    assert s[9] == t[9] && s[11] == t[11];
  }

  function Digit(n: int): Byte
    requires 0 <= n < 10
  {
    '0' as int + n
  }

  // Decimal digits without leading zeros.
  function Decimal(n: nat): (r: Bytes)
    ensures |r| > 0
  {
    if n < 10 then [Digit(n)] else Decimal(n / 10) + [Digit(n % 10)]
  }

  function DecimalValue(s: Bytes): int {
    if s == [] then 0 else DecimalValue(s[..|s| - 1]) * 10 + (s[|s| - 1] - '0' as int)
  }

  lemma {:induction false} DecimalRoundTrip(n: nat)
    ensures DecimalValue(Decimal(n)) == n
  {
    var s := Decimal(n);
    if n < 10 {
      assert s[..0] == [];
      assert DecimalValue(s) == DecimalValue(s[..0]) * 10 + (s[0] - '0' as int);
    } else {
      DecimalRoundTrip(n / 10);
      assert s[..|s| - 1] == Decimal(n / 10);
    }
  }

  // Decimal, not any other base.
  lemma {:induction false} DecimalDigits()
    ensures Decimal(4096) == Ascii("4096") && Decimal(64) == Ascii("64")
  {
    assert Decimal(4096) == Decimal(4) + [Digit(0)] + [Digit(9)] + [Digit(6)] by {
      assert Decimal(40) == Decimal(4) + [Digit(0)];
      assert Decimal(409) == Decimal(40) + [Digit(9)];
      assert Decimal(4096) == Decimal(409) + [Digit(6)];
    }
    assert Decimal(64) == Decimal(6) + [Digit(4)];
    assert Ascii("4096") == [52, 48, 57, 54] && Ascii("64") == [54, 52];
  }

  // `{:03}`: padded with zeros on the left to at least three digits.
  function Padded3(n: nat): Bytes {
    var d := Decimal(n);
    if |d| == 1 then [Digit(0), Digit(0)] + d else if |d| == 2 then [Digit(0)] + d else d
  }

  lemma {:induction false} LeadingZero(s: Bytes)
    ensures DecimalValue([Digit(0)] + s) == DecimalValue(s)
  {
    var z := [Digit(0)] + s;
    if s == [] {
      assert z[..0] == [];
      assert DecimalValue(z) == DecimalValue(z[..0]) * 10 + 0;
    } else {
      assert z[..|z| - 1] == [Digit(0)] + s[..|s| - 1];
      LeadingZero(s[..|s| - 1]);
    }
  }

  lemma {:induction false} Padded3Value(n: nat)
    ensures DecimalValue(Padded3(n)) == n
  {
    var d := Decimal(n);
    DecimalRoundTrip(n);
    LeadingZero(d);
    LeadingZero([Digit(0)] + d);
    assert [Digit(0), Digit(0)] + d == [Digit(0)] + ([Digit(0)] + d);
  }

  function SlotName(index: nat): Bytes { Ascii("slot-") + Padded3(index) }
  function ClassDir(classMb: nat): Bytes { Decimal(classMb) + Ascii("mb") }

  function SlotPath(root: Path, phase: Phase, classMb: nat, index: nat): Path {
    root + [Ascii(PhaseText(phase)), Ascii("slots"), ClassDir(classMb), SlotName(index)]
  }

  /** Slot names of any size never coincide. */
  lemma {:induction false} SlotPathInjective(root: Path, p: Phase, c: nat, i: nat, q: Phase, d: nat, j: nat)
    requires SlotPath(root, p, c, i) == SlotPath(root, q, d, j)
    ensures p == q && c == d && i == j
  {
    hide Ascii, PhaseText, Decimal, Padded3;
    var s, t := SlotPath(root, p, c, i), SlotPath(root, q, d, j);
    assert s[|root|] == t[|root|] && s[|root| + 2] == t[|root| + 2] && s[|root| + 3] == t[|root| + 3];
    PhaseTextInjective(p, q);
    assert ClassDir(c)[..|ClassDir(c)| - 2] == Decimal(c) && ClassDir(d)[..|ClassDir(d)| - 2] == Decimal(d);
    DecimalRoundTrip(c);
    DecimalRoundTrip(d);
    assert SlotName(i)[5..] == Padded3(i) && SlotName(j)[5..] == Padded3(j);
    Padded3Value(i);
    Padded3Value(j);
  }

  // ---------------------------------------------------------------------------
  // Plans

  datatype Config = Config(
    stateRoot: Path, loopImageRoot: Path, dockerDataRoot: Path, dockerLoopImage: Path,
    phaseMountRoot: Path, storageWorkRoot: Path, dockerLoopSize: Bytes, phaseLoopSize: Bytes,
    phases: seq<Phase>, classes: seq<nat>, slotsPerClass: nat, projectIdBase: nat,
    inodesPerMb: nat, persistFstab: bool)

  datatype Action =
    | EnsureDir(path: Path)
    | EnsureImage(path: Path, size: Bytes)
    | EnsureMount(image: Path, mount: Path)
    | EnsureFstab(image: Path, mount: Path)
    | EnsureSlot(phase: Phase, classMb: nat, slotIndex: nat, projectId: nat)
    | ChownOwnedPaths

  function ProjectId(config: Config, classOffset: nat, slotIndex: nat): nat {
    SatAdd(SatAdd(config.projectIdBase, SatMul(classOffset, config.slotsPerClass)), slotIndex)
  }

  function PhaseImage(config: Config, phase: Phase): Path {
    config.loopImageRoot + [Ascii("phase-") + Ascii(PhaseText(phase)) + Ascii(".xfs")]
  }

  function PhaseMount(config: Config, phase: Phase): Path { config.phaseMountRoot + [Ascii(PhaseText(phase))] }

  function FstabIfKept(config: Config, image: Path, mount: Path): seq<Action> {
    if config.persistFstab then [EnsureFstab(image, mount)] else []
  }

  function Prelude(config: Config): seq<Action> {
    [EnsureDir(config.stateRoot), EnsureDir(config.loopImageRoot), EnsureDir(config.dockerDataRoot),
     EnsureDir(config.phaseMountRoot), EnsureDir(config.stateRoot + [Ascii("storage")]),
     EnsureDir(config.storageWorkRoot), EnsureDir(config.stateRoot + [Ascii("challenges")]),
     EnsureDir(config.stateRoot + [Ascii("runtime")]),
     EnsureImage(config.dockerLoopImage, config.dockerLoopSize),
     EnsureMount(config.dockerLoopImage, config.dockerDataRoot)]
    + FstabIfKept(config, config.dockerLoopImage, config.dockerDataRoot)
  }

  // The first n slots of one class.
  function ClassSlots(config: Config, phase: Phase, c: nat, n: nat): (r: seq<Action>)
    requires c < |config.classes|
    ensures |r| == n
  {
    seq(n, i requires 0 <= i < n => EnsureSlot(phase, config.classes[c], i + 1, ProjectId(config, c, i + 1)))
  }

  // The slots of the first n classes.
  function Slots(config: Config, phase: Phase, n: nat): seq<Action>
    requires n <= |config.classes|
  {
    if n == 0 then [] else Slots(config, phase, n - 1) + ClassSlots(config, phase, n - 1, config.slotsPerClass)
  }

  function PhaseHead(config: Config, phase: Phase): seq<Action> {
    var image, mount := PhaseImage(config, phase), PhaseMount(config, phase);
    [EnsureImage(image, config.phaseLoopSize), EnsureMount(image, mount)] + FstabIfKept(config, image, mount)
  }

  function PhaseActions(config: Config, phase: Phase): seq<Action> {
    PhaseHead(config, phase) + Slots(config, phase, |config.classes|)
  }

  // The actions of the first n phases.
  function Phases(config: Config, n: nat): seq<Action>
    requires n <= |config.phases|
  {
    if n == 0 then [] else Phases(config, n - 1) + PhaseActions(config, config.phases[n - 1])
  }

  function Plan(config: Config): seq<Action> {
    Prelude(config) + Phases(config, |config.phases|) + [ChownOwnedPaths]
  }

  /** `StoragePlan::from_config`. */
  method FromConfig(config: Config) returns (actions: seq<Action>)
    ensures actions == Plan(config)
  {
    hide Prelude, PhaseHead, ProjectId;
    actions := Prelude(config);
    for k := 0 to |config.phases|
      invariant actions == Prelude(config) + Phases(config, k)
    {
      var phase := config.phases[k];
      actions := actions + PhaseHead(config, phase);
      ghost var before := actions;
      for c := 0 to |config.classes|
        invariant actions == before + Slots(config, phase, c)
      {
        ghost var earlier := actions;
        for i := 0 to config.slotsPerClass
          invariant actions == earlier + ClassSlots(config, phase, c, i)
        {
          actions := actions + [EnsureSlot(phase, config.classes[c], i + 1, ProjectId(config, c, i + 1))];
        }
      }
    }
    actions := actions + [ChownOwnedPaths];
  }

  // ---------------------------------------------------------------------------
  // Which slots a plan holds

  // The slot of class c and index i of a phase.
  ghost predicate IsSlot(config: Config, a: Action, phase: Phase, n: nat)
    requires n <= |config.classes|
  {
    exists c, i :: 0 <= c < n && 1 <= i <= config.slotsPerClass
      && a == EnsureSlot(phase, config.classes[c], i, ProjectId(config, c, i))
  }

  lemma {:induction false} ClassSlotsMembers(config: Config, phase: Phase, c: nat, a: Action)
    requires c < |config.classes|
    ensures a in ClassSlots(config, phase, c, config.slotsPerClass) <==>
            exists i :: 1 <= i <= config.slotsPerClass
              && a == EnsureSlot(phase, config.classes[c], i, ProjectId(config, c, i))
  {
    hide ProjectId;
    var s := ClassSlots(config, phase, c, config.slotsPerClass);
    if i :| 1 <= i <= config.slotsPerClass && a == EnsureSlot(phase, config.classes[c], i, ProjectId(config, c, i)) {
      assert s[i - 1] == a;
    }
    if a in s {
      var k :| 0 <= k < |s| && s[k] == a;
      assert a == EnsureSlot(phase, config.classes[c], k + 1, ProjectId(config, c, k + 1));
    }
  }

  lemma {:induction false} SlotsMembers(config: Config, phase: Phase, n: nat, a: Action)
    requires n <= |config.classes|
    ensures a in Slots(config, phase, n) <==> IsSlot(config, a, phase, n)
  {
    hide ProjectId, ClassSlots;
    if n != 0 {
      SlotsMembers(config, phase, n - 1, a);
      ClassSlotsMembers(config, phase, n - 1, a);
    }
  }

  lemma {:induction false} PhasesMembers(config: Config, n: nat, a: Action)
    requires n <= |config.phases| && a.EnsureSlot?
    ensures a in Phases(config, n) <==>
            exists k :: 0 <= k < n && IsSlot(config, a, config.phases[k], |config.classes|)
  {
    hide IsSlot, PhaseActions;
    if n != 0 {
      PhasesMembers(config, n - 1, a);
      PhaseActionsMembers(config, config.phases[n - 1], a);
    }
  }

  lemma {:induction false} PhaseActionsMembers(config: Config, phase: Phase, a: Action)
    requires a.EnsureSlot?
    ensures a in PhaseActions(config, phase) <==> IsSlot(config, a, phase, |config.classes|)
  {
    hide IsSlot, Slots, PhaseImage, PhaseMount;
    SlotsMembers(config, phase, |config.classes|, a);
    assert a !in PhaseHead(config, phase);
  }

  /** The quota-slot actions are exactly phases x classes x 1..=slots, each with its project id. */
  lemma {:induction false} PlanSlots(config: Config, a: Action)
    requires a.EnsureSlot?
    ensures a in Plan(config) <==>
            exists k :: 0 <= k < |config.phases| && IsSlot(config, a, config.phases[k], |config.classes|)
  {
    hide IsSlot, Phases;
    PhasesMembers(config, |config.phases|, a);
    assert a !in Prelude(config);
  }

  // An action of the kinds that have one per phase besides the Docker one: an image, its mount, and,
  // if the fstab is kept, its entry.
  predicate Concerns(config: Config, a: Action, image: Path, mount: Path, size: Bytes) {
    || a == EnsureImage(image, size)
    || a == EnsureMount(image, mount)
    || (a == EnsureFstab(image, mount) && config.persistFstab == true)
  }

  // The eight directories.
  predicate IsPlannedDir(config: Config, p: Path) {
    || p == config.stateRoot || p == config.loopImageRoot || p == config.dockerDataRoot || p == config.phaseMountRoot
    || p == config.storageWorkRoot
    || p == config.stateRoot + [Ascii("storage")] || p == config.stateRoot + [Ascii("challenges")]
    || p == config.stateRoot + [Ascii("runtime")]
  }

  // One image and mount point for each phase, named after it.
  predicate ConcernsPhase(config: Config, a: Action, phase: Phase) {
    Concerns(config, a, config.loopImageRoot + [Ascii("phase-") + Ascii(PhaseText(phase)) + Ascii(".xfs")],
             config.phaseMountRoot + [Ascii(PhaseText(phase))], config.phaseLoopSize)
  }

  lemma {:induction false} PreludeHolds(config: Config, a: Action)
    ensures a in Prelude(config) <==>
      || (a.EnsureDir? && IsPlannedDir(config, a.path))
      || Concerns(config, a, config.dockerLoopImage, config.dockerDataRoot, config.dockerLoopSize)
  {
    hide Ascii;
    var dirs := [EnsureDir(config.stateRoot), EnsureDir(config.loopImageRoot), EnsureDir(config.dockerDataRoot),
     EnsureDir(config.phaseMountRoot), EnsureDir(config.stateRoot + [Ascii("storage")]),
     EnsureDir(config.storageWorkRoot), EnsureDir(config.stateRoot + [Ascii("challenges")]),
     EnsureDir(config.stateRoot + [Ascii("runtime")])];
    var more := [EnsureImage(config.dockerLoopImage, config.dockerLoopSize),
                 EnsureMount(config.dockerLoopImage, config.dockerDataRoot)];
    assert Prelude(config) == dirs + more + FstabIfKept(config, config.dockerLoopImage, config.dockerDataRoot);
  }

  lemma {:induction false} PhaseHeadHolds(config: Config, phase: Phase, a: Action)
    ensures a in PhaseHead(config, phase) <==> ConcernsPhase(config, a, phase)
  {
    hide Ascii, PhaseText;
  }

  lemma {:induction false} PhasesHold(config: Config, n: nat, a: Action)
    requires n <= |config.phases| && !a.EnsureSlot?
    ensures a in Phases(config, n) <==> exists k :: 0 <= k < n && ConcernsPhase(config, a, config.phases[k])
  {
    hide ConcernsPhase, PhaseHead, Slots, IsSlot;
    if n != 0 {
      PhasesHold(config, n - 1, a);
      PhaseHeadHolds(config, config.phases[n - 1], a);
      SlotsMembers(config, config.phases[n - 1], |config.classes|, a);
      NoSlot(config, a, config.phases[n - 1]);
    }
  }

  lemma {:induction false} NoSlot(config: Config, a: Action, phase: Phase)
    requires !a.EnsureSlot?
    ensures !IsSlot(config, a, phase, |config.classes|)
  {}

  /** What else a plan holds: eight directories; the Docker image and one image for each phase, each
      with its mount and, exactly if the fstab is kept, its entry; and the final change of owner. */
  lemma {:induction false} PlanHolds(config: Config, a: Action)
    requires !a.EnsureSlot?
    ensures a in Plan(config) <==>
      || a == ChownOwnedPaths
      || (a.EnsureDir? && IsPlannedDir(config, a.path))
      || Concerns(config, a, config.dockerLoopImage, config.dockerDataRoot, config.dockerLoopSize)
      || exists k :: 0 <= k < |config.phases| && ConcernsPhase(config, a, config.phases[k])
  {
    hide Phases, Prelude, ConcernsPhase, Concerns, IsPlannedDir;
    PreludeHolds(config, a);
    PhasesHold(config, |config.phases|, a);
  }

  // ---------------------------------------------------------------------------
  // No slot is planned twice

  predicate SameSlot(a: Action, b: Action) {
    a.EnsureSlot? && b.EnsureSlot? && a.phase == b.phase && a.classMb == b.classMb && a.slotIndex == b.slotIndex
  }

  predicate SlotsDistinct(s: seq<Action>) { forall i, j :: 0 <= i < j < |s| ==> !SameSlot(s[i], s[j]) }

  lemma {:induction false} DistinctConcat(a: seq<Action>, b: seq<Action>)
    requires SlotsDistinct(a) && SlotsDistinct(b)
    requires forall x, y :: x in a && y in b ==> !SameSlot(x, y)
    ensures SlotsDistinct(a + b)
  {
    forall i, j | 0 <= i < j < |a + b| ensures !SameSlot((a + b)[i], (a + b)[j]) {
      if i < |a| <= j { assert a[i] in a && b[j - |a|] in b; }
    }
  }

  lemma {:induction false} SlotsAreDistinct(config: Config, phase: Phase, n: nat)
    requires n <= |config.classes| && NoRepeats(config.classes)
    ensures SlotsDistinct(Slots(config, phase, n))
  {
    hide ProjectId, IsSlot;
    if n != 0 {
      SlotsAreDistinct(config, phase, n - 1);
      var a, b := Slots(config, phase, n - 1), ClassSlots(config, phase, n - 1, config.slotsPerClass);
      forall x, y | x in a && y in b ensures !SameSlot(x, y) {
        SlotsMembers(config, phase, n - 1, x);
        ClassSlotsMembers(config, phase, n - 1, y);
        SlotClass(config, x, phase, n - 1);
      }
      DistinctConcat(a, b);
    }
  }

  lemma {:induction false} SlotClass(config: Config, a: Action, phase: Phase, n: nat)
    requires n <= |config.classes| && IsSlot(config, a, phase, n)
    ensures a.EnsureSlot? && a.phase == phase && exists c :: 0 <= c < n && a.classMb == config.classes[c]
  {}

  lemma {:induction false} PhaseActionsDistinct(config: Config, phase: Phase)
    requires NoRepeats(config.classes)
    ensures SlotsDistinct(PhaseActions(config, phase))
    ensures forall a :: a in PhaseActions(config, phase) && a.EnsureSlot? ==> a.phase == phase
  {
    hide Slots;
    SlotsAreDistinct(config, phase, |config.classes|);
    DistinctConcat(PhaseHead(config, phase), Slots(config, phase, |config.classes|));
    forall a | a in PhaseActions(config, phase) && a.EnsureSlot? ensures a.phase == phase {
      SlotsMembers(config, phase, |config.classes|, a);
    }
  }

  lemma {:induction false} PhasesDistinct(config: Config, n: nat)
    requires n <= |config.phases| && NoRepeats(config.phases) && NoRepeats(config.classes)
    ensures SlotsDistinct(Phases(config, n))
    ensures forall a :: a in Phases(config, n) && a.EnsureSlot? ==> exists k :: 0 <= k < n && a.phase == config.phases[k]
  {
    hide PhaseActions;
    if n != 0 {
      PhasesDistinct(config, n - 1);
      PhaseActionsDistinct(config, config.phases[n - 1]);
      DistinctConcat(Phases(config, n - 1), PhaseActions(config, config.phases[n - 1]));
    }
  }

  // No two positions prepare the same slot path.
  predicate SlotPathsApart(root: Path, actions: seq<Action>) {
    forall i, j :: 0 <= i < j < |actions| && actions[i].EnsureSlot? && actions[j].EnsureSlot? ==>
      SlotPath(root, actions[i].phase, actions[i].classMb, actions[i].slotIndex)
      != SlotPath(root, actions[j].phase, actions[j].classMb, actions[j].slotIndex)
  }

  /** With deduplicated phases and classes, no two positions of the plan prepare the same slot path. */
  lemma {:induction false} PlanPathsDistinct(config: Config)
    requires NoRepeats(config.phases) && NoRepeats(config.classes)
    ensures SlotPathsApart(config.phaseMountRoot, Plan(config))
  {
    hide Phases, SlotPath;
    PhasesDistinct(config, |config.phases|);
    DistinctConcat(Prelude(config), Phases(config, |config.phases|));
    DistinctConcat(Prelude(config) + Phases(config, |config.phases|), [ChownOwnedPaths]);
    var actions := Plan(config);
    assert SlotsDistinct(actions);
    hide Plan;
    forall i, j | 0 <= i < j < |actions| && actions[i].EnsureSlot? && actions[j].EnsureSlot?
      ensures SlotPath(config.phaseMountRoot, actions[i].phase, actions[i].classMb, actions[i].slotIndex)
           != SlotPath(config.phaseMountRoot, actions[j].phase, actions[j].classMb, actions[j].slotIndex)
    {
      var a, b := actions[i], actions[j];
      assert !SameSlot(a, b);
      if SlotPath(config.phaseMountRoot, a.phase, a.classMb, a.slotIndex)
         == SlotPath(config.phaseMountRoot, b.phase, b.classMb, b.slotIndex) {
        SlotPathInjective(config.phaseMountRoot, a.phase, a.classMb, a.slotIndex, b.phase, b.classMb, b.slotIndex);
      }
    }
  }

  // ---------------------------------------------------------------------------
  // Order

  lemma {:induction false} PhasesOrder(config: Config, n: nat, i: nat)
    requires n <= |config.phases| && i < |Phases(config, n)| && Phases(config, n)[i].EnsureSlot?
    ensures Prepared(config, Phases(config, n), i)
  {
    hide Slots, PhaseImage, PhaseMount;
    var front := Phases(config, n - 1);
    if i < |front| {
      PhasesOrder(config, n - 1, i);
      PreparedPrefix(config, front, PhaseActions(config, config.phases[n - 1]), i);
    } else {
      var phase := config.phases[n - 1];
      var all := Phases(config, n);
      assert all[i] == PhaseActions(config, phase)[i - |front|];
      assert all[i] in Slots(config, phase, |config.classes|);
      SlotsMembers(config, phase, |config.classes|, all[i]);
      var j, k := |front|, |front| + 1;
      assert all[j] == PhaseHead(config, phase)[0] && all[k] == PhaseHead(config, phase)[1];
      assert j < k < i;
    }
  }

  // The slot at position i comes after its phase's image and then its mount.
  ghost predicate Prepared(config: Config, s: seq<Action>, i: nat)
    requires i < |s| && s[i].EnsureSlot?
  {
    var image := PhaseImage(config, s[i].phase);
    exists j, k :: 0 <= j < k < i
      && s[j] == EnsureImage(image, config.phaseLoopSize)
      && s[k] == EnsureMount(image, PhaseMount(config, s[i].phase))
  }

  lemma {:induction false} PreparedPrefix(config: Config, s: seq<Action>, t: seq<Action>, i: nat)
    requires i < |s| && s[i].EnsureSlot? && Prepared(config, s, i)
    ensures Prepared(config, s + t, i)
  {
    var image := PhaseImage(config, s[i].phase);
    var j, k :| 0 <= j < k < i
      && s[j] == EnsureImage(image, config.phaseLoopSize)
      && s[k] == EnsureMount(image, PhaseMount(config, s[i].phase));
    assert (s + t)[j] == s[j] && (s + t)[k] == s[k] && (s + t)[i] == s[i];
  }

  lemma {:induction false} PreparedSuffix(config: Config, s: seq<Action>, t: seq<Action>, i: nat)
    requires i < |t| && t[i].EnsureSlot? && Prepared(config, t, i)
    ensures (s + t)[|s| + i] == t[i] && Prepared(config, s + t, |s| + i)
  {
    var image := PhaseImage(config, t[i].phase);
    var j, k :| 0 <= j < k < i
      && t[j] == EnsureImage(image, config.phaseLoopSize)
      && t[k] == EnsureMount(image, PhaseMount(config, t[i].phase));
    assert (s + t)[|s| + j] == t[j] && (s + t)[|s| + k] == t[k] && (s + t)[|s| + i] == t[i];
  }

  /** Every slot comes after its phase's image has been made and mounted. */
  lemma {:induction false} PlanOrder(config: Config, i: nat)
    requires i < |Plan(config)| && Plan(config)[i].EnsureSlot?
    ensures Prepared(config, Plan(config), i)
  {
    hide Phases, Prepared;
    var a, b := Prelude(config), Phases(config, |config.phases|);
    assert Plan(config) == a + (b + [ChownOwnedPaths]);
    assert |a| <= i < |a| + |b|;
    PhasesOrder(config, |config.phases|, i - |a|);
    PreparedPrefix(config, b, [ChownOwnedPaths], i - |a|);
    PreparedSuffix(config, a, b + [ChownOwnedPaths], i - |a|);
  }

  // ---------------------------------------------------------------------------
  // Project ids

  predicate U64Config(config: Config) {
    config.slotsPerClass <= U64_MAX && config.projectIdBase <= U64_MAX && |config.classes| <= U64_MAX
  }

  lemma {:induction false} ProjectIdValue(config: Config, c: nat, i: nat)
    requires U64Config(config)
    ensures ProjectId(config, c, i)
         == var raw := config.projectIdBase + c * config.slotsPerClass + i; if raw > U64_MAX then U64_MAX else raw
  {}

  // Distinct slots of a phase have distinct unsaturated offsets, in 1..=classes*slots.
  lemma {:induction false} Offsets(s: nat, n: nat, c: nat, i: nat, d: nat, j: nat)
    requires c < n && d < n && 1 <= i <= s && 1 <= j <= s
    ensures 1 <= c * s + i <= n * s
    ensures c * s + i == d * s + j ==> c == d && i == j
  {
    OffsetBound(s, n, c);
    if c < d { OffsetBound(s, d, c); }
    if d < c { OffsetBound(s, c, d); }
  }

  lemma {:induction false} OffsetBound(s: nat, n: nat, c: nat)
    requires c < n
    ensures c * s + s <= n * s
  {
    assert n * s == (c + 1) * s + (n - c - 1) * s;
    assert (n - c - 1) * s >= 0;
  }

  /** Project ids are pairwise distinct within a phase. */
  ghost predicate IdsDistinct(config: Config) {
    forall c, i, d, j |
      && 0 <= c < |config.classes| && 0 <= d < |config.classes|
      && 1 <= i <= config.slotsPerClass && 1 <= j <= config.slotsPerClass ::
      ProjectId(config, c, i) == ProjectId(config, d, j) ==> c == d && i == j
  }

  /** Project ids collide within a phase exactly when the last one saturates (and there
      is more than one); otherwise they lie in (base, base + classes*slots]. */
  lemma {:induction false} ProjectIdsDistinctIff(config: Config)
    requires U64Config(config)
    ensures IdsDistinct(config) <==>
      var total := |config.classes| * config.slotsPerClass;
      config.projectIdBase + total <= U64_MAX || total <= 1
  {
    var n, s := |config.classes|, config.slotsPerClass;
    if config.projectIdBase + n * s <= U64_MAX || n * s <= 1 {
      forall c, i, d, j | 0 <= c < n && 0 <= d < n && 1 <= i <= s && 1 <= j <= s
        && ProjectId(config, c, i) == ProjectId(config, d, j)
        ensures c == d && i == j
      {
        Offsets(s, n, c, i, d, j);
        Offsets(s, n, d, j, c, i);
        ProjectIdValue(config, c, i);
        ProjectIdValue(config, d, j);
      }
    } else {
      assert n >= 1 && s >= 1;
      // The last slot and the one before it both saturate.
      var d, j := if s >= 2 then n - 1 else n - 2, if s >= 2 then s - 1 else 1;
      assert (n - 1) * s + s == n * s;
      assert s == 1 ==> n * s == n;
      assert s >= 2 ==> d * s + j == n * s - 1;
      ProjectIdValue(config, n - 1, s);
      ProjectIdValue(config, d, j);
      assert ProjectId(config, n - 1, s) == U64_MAX == ProjectId(config, d, j);
      assert (d, j) != (n - 1, s);
    }
  }

  lemma {:induction false} ProjectIdRange(config: Config, c: nat, i: nat)
    requires U64Config(config) && c < |config.classes| && 1 <= i <= config.slotsPerClass
    requires config.projectIdBase + |config.classes| * config.slotsPerClass <= U64_MAX
    ensures config.projectIdBase < ProjectId(config, c, i)
         <= config.projectIdBase + |config.classes| * config.slotsPerClass
  {
    Offsets(config.slotsPerClass, |config.classes|, c, i, c, i);
    ProjectIdValue(config, c, i);
  }
}
