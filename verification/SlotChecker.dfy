/** The profile checker's view of prepared slots, and its agreement with the preparer. */
module SlotChecker {
  import opened Options
  import opened ByteStrings
  import opened Sorting
  import opened StoragePlan
  import opened UndoLog
  import opened StorageEffects
  import opened StoragePreparation

  datatype Profile = Profile(phaseMountRoot: Path, phases: seq<Phase>, classes: seq<nat>,
                             slotsPerClass: nat, inodesPerMb: nat)

  // What the live mount answers: whether a project has an inode limit, and whether a slot is writable.
  datatype Probes = Probes(quota: (Phase, nat, nat) -> bool, writable: Path -> bool)

  datatype Report = MissingSlot | BadMetadata | BadQuota | NotWritable | Ready

  /** `validate_slot_metadata` */
  function ValidateSlotMetadata(m: SlotMetadata, phase: Phase, classMb: nat, slotIndex: nat, inodesPerMb: nat):
    Option<nat>
  {
    var expected := SatMul(classMb, inodesPerMb);
    if m.phase == phase && m.classMb == classMb && m.slotIndex == slotIndex && m.inodesPerMb == inodesPerMb
       && m.inodeHardLimit == expected
    then Some(expected) else None
  }

  /** The checker accepts exactly what the preparer would have written for that slot,
      whatever the project id: both saturate the inode limit alike. */
  lemma {:induction false} AcceptsExactlyPrepared(m: SlotMetadata, phase: Phase, classMb: nat, slotIndex: nat, inodesPerMb: nat)
    ensures ValidateSlotMetadata(m, phase, classMb, slotIndex, inodesPerMb).Some? <==>
            exists id :: m == NewMetadata(phase, classMb, slotIndex, id, inodesPerMb)
  {
    if ValidateSlotMetadata(m, phase, classMb, slotIndex, inodesPerMb).Some? {
      assert m == NewMetadata(phase, classMb, slotIndex, m.projectId, inodesPerMb);
    }
  }

  // What the probes say of a slot whose metadata was accepted.
  function Probed(probes: Probes, slot: Path, phase: Phase, projectId: nat, limit: nat): Report {
    if !probes.quota(phase, projectId, limit) then BadQuota
    else if !probes.writable(slot) then NotWritable else Ready
  }

  /** `check_slot` */
  function CheckSlot(fs: Tree, profile: Profile, parse: Bytes -> Option<SlotMetadata>, probes: Probes,
                     phase: Phase, classMb: nat, slotIndex: nat): Report
  {
    var slot := SlotPath(profile.phaseMountRoot, phase, classMb, slotIndex);
    var file := MetadataFile(slot);
    if slot !in fs || fs[slot].File? then MissingSlot
    else if file !in fs || fs[file].Dir? || parse(fs[file].content).None? then BadMetadata
    else
      var m := parse(fs[file].content).value;
      match ValidateSlotMetadata(m, phase, classMb, slotIndex, profile.inodesPerMb)
      case None => BadMetadata
      case Some(limit) => Probed(probes, slot, phase, m.projectId, limit)
  }

  /** A slot passes exactly when its directory and its metadata file are there, the file parses to
      what the preparer writes for that slot under some project id, and the probes pass for that id. */
  lemma {:induction false} ReadyIff(fs: Tree, profile: Profile, parse: Bytes -> Option<SlotMetadata>, probes: Probes,
                                    phase: Phase, classMb: nat, slotIndex: nat)
    ensures CheckSlot(fs, profile, parse, probes, phase, classMb, slotIndex).Ready? <==>
      var slot := SlotPath(profile.phaseMountRoot, phase, classMb, slotIndex);
      && slot in fs && fs[slot] == Dir && MetadataFile(slot) in fs && fs[MetadataFile(slot)] != Dir
      && probes.writable(slot)
      && exists id ::
           && parse(fs[MetadataFile(slot)].content) == Some(NewMetadata(phase, classMb, slotIndex, id, profile.inodesPerMb))
           && probes.quota(phase, id, SatMul(classMb, profile.inodesPerMb))
  {
    hide SlotPath, MetadataFile, SatMul;
    var slot := SlotPath(profile.phaseMountRoot, phase, classMb, slotIndex);
    var file := MetadataFile(slot);
    if file in fs && fs[file].File? && parse(fs[file].content).Some? {
      AcceptsExactlyPrepared(parse(fs[file].content).value, phase, classMb, slotIndex, profile.inodesPerMb);
    }
  }

  // The profile looks at slots that the configuration prepares.
  predicate Matches(profile: Profile, config: Config) {
    && profile.phaseMountRoot == config.phaseMountRoot
    && (forall p :: p in profile.phases ==> p in config.phases)
    && (forall c :: c in profile.classes ==> c in config.classes)
    && profile.slotsPerClass <= config.slotsPerClass
    && profile.inodesPerMb == config.inodesPerMb
  }

  ghost predicate RoundTrips(json: SlotMetadata -> Bytes, parse: Bytes -> Option<SlotMetadata>) {
    forall m :: parse(json(m)) == Some(m)
  }

  ghost predicate AllSlotsReady(config: Config, json: SlotMetadata -> Bytes, fs: Tree) {
    forall a :: a in Plan(config) && a.EnsureSlot? ==> SlotReady(config, json, a, fs)
  }

  // The report is what the probes say of a planned slot.
  ghost predicate ProbedAs(config: Config, probes: Probes, a: Action, report: Report) {
    && a in Plan(config) && a.EnsureSlot?
    && report == Probed(probes, SlotDir(config, a), a.phase, a.projectId, SatMul(a.classMb, config.inodesPerMb))
  }

  /** Where every slot is ready, a slot visited under matching settings passes all metadata checks,
      and the probes are asked about a project id that the plan gives it and about the same
      saturated inode limit. */
  lemma {:induction false} PreparedIsAccepted(config: Config, profile: Profile, fs: Tree,
                           json: SlotMetadata -> Bytes, parse: Bytes -> Option<SlotMetadata>, probes: Probes,
                           phase: Phase, classMb: nat, slotIndex: nat)
    requires AllSlotsReady(config, json, fs) && Matches(profile, config) && RoundTrips(json, parse)
    requires phase in profile.phases && classMb in profile.classes && 1 <= slotIndex <= profile.slotsPerClass
    ensures exists id ::
      var a := EnsureSlot(phase, classMb, slotIndex, id);
      ProbedAs(config, probes, a, CheckSlot(fs, profile, parse, probes, phase, classMb, slotIndex))
  {
    hide Plan, SlotPath, Ascii, SatMul, ProjectId;
    var k :| 0 <= k < |config.phases| && config.phases[k] == phase;
    var c :| 0 <= c < |config.classes| && config.classes[c] == classMb;
    var a := EnsureSlot(phase, classMb, slotIndex, ProjectId(config, c, slotIndex));
    assert IsSlot(config, a, config.phases[k], |config.classes|);
    PlanSlots(config, a);
    assert SlotReady(config, json, a, fs);
    assert ProbedAs(config, probes, a, CheckSlot(fs, profile, parse, probes, phase, classMb, slotIndex));
  }

  // ---------------------------------------------------------------------------
  // The slots visited, in order

  datatype Visit = Visit(phase: Phase, classMb: nat, slotIndex: nat)

  function ClassVisits(phase: Phase, classMb: nat, n: nat): (r: seq<Visit>)
    ensures |r| == n
  {
    seq(n, i requires 0 <= i < n => Visit(phase, classMb, i + 1))
  }

  // The visits of the first n classes of one phase.
  function PhaseVisits(profile: Profile, phase: Phase, n: nat): seq<Visit>
    requires n <= |profile.classes|
  {
    if n == 0 then []
    else PhaseVisits(profile, phase, n - 1) + ClassVisits(phase, profile.classes[n - 1], profile.slotsPerClass)
  }

  // The visits of the first n phases.
  function Visits(profile: Profile, n: nat): seq<Visit>
    requires n <= |profile.phases|
  {
    if n == 0 then []
    else Visits(profile, n - 1) + PhaseVisits(profile, profile.phases[n - 1], |profile.classes|)
  }

  lemma {:induction false} ClassVisitsMembers(phase: Phase, classMb: nat, n: nat, v: Visit)
    ensures v in ClassVisits(phase, classMb, n) <==> v.phase == phase && v.classMb == classMb && 1 <= v.slotIndex <= n
  {
    var visits := ClassVisits(phase, classMb, n);
    if v.phase == phase && v.classMb == classMb && 1 <= v.slotIndex <= n { assert visits[v.slotIndex - 1] == v; }
  }

  lemma {:induction false} PhaseVisitsMembers(profile: Profile, phase: Phase, n: nat, v: Visit)
    requires n <= |profile.classes|
    ensures v in PhaseVisits(profile, phase, n) <==>
            v.phase == phase && v.classMb in profile.classes[..n] && 1 <= v.slotIndex <= profile.slotsPerClass
  {
    hide ClassVisits;
    if n > 0 {
      ClassVisitsMembers(phase, profile.classes[n - 1], profile.slotsPerClass, v);
      PhaseVisitsMembers(profile, phase, n - 1, v);
      assert profile.classes[..n] == profile.classes[..n - 1] + [profile.classes[n - 1]];
    }
  }

  /** Every slot of the profile is visited, and no other. */
  lemma {:induction false} VisitsMembers(profile: Profile, n: nat, v: Visit)
    requires n <= |profile.phases|
    ensures v in Visits(profile, n) <==>
            v.phase in profile.phases[..n] && v.classMb in profile.classes && 1 <= v.slotIndex <= profile.slotsPerClass
  {
    hide PhaseVisits;
    if n > 0 {
      VisitsMembers(profile, n - 1, v);
      assert profile.phases[..n] == profile.phases[..n - 1] + [profile.phases[n - 1]];
      PhaseVisitsMembers(profile, profile.phases[n - 1], |profile.classes|, v);
      assert profile.classes[..|profile.classes|] == profile.classes;
    }
  }

  // One report for each visit.
  ghost predicate ReportsOn(fs: Tree, profile: Profile, parse: Bytes -> Option<SlotMetadata>, probes: Probes,
                            reports: seq<Report>, visits: seq<Visit>)
  {
    |reports| == |visits| && forall k :: 0 <= k < |visits| ==>
      reports[k] == CheckSlot(fs, profile, parse, probes, visits[k].phase, visits[k].classMb, visits[k].slotIndex)
  }

  /** `check_slots` */
  method CheckSlots(fs: Tree, profile: Profile, parse: Bytes -> Option<SlotMetadata>, probes: Probes)
    returns (reports: seq<Report>)
    ensures ReportsOn(fs, profile, parse, probes, reports, Visits(profile, |profile.phases|))
  {
    hide CheckSlot;
    reports := [];
    for x := 0 to |profile.phases|
      invariant ReportsOn(fs, profile, parse, probes, reports, Visits(profile, x))
    {
      var phase := profile.phases[x];
      ghost var before := Visits(profile, x);
      assert before + [] == before;
      for y := 0 to |profile.classes|
        invariant ReportsOn(fs, profile, parse, probes, reports, before + PhaseVisits(profile, phase, y))
      {
        var classMb := profile.classes[y];
        ghost var earlier := before + PhaseVisits(profile, phase, y);
        assert earlier + ClassVisits(phase, classMb, 0) == earlier;
        for i := 0 to profile.slotsPerClass
          invariant ReportsOn(fs, profile, parse, probes, reports, earlier + ClassVisits(phase, classMb, i))
        {
          ghost var done := earlier + ClassVisits(phase, classMb, i);
          assert earlier + ClassVisits(phase, classMb, i + 1) == done + [Visit(phase, classMb, i + 1)];
          reports := reports + [CheckSlot(fs, profile, parse, probes, phase, classMb, i + 1)];
        }
        assert before + PhaseVisits(profile, phase, y + 1)
            == earlier + ClassVisits(phase, classMb, profile.slotsPerClass);
      }
    }
  }

  // The live mount has the planned quota on every slot, and lets the checker write there.
  ghost predicate ProbesPass(config: Config, probes: Probes) {
    forall a :: a in Plan(config) && a.EnsureSlot? ==>
      probes.quota(a.phase, a.projectId, SatMul(a.classMb, config.inodesPerMb)) && probes.writable(SlotDir(config, a))
  }

  /** Preparing and then checking: no slot is missing or has bad metadata, and every report is a
      pass if the quotas and write permissions of the plan are in effect. */
  method PrepareThenCheck(host: Host, config: Config, profile: Profile,
                          json: SlotMetadata -> Bytes, parse: Bytes -> Option<SlotMetadata>, probes: Probes)
    returns (ok: bool, reports: seq<Report>)
    requires WellFormed(host.fs) && host.log == Log([], [])
    requires NoRepeats(config.phases) && NoRepeats(config.classes)
    requires forall i :: 0 <= i < |Plan(config)| && Plan(config)[i].EnsureMount? ==> Plan(config)[i].mount in host.mounts
    requires Matches(profile, config) && RoundTrips(json, parse)
    modifies host
    ensures ok ==> |reports| == |Visits(profile, |profile.phases|)|
    ensures ok ==> forall k :: 0 <= k < |reports| ==> !reports[k].MissingSlot? && !reports[k].BadMetadata?
    ensures ok && ProbesPass(config, probes) ==> forall k :: 0 <= k < |reports| ==> reports[k].Ready?
  {
    hide Plan, CheckSlot, SlotPath, SatMul;
    reports := [];
    ghost var stray;
    ok, stray := host.Prepare(config, json);
    if ok {
      reports := CheckSlots(host.fs, profile, parse, probes);
      ghost var visits := Visits(profile, |profile.phases|);
      assert profile.phases[..|profile.phases|] == profile.phases;
      forall k | 0 <= k < |reports|
        ensures !reports[k].MissingSlot? && !reports[k].BadMetadata?
        ensures ProbesPass(config, probes) ==> reports[k].Ready?
      {
        var v := visits[k];
        VisitsMembers(profile, |profile.phases|, v);
        PreparedIsAccepted(config, profile, host.fs, json, parse, probes, v.phase, v.classMb, v.slotIndex);
        var id :| ProbedAs(config, probes, EnsureSlot(v.phase, v.classMb, v.slotIndex, id), reports[k]);
        var a := EnsureSlot(v.phase, v.classMb, v.slotIndex, id);
        assert ProbesPass(config, probes) ==> probes.writable(SlotDir(config, a));
      }
    }
  }
}
