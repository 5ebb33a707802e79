/** What the actions of a storage plan do to a file tree when they succeed, when they can, and what
    a whole plan then leaves. */
module StorageEffects {
  import opened ByteStrings
  import opened StoragePlan
  import opened UndoLog
  import Fstab
  import Splitting

  // ---------------------------------------------------------------------------
  // Slot metadata

  datatype SlotMetadata = SlotMetadata(phase: Phase, classMb: nat, slotIndex: nat, projectId: nat,
                                       inodesPerMb: nat, inodeHardLimit: nat)

  /** `SlotMetadata::new` */
  function NewMetadata(phase: Phase, classMb: nat, slotIndex: nat, projectId: nat, inodesPerMb: nat): SlotMetadata {
    SlotMetadata(phase, classMb, slotIndex, projectId, inodesPerMb, SatMul(classMb, inodesPerMb))
  }

  function SlotDir(config: Config, a: Action): Path
    requires a.EnsureSlot?
  {
    SlotPath(config.phaseMountRoot, a.phase, a.classMb, a.slotIndex)
  }

  function MetadataFile(slot: Path): Path { slot + [Ascii(".agentics-slot.json")] }

  function PlannedMetadata(config: Config, a: Action): SlotMetadata
    requires a.EnsureSlot?
  {
    NewMetadata(a.phase, a.classMb, a.slotIndex, a.projectId, config.inodesPerMb)
  }

  // ---------------------------------------------------------------------------
  // What actions aim at

  function FstabPath(): Path { [Ascii("etc"), Ascii("fstab")] }

  // `Path::display` of an absolute path.
  function Text(p: Path): Bytes {
    if p == [] then [] else [47] + p[0] + Text(p[1..])
  }

  // The path an action is meant to bring about.
  function Target(config: Config, a: Action): set<Path> {
    match a
    case EnsureDir(path) => {path}
    case EnsureImage(path, _) => {path}
    case EnsureMount(_, mount) => {mount}
    case EnsureSlot(_, _, _, _) => {MetadataFile(SlotDir(config, a))}
    case _ => {}
  }

  function Targets(config: Config, actions: seq<Action>): set<Path> {
    set i, t | 0 <= i < |actions| && t in Target(config, actions[i]) :: t
  }

  // The only existing file an action may change.
  function Rewrites(config: Config, a: Action): set<Path> {
    match a
    case EnsureFstab(_, _) => {FstabPath()}
    case EnsureSlot(_, _, _, _) => {MetadataFile(SlotDir(config, a))}
    case _ => {}
  }

  function FileBytes(fs: Tree, p: Path): Bytes {
    if p in fs && fs[p].File? then fs[p].content else []
  }

  /** The names on the way to a slot's metadata, byte by byte: `slots`, `64mb` for the class of 64 and
      `slot-007` for the seventh slot, and then `.agentics-slot.json`. */
  lemma {:induction false} SlotNames(root: Path, phase: Phase, classMb: nat, index: nat)
    ensures SlotPath(root, phase, classMb, index)
         == root + [Ascii(PhaseText(phase)), [115, 108, 111, 116, 115], ClassDir(classMb), SlotName(index)]
    ensures SlotName(7) == [115, 108, 111, 116, 45, 48, 48, 55] && ClassDir(64) == [54, 52, 109, 98]
  {
    DecimalDigits();
    assert Decimal(7) == [Digit(7)];
    assert Padded3(7) == [48, 48, 55];
    assert Ascii("slot-") == [115, 108, 111, 116, 45] && Ascii("slots") == [115, 108, 111, 116, 115];
    assert Ascii("mb") == [109, 98] && Ascii("64") == [54, 52];
  }

  lemma {:induction false} MetadataName(slot: Path)
    ensures MetadataFile(slot) == slot + [[46, 97, 103, 101, 110, 116, 105, 99, 115, 45, 115, 108, 111, 116, 46, 106, 115, 111, 110]]
  {
    var name := [46, 97, 103, 101, 110, 116, 105, 99, 115, 45, 115, 108, 111, 116, 46, 106, 115, 111, 110];
    assert Ascii(".agentics-slot.json") == name;
  }

  /** Paths are printed from the root, component after component, and the fstab is `/etc/fstab`. */
  lemma {:induction false} TextMeans(p: Path)
    ensures p != [] ==> Text(p) == [47] + Splitting.Join(p, 47)
    ensures FstabPath() == [[101, 116, 99], [102, 115, 116, 97, 98]]
  {
    if |p| > 1 { TextMeans(p[1..]); }
    if |p| == 1 { assert p[1..] == [] && Text([]) == []; }
    assert Ascii("etc") == [101, 116, 99] && Ascii("fstab") == [102, 115, 116, 97, 98];
  }

  // ---------------------------------------------------------------------------
  // Effects

  function MadeDir(fs: Tree, p: Path): Tree { if p in fs then fs else MakeDirs(fs, p) }

  function Up(p: Path): Path { if p == [] then [] else p[..|p| - 1] }

  function MadeImage(fs: Tree, p: Path, blank: Bytes): Tree {
    if p in fs then fs else MakeDirs(fs, Up(p))[p := File(blank)]
  }

  // The directories of a slot.
  function MadeSlot(fs: Tree, slot: Path): Tree { MadeDir(MadeDir(fs, Up(slot)), slot) }

  function WithEntry(fs: Tree, image: Path, mount: Path): Tree {
    var current := FileBytes(fs, FstabPath());
    if Fstab.HasMountEntry(current, Text(mount)) then fs
    else fs[FstabPath() := File(Fstab.Append(current, Text(image), Text(mount)))]
  }

  /** The tree that a successful action leaves. */
  function Effect(config: Config, json: SlotMetadata -> Bytes, blank: Bytes, a: Action, fs: Tree): Tree {
    match a
    case EnsureDir(path) => MadeDir(fs, path)
    case EnsureImage(path, _) => MadeImage(fs, path, blank)
    case EnsureMount(_, mount) => MadeDir(fs, mount)
    case EnsureFstab(image, mount) => WithEntry(fs, image, mount)
    case EnsureSlot(_, _, _, _) =>
      var slot := SlotDir(config, a);
      MadeSlot(fs, slot)[MetadataFile(slot) := File(json(PlannedMetadata(config, a)))]
    case ChownOwnedPaths => fs
  }

  function Effects(config: Config, json: SlotMetadata -> Bytes, blank: Bytes, actions: seq<Action>, fs: Tree): Tree {
    if actions == [] then fs
    else Effect(config, json, blank, actions[|actions| - 1], Effects(config, json, blank, actions[..|actions| - 1], fs))
  }

  lemma {:induction false} EffectsNext(config: Config, json: SlotMetadata -> Bytes, blank: Bytes,
                                       actions: seq<Action>, i: nat, fs: Tree)
    requires i < |actions|
    ensures Effects(config, json, blank, actions[..i + 1], fs)
         == Effect(config, json, blank, actions[i], Effects(config, json, blank, actions[..i], fs))
  {
    hide Effect;
    assert actions[..i + 1][..i] == actions[..i];
  }

  // ---------------------------------------------------------------------------
  // Commands

  datatype Cmd =
    | Truncate(size: Bytes, path: Path)
    | MakeXfs(path: Path)
    | FindMount(mount: Path)
    | AssignProject(mount: Path, slot: Path, projectId: nat)
    | LimitProject(mount: Path, classMb: nat, inodes: nat, projectId: nat)
    | ChangeOwner(path: Path)
    | ChangeMode(path: Path)

  function OwnedPaths(config: Config): (r: seq<Path>)
    ensures |r| == 5
  {
    [config.stateRoot + [Ascii("storage")], config.storageWorkRoot, config.stateRoot + [Ascii("challenges")],
     config.stateRoot + [Ascii("runtime")], config.phaseMountRoot]
  }

  // The owner and mode of those of the paths that exist.
  function OwnerCommands(paths: seq<Path>, fs: Tree): seq<Cmd> {
    if paths == [] then []
    else
      var p := paths[|paths| - 1];
      OwnerCommands(paths[..|paths| - 1], fs) + if p in fs then [ChangeOwner(p), ChangeMode(p)] else []
  }

  /** The commands that an action issues on its way to success. */
  function Commands(config: Config, a: Action, fs: Tree): seq<Cmd> {
    match a
    case EnsureImage(path, size) => if path in fs then [] else [Truncate(size, path), MakeXfs(path)]
    case EnsureMount(_, mount) => [FindMount(mount)]
    case EnsureSlot(phase, classMb, _, projectId) =>
      var mount := PhaseMount(config, phase);
      [AssignProject(mount, SlotDir(config, a), projectId),
       LimitProject(mount, classMb, PlannedMetadata(config, a).inodeHardLimit, projectId)]
    case ChownOwnedPaths => OwnerCommands(OwnedPaths(config), fs)
    case _ => []
  }

  function AllCommands(config: Config, json: SlotMetadata -> Bytes, blank: Bytes, actions: seq<Action>, fs: Tree): seq<Cmd> {
    if actions == [] then []
    else
      var front, a := actions[..|actions| - 1], actions[|actions| - 1];
      AllCommands(config, json, blank, front, fs) + Commands(config, a, Effects(config, json, blank, front, fs))
  }

  lemma {:induction false} CommandsNext(config: Config, json: SlotMetadata -> Bytes, blank: Bytes,
                                        actions: seq<Action>, i: nat, fs: Tree)
    requires i < |actions|
    ensures AllCommands(config, json, blank, actions[..i + 1], fs)
         == AllCommands(config, json, blank, actions[..i], fs)
            + Commands(config, actions[i], Effects(config, json, blank, actions[..i], fs))
  {
    hide Effects, Commands;
    assert actions[..i + 1][..i] == actions[..i];
  }

  lemma {:induction false} CommandsOf(config: Config, json: SlotMetadata -> Bytes, blank: Bytes,
                                      actions: seq<Action>, i: nat, fs: Tree, c: Cmd)
    requires i < |actions| && c in Commands(config, actions[i], Effects(config, json, blank, actions[..i], fs))
    ensures c in AllCommands(config, json, blank, actions, fs)
    decreases |actions|
  {
    hide Effects, Commands;
    var n := |actions| - 1;
    if i < n {
      assert actions[..n][..i] == actions[..i];
      CommandsOf(config, json, blank, actions[..n], i, fs, c);
    }
  }

  /** The commands of a plan's actions put every slot into its project and limit the project's blocks and
      inodes, in the file system that is mounted for the slot's phase. */
  lemma {:induction false} QuotaCommands(config: Config, json: SlotMetadata -> Bytes, blank: Bytes,
                                         actions: seq<Action>, fs: Tree, a: Action)
    requires a in actions && a.EnsureSlot?
    ensures var mount := config.phaseMountRoot + [Ascii(PhaseText(a.phase))];
      var issued := AllCommands(config, json, blank, actions, fs);
      && AssignProject(mount, SlotPath(config.phaseMountRoot, a.phase, a.classMb, a.slotIndex), a.projectId) in issued
      && LimitProject(mount, a.classMb, SatMul(a.classMb, config.inodesPerMb), a.projectId) in issued
  {
    hide Effects, AllCommands, SlotPath;
    var i :| 0 <= i < |actions| && actions[i] == a;
    var mount := config.phaseMountRoot + [Ascii(PhaseText(a.phase))];
    CommandsOf(config, json, blank, actions, i, fs, AssignProject(mount, SlotDir(config, a), a.projectId));
    CommandsOf(config, json, blank, actions, i, fs,
               LimitProject(mount, a.classMb, SatMul(a.classMb, config.inodesPerMb), a.projectId));
  }

  /** An image that is missing when its turn comes is made with its planned size and formatted. */
  lemma {:induction false} ImageCommands(config: Config, json: SlotMetadata -> Bytes, blank: Bytes,
                                         actions: seq<Action>, fs: Tree, i: nat)
    requires i < |actions| && actions[i].EnsureImage?
    requires actions[i].path !in Effects(config, json, blank, actions[..i], fs)
    ensures var issued := AllCommands(config, json, blank, actions, fs);
      && Truncate(actions[i].size, actions[i].path) in issued && MakeXfs(actions[i].path) in issued
  {
    hide Effects, AllCommands;
    var a := actions[i];
    CommandsOf(config, json, blank, actions, i, fs, Truncate(a.size, a.path));
    CommandsOf(config, json, blank, actions, i, fs, MakeXfs(a.path));
  }

  // ---------------------------------------------------------------------------
  // When they can be had

  ghost predicate Makeable(fs: Tree, p: Path) { p in fs || CanMake(fs, p) }

  // The file can be read, or is simply not there.
  ghost predicate Readable(fs: Tree, p: Path) { if p in fs then fs[p].File? else CanMake(fs, p) }

  ghost predicate EntryFeasible(fs: Tree, mount: Path) {
    && Readable(fs, FstabPath())
    && (Fstab.HasMountEntry(FileBytes(fs, FstabPath()), Text(mount)) || Writable(fs, FstabPath()))
  }

  ghost predicate Feasible(config: Config, a: Action, fs: Tree) {
    match a
    case EnsureDir(path) => Makeable(fs, path)
    case EnsureImage(path, _) => path in fs || CanMake(fs, Up(path))
    case EnsureMount(_, mount) => Makeable(fs, mount)
    case EnsureFstab(_, mount) => EntryFeasible(fs, mount)
    case EnsureSlot(_, _, _, _) =>
      var slot := SlotDir(config, a);
      && Makeable(fs, Up(slot)) && Makeable(MadeDir(fs, Up(slot)), slot)
      && Writable(MadeSlot(fs, slot), MetadataFile(slot))
    case ChownOwnedPaths => true
  }

  ghost predicate AllFeasible(config: Config, json: SlotMetadata -> Bytes, blank: Bytes, actions: seq<Action>, fs: Tree) {
    forall i :: 0 <= i < |actions| ==> Feasible(config, actions[i], Effects(config, json, blank, actions[..i], fs))
  }

  // ---------------------------------------------------------------------------
  // What is kept and what is new

  lemma {:induction false} MadeDirAt(fs: Tree, p: Path, q: Path)
    ensures q in MadeDir(fs, p) <==> q in fs || (p !in fs && q <= p)
    ensures q in fs ==> MadeDir(fs, p)[q] == fs[q]
    ensures q !in fs && q in MadeDir(fs, p) ==> MadeDir(fs, p)[q] == Dir
    ensures p in MadeDir(fs, p)
  {
    MakeDirsAt(fs, p, q);
    MakeDirsAt(fs, p, p);
  }

  lemma {:induction false} MadeSlotAt(fs: Tree, slot: Path, q: Path)
    ensures q in MadeSlot(fs, slot) ==> q in fs || q <= slot
    ensures q in fs ==> q in MadeSlot(fs, slot) && MadeSlot(fs, slot)[q] == fs[q]
    ensures q !in fs && q in MadeSlot(fs, slot) ==> MadeSlot(fs, slot)[q] == Dir
    ensures slot in MadeSlot(fs, slot)
  {
    hide MadeDir;
    var m := MadeDir(fs, Up(slot));
    MadeDirAt(fs, Up(slot), q);
    MadeDirAt(m, slot, q);
    MadeDirAt(m, slot, slot);
  }

  lemma {:induction false} PrefixCases(q: Path, p: Path)
    ensures q <= p ==> q < p || q == p
  {
    if q <= p && |q| == |p| { assert q == p; }
  }

  // A file that an action may make.
  predicate MakesFile(config: Config, a: Action, p: Path) {
    match a
    case EnsureImage(path, _) => p == path
    case EnsureSlot(_, _, _, _) => p == MetadataFile(SlotDir(config, a))
    case EnsureFstab(_, _) => p == FstabPath()
    case _ => false
  }

  // A directory that an action is for.
  predicate IsFor(a: Action, p: Path) {
    match a
    case EnsureDir(path) => p == path
    case EnsureMount(_, mount) => p == mount
    case _ => false
  }

  // A directory that an action may make.
  ghost predicate MakesDir(config: Config, a: Action, p: Path) { IsFor(a, p) || exists t :: t in Target(config, a) && p < t }

  lemma {:induction false} EffectAt(config: Config, json: SlotMetadata -> Bytes, blank: Bytes, a: Action, fs: Tree, p: Path)
    ensures var after := Effect(config, json, blank, a, fs);
      && (p in fs ==> p in after && (p !in Rewrites(config, a) ==> after[p] == fs[p]))
      && (Feasible(config, a, fs) && p in fs ==> (after[p].Dir? <==> fs[p].Dir?))
      && (p !in fs && p in after ==> if after[p].File? then MakesFile(config, a, p) else MakesDir(config, a, p))
  {
    hide MadeDir, MadeSlot, Ascii, SlotPath, Fstab.HasMountEntry, Fstab.Append, Text, FstabPath, CanMake, MakeDirs;
    match a
    case EnsureDir(path) =>
      MadeDirAt(fs, path, p);
      PrefixCases(p, path);
      assert path in Target(config, a);
    case EnsureMount(_, mount) =>
      MadeDirAt(fs, mount, p);
      PrefixCases(p, mount);
      assert mount in Target(config, a);
    case EnsureImage(path, _) =>
      MakeDirsAt(fs, Up(path), p);
      assert path in Target(config, a);
      assert p <= Up(path) && p != path ==> p < path;
    case EnsureSlot(_, _, _, _) =>
      var slot := SlotDir(config, a);
      MadeSlotAt(fs, slot, p);
      assert p <= slot ==> p < MetadataFile(slot);
      assert MetadataFile(slot) in Target(config, a);
    case _ =>
  }

  // What a whole sequence of feasible actions keeps and makes.
  ghost predicate Shaped(config: Config, actions: seq<Action>, init: Tree, fs: Tree) {
    && (forall p :: p in init ==> p in fs && (fs[p].Dir? <==> init[p].Dir?))
    && (forall p :: p in fs && p !in init ==>
          exists i :: 0 <= i < |actions|
            && if fs[p].File? then MakesFile(config, actions[i], p) else MakesDir(config, actions[i], p))
  }

  lemma {:induction false} ShapedStep(config: Config, json: SlotMetadata -> Bytes, blank: Bytes, actions: seq<Action>,
                                      n: nat, init: Tree, fs: Tree)
    requires n < |actions| && Shaped(config, actions, init, fs) && Feasible(config, actions[n], fs)
    ensures Shaped(config, actions, init, Effect(config, json, blank, actions[n], fs))
  {
    hide Effect, MakesFile, MakesDir, Feasible, Rewrites;
    var after := Effect(config, json, blank, actions[n], fs);
    forall p
      ensures p in fs ==> p in after && (after[p].Dir? <==> fs[p].Dir?)
      ensures p !in fs && p in after ==> if after[p].File? then MakesFile(config, actions[n], p) else MakesDir(config, actions[n], p)
    {
      EffectAt(config, json, blank, actions[n], fs, p);
    }
  }

  /** Feasible actions remove nothing and change no directory into a file or back; what is new is a
      file or a directory that one of them makes. */
  lemma {:induction false} EffectsShaped(config: Config, json: SlotMetadata -> Bytes, blank: Bytes,
                                         actions: seq<Action>, n: nat, fs: Tree)
    requires n <= |actions|
    requires forall i :: 0 <= i < n ==> Feasible(config, actions[i], Effects(config, json, blank, actions[..i], fs))
    ensures Shaped(config, actions, fs, Effects(config, json, blank, actions[..n], fs))
  {
    hide Effect, Feasible;
    if n > 0 {
      EffectsShaped(config, json, blank, actions, n - 1, fs);
      assert actions[..n][..n - 1] == actions[..n - 1];
      ShapedStep(config, json, blank, actions, n - 1, fs, Effects(config, json, blank, actions[..n - 1], fs));
    }
  }

  // What an action asks for is there.
  predicate InPlace(a: Action, fs: Tree) {
    match a
    case EnsureDir(path) => path in fs
    case EnsureImage(path, _) => path in fs
    case EnsureMount(_, mount) => mount in fs
    case _ => true
  }

  lemma {:induction false} EffectInPlace(config: Config, json: SlotMetadata -> Bytes, blank: Bytes, a: Action, fs: Tree)
    ensures InPlace(a, Effect(config, json, blank, a, fs))
    ensures a.EnsureDir? && a.path !in fs ==> Effect(config, json, blank, a, fs)[a.path].Dir?
    ensures a.EnsureMount? && a.mount !in fs ==> Effect(config, json, blank, a, fs)[a.mount].Dir?
    ensures a.EnsureImage? && a.path !in fs ==> Effect(config, json, blank, a, fs)[a.path] == File(blank)
  {
    hide MadeDir;
    match a
    case EnsureDir(path) => MadeDirAt(fs, path, path);
    case EnsureMount(_, mount) => MadeDirAt(fs, mount, mount);
    case _ =>
  }

  lemma {:induction false} EffectsInPlace(config: Config, json: SlotMetadata -> Bytes, blank: Bytes,
                                          actions: seq<Action>, fs: Tree, a: Action)
    requires a in actions
    ensures InPlace(a, Effects(config, json, blank, actions, fs))
  {
    hide Effect;
    var n := |actions| - 1;
    var front, before := actions[..n], Effects(config, json, blank, actions[..n], fs);
    assert actions == front + [actions[n]];
    if a in front {
      EffectsInPlace(config, json, blank, front, fs, a);
      forall p ensures p in before ==> p in Effect(config, json, blank, actions[n], before) {
        EffectAt(config, json, blank, actions[n], before, p);
      }
    } else {
      EffectInPlace(config, json, blank, actions[n], before);
    }
  }

  // Some action may make a file here.
  ghost predicate FileTarget(config: Config, actions: seq<Action>, p: Path) {
    exists i :: 0 <= i < |actions| && MakesFile(config, actions[i], p)
  }

  ghost predicate DirTarget(actions: seq<Action>, p: Path) { exists i :: 0 <= i < |actions| && IsFor(actions[i], p) }

  /** After a run, everything that the plan asks for is there; and a directory or mount point that
      the run made, and that is not also to be a file, is a directory. */
  ghost predicate AllInPlace(config: Config, actions: seq<Action>, init: Tree, fs: Tree) {
    && (forall a :: a in actions ==> InPlace(a, fs))
    && (forall p :: DirTarget(actions, p) && p !in init && !FileTarget(config, actions, p) ==> p in fs && fs[p].Dir?)
  }

  lemma {:induction false} PlanInPlace(config: Config, json: SlotMetadata -> Bytes, blank: Bytes, actions: seq<Action>, fs: Tree)
    requires AllFeasible(config, json, blank, actions, fs)
    ensures AllInPlace(config, actions, fs, Effects(config, json, blank, actions, fs))
  {
    hide Effects, Feasible, MakesFile, MakesDir;
    var after := Effects(config, json, blank, actions, fs);
    forall a | a in actions ensures InPlace(a, after) { EffectsInPlace(config, json, blank, actions, fs, a); }
    EffectsShaped(config, json, blank, actions, |actions|, fs);
    assert actions[..|actions|] == actions;
    forall p | DirTarget(actions, p) && p !in fs && !FileTarget(config, actions, p) ensures p in after && after[p].Dir? {
      var i :| 0 <= i < |actions| && IsFor(actions[i], p);
      assert InPlace(actions[i], after);
    }
  }

  // ---------------------------------------------------------------------------
  // Nothing in the way

  ghost predicate IsTarget(config: Config, actions: seq<Action>, t: Path) {
    exists i :: 0 <= i < |actions| && t in Target(config, actions[i])
  }

  /** Nothing is in the way of a plan: what lies above a target is a directory or absent, and is not
      to become a file; where metadata or the fstab goes there is a file or nothing, and it is not
      to become a directory; and the fstab has a directory to be in. */
  ghost predicate Unobstructed(config: Config, actions: seq<Action>, init: Tree) {
    && (forall t, q :: IsTarget(config, actions, t) && q < t ==> (q in init ==> init[q].Dir?) && !FileTarget(config, actions, q))
    && (forall i :: 0 <= i < |actions| && actions[i].EnsureSlot? ==> FileCanGo(actions, init, MetadataFile(SlotDir(config, actions[i]))))
    && (forall i :: 0 <= i < |actions| && actions[i].EnsureFstab? ==>
          FileCanGo(actions, init, FstabPath()) && Up(FstabPath()) in init && init[Up(FstabPath())].Dir?)
  }

  ghost predicate FileCanGo(actions: seq<Action>, init: Tree, p: Path) { (p in init ==> init[p].File?) && !DirTarget(actions, p) }

  // What the run made, as a file or as a directory.
  lemma {:induction false} NewKinds(config: Config, actions: seq<Action>, init: Tree, fs: Tree, p: Path)
    requires Shaped(config, actions, init, fs) && p in fs && p !in init
    ensures fs[p].File? ==> FileTarget(config, actions, p)
    ensures fs[p].Dir? ==> DirTarget(actions, p) || exists t :: IsTarget(config, actions, t) && p < t
  {
    hide MakesFile;
    var i :| 0 <= i < |actions| && if fs[p].File? then MakesFile(config, actions[i], p) else MakesDir(config, actions[i], p);
    if fs[p].Dir? && !IsFor(actions[i], p) {
      var t :| t in Target(config, actions[i]) && p < t;
      assert IsTarget(config, actions, t);
    }
  }

  // Above a target there are directories only.
  lemma {:induction false} DirsAbove(config: Config, actions: seq<Action>, init: Tree, fs: Tree, t: Path, q: Path)
    requires Unobstructed(config, actions, init) && Shaped(config, actions, init, fs) && IsTarget(config, actions, t)
    ensures q < t && q in fs ==> fs[q].Dir?
  {
    hide FileTarget, IsTarget;
    if q in fs && q !in init { NewKinds(config, actions, init, fs, q); }
  }

  // Where a file is to go there is no directory.
  lemma {:induction false} FileOnly(config: Config, actions: seq<Action>, init: Tree, fs: Tree, p: Path)
    requires Unobstructed(config, actions, init) && Shaped(config, actions, init, fs)
    requires FileCanGo(actions, init, p) && FileTarget(config, actions, p)
    ensures p in fs ==> fs[p].File?
  {
    hide FileTarget, IsTarget, DirTarget;
    if p in fs && p !in init { NewKinds(config, actions, init, fs, p); }
  }

  lemma {:induction false} FeasibleSlot(config: Config, actions: seq<Action>, init: Tree, fs: Tree, i: nat)
    requires Unobstructed(config, actions, init) && Shaped(config, actions, init, fs)
    requires i < |actions| && actions[i].EnsureSlot?
    ensures Feasible(config, actions[i], fs)
  {
    hide Ascii, SlotPath, MadeDir, Unobstructed, Shaped, MadeSlot, FileCanGo;
    var a := actions[i];
    var slot := SlotDir(config, a);
    var file, up := MetadataFile(slot), Up(slot);
    assert file in Target(config, a);
    assert IsTarget(config, actions, file);
    assert slot < file && up <= slot;
    forall q ensures q < file && q in fs ==> fs[q].Dir? { DirsAbove(config, actions, init, fs, file, q); }
    assert CanMake(fs, up);
    var m := MadeDir(fs, up);
    forall q ensures q in m && q <= slot ==> m[q].Dir? { MadeDirAt(fs, up, q); assert q <= slot ==> q < file; }
    assert CanMake(m, slot);
    MadeSlotAt(fs, slot, file);
    MadeSlotAt(fs, slot, slot);
    assert file[..|file| - 1] == slot;
    assert MakesFile(config, a, file);
    SlotFileCanGo(config, actions, init, i);
    FileOnly(config, actions, init, fs, file);
  }

  lemma {:induction false} SlotFileCanGo(config: Config, actions: seq<Action>, init: Tree, i: nat)
    requires Unobstructed(config, actions, init) && i < |actions| && actions[i].EnsureSlot?
    ensures FileCanGo(actions, init, MetadataFile(SlotDir(config, actions[i])))
  {}

  lemma {:induction false} FeasibleFstab(config: Config, actions: seq<Action>, init: Tree, fs: Tree, i: nat)
    requires WellFormed(fs) && Unobstructed(config, actions, init) && Shaped(config, actions, init, fs)
    requires i < |actions| && actions[i].EnsureFstab?
    ensures Feasible(config, actions[i], fs)
  {
    hide Ascii, Text, Fstab.HasMountEntry;
    var f := FstabPath();
    var a := actions[i];
    assert MakesFile(config, a, f);
    FileOnly(config, actions, init, fs, f);
    var up := Up(f);
    assert up in fs && fs[up].Dir?;
    forall q | q <= f && q in fs && f !in fs ensures fs[q].Dir? {
      if q < up { AncestorsAreDirs(fs, q, up); } else if q != f { assert q == up; }
    }
  }

  /** Then every action is feasible when its turn comes. */
  lemma {:induction false} UnobstructedFeasible(config: Config, actions: seq<Action>, init: Tree, fs: Tree, i: nat)
    requires WellFormed(fs) && Unobstructed(config, actions, init) && Shaped(config, actions, init, fs)
    requires i < |actions|
    ensures Feasible(config, actions[i], fs)
  {
    hide Unobstructed, Shaped;
    var a := actions[i];
    match a
    case EnsureDir(path) =>
      assert path in Target(config, a);
      forall q ensures q < path && q in fs ==> fs[q].Dir? { DirsAbove(config, actions, init, fs, path, q); }
      AboveOrAt(fs, path);
    case EnsureMount(_, mount) =>
      assert mount in Target(config, a);
      forall q ensures q < mount && q in fs ==> fs[q].Dir? { DirsAbove(config, actions, init, fs, mount, q); }
      AboveOrAt(fs, mount);
    case EnsureImage(path, _) =>
      assert path in Target(config, a);
      forall q ensures q < path && q in fs ==> fs[q].Dir? { DirsAbove(config, actions, init, fs, path, q); }
      RootIsThere(fs);
    case EnsureSlot(_, _, _, _) => FeasibleSlot(config, actions, init, fs, i);
    case EnsureFstab(_, _) => FeasibleFstab(config, actions, init, fs, i);
    case ChownOwnedPaths =>
  }

  lemma {:induction false} AboveOrAt(fs: Tree, p: Path)
    requires forall q :: q < p && q in fs ==> fs[q].Dir?
    ensures Makeable(fs, p)
  {
    forall q | q <= p && q in fs && p !in fs ensures fs[q].Dir? { PrefixCases(q, p); }
  }

  lemma {:induction false} RootIsThere(fs: Tree)
    requires WellFormed(fs)
    ensures [] in fs
  {}
}
