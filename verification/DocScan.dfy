/** The instruction-document scan, declaratively: the policy over README, AGENTS and CLAUDE files,
    what a report must say, and why such a report decides the policy in any walk order. */
module DocScan {
  import opened Options
  import opened ByteStrings
  import opened Sorting

  const USIZE_MAX: int := U64 - 1

  // ---------------------------------------------------------------------------
  // What the walk delivers

  datatype Kind = Readme | Agents | Claude

  function FileName(kind: Kind): Bytes {
    match kind
    case Readme => Ascii("README.md")
    case Agents => Ascii("AGENTS.md")
    case Claude => Ascii("CLAUDE.md")
  }

  datatype Resolved = At(path: Path) | Unresolvable(error: Bytes)

  // One instruction document: its directory, whether it is a symlink, what it canonicalizes to,
  // and its own canonical location (None when its directory cannot be canonicalized).
  datatype Entry = Entry(dir: Path, kind: Kind, isSymlink: bool, resolved: Resolved, link: Option<Path>)

  function PathOf(e: Entry): Path { e.dir + [FileName(e.kind)] }

  // A walk that follows no links meets every document once.
  predicate WalkedOnce(es: seq<Entry>) {
    && (forall i, j :: 0 <= i < j < |es| ==> es[i].dir != es[j].dir || es[i].kind != es[j].kind)
    && (forall i, j :: 0 <= i < j < |es| && es[i].kind == es[j].kind == Claude && es[i].link.Some? ==> es[i].link != es[j].link)
  }

  // Ends the scan with an error.
  predicate Fatal(e: Entry) {
    match e.kind
    case Readme => e.resolved.Unresolvable?
    case Agents => e.resolved.Unresolvable? && !e.isSymlink
    case Claude => e.isSymlink && e.link.None?
  }

  // ---------------------------------------------------------------------------
  // The policy

  ghost predicate HasAgents(es: seq<Entry>, dir: Path) {
    exists e :: e in es && e.kind == Agents && e.dir == dir && e.resolved.At?
  }

  ghost predicate ReadmeAt(es: seq<Entry>, c: Path) { exists e :: e in es && e.kind == Readme && e.resolved == At(c) }

  // An AGENTS document that is its own source, or stands for a scanned README.
  ghost predicate Effective(es: seq<Entry>, e: Entry) {
    e in es && e.kind == Agents && e.resolved.At? && (!e.isSymlink || ReadmeAt(es, e.resolved.path))
  }

  ghost predicate SourceAt(es: seq<Entry>, c: Path) { exists e :: Effective(es, e) && e.resolved == At(c) }

  ghost predicate LinkTo(es: seq<Entry>, e: Entry, c: Path) {
    e in es && e.kind == Claude && e.isSymlink && e.resolved == At(c)
  }

  ghost predicate ClaudeAt(es: seq<Entry>, c: Path) { exists e :: LinkTo(es, e, c) }

  /** Every README has a colocated AGENTS; every AGENTS symlink leads to a scanned README; every
      effective source has a CLAUDE symlink, and every CLAUDE is a symlink to such a source. */
  ghost predicate Policy(es: seq<Entry>) {
    && (forall e :: e in es && e.kind == Readme ==> HasAgents(es, e.dir))
    && (forall e :: e in es && e.kind == Agents && e.isSymlink ==> e.resolved.At? && ReadmeAt(es, e.resolved.path))
    && (forall c :: SourceAt(es, c) ==> ClaudeAt(es, c))
    && (forall e :: e in es && e.kind == Claude ==> e.isSymlink && e.resolved.At? && SourceAt(es, e.resolved.path))
  }

  // Documents that resolve to the same place.
  predicate SamePlace(a: Entry, b: Entry) { a.resolved.At? && a.resolved == b.resolved }

  predicate Colocated(r: Entry, a: Entry) { a.kind == Agents && a.dir == r.dir && a.resolved.At? }

  predicate IsDoc(es: seq<Entry>, e: Entry, kind: Kind) { e in es && e.kind == kind }

  ghost predicate ReadmesCovered(es: seq<Entry>) {
    forall r :: IsDoc(es, r, Readme) ==> exists a :: a in es && Colocated(r, a)
  }

  ghost predicate AgentLinksGood(es: seq<Entry>) {
    forall a :: IsDoc(es, a, Agents) && a.isSymlink ==> exists r :: r in es && r.kind == Readme && SamePlace(a, r)
  }

  ghost predicate AgentsCovered(es: seq<Entry>) {
    forall a :: IsDoc(es, a, Agents) && a.resolved.At? ==>
      exists c :: c in es && c.kind == Claude && c.isSymlink && SamePlace(a, c)
  }

  ghost predicate ClaudesGood(es: seq<Entry>) {
    forall c :: IsDoc(es, c, Claude) ==> c.isSymlink && exists a :: a in es && a.kind == Agents && SamePlace(c, a)
  }

  /** The policy, document by document and without the vocabulary of the scan. */
  ghost predicate PlainPolicy(es: seq<Entry>) {
    ReadmesCovered(es) && AgentLinksGood(es) && AgentsCovered(es) && ClaudesGood(es)
  }

  lemma {:induction false} PolicyIsPlain(es: seq<Entry>)
    requires Policy(es)
    ensures PlainPolicy(es)
  {
    forall r | IsDoc(es, r, Readme) ensures exists a :: a in es && Colocated(r, a) {
      var a :| a in es && a.kind == Agents && a.dir == r.dir && a.resolved.At?;
      assert Colocated(r, a);
    }
    forall a | IsDoc(es, a, Agents) && a.isSymlink ensures exists r :: r in es && r.kind == Readme && SamePlace(a, r) {
      var r :| r in es && r.kind == Readme && r.resolved == At(a.resolved.path);
      assert SamePlace(a, r);
    }
    forall a | IsDoc(es, a, Agents) && a.resolved.At?
      ensures exists c :: c in es && c.kind == Claude && c.isSymlink && SamePlace(a, c)
    {
      assert Effective(es, a);
      assert SourceAt(es, a.resolved.path);
      var c :| LinkTo(es, c, a.resolved.path);
      assert SamePlace(a, c);
    }
    forall c | IsDoc(es, c, Claude) ensures exists a :: a in es && a.kind == Agents && SamePlace(c, a) {
      assert SourceAt(es, c.resolved.path);
      var a :| Effective(es, a) && a.resolved == At(c.resolved.path);
      assert SamePlace(c, a);
    }
  }

  lemma {:induction false} GoodAgent(es: seq<Entry>, a: Entry)
    requires AgentLinksGood(es) && a in es && a.kind == Agents && (a.isSymlink || a.resolved.At?)
    ensures a.resolved.At? && Effective(es, a) && (a.isSymlink ==> ReadmeAt(es, a.resolved.path))
  {
    assert IsDoc(es, a, Agents);
    if a.isSymlink {
      var r :| r in es && r.kind == Readme && SamePlace(a, r);
    }
  }

  lemma {:induction false} GoodSource(es: seq<Entry>, c: Path)
    requires AgentsCovered(es) && SourceAt(es, c)
    ensures ClaudeAt(es, c)
  {
    var a :| Effective(es, a) && a.resolved == At(c);
    assert IsDoc(es, a, Agents);
    var l :| l in es && l.kind == Claude && l.isSymlink && SamePlace(a, l);
    assert LinkTo(es, l, c);
  }

  lemma {:induction false} GoodClaude(es: seq<Entry>, e: Entry)
    requires AgentLinksGood(es) && ClaudesGood(es) && e in es && e.kind == Claude
    ensures e.isSymlink && e.resolved.At? && SourceAt(es, e.resolved.path)
  {
    hide AgentLinksGood, Effective;
    assert IsDoc(es, e, Claude);
    var a :| a in es && a.kind == Agents && SamePlace(e, a);
    GoodAgent(es, a);
  }

  lemma {:induction false} PlainIsPolicy(es: seq<Entry>)
    requires PlainPolicy(es)
    ensures Policy(es)
  {
    hide AgentLinksGood, AgentsCovered, ClaudesGood, SourceAt, ClaudeAt, ReadmeAt, Effective;
    forall r | r in es && r.kind == Readme ensures HasAgents(es, r.dir) {
      assert IsDoc(es, r, Readme);
      var a :| a in es && Colocated(r, a);
    }
    forall a | a in es && a.kind == Agents && a.isSymlink ensures a.resolved.At? && ReadmeAt(es, a.resolved.path) {
      GoodAgent(es, a);
    }
    forall c | SourceAt(es, c) ensures ClaudeAt(es, c) { GoodSource(es, c); }
    forall e | e in es && e.kind == Claude ensures e.isSymlink && e.resolved.At? && SourceAt(es, e.resolved.path) {
      GoodClaude(es, e);
    }
  }

  lemma {:induction false} PolicyMeans(es: seq<Entry>)
    ensures Policy(es) <==> PlainPolicy(es)
  {
    hide Policy, PlainPolicy;
    if Policy(es) { PolicyIsPlain(es); }
    if PlainPolicy(es) { PlainIsPolicy(es); }
  }

  // ---------------------------------------------------------------------------
  // Reports

  datatype Violation =
    | MissingColocatedAgents(path: Path)
    | AgentsSymlinkTargetIsNotReadme(path: Path, target: Path)
    | AgentsBrokenSymlink(path: Path, error: Bytes)
    | MissingClaudeSymlink(path: Path)
    | ClaudeIsNotSymlink(path: Path)
    | ClaudeBrokenSymlink(path: Path, error: Bytes)
    | ClaudeTargetIsNotAgentSource(path: Path, target: Path)

  // strip_prefix(root), or the path itself
  function Display(root: Path, p: Path): Path { if root <= p then p[|root|..] else p }

  // The path shown for a source: that of the AGENTS document in the first directory.
  ghost predicate Shows(es: seq<Entry>, c: Path, p: Path) {
    exists e :: Effective(es, e) && e.resolved == At(c) && p == PathOf(e)
      && forall f :: Effective(es, f) && f.resolved == At(c) ==> PathLe(e.dir, f.dir)
  }

  /** Which violations a set of entries has. */
  ghost predicate Violates(es: seq<Entry>, root: Path, v: Violation) {
    match v
    case MissingColocatedAgents(p) => exists e :: e in es && e.kind == Readme && p == PathOf(e) && !HasAgents(es, e.dir)
    case AgentsSymlinkTargetIsNotReadme(p, t) =>
      exists e :: e in es && e.kind == Agents && e.isSymlink && e.resolved.At? && p == PathOf(e)
        && !ReadmeAt(es, e.resolved.path) && t == Display(root, e.resolved.path)
    case AgentsBrokenSymlink(p, error) =>
      exists e :: e in es && e.kind == Agents && e.isSymlink && p == PathOf(e) && e.resolved == Unresolvable(error)
    case MissingClaudeSymlink(p) => exists c :: SourceAt(es, c) && !ClaudeAt(es, c) && Shows(es, c, p)
    case ClaudeIsNotSymlink(p) => exists e :: e in es && e.kind == Claude && !e.isSymlink && p == PathOf(e)
    case ClaudeBrokenSymlink(p, error) =>
      exists e :: e in es && e.kind == Claude && e.isSymlink && p == PathOf(e) && e.resolved == Unresolvable(error)
    case ClaudeTargetIsNotAgentSource(p, t) =>
      exists e, c :: LinkTo(es, e, c) && p == PathOf(e) && !SourceAt(es, c) && t == Display(root, c)
  }

  datatype Source = Source(path: Path, canonical: Path)
  datatype Link = Link(path: Path, target: Path)
  datatype Report = Report(readmes: nat, sources: seq<Source>, claudes: nat, links: seq<Link>, violations: seq<Violation>)

  function Tag(v: Violation): int {
    match v
    case MissingColocatedAgents(_) => 0
    case AgentsSymlinkTargetIsNotReadme(_, _) => 1
    case AgentsBrokenSymlink(_, _) => 2
    case MissingClaudeSymlink(_) => 3
    case ClaudeIsNotSymlink(_) => 4
    case ClaudeBrokenSymlink(_, _) => 5
    case ClaudeTargetIsNotAgentSource(_, _) => 6
  }

  function TargetOf(v: Violation): Path {
    match v
    case AgentsSymlinkTargetIsNotReadme(_, t) => t
    case ClaudeTargetIsNotAgentSource(_, t) => t
    case _ => []
  }

  // The order of `sort_key`: path, then kind, then target.
  predicate ViolationLe(v: Violation, w: Violation) {
    if v.path != w.path then PathLe(v.path, w.path)
    else if Tag(v) != Tag(w) then Tag(v) < Tag(w)
    else PathLe(TargetOf(v), TargetOf(w))
  }

  predicate SourceLe(s: Source, t: Source) { PathLe(s.path, t.path) }

  predicate LinkLe(l: Link, m: Link) {
    if l.target != m.target then PathLe(l.target, m.target) else PathLe(l.path, m.path)
  }

  ghost predicate IsLink(es: seq<Entry>, l: Link) {
    exists e, c :: LinkTo(es, e, c) && SourceAt(es, c) && l.path == PathOf(e) && Shows(es, c, l.target)
  }

  function ReadmeDirs(es: seq<Entry>): set<Path> { set e | e in es && e.kind == Readme :: e.dir }

  function CountClaudes(es: seq<Entry>): nat {
    if es == [] then 0 else CountClaudes(es[..|es| - 1]) + if es[|es| - 1].kind == Claude then 1 else 0
  }

  /** What the report of a scan says, without reference to the order of the entries. */
  ghost predicate Reports(es: seq<Entry>, root: Path, r: Report) {
    && r.readmes == |ReadmeDirs(es)|
    && r.claudes == (if CountClaudes(es) < USIZE_MAX then CountClaudes(es) else USIZE_MAX)
    && Listed(r.sources, SourceLe) && (forall s :: s in r.sources <==> SourceAt(es, s.canonical) && Shows(es, s.canonical, s.path))
    && Listed(r.links, LinkLe) && (forall l :: l in r.links <==> IsLink(es, l))
    && Listed(r.violations, ViolationLe) && (forall v :: v in r.violations <==> Violates(es, root, v))
  }

  // ---------------------------------------------------------------------------
  // Order independence

  lemma {:induction false} SameFacts(es: seq<Entry>, fs: seq<Entry>)
    requires forall e :: e in es <==> e in fs
    ensures forall c :: ReadmeAt(es, c) <==> ReadmeAt(fs, c)
    ensures forall d :: HasAgents(es, d) <==> HasAgents(fs, d)
    ensures forall e :: Effective(es, e) <==> Effective(fs, e)
    ensures forall e, c :: LinkTo(es, e, c) <==> LinkTo(fs, e, c)
  {
    assert forall c :: ReadmeAt(es, c) <==> ReadmeAt(fs, c);
  }

  lemma {:induction false} SameShown(es: seq<Entry>, fs: seq<Entry>)
    requires forall e :: e in es <==> e in fs
    ensures forall c :: SourceAt(es, c) <==> SourceAt(fs, c)
    ensures forall c :: ClaudeAt(es, c) <==> ClaudeAt(fs, c)
    ensures forall c, p :: Shows(es, c, p) <==> Shows(fs, c, p)
  {
    SameFacts(es, fs);
    hide Effective, LinkTo;
  }

  lemma {:induction false} SameViolations(es: seq<Entry>, fs: seq<Entry>, root: Path, v: Violation)
    requires forall e :: e in es <==> e in fs
    ensures Violates(es, root, v) <==> Violates(fs, root, v)
    ensures forall l :: IsLink(es, l) <==> IsLink(fs, l)
  {
    SameFacts(es, fs);
    SameShown(es, fs);
    hide Effective, LinkTo, SourceAt, ClaudeAt, Shows, HasAgents, ReadmeAt;
  }

  // One entry more, wherever it stands.
  lemma {:induction false} CountOneMore(a: seq<Entry>, e: Entry, b: seq<Entry>)
    ensures CountClaudes(a + [e] + b) == CountClaudes(a + b) + if e.kind == Claude then 1 else 0
  {
    CountConcat(a + [e], b);
    CountConcat(a, b);
    assert (a + [e])[..|a|] == a;
  }

  lemma {:induction false} CountPermuted(es: seq<Entry>, fs: seq<Entry>)
    requires multiset(es) == multiset(fs)
    ensures CountClaudes(es) == CountClaudes(fs)
    decreases |es|
  {
    hide CountClaudes;
    if es == [] {
      SameLength(es, fs);
    } else {
      var before, after := TakeFirst(es, fs);
      CountOneMore([], es[0], es[1..]);
      CountOneMore(before, es[0], after);
      CountPermuted(es[1..], before + after);
      assert es == [] + [es[0]] + es[1..] && [] + es[1..] == es[1..];
    }
  }

  lemma {:induction false} CountConcat(a: seq<Entry>, b: seq<Entry>)
    ensures CountClaudes(a + b) == CountClaudes(a) + CountClaudes(b)
  {
    if b == [] {
      assert a + b == a;
    } else {
      assert (a + b)[..|a + b| - 1] == a + b[..|b| - 1];
      CountConcat(a, b[..|b| - 1]);
    }
  }

  lemma {:induction false} EntriesByPlace(es: seq<Entry>, e: Entry, f: Entry)
    requires WalkedOnce(es) && e in es && f in es && PathOf(e) == PathOf(f)
    ensures e.kind == f.kind ==> e == f
  {
    assert PathOf(e)[..|PathOf(e)| - 1] == e.dir && PathOf(f)[..|PathOf(f)| - 1] == f.dir;
    var i :| 0 <= i < |es| && es[i] == e;
    var j :| 0 <= j < |es| && es[j] == f;
  }

  // A violation is determined by its sort key.
  lemma {:induction false} KeyDetermines(es: seq<Entry>, root: Path, v: Violation, w: Violation)
    requires WalkedOnce(es) && Violates(es, root, v) && Violates(es, root, w)
    requires v.path == w.path && Tag(v) == Tag(w) && TargetOf(v) == TargetOf(w)
    ensures v == w
  {
    hide WalkedOnce, PathOf, HasAgents, ReadmeAt, SourceAt, Shows, Display;
    match v
    case AgentsBrokenSymlink(p, error) =>
      var e :| e in es && e.kind == Agents && e.isSymlink && p == PathOf(e) && e.resolved == Unresolvable(error);
      var f :| f in es && f.kind == Agents && f.isSymlink && p == PathOf(f) && f.resolved == Unresolvable(w.error);
      EntriesByPlace(es, e, f);
    case ClaudeBrokenSymlink(p, error) =>
      var e :| e in es && e.kind == Claude && e.isSymlink && p == PathOf(e) && e.resolved == Unresolvable(error);
      var f :| f in es && f.kind == Claude && f.isSymlink && p == PathOf(f) && f.resolved == Unresolvable(w.error);
      EntriesByPlace(es, e, f);
    case _ =>
  }

  lemma {:induction false} ViolationOrder(es: seq<Entry>, root: Path, v: Violation, w: Violation)
    requires WalkedOnce(es) && Violates(es, root, v) && Violates(es, root, w)
    requires ViolationLe(v, w) && ViolationLe(w, v)
    ensures v == w
  {
    hide Violates;
    PathAntisymmetric(v.path, w.path);
    PathAntisymmetric(TargetOf(v), TargetOf(w));
    KeyDetermines(es, root, v, w);
  }

  // Two sources shown by the same path are the same source.
  lemma {:induction false} ShownOnce(es: seq<Entry>, c: Path, d: Path, p: Path)
    requires WalkedOnce(es) && Shows(es, c, p) && Shows(es, d, p)
    ensures c == d
  {
    hide WalkedOnce, PathOf;
    var e :| Effective(es, e) && e.resolved == At(c) && p == PathOf(e);
    var f :| Effective(es, f) && f.resolved == At(d) && p == PathOf(f);
    EntriesByPlace(es, e, f);
  }

  /** The report is the same for every walk order. */
  lemma {:induction false} ReportIgnoresOrder(es: seq<Entry>, fs: seq<Entry>, root: Path, r: Report, s: Report)
    requires WalkedOnce(es) && multiset(es) == multiset(fs)
    requires Reports(es, root, r) && Reports(fs, root, s)
    ensures r == s
  {
    hide WalkedOnce, Violates, IsLink, Shows, SourceAt, CountClaudes, Listed, ViolationLe;
    SameElements(es, fs);
    assert ReadmeDirs(es) == ReadmeDirs(fs);
    CountPermuted(es, fs);
    SameShown(es, fs);
    forall v ensures Violates(es, root, v) <==> Violates(fs, root, v) { SameViolations(es, fs, root, v); }
    forall l ensures IsLink(es, l) <==> IsLink(fs, l) { SameViolations(es, fs, root, MissingColocatedAgents([])); }
    forall v, w | v in r.violations && w in r.violations && ViolationLe(v, w) && ViolationLe(w, v) ensures v == w {
      ViolationOrder(es, root, v, w);
    }
    OneListing(r.violations, s.violations, ViolationLe);
    forall a, b | a in r.sources && b in r.sources && SourceLe(a, b) && SourceLe(b, a) ensures a == b {
      PathAntisymmetric(a.path, b.path);
      ShownOnce(es, a.canonical, b.canonical, a.path);
    }
    OneListing(r.sources, s.sources, SourceLe);
    forall l, m | l in r.links && m in r.links && LinkLe(l, m) && LinkLe(m, l) ensures l == m {
      PathAntisymmetric(l.path, m.path);
      PathAntisymmetric(l.target, m.target);
    }
    OneListing(r.links, s.links, LinkLe);
  }

  /** Violations are listed by path, a directory's before what is in it and otherwise by the first
      component that differs; for one path a missing AGENTS comes first, then a bad AGENTS symlink,
      a broken one, a missing CLAUDE, one that is no symlink, a broken one, and one that leads
      elsewhere. */
  lemma {:induction false} ViolationsInOrder(es: seq<Entry>, root: Path, r: Report, i: nat, j: nat)
    requires Reports(es, root, r) && i < j < |r.violations|
    ensures var v, w := r.violations[i], r.violations[j];
      if v.path != w.path then v.path <= w.path || exists k :: DifferAt(v.path, w.path, k) && LexLe(v.path[k], w.path[k])
      else
        && (w.MissingColocatedAgents? ==> v.MissingColocatedAgents?)
        && (w.AgentsSymlinkTargetIsNotReadme? ==> v.MissingColocatedAgents? || v.AgentsSymlinkTargetIsNotReadme?)
        && (v.MissingClaudeSymlink? ==> !w.AgentsBrokenSymlink?)
        && (v.ClaudeIsNotSymlink? ==> w.ClaudeIsNotSymlink? || w.ClaudeBrokenSymlink? || w.ClaudeTargetIsNotAgentSource?)
        && (v.ClaudeBrokenSymlink? ==> w.ClaudeBrokenSymlink? || w.ClaudeTargetIsNotAgentSource?)
        && (v.ClaudeTargetIsNotAgentSource? ==> w.ClaudeTargetIsNotAgentSource?)
  {
    hide Violates, IsLink, SourceAt, Shows, PathLe;
    var v, w := r.violations[i], r.violations[j];
    assert ViolationLe(v, w);
    PathLeIff(v.path, w.path);
  }

  /** Sources are listed by path, links by target and then by path. */
  lemma {:induction false} ListsInOrder(es: seq<Entry>, root: Path, r: Report, i: nat, j: nat)
    requires Reports(es, root, r) && i < j
    ensures j < |r.sources| ==> PathLe(r.sources[i].path, r.sources[j].path)
    ensures j < |r.links| && r.links[i].target != r.links[j].target ==> PathLe(r.links[i].target, r.links[j].target)
    ensures j < |r.links| && r.links[i].target == r.links[j].target ==> PathLe(r.links[i].path, r.links[j].path)
  {
    hide Violates, IsLink, SourceAt, Shows, PathLe;
    assert j < |r.sources| ==> SourceLe(r.sources[i], r.sources[j]);
    assert j < |r.links| ==> LinkLe(r.links[i], r.links[j]);
  }

  ghost predicate StandsForReadme(es: seq<Entry>, a: Entry) { exists r :: r in es && r.kind == Readme && SamePlace(a, r) }

  /** A source is where an AGENTS document resolves to that is not a symlink, or is one to a README. */
  lemma {:induction false} SourceMeans(es: seq<Entry>, c: Path)
    ensures SourceAt(es, c) <==>
      exists a :: a in es && a.kind == Agents && a.resolved == At(c) && (!a.isSymlink || StandsForReadme(es, a))
  {
    if SourceAt(es, c) {
      var a :| Effective(es, a) && a.resolved == At(c);
      if a.isSymlink {
        var r :| r in es && r.kind == Readme && r.resolved == At(c);
        assert SamePlace(a, r);
      }
    }
    if a :| a in es && a.kind == Agents && a.resolved == At(c) && (!a.isSymlink || StandsForReadme(es, a)) {
      if a.isSymlink { var r :| r in es && r.kind == Readme && SamePlace(a, r); }
      assert Effective(es, a);
    }
  }

  /** A target inside the root is shown relative to it, any other as it is. */
  lemma {:induction false} DisplayMeans(root: Path, p: Path)
    ensures root <= p ==> root + Display(root, p) == p
    ensures !(root <= p) ==> Display(root, p) == p
  {}

  // ---------------------------------------------------------------------------
  // The report decides the policy

  lemma {:induction false} FirstOf(fs: seq<Entry>)
    requires fs != []
    ensures exists e :: IsFirst(e, fs)
  {
    hide IsFirst;
    var x, front := fs[|fs| - 1], fs[..|fs| - 1];
    assert fs == front + [x];
    if front == [] {
      FirstAlone(x);
    } else {
      FirstOf(front);
      var e :| IsFirst(e, front);
      FirstOfTwo(front, e, x);
    }
  }

  ghost predicate IsFirst(e: Entry, fs: seq<Entry>) { e in fs && forall f :: f in fs ==> PathLe(e.dir, f.dir) }

  lemma {:induction false} FirstAlone(x: Entry)
    ensures IsFirst(x, [] + [x])
  {
    PathTotal(x.dir, x.dir);
  }

  lemma {:induction false} FirstOfTwo(front: seq<Entry>, e: Entry, x: Entry)
    requires IsFirst(e, front)
    ensures IsFirst(e, front + [x]) || IsFirst(x, front + [x])
  {
    hide PathLe;
    PathTotal(x.dir, x.dir);
    PathTotal(e.dir, x.dir);
    assert forall f :: f in front + [x] <==> f in front || f == x;
    if !PathLe(e.dir, x.dir) {
      forall f | f in front ensures PathLe(x.dir, f.dir) { PathTransitive(x.dir, e.dir, f.dir); }
    }
  }

  // Entries that make c a source, in walk order.
  ghost function SourcesFor(es: seq<Entry>, all: seq<Entry>, c: Path): (r: seq<Entry>)
    ensures forall e :: e in r <==> e in es && Effective(all, e) && e.resolved == At(c)
  {
    if es == [] then []
    else
      var e := es[|es| - 1];
      assert es == es[..|es| - 1] + [e];
      SourcesFor(es[..|es| - 1], all, c) + if Effective(all, e) && e.resolved == At(c) then [e] else []
  }

  lemma {:induction false} SourceIsShown(es: seq<Entry>, c: Path)
    requires SourceAt(es, c)
    ensures exists p :: Shows(es, c, p)
  {
    var fs := SourcesFor(es, es, c);
    var e :| Effective(es, e) && e.resolved == At(c);
    assert e in fs;
    FirstOf(fs);
    var first :| IsFirst(first, fs);
    assert Shows(es, c, PathOf(first));
  }

  /** A scan reports no violation if and only if the policy holds. */
  lemma {:induction false} PassesIff(es: seq<Entry>, root: Path, r: Report)
    requires Reports(es, root, r) && forall e :: e in es ==> !Fatal(e)
    ensures r.violations == [] <==> Policy(es)
    ensures r.violations == [] <==> PlainPolicy(es)
  {
    hide PlainPolicy;
    PolicyMeans(es);
    if r.violations == [] {
      assert forall v :: v !in r.violations && !Violates(es, root, v);
      CleanMeansPolicy(es, root);
    } else {
      var v := r.violations[0];
      assert v in r.violations && Violates(es, root, v);
      ViolationBreaksPolicy(es, root, v);
    }
  }

  lemma {:induction false} CleanMeansPolicy(es: seq<Entry>, root: Path)
    requires forall v :: !Violates(es, root, v)
    requires forall e :: e in es ==> !Fatal(e)
    ensures Policy(es)
  {
    hide PathOf, HasAgents, ReadmeAt, SourceAt, ClaudeAt, Shows, Display;
    forall e | e in es && e.kind == Readme ensures HasAgents(es, e.dir) {
      assert !Violates(es, root, MissingColocatedAgents(PathOf(e)));
    }
    forall e | e in es && e.kind == Agents && e.isSymlink ensures e.resolved.At? && ReadmeAt(es, e.resolved.path) {
      assert e.resolved.Unresolvable? ==> Violates(es, root, AgentsBrokenSymlink(PathOf(e), e.resolved.error));
      assert e.resolved.At? && !ReadmeAt(es, e.resolved.path) ==>
        Violates(es, root, AgentsSymlinkTargetIsNotReadme(PathOf(e), Display(root, e.resolved.path)));
    }
    forall c | SourceAt(es, c) ensures ClaudeAt(es, c) {
      SourceIsShown(es, c);
      var p :| Shows(es, c, p);
      assert !Violates(es, root, MissingClaudeSymlink(p));
    }
    forall e | e in es && e.kind == Claude ensures e.isSymlink && e.resolved.At? && SourceAt(es, e.resolved.path) {
      ClaudeIsFine(es, root, e);
    }
  }

  lemma {:induction false} ClaudeIsFine(es: seq<Entry>, root: Path, e: Entry)
    requires e in es && e.kind == Claude && forall v :: !Violates(es, root, v)
    ensures e.isSymlink && e.resolved.At? && SourceAt(es, e.resolved.path)
  {
    hide PathOf, SourceAt, Display;
    assert !e.isSymlink ==> Violates(es, root, ClaudeIsNotSymlink(PathOf(e)));
    assert e.isSymlink && e.resolved.Unresolvable? ==>
      Violates(es, root, ClaudeBrokenSymlink(PathOf(e), e.resolved.error));
    assert LinkTo(es, e, e.resolved.path);
    assert !Violates(es, root, ClaudeTargetIsNotAgentSource(PathOf(e), Display(root, e.resolved.path)));
  }

  lemma {:induction false} ViolationBreaksPolicy(es: seq<Entry>, root: Path, v: Violation)
    requires Violates(es, root, v)
    ensures !Policy(es)
  {
    hide PathOf, HasAgents, ReadmeAt, SourceAt, ClaudeAt, Shows, Display;
  }

  // ---------------------------------------------------------------------------
  // Every CLAUDE document is accounted for

  ghost predicate ListedAsLink(es: seq<Entry>, e: Entry) { exists t :: IsLink(es, Link(PathOf(e), t)) }

  ghost predicate Blamed(es: seq<Entry>, root: Path, e: Entry) {
    exists v :: Violates(es, root, v) && v.path == PathOf(e) && Tag(v) >= 4
  }

  lemma {:induction false} BlamedOnce(es: seq<Entry>, root: Path, e: Entry, v: Violation)
    requires WalkedOnce(es) && e in es && e.kind == Claude
    requires Violates(es, root, v) && v.path == PathOf(e) && Tag(v) >= 4
    ensures v == (if !e.isSymlink then ClaudeIsNotSymlink(PathOf(e))
                  else if e.resolved.Unresolvable? then ClaudeBrokenSymlink(PathOf(e), e.resolved.error)
                  else ClaudeTargetIsNotAgentSource(PathOf(e), Display(root, e.resolved.path)))
    ensures e.isSymlink && e.resolved.At? ==> !SourceAt(es, e.resolved.path)
  {
    hide WalkedOnce, PathOf, SourceAt, Display;
    match v
    case ClaudeIsNotSymlink(p) =>
      var f :| f in es && f.kind == Claude && !f.isSymlink && p == PathOf(f);
      EntriesByPlace(es, e, f);
    case ClaudeBrokenSymlink(p, error) =>
      var f :| f in es && f.kind == Claude && f.isSymlink && p == PathOf(f) && f.resolved == Unresolvable(error);
      EntriesByPlace(es, e, f);
    case ClaudeTargetIsNotAgentSource(p, t) =>
      var f, c :| LinkTo(es, f, c) && p == PathOf(f) && !SourceAt(es, c) && t == Display(root, c);
      EntriesByPlace(es, e, f);
  }

  /** Every CLAUDE document seen is either a valid link or has exactly one violation, never both. */
  lemma {:induction false} ClaudeAccounted(es: seq<Entry>, root: Path, e: Entry)
    requires WalkedOnce(es) && e in es && e.kind == Claude
    ensures ListedAsLink(es, e) <==> !Blamed(es, root, e)
    ensures forall v, w | Violates(es, root, v) && Violates(es, root, w) ::
              v.path == w.path == PathOf(e) && Tag(v) >= 4 && Tag(w) >= 4 ==> v == w
  {
    hide WalkedOnce, PathOf, SourceAt, Display, Violates, Shows;
    forall v | Violates(es, root, v) && v.path == PathOf(e) && Tag(v) >= 4
      ensures v == (if !e.isSymlink then ClaudeIsNotSymlink(PathOf(e))
                    else if e.resolved.Unresolvable? then ClaudeBrokenSymlink(PathOf(e), e.resolved.error)
                    else ClaudeTargetIsNotAgentSource(PathOf(e), Display(root, e.resolved.path)))
      ensures e.isSymlink && e.resolved.At? ==> !SourceAt(es, e.resolved.path)
    {
      BlamedOnce(es, root, e, v);
    }
    LinkOrBlame(es, root, e);
    if ListedAsLink(es, e) { LinkHasSource(es, e); }
  }

  lemma {:induction false} LinkOrBlame(es: seq<Entry>, root: Path, e: Entry)
    requires e in es && e.kind == Claude
    ensures ListedAsLink(es, e) || Blamed(es, root, e)
  {
    hide PathOf, SourceAt, Display, Shows;
    if !e.isSymlink {
      assert Violates(es, root, ClaudeIsNotSymlink(PathOf(e)));
    } else if e.resolved.Unresolvable? {
      assert Violates(es, root, ClaudeBrokenSymlink(PathOf(e), e.resolved.error));
    } else {
      var c := e.resolved.path;
      assert LinkTo(es, e, c);
      if SourceAt(es, c) {
        SourceIsShown(es, c);
        var p :| Shows(es, c, p);
        assert IsLink(es, Link(PathOf(e), p));
      } else {
        assert Violates(es, root, ClaudeTargetIsNotAgentSource(PathOf(e), Display(root, c)));
      }
    }
  }

  lemma {:induction false} LinkHasSource(es: seq<Entry>, e: Entry)
    requires WalkedOnce(es) && e in es && e.kind == Claude && ListedAsLink(es, e)
    ensures e.isSymlink && e.resolved.At? && SourceAt(es, e.resolved.path)
  {
    hide WalkedOnce, PathOf, SourceAt, Shows;
    var t :| IsLink(es, Link(PathOf(e), t));
    var f, c :| LinkTo(es, f, c) && SourceAt(es, c) && PathOf(e) == PathOf(f);
    EntriesByPlace(es, e, f);
  }
}
