/** The code of the instruction-document scan: one walk that fills maps and sets, several
    passes over them, and sorts; proved to produce the declarative report. */
module DocScanRun {
  import opened Options
  import opened ByteStrings
  import opened Sorting
  import opened DocScan

  datatype Agent = Agent(path: Path, canonical: Path, symlinkTarget: Option<Path>)

  // A resolved CLAUDE symlink. The map from targets to sets of paths is the set of these.
  datatype Ref = Ref(target: Path, path: Path)

  // What the walk accumulates.
  datatype State = State(readmes: map<Path, Path>, canonicals: set<Path>, agents: map<Path, Agent>,
                         claude: set<Ref>, seenLinks: set<Path>, claudes: nat, violations: seq<Violation>)

  const START := State(map[], {}, map[], {}, {}, 0, [])

  function AgentOf(root: Path, e: Entry): Agent
    requires e.resolved.At?
  {
    Agent(PathOf(e), e.resolved.path, if e.isSymlink then Some(Display(root, e.resolved.path)) else None)
  }

  // A violation found during the walk.
  function EntryViolation(e: Entry): Option<Violation> {
    if e.kind == Agents && e.isSymlink && e.resolved.Unresolvable? then
      Some(AgentsBrokenSymlink(PathOf(e), e.resolved.error))
    else if e.kind == Claude && !e.isSymlink then Some(ClaudeIsNotSymlink(PathOf(e)))
    else if e.kind == Claude && e.resolved.Unresolvable? then Some(ClaudeBrokenSymlink(PathOf(e), e.resolved.error))
    else None
  }

  // map.entry(key).or_insert(value)
  function OrInsert<V>(m: map<Path, V>, k: Path, v: V): map<Path, V> { if k in m then m else m[k := v] }

  /** The body of the walk loop for one document. */
  function Note(root: Path, st: State, e: Entry): State
    requires !Fatal(e)
  {
    match e.kind
    case Readme =>
      st.(canonicals := st.canonicals + {e.resolved.path}, readmes := OrInsert(st.readmes, e.dir, e.resolved.path))
    case Agents =>
      if e.resolved.Unresolvable? then
        st.(violations := st.violations + [AgentsBrokenSymlink(PathOf(e), e.resolved.error)])
      else st.(agents := OrInsert(st.agents, e.dir, AgentOf(root, e)))
    case Claude =>
      var seen := st.(claudes := if st.claudes < USIZE_MAX then st.claudes + 1 else st.claudes);
      if !e.isSymlink then seen.(violations := seen.violations + [ClaudeIsNotSymlink(PathOf(e))])
      else if e.link.value in st.seenLinks then seen
      else
        var linked := seen.(seenLinks := seen.seenLinks + {e.link.value});
        match e.resolved
        case At(target) => linked.(claude := linked.claude + {Ref(target, PathOf(e))})
        case Unresolvable(error) => linked.(violations := linked.violations + [ClaudeBrokenSymlink(PathOf(e), error)])
  }

  ghost predicate SeenLink(es: seq<Entry>, l: Path) {
    exists e :: e in es && e.kind == Claude && e.isSymlink && e.link == Some(l)
  }

  ghost predicate ClaudePair(es: seq<Entry>, t: Path, p: Path) { exists e :: LinkTo(es, e, t) && p == PathOf(e) }

  ghost predicate FoundIn(es: seq<Entry>, v: Violation) { exists e :: e in es && EntryViolation(e) == Some(v) }

  ghost predicate AgentAt(es: seq<Entry>, root: Path, d: Path, a: Agent) {
    exists e :: e in es && e.kind == Agents && e.dir == d && e.resolved.At? && a == AgentOf(root, e)
  }

  /** What the accumulated state says about the documents walked so far. */
  ghost predicate Walked(es: seq<Entry>, root: Path, st: State) {
    && st.readmes.Keys == ReadmeDirs(es)
    && (forall c :: c in st.canonicals <==> ReadmeAt(es, c))
    && (forall d :: d in st.agents <==> HasAgents(es, d))
    && (forall d :: d in st.agents ==> AgentAt(es, root, d, st.agents[d]))
    && (forall t, p :: Ref(t, p) in st.claude <==> ClaudePair(es, t, p))
    && (forall l :: l in st.seenLinks <==> SeenLink(es, l))
    && st.claudes == (if CountClaudes(es) < USIZE_MAX then CountClaudes(es) else USIZE_MAX)
    && NoRepeats(st.violations) && (forall v :: v in st.violations <==> FoundIn(es, v))
  }

  // ---------------------------------------------------------------------------
  // One more document

  // Membership after one more document, fact by fact.
  lemma {:induction false} OneMore(es: seq<Entry>, e: Entry)
    ensures forall x :: x in es + [e] <==> x in es || x == e
    ensures forall c :: ReadmeAt(es + [e], c) <==> ReadmeAt(es, c) || (e.kind == Readme && e.resolved == At(c))
    ensures forall d :: HasAgents(es + [e], d) <==> HasAgents(es, d) || (e.kind == Agents && e.dir == d && e.resolved.At?)
    ensures forall l :: SeenLink(es + [e], l) <==> SeenLink(es, l) || (e.kind == Claude && e.isSymlink && e.link == Some(l))
    ensures forall v :: FoundIn(es + [e], v) <==> FoundIn(es, v) || EntryViolation(e) == Some(v)
    ensures CountClaudes(es + [e]) == CountClaudes(es) + if e.kind == Claude then 1 else 0
  {
    var all := es + [e];
    assert forall x :: x in all <==> x in es || x == e;
    assert all[..|all| - 1] == es;
  }

  lemma {:induction false} OneMorePair(es: seq<Entry>, e: Entry, root: Path)
    ensures forall t, p :: ClaudePair(es + [e], t, p) <==>
              ClaudePair(es, t, p) || (e.kind == Claude && e.isSymlink && e.resolved == At(t) && p == PathOf(e))
    ensures forall d, a :: AgentAt(es + [e], root, d, a) <==>
              AgentAt(es, root, d, a)
              || (e.kind == Agents && e.dir == d && e.resolved.At? && a == AgentOf(root, e))
    ensures ReadmeDirs(es + [e]) == ReadmeDirs(es) + if e.kind == Readme then {e.dir} else {}
  {
    hide PathOf, AgentOf;
    var all := es + [e];
    assert forall x :: x in all <==> x in es || x == e;
    forall t, p ensures ClaudePair(all, t, p) <==>
      ClaudePair(es, t, p) || (e.kind == Claude && e.isSymlink && e.resolved == At(t) && p == PathOf(e))
    {
      if e.kind == Claude && e.isSymlink && e.resolved == At(t) && p == PathOf(e) { assert LinkTo(all, e, t); }
      if x :| LinkTo(es, x, t) && p == PathOf(x) { assert LinkTo(all, x, t); }
      if x :| LinkTo(all, x, t) && p == PathOf(x) { assert x == e || LinkTo(es, x, t); }
    }
  }

  // A document in a new place is not yet in any of the maps.
  lemma {:induction false} NewPlace(es: seq<Entry>, e: Entry)
    requires WalkedOnce(es + [e])
    ensures e.kind == Agents ==> !HasAgents(es, e.dir)
    ensures e.kind == Readme ==> e.dir !in ReadmeDirs(es)
    ensures e.kind == Claude && e.link.Some? ==> !SeenLink(es, e.link.value)
    ensures EntryViolation(e).Some? ==> !FoundIn(es, EntryViolation(e).value)
  {
    var all, n := es + [e], |es|;
    assert all[n] == e;
    forall x | x in es ensures (x.dir != e.dir || x.kind != e.kind)
      && (x.kind == e.kind == Claude && x.link.Some? ==> x.link != e.link)
    {
      var i :| 0 <= i < n && es[i] == x;
      assert all[i] == x;
    }
    if EntryViolation(e).Some? {
      forall x | x in es ensures EntryViolation(x) != EntryViolation(e) {
        assert PathOf(e)[..|PathOf(e)| - 1] == e.dir && PathOf(x)[..|PathOf(x)| - 1] == x.dir;
      }
    }
  }

  // What a document adds to the violations.
  lemma {:induction false} NoteViolations(root: Path, st: State, es: seq<Entry>, e: Entry)
    requires Walked(es, root, st) && !Fatal(e) && WalkedOnce(es + [e])
    ensures Note(root, st, e).violations
         == st.violations + if EntryViolation(e).Some? then [EntryViolation(e).value] else []
  {
    hide WalkedOnce, PathOf, AgentOf;
    NewPlace(es, e);
  }

  lemma {:induction false} NoteKeeps(root: Path, st: State, es: seq<Entry>, e: Entry)
    requires Walked(es, root, st) && !Fatal(e) && WalkedOnce(es + [e])
    ensures Walked(es + [e], root, Note(root, st, e))
  {
    hide WalkedOnce, PathOf, AgentOf, ReadmeAt, HasAgents, SeenLink, FoundIn, CountClaudes, ClaudePair, AgentAt, ReadmeDirs, EntryViolation;
    NewPlace(es, e);
    OneMore(es, e);
    OneMorePair(es, e, root);
    NoteViolations(root, st, es, e);
    if EntryViolation(e).Some? { NoRepeatsAppend(st.violations, EntryViolation(e).value); }
  }

  // Nothing can be reported about the document: it does not resolve and is no symlink that could be
  // reported as broken; or it is a CLAUDE symlink in a place that does not resolve.
  ghost predicate EndsScan(e: Entry) {
    || (e.resolved.Unresolvable? && e.kind == Readme)
    || (e.resolved.Unresolvable? && e.kind == Agents && !e.isSymlink)
    || (e.link == None && e.kind == Claude && e.isSymlink)
  }

  lemma {:induction false} FatalIff(e: Entry)
    ensures Fatal(e) <==> EndsScan(e)
  {}

  /** A README or AGENTS document that resolves never ends the scan, nor does any CLAUDE document
      whose own place resolves, symlink or not. */
  lemma {:induction false} ResolvedGoesOn(e: Entry)
    requires if e.kind == Claude then e.link.Some? else e.resolved.At?
    ensures !EndsScan(e) && !Fatal(e)
  {}

  /** The walk: fails exactly on a fatal document: a README or an AGENTS file that cannot be
      canonicalized, except an AGENTS symlink, or a CLAUDE symlink without a canonical location. */
  method Walk(root: Path, es: seq<Entry>) returns (st: State, fatal: bool)
    requires WalkedOnce(es)
    ensures fatal <==> exists e :: e in es && EndsScan(e)
    ensures !fatal ==> Walked(es, root, st)
  {
    forall e ensures Fatal(e) <==> EndsScan(e) { FatalIff(e); }
    hide Walked, Note, Fatal, EndsScan;
    st := START;
    NothingWalked(root, es);
    for i := 0 to |es|
      invariant Walked(es[..i], root, st)
      invariant forall e :: e in es[..i] ==> !Fatal(e)
    {
      if Fatal(es[i]) { return st, true; }
      assert es[..i + 1] == es[..i] + [es[i]];
      PrefixWalkedOnce(es, i + 1);
      NoteKeeps(root, st, es[..i], es[i]);
      st := Note(root, st, es[i]);
    }
    assert es[..|es|] == es;
    fatal := false;
  }

  lemma {:induction false} NothingWalked(root: Path, es: seq<Entry>)
    ensures Walked(es[..0], root, START)
  {}

  lemma {:induction false} PrefixWalkedOnce(es: seq<Entry>, n: nat)
    requires WalkedOnce(es) && n <= |es|
    ensures WalkedOnce(es[..n])
  {}

  // ---------------------------------------------------------------------------
  // Passes

  // The elements of a set, each once.
  method Elements<T>(s: set<T>) returns (r: seq<T>)
    ensures NoRepeats(r) && forall x :: x in r <==> x in s
  {
    r := [];
    var rest := s;
    while rest != {}
      invariant rest <= s && NoRepeats(r)
      invariant forall x :: x in r <==> x in s && x !in rest
    {
      var x :| x in rest;
      NoRepeatsAppend(r, x);
      r, rest := r + [x], rest - {x};
    }
  }

  // ---------------------------------------------------------------------------
  // Sources

  predicate EffectiveAgent(st: State, a: Agent) { a.symlinkTarget.None? || a.canonical in st.canonicals }

  lemma {:induction false} AgentFacts(es: seq<Entry>, root: Path, st: State, e: Entry)
    requires WalkedOnce(es) && Walked(es, root, st) && e in es && e.kind == Agents && e.resolved.At?
    ensures e.dir in st.agents && st.agents[e.dir] == AgentOf(root, e)
    ensures Effective(es, e) <==> EffectiveAgent(st, st.agents[e.dir])
  {
    assert HasAgents(es, e.dir);
    assert AgentAt(es, root, e.dir, st.agents[e.dir]);
    var f :| f in es && f.kind == Agents && f.dir == e.dir && f.resolved.At? && st.agents[e.dir] == AgentOf(root, f);
    EntriesByPlace(es, e, f);
  }

  lemma {:induction false} WalkedAgent(es: seq<Entry>, root: Path, st: State, d: Path)
    requires Walked(es, root, st) && d in st.agents
    ensures AgentAt(es, root, d, st.agents[d])
  {}

  // c is a source by the first i directories, first of all by the shown path.
  ghost predicate FirstSource(st: State, ds: seq<Path>, i: nat, c: Path, p: Path)
    requires i <= |ds| && forall d :: d in ds ==> d in st.agents
  {
    exists j :: 0 <= j < i && SourceDir(st, ds[j], c) && p == st.agents[ds[j]].path
      && forall k :: 0 <= k < j ==> !SourceDir(st, ds[k], c)
  }

  predicate SourceDir(st: State, d: Path, c: Path)
    requires d in st.agents
  {
    EffectiveAgent(st, st.agents[d]) && st.agents[d].canonical == c
  }

  // `source_by_canonical`: directories in ascending order, the first one wins.
  method BuildSources(st: State, ds: seq<Path>) returns (src: map<Path, Path>)
    requires forall d :: d in ds ==> d in st.agents
    ensures forall c :: c in src ==> FirstSource(st, ds, |ds|, c, src[c])
    ensures forall c, j :: 0 <= j < |ds| && SourceDir(st, ds[j], c) ==> c in src
  {
    src := map[];
    for i := 0 to |ds|
      invariant forall c :: c in src ==> FirstSource(st, ds, i, c, src[c])
      invariant forall c, j :: 0 <= j < i && SourceDir(st, ds[j], c) ==> c in src
    {
      assert ds[i] in ds;
      var a := st.agents[ds[i]];
      if EffectiveAgent(st, a) {
        src := OrInsert(src, a.canonical, a.path);
      }
    }
  }

  lemma {:induction false} SourcesMean(es: seq<Entry>, root: Path, st: State, ds: seq<Path>, src: map<Path, Path>)
    requires WalkedOnce(es) && Walked(es, root, st)
    requires Listed(ds, PathLe) && forall d :: d in ds <==> d in st.agents
    requires forall c :: c in src ==> FirstSource(st, ds, |ds|, c, src[c])
    requires forall c, j :: 0 <= j < |ds| && SourceDir(st, ds[j], c) ==> c in src
    ensures forall c :: c in src <==> SourceAt(es, c)
    ensures forall c :: c in src ==> Shows(es, c, src[c])
  {
    hide WalkedOnce, Walked, PathOf, ReadmeAt, EffectiveAgent;
    forall c | SourceAt(es, c) ensures c in src {
      var e :| Effective(es, e) && e.resolved == At(c);
      AgentFacts(es, root, st, e);
      var j :| 0 <= j < |ds| && ds[j] == e.dir;
      assert SourceDir(st, ds[j], c);
    }
    forall c | c in src ensures SourceAt(es, c) && Shows(es, c, src[c]) {
      SourceShown(es, root, st, ds, c, src[c]);
    }
  }

  lemma {:induction false} SourceShown(es: seq<Entry>, root: Path, st: State, ds: seq<Path>, c: Path, p: Path)
    requires WalkedOnce(es) && Walked(es, root, st)
    requires Listed(ds, PathLe) && forall d :: d in ds <==> d in st.agents
    requires FirstSource(st, ds, |ds|, c, p)
    ensures SourceAt(es, c) && Shows(es, c, p)
  {
    hide WalkedOnce, Walked, PathOf, ReadmeAt, EffectiveAgent;
    var j :| 0 <= j < |ds| && SourceDir(st, ds[j], c) && p == st.agents[ds[j]].path
      && forall k :: 0 <= k < j ==> !SourceDir(st, ds[k], c);
    WalkedAgent(es, root, st, ds[j]);
    var e :| e in es && e.kind == Agents && e.dir == ds[j] && e.resolved.At? && st.agents[ds[j]] == AgentOf(root, e);
    AgentFacts(es, root, st, e);
    forall f | Effective(es, f) && f.resolved == At(c) ensures PathLe(e.dir, f.dir) {
      AgentFacts(es, root, st, f);
      var k :| 0 <= k < |ds| && ds[k] == f.dir;
      assert SourceDir(st, ds[k], c);
      PathTotal(e.dir, e.dir);
    }
  }

  // ---------------------------------------------------------------------------
  // The later passes, one key at a time

  function NoAgents(st: State): Path -> Option<Violation> {
    d => if d in st.agents then None else Some(MissingColocatedAgents(d + [FileName(Readme)]))
  }

  function NotReadme(st: State): Path -> Option<Violation> {
    d => if d in st.agents && st.agents[d].symlinkTarget.Some? && st.agents[d].canonical !in st.canonicals
         then Some(AgentsSymlinkTargetIsNotReadme(st.agents[d].path, st.agents[d].symlinkTarget.value)) else None
  }

  function NotSource(root: Path, src: map<Path, Path>): Ref -> Option<Violation> {
    (pair: Ref) =>
      if pair.target in src then None else Some(ClaudeTargetIsNotAgentSource(pair.path, Display(root, pair.target)))
  }

  function NoClaude(st: State, src: map<Path, Path>): Path -> Option<Violation> {
    c => if c in src && !(exists pair | pair in st.claude :: pair.target == c) then Some(MissingClaudeSymlink(src[c])) else None
  }

  function SourceOf(src: map<Path, Path>): Path -> Option<Source> {
    c => if c in src then Some(Source(src[c], c)) else None
  }

  function LinkOf(src: map<Path, Path>): Ref -> Option<Link> {
    (pair: Ref) => if pair.target in src then Some(Link(pair.path, src[pair.target])) else None
  }

  lemma {:induction false} NoAgentsPass(es: seq<Entry>, root: Path, st: State, ds: seq<Path>)
    requires Walked(es, root, st) && NoRepeats(ds) && forall d :: d in ds <==> d in st.readmes.Keys
    ensures NoRepeats(Collect(NoAgents(st), ds))
    ensures forall v :: v in Collect(NoAgents(st), ds) <==> Tag(v) == 0 && Violates(es, root, v)
  {
    hide HasAgents, FileName, Collect;
    var f := NoAgents(st);
    forall j, k | j in ds && k in ds && f(j).Some? && f(j) == f(k) ensures j == k {
      assert f(j).value.path[..|f(j).value.path| - 1] == j && f(k).value.path[..|f(k).value.path| - 1] == k;
    }
    CollectNoRepeats(f, ds);
    forall v ensures v in Collect(f, ds) <==> Tag(v) == 0 && Violates(es, root, v) {
      CollectIn(f, ds, v);
      if d :| d in ds && f(d) == Some(v) {
        assert d in ReadmeDirs(es);
        var e :| e in es && e.kind == Readme && e.dir == d;
        assert v.path == PathOf(e);
      }
      if Tag(v) == 0 && Violates(es, root, v) {
        var e :| e in es && e.kind == Readme && v.path == PathOf(e) && !HasAgents(es, e.dir);
        assert e.dir in ReadmeDirs(es) && f(e.dir) == Some(v);
      }
    }
  }

  lemma {:induction false} NotReadmePass(es: seq<Entry>, root: Path, st: State, ds: seq<Path>)
    requires WalkedOnce(es) && Walked(es, root, st) && NoRepeats(ds) && forall d :: d in ds <==> d in st.agents
    ensures NoRepeats(Collect(NotReadme(st), ds))
    ensures forall v :: v in Collect(NotReadme(st), ds) <==> Tag(v) == 1 && Violates(es, root, v)
  {
    hide WalkedOnce, FileName, Collect, HasAgents, ReadmeAt, Display, Violates;
    var f := NotReadme(st);
    forall d | d in ds ensures st.agents[d].path == d + [FileName(Agents)] {
      assert AgentAt(es, root, d, st.agents[d]);
    }
    forall j, k | j in ds && k in ds && f(j).Some? && f(j) == f(k) ensures j == k {
      assert f(j).value.path[..|f(j).value.path| - 1] == j && f(k).value.path[..|f(k).value.path| - 1] == k;
    }
    CollectNoRepeats(f, ds);
    forall v ensures v in Collect(f, ds) <==> Tag(v) == 1 && Violates(es, root, v) {
      CollectIn(f, ds, v);
      NotReadmeAt(es, root, st, ds, v);
    }
  }

  lemma {:induction false} NotReadmeAt(es: seq<Entry>, root: Path, st: State, ds: seq<Path>, v: Violation)
    requires WalkedOnce(es) && Walked(es, root, st) && forall d :: d in ds <==> d in st.agents
    ensures (exists d :: d in ds && NotReadme(st)(d) == Some(v)) <==> Tag(v) == 1 && Violates(es, root, v)
  {
    hide WalkedOnce, FileName, HasAgents, ReadmeAt, Display;
    var f := NotReadme(st);
    if d :| d in ds && f(d) == Some(v) {
      WalkedAgent(es, root, st, d);
    }
    if Tag(v) == 1 && Violates(es, root, v) {
      var e :| e in es && e.kind == Agents && e.isSymlink && e.resolved.At? && v.path == PathOf(e)
        && !ReadmeAt(es, e.resolved.path) && v.target == Display(root, e.resolved.path);
      AgentFacts(es, root, st, e);
      assert f(e.dir) == Some(v);
    }
  }

  // A CLAUDE path has one target.
  lemma {:induction false} OneTarget(es: seq<Entry>, t: Path, u: Path, p: Path)
    requires WalkedOnce(es) && ClaudePair(es, t, p) && ClaudePair(es, u, p)
    ensures t == u
  {
    hide WalkedOnce, PathOf;
    var e :| LinkTo(es, e, t) && p == PathOf(e);
    var f :| LinkTo(es, f, u) && p == PathOf(f);
    EntriesByPlace(es, e, f);
  }

  lemma {:induction false} NotSourcePass(es: seq<Entry>, root: Path, st: State, src: map<Path, Path>, ps: seq<Ref>)
    requires WalkedOnce(es) && Walked(es, root, st) && NoRepeats(ps) && forall x :: x in ps <==> x in st.claude
    requires forall c :: c in src <==> SourceAt(es, c)
    ensures NoRepeats(Collect(NotSource(root, src), ps))
    ensures forall v :: v in Collect(NotSource(root, src), ps) <==> Tag(v) == 6 && Violates(es, root, v)
  {
    hide WalkedOnce, PathOf, Collect, SourceAt, Display, LinkTo;
    var f := NotSource(root, src);
    forall x, y | x in ps && y in ps && f(x).Some? && f(x) == f(y) ensures x == y {
      assert x in st.claude && y in st.claude;
      OneTarget(es, x.target, y.target, x.path);
    }
    CollectNoRepeats(f, ps);
    forall v ensures v in Collect(f, ps) <==> Tag(v) == 6 && Violates(es, root, v) {
      CollectIn(f, ps, v);
      if x :| x in ps && f(x) == Some(v) {
        assert x in st.claude;
        var e :| LinkTo(es, e, x.target) && x.path == PathOf(e);
      }
      if Tag(v) == 6 && Violates(es, root, v) {
        var e, c :| LinkTo(es, e, c) && v.path == PathOf(e) && !SourceAt(es, c) && v.target == Display(root, c);
        assert ClaudePair(es, c, v.path);
        assert Ref(c, v.path) in ps && f(Ref(c, v.path)) == Some(v);
      }
    }
  }

  lemma {:induction false} ClaudeKnown(es: seq<Entry>, root: Path, st: State, c: Path)
    requires Walked(es, root, st)
    ensures (exists pair | pair in st.claude :: pair.target == c) <==> ClaudeAt(es, c)
  {
    hide PathOf;
    if pair :| pair in st.claude && pair.target == c {
      assert pair == Ref(pair.target, pair.path);
      assert ClaudePair(es, c, pair.path);
    }
    if e :| LinkTo(es, e, c) {
      assert ClaudePair(es, c, PathOf(e));
      assert Ref(c, PathOf(e)) in st.claude;
    }
  }

  lemma {:induction false} NoClaudePass(es: seq<Entry>, root: Path, st: State, src: map<Path, Path>, cs: seq<Path>)
    requires WalkedOnce(es) && Walked(es, root, st) && NoRepeats(cs) && forall c :: c in cs <==> c in src
    requires forall c :: c in src <==> SourceAt(es, c)
    requires forall c :: c in src ==> Shows(es, c, src[c])
    ensures NoRepeats(Collect(NoClaude(st, src), cs))
    ensures forall v :: v in Collect(NoClaude(st, src), cs) <==> Tag(v) == 3 && Violates(es, root, v)
  {
    hide WalkedOnce, Walked, PathOf, Collect, SourceAt, Shows, ClaudeAt;
    var f := NoClaude(st, src);
    forall j, k | j in cs && k in cs && f(j).Some? && f(j) == f(k) ensures j == k { ShownOnce(es, j, k, src[j]); }
    CollectNoRepeats(f, cs);
    forall c ensures (exists pair | pair in st.claude :: pair.target == c) <==> ClaudeAt(es, c) { ClaudeKnown(es, root, st, c); }
    forall v ensures v in Collect(f, cs) <==> Tag(v) == 3 && Violates(es, root, v) {
      CollectIn(f, cs, v);
      if Tag(v) == 3 && Violates(es, root, v) {
        var c :| SourceAt(es, c) && !ClaudeAt(es, c) && Shows(es, c, v.path);
        ShownPath(es, c, v.path, src[c]);
        assert f(c) == Some(v);
      }
    }
  }

  // A source is shown by one path.
  lemma {:induction false} ShownPath(es: seq<Entry>, c: Path, p: Path, q: Path)
    requires WalkedOnce(es) && Shows(es, c, p) && Shows(es, c, q)
    ensures p == q
  {
    hide WalkedOnce, Effective;
    var e :| Effective(es, e) && e.resolved == At(c) && p == PathOf(e)
      && forall f :: Effective(es, f) && f.resolved == At(c) ==> PathLe(e.dir, f.dir);
    var f :| Effective(es, f) && f.resolved == At(c) && q == PathOf(f)
      && forall g :: Effective(es, g) && g.resolved == At(c) ==> PathLe(f.dir, g.dir);
    PathAntisymmetric(e.dir, f.dir);
    assert e.kind == f.kind by { AgentsOnly(es, e); AgentsOnly(es, f); }
  }

  lemma {:induction false} AgentsOnly(es: seq<Entry>, e: Entry)
    requires Effective(es, e)
    ensures e.kind == Agents
  {}

  lemma {:induction false} SourcesPass(es: seq<Entry>, src: map<Path, Path>, cs: seq<Path>)
    requires WalkedOnce(es) && NoRepeats(cs) && forall c :: c in cs <==> c in src
    requires forall c :: c in src <==> SourceAt(es, c)
    requires forall c :: c in src ==> Shows(es, c, src[c])
    ensures NoRepeats(Collect(SourceOf(src), cs))
    ensures forall s :: s in Collect(SourceOf(src), cs) <==> SourceAt(es, s.canonical) && Shows(es, s.canonical, s.path)
  {
    hide WalkedOnce, Collect, SourceAt, Shows;
    var f := SourceOf(src);
    CollectNoRepeats(f, cs);
    forall s: Source ensures s in Collect(f, cs) <==> SourceAt(es, s.canonical) && Shows(es, s.canonical, s.path) {
      CollectIn(f, cs, s);
      if SourceAt(es, s.canonical) && Shows(es, s.canonical, s.path) {
        ShownPath(es, s.canonical, s.path, src[s.canonical]);
        assert f(s.canonical) == Some(s);
      }
    }
  }

  lemma {:induction false} LinksPass(es: seq<Entry>, root: Path, st: State, src: map<Path, Path>, ps: seq<Ref>)
    requires WalkedOnce(es) && Walked(es, root, st) && NoRepeats(ps) && forall x :: x in ps <==> x in st.claude
    requires forall c :: c in src <==> SourceAt(es, c)
    requires forall c :: c in src ==> Shows(es, c, src[c])
    ensures NoRepeats(Collect(LinkOf(src), ps))
    ensures forall l :: l in Collect(LinkOf(src), ps) <==> IsLink(es, l)
  {
    hide WalkedOnce, PathOf, Collect, SourceAt, Shows, LinkTo;
    var f := LinkOf(src);
    forall x, y | x in ps && y in ps && f(x).Some? && f(x) == f(y) ensures x == y {
      assert x in st.claude && y in st.claude;
      OneTarget(es, x.target, y.target, x.path);
    }
    CollectNoRepeats(f, ps);
    forall l ensures l in Collect(f, ps) <==> IsLink(es, l) {
      CollectIn(f, ps, l);
      if x :| x in ps && f(x) == Some(l) {
        assert x in st.claude;
        var e :| LinkTo(es, e, x.target) && x.path == PathOf(e);
      }
      if IsLink(es, l) {
        var e, c :| LinkTo(es, e, c) && SourceAt(es, c) && l.path == PathOf(e) && Shows(es, c, l.target);
        ShownPath(es, c, l.target, src[c]);
        assert ClaudePair(es, c, l.path);
        assert Ref(c, l.path) in ps && f(Ref(c, l.path)) == Some(l);
      }
    }
  }

  lemma {:induction false} WalkPass(es: seq<Entry>, root: Path, st: State, v: Violation)
    requires Walked(es, root, st) && forall e :: e in es ==> !Fatal(e)
    ensures v in st.violations <==> (Tag(v) == 2 || Tag(v) == 4 || Tag(v) == 5) && Violates(es, root, v)
  {
    hide PathOf, HasAgents, ReadmeAt, SourceAt, ClaudeAt, Shows, Display, SeenLink, ClaudePair, AgentAt, CountClaudes;
    if e :| e in es && EntryViolation(e) == Some(v) {}
    if (Tag(v) == 2 || Tag(v) == 4 || Tag(v) == 5) && Violates(es, root, v) {
      match v
      case AgentsBrokenSymlink(p, error) =>
        var e :| e in es && e.kind == Agents && e.isSymlink && p == PathOf(e) && e.resolved == Unresolvable(error);
        assert EntryViolation(e) == Some(v);
      case ClaudeIsNotSymlink(p) =>
        var e :| e in es && e.kind == Claude && !e.isSymlink && p == PathOf(e);
        assert EntryViolation(e) == Some(v);
      case ClaudeBrokenSymlink(p, error) =>
        var e :| e in es && e.kind == Claude && e.isSymlink && p == PathOf(e) && e.resolved == Unresolvable(error);
        assert EntryViolation(e) == Some(v);
    }
  }

  lemma {:induction false} NoRepeatsConcat<T>(xs: seq<T>, ys: seq<T>)
    requires NoRepeats(xs) && NoRepeats(ys) && forall x :: x in xs ==> x !in ys
    ensures NoRepeats(xs + ys)
  {
    forall i, j | 0 <= i < j < |xs + ys| ensures (xs + ys)[i] != (xs + ys)[j] {
      if i < |xs| <= j { assert xs[i] in xs && ys[j - |xs|] in ys; }
    }
  }

  // ---------------------------------------------------------------------------
  // Orders

  lemma {:induction false} ReportOrders()
    ensures Preorder(ViolationLe) && Preorder(SourceLe) && Preorder(LinkLe)
  {
    PathPreorder();
    hide PathLe;
    forall u: Violation, v: Violation, w: Violation | ViolationLe(u, v) && ViolationLe(v, w) ensures ViolationLe(u, w) {
      PathAntisymmetric(u.path, v.path);
    }
    forall u: Link, v: Link, w: Link | LinkLe(u, v) && LinkLe(v, w) ensures LinkLe(u, w) {
      PathAntisymmetric(u.target, v.target);
    }
    forall u: Source, v: Source, w: Source | SourceLe(u, v) && SourceLe(v, w) ensures SourceLe(u, w) {}
  }

  // ---------------------------------------------------------------------------
  // The scan

  /** `scan_human_agent_docs_with_cancel` on the documents that the walk delivers. */
  method Scan(root: Path, es: seq<Entry>) returns (r: Option<Report>)
    requires WalkedOnce(es)
    ensures r.None? <==> exists e :: e in es && EndsScan(e)
    ensures r.Some? ==> Reports(es, root, r.value)
  {
    hide *;
    forall e ensures Fatal(e) <==> EndsScan(e) { FatalIff(e); }
    var st, fatal := Walk(root, es);
    if fatal { return None; }
    var readmeDirs := Elements(st.readmes.Keys);
    var colocated := CollectAll(NoAgents(st), readmeDirs);
    NoAgentsPass(es, root, st, readmeDirs);
    var agentDirs := Elements(st.agents.Keys);
    PathPreorder();
    SortListed(agentDirs, PathLe);
    agentDirs := Sort(agentDirs, PathLe);
    ListedFacts(agentDirs, PathLe);
    var notReadme := CollectAll(NotReadme(st), agentDirs);
    NotReadmePass(es, root, st, agentDirs);
    var src := BuildSources(st, agentDirs);
    SourcesMean(es, root, st, agentDirs, src);
    var pairs := Elements(st.claude);
    var notSource := CollectAll(NotSource(root, src), pairs);
    NotSourcePass(es, root, st, src, pairs);
    var canonicals := Elements(src.Keys);
    var noClaude := CollectAll(NoClaude(st, src), canonicals);
    NoClaudePass(es, root, st, src, canonicals);
    var sources := CollectAll(SourceOf(src), canonicals);
    SourcesPass(es, src, canonicals);
    var links := CollectAll(LinkOf(src), pairs);
    LinksPass(es, root, st, src, pairs);
    ReportOrders();
    SortListed(sources, SourceLe);
    SortListed(links, LinkLe);
    var violations := st.violations + colocated + notReadme + notSource + noClaude;
    AllViolations(es, root, st, colocated, notReadme, notSource, noClaude);
    SortListed(violations, ViolationLe);
    var report := Report(|st.readmes.Keys|, Sort(sources, SourceLe), st.claudes, Sort(links, LinkLe),
                         Sort(violations, ViolationLe));
    MakeReport(es, root, st, report);
    r := Some(report);
  }

  lemma {:induction false} ListedFacts<T(!new)>(xs: seq<T>, le: (T, T) -> bool)
    requires Listed(xs, le)
    ensures NoRepeats(xs)
  {}

  lemma {:induction false} AllViolations(es: seq<Entry>, root: Path, st: State,
      a: seq<Violation>, b: seq<Violation>, c: seq<Violation>, d: seq<Violation>)
    requires Walked(es, root, st) && forall e :: e in es ==> !Fatal(e)
    requires NoRepeats(a) && forall v :: v in a <==> Tag(v) == 0 && Violates(es, root, v)
    requires NoRepeats(b) && forall v :: v in b <==> Tag(v) == 1 && Violates(es, root, v)
    requires NoRepeats(c) && forall v :: v in c <==> Tag(v) == 6 && Violates(es, root, v)
    requires NoRepeats(d) && forall v :: v in d <==> Tag(v) == 3 && Violates(es, root, v)
    ensures NoRepeats(st.violations + a + b + c + d)
    ensures forall v :: v in st.violations + a + b + c + d <==> Violates(es, root, v)
  {
    hide Violates, NoRepeats, Fatal;
    forall v ensures v in st.violations <==> (Tag(v) == 2 || Tag(v) == 4 || Tag(v) == 5) && Violates(es, root, v) {
      WalkPass(es, root, st, v);
    }
    var s := st.violations;
    assert NoRepeats(s);
    NoRepeatsConcat(s, a);
    NoRepeatsConcat(s + a, b);
    NoRepeatsConcat(s + a + b, c);
    NoRepeatsConcat(s + a + b + c, d);
  }

  lemma {:induction false} MakeReport(es: seq<Entry>, root: Path, st: State, r: Report)
    requires Walked(es, root, st) && r.readmes == |st.readmes.Keys| && r.claudes == st.claudes
    requires Listed(r.sources, SourceLe)
    requires forall s :: s in r.sources <==> SourceAt(es, s.canonical) && Shows(es, s.canonical, s.path)
    requires Listed(r.links, LinkLe) && forall l :: l in r.links <==> IsLink(es, l)
    requires Listed(r.violations, ViolationLe) && forall v :: v in r.violations <==> Violates(es, root, v)
    ensures Reports(es, root, r)
  {
    hide Listed, Violates, IsLink, SourceAt, Shows;
  }
}
