/** The public bundle tree and the explicit-stack walk that feeds it to the review hasher. */
module PublicTree {
  import opened ByteStrings
  import opened Sorting

  datatype Node = File(content: Bytes) | Dir(entries: seq<Entry>) | Symlink | Special
  datatype Entry = Entry(name: Bytes, node: Node)

  const SLASH: Byte := 47

  predicate ValidName(name: Bytes) { name != [] && SLASH !in name }

  // What a file system guarantees of a directory listing, at every depth. The order is arbitrary.
  predicate WellFormed(es: seq<Entry>) {
    && (forall i :: 0 <= i < |es| ==> ValidName(es[i].name))
    && Distinct(es, NameOf)
    && (forall i :: 0 <= i < |es| && es[i].node.Dir? ==> WellFormed(es[i].node.entries))
  }

  // ---------------------------------------------------------------------------
  // Reviewed content, without any order

  datatype Fact = DirAt(path: Path) | FileAt(path: Path, content: Bytes)

  ghost function EntryFacts(path: Path, e: Entry): set<Fact>
    decreases e
  {
    match e.node
    case File(content) => {FileAt(path + [e.name], content)}
    case Dir(sub) => {DirAt(path + [e.name])} + Facts(path + [e.name], sub)
    case _ => {}
  }

  /** Every directory and every file with its bytes; special files are not reviewed. */
  ghost function Facts(path: Path, es: seq<Entry>): set<Fact>
    decreases es
  {
    if es == [] then {} else Facts(path, es[..|es| - 1]) + EntryFacts(path, es[|es| - 1])
  }

  lemma {:induction false} FactIn(path: Path, es: seq<Entry>, f: Fact)
    ensures f in Facts(path, es) <==> exists e :: e in es && f in EntryFacts(path, e)
  {
    if es != [] {
      var front, last := es[..|es| - 1], es[|es| - 1];
      FactIn(path, front, f);
      assert es == front + [last];
      assert last in es && forall e :: e in front ==> e in es;
      if f in Facts(path, es) && f !in Facts(path, front) {
        assert f in EntryFacts(path, last);
      }
      if e :| e in es && f in EntryFacts(path, e) {
        assert e in front || e == last;
      }
    }
  }

  lemma {:induction false} FactsIgnoreOrder(path: Path, xs: seq<Entry>, ys: seq<Entry>)
    requires multiset(xs) == multiset(ys)
    ensures Facts(path, xs) == Facts(path, ys)
  {
    SameElements(xs, ys);
    forall f ensures f in Facts(path, xs) <==> f in Facts(path, ys) {
      FactIn(path, xs, f);
      FactIn(path, ys, f);
    }
  }

  // A fact lies strictly below the directory it was found from, through one of its entries.
  lemma {:induction false} FactPath(path: Path, es: seq<Entry>, f: Fact)
    requires f in Facts(path, es)
    ensures |f.path| > |path| && f.path[..|path|] == path
    ensures exists e :: e in es && e.name == f.path[|path|]
    ensures WellFormed(es) ==> forall k :: |path| <= k < |f.path| ==> ValidName(f.path[k])
    decreases es
  {
    FactIn(path, es, f);
    var e :| e in es && f in EntryFacts(path, e);
    if e.node.Dir? && f != DirAt(path + [e.name]) {
      FactPath(path + [e.name], e.node.entries, f);
      assert f.path[..|path| + 1][..|path|] == path;
      assert f.path[..|path| + 1][|path|] == e.name;
    }
  }

  // ---------------------------------------------------------------------------
  // The same content, as trees

  predicate Reviewed(e: Entry) { e.node.File? || e.node.Dir? }

  ghost predicate SameEntry(x: Entry, y: Entry)
    decreases x
  {
    x.name == y.name && match x.node
    case File(content) => y.node == File(content)
    case Dir(sub) => y.node.Dir? && SameTree(sub, y.node.entries)
    case _ => false
  }

  /** Equal trees, up to the order of listings at every depth and to files that are not reviewed. */
  ghost predicate SameTree(xs: seq<Entry>, ys: seq<Entry>)
    decreases xs
  {
    && (forall i :: 0 <= i < |xs| && Reviewed(xs[i]) ==> exists j :: 0 <= j < |ys| && SameEntry(xs[i], ys[j]))
    && (forall j :: 0 <= j < |ys| && Reviewed(ys[j]) ==> exists i :: 0 <= i < |xs| && SameEntry(xs[i], ys[j]))
  }

  lemma {:induction false} SameEntryFacts(path: Path, x: Entry, y: Entry)
    requires SameEntry(x, y)
    ensures EntryFacts(path, x) == EntryFacts(path, y)
    decreases x
  {
    if x.node.Dir? { SameTreeFacts(path + [x.name], x.node.entries, y.node.entries); }
  }

  lemma {:induction false} SameTreeFacts(path: Path, xs: seq<Entry>, ys: seq<Entry>)
    requires SameTree(xs, ys)
    ensures Facts(path, xs) == Facts(path, ys)
    decreases xs
  {
    hide Facts, SameEntry;
    forall f ensures f in Facts(path, xs) <==> f in Facts(path, ys) {
      FactIn(path, xs, f);
      FactIn(path, ys, f);
      if x :| x in xs && f in EntryFacts(path, x) {
        var i :| 0 <= i < |xs| && xs[i] == x;
        var j :| 0 <= j < |ys| && SameEntry(xs[i], ys[j]);
        SameEntryFacts(path, xs[i], ys[j]);
        assert ys[j] in ys;
      }
      if y :| y in ys && f in EntryFacts(path, y) {
        var j :| 0 <= j < |ys| && ys[j] == y;
        var i :| 0 <= i < |xs| && SameEntry(xs[i], ys[j]);
        SameEntryFacts(path, xs[i], ys[j]);
        assert xs[i] in xs;
      }
    }
  }

  // A fact is found through the one entry that its path names.
  lemma {:induction false} FactThrough(path: Path, es: seq<Entry>, e: Entry, f: Fact)
    requires WellFormed(es) && e in es && f in Facts(path, es) && |f.path| > |path| && f.path[|path|] == e.name
    ensures f in EntryFacts(path, e)
  {
    FactIn(path, es, f);
    var d :| d in es && f in EntryFacts(path, d);
    EntryFactPath(path, d, f);
    var i :| 0 <= i < |es| && es[i] == e;
    var j :| 0 <= j < |es| && es[j] == d;
    assert NameOf(es[i]) == NameOf(es[j]);
  }

  lemma {:induction false} EntryFactPath(path: Path, e: Entry, f: Fact)
    requires f in EntryFacts(path, e)
    ensures |f.path| > |path| && f.path[|path|] == e.name
    ensures f != DirAt(path + [e.name]) && e.node.Dir? ==> |f.path| > |path| + 1
  {
    if e.node.Dir? && f != DirAt(path + [e.name]) {
      FactPath(path + [e.name], e.node.entries, f);
      assert f.path[..|path| + 1][|path|] == e.name;
    }
  }

  // Equal content below two directories of the same name in trees of equal content.
  lemma {:induction false} ContentBelow(path: Path, xs: seq<Entry>, ys: seq<Entry>, x: Entry, y: Entry, f: Fact)
    requires WellFormed(xs) && WellFormed(ys) && Facts(path, xs) == Facts(path, ys)
    requires x in xs && y in ys && x.name == y.name && x.node.Dir? && y.node.Dir?
    ensures f in Facts(path + [x.name], x.node.entries) ==> f in Facts(path + [x.name], y.node.entries)
  {
    if f in Facts(path + [x.name], x.node.entries) {
      FactIn(path, xs, f);
      FactPath(path + [x.name], x.node.entries, f);
      assert f.path[..|path| + 1][|path|] == x.name;
      FactThrough(path, ys, y, f);
    }
  }

  // The entry of ys that stands for a reviewed entry of xs.
  lemma {:induction false} Counterpart(path: Path, xs: seq<Entry>, ys: seq<Entry>, x: Entry) returns (y: Entry)
    requires Facts(path, xs) == Facts(path, ys) && x in xs && Reviewed(x)
    ensures y in ys && x.name == y.name
    ensures if x.node.File? then y.node == x.node else y.node.Dir?
  {
    var f := if x.node.Dir? then DirAt(path + [x.name]) else FileAt(path + [x.name], x.node.content);
    FactIn(path, xs, f);
    FactIn(path, ys, f);
    y :| y in ys && f in EntryFacts(path, y);
    EntryFactPath(path, y, f);
  }

  lemma {:induction false} SameContentSameTree(path: Path, xs: seq<Entry>, ys: seq<Entry>)
    requires WellFormed(xs) && WellFormed(ys) && Facts(path, xs) == Facts(path, ys)
    ensures SameTree(xs, ys)
    decreases xs
  {
    hide Facts;
    forall i | 0 <= i < |xs| && Reviewed(xs[i]) ensures exists j :: 0 <= j < |ys| && SameEntry(xs[i], ys[j]) {
      var y := Counterpart(path, xs, ys, xs[i]);
      var j :| 0 <= j < |ys| && ys[j] == y;
      SameContentSameEntry(path, xs, ys, i, j);
    }
    forall j | 0 <= j < |ys| && Reviewed(ys[j]) ensures exists i :: 0 <= i < |xs| && SameEntry(xs[i], ys[j]) {
      var x := Counterpart(path, ys, xs, ys[j]);
      var i :| 0 <= i < |xs| && xs[i] == x;
      SameContentSameEntry(path, xs, ys, i, j);
    }
  }

  lemma {:induction false} SameContentSameEntry(path: Path, xs: seq<Entry>, ys: seq<Entry>, i: nat, j: nat)
    requires WellFormed(xs) && WellFormed(ys) && Facts(path, xs) == Facts(path, ys)
    requires i < |xs| && j < |ys| && xs[i].name == ys[j].name && Reviewed(xs[i])
    requires if xs[i].node.File? then ys[j].node == xs[i].node else ys[j].node.Dir?
    ensures SameEntry(xs[i], ys[j])
    decreases xs, 0
  {
    hide Facts;
    var x, y := xs[i], ys[j];
    if x.node.Dir? {
      forall f ensures f in Facts(path + [x.name], x.node.entries) <==> f in Facts(path + [x.name], y.node.entries) {
        ContentBelow(path, xs, ys, x, y, f);
        ContentBelow(path, ys, xs, y, x, f);
      }
      SameContentSameTree(path + [x.name], x.node.entries, y.node.entries);
    }
  }

  /** The facts of a tree are its content: they are equal exactly for equal trees. */
  lemma {:induction false} SameFactsIff(path: Path, xs: seq<Entry>, ys: seq<Entry>)
    requires WellFormed(xs) && WellFormed(ys)
    ensures Facts(path, xs) == Facts(path, ys) <==> SameTree(xs, ys)
  {
    if SameTree(xs, ys) { SameTreeFacts(path, xs, ys); }
    if Facts(path, xs) == Facts(path, ys) { SameContentSameTree(path, xs, ys); }
  }

  // ---------------------------------------------------------------------------
  // The order of the walk

  function NameOf(e: Entry): Bytes { e.name }

  predicate NameLe(a: Entry, b: Entry) { LexLe(a.name, b.name) }

  lemma {:induction false} NameLePreorder()
    ensures Preorder(NameLe)
  {
    forall a: Entry, b: Entry ensures NameLe(a, b) || NameLe(b, a) { LexTotal(a.name, b.name); }
    forall a: Entry, b: Entry, c: Entry | NameLe(a, b) && NameLe(b, c) ensures NameLe(a, c) {
      LexTransitive(a.name, b.name, c.name);
    }
  }

  function Weight(es: seq<Entry>): nat
    decreases es
  {
    if es == [] then 0
    else
      var e := es[|es| - 1];
      Weight(es[..|es| - 1]) + 1 + if e.node.Dir? then Weight(e.node.entries) else 0
  }

  lemma {:induction false} WeightConcat(a: seq<Entry>, b: seq<Entry>)
    ensures Weight(a + b) == Weight(a) + Weight(b)
  {
    if b == [] {
      assert a + b == a;
    } else {
      assert (a + b)[..|a + b| - 1] == a + b[..|b| - 1];
      WeightConcat(a, b[..|b| - 1]);
    }
  }

  lemma {:induction false} WeightInsert(x: Entry, s: seq<Entry>)
    ensures Weight(Insert(x, s, NameLe)) == Weight(s) + Weight([x])
  {
    if s == [] || NameLe(x, s[0]) {
      WeightConcat([x], s);
    } else {
      WeightInsert(x, s[1..]);
      WeightConcat([s[0]], Insert(x, s[1..], NameLe));
      WeightConcat([s[0]], s[1..]);
      assert s == [s[0]] + s[1..];
    }
  }

  lemma {:induction false} WeightSort(es: seq<Entry>)
    ensures Weight(Sort(es, NameLe)) == Weight(es)
  {
    if es != [] {
      WeightSort(es[1..]);
      WeightInsert(es[0], Sort(es[1..], NameLe));
      WeightConcat([es[0]], es[1..]);
      assert es == [es[0]] + es[1..];
    }
  }

  // Entries sorted by path: within one directory that is by name.
  function ByName(es: seq<Entry>): (r: seq<Entry>)
    ensures multiset(r) == multiset(es) && Weight(r) == Weight(es)
  {
    WeightSort(es);
    Sort(es, NameLe)
  }

  function EntryListing(path: Path, e: Entry): seq<Fact> {
    match e.node
    case File(content) => [FileAt(path + [e.name], content)]
    case Dir(_) => [DirAt(path + [e.name])]
    case _ => []
  }

  // One directory's own entries, in the given order.
  function Level(path: Path, s: seq<Entry>): seq<Fact> {
    if s == [] then [] else Level(path, s[..|s| - 1]) + EntryListing(path, s[|s| - 1])
  }

  function SubDirs(s: seq<Entry>): (r: seq<Entry>)
    ensures forall i :: 0 <= i < |r| ==> r[i].node.Dir?
    ensures Weight(r) <= Weight(s)
  {
    if s == [] then []
    else
      var front, e := SubDirs(s[..|s| - 1]), s[|s| - 1];
      if e.node.Dir? then assert (front + [e])[..|front|] == front; front + [e] else front
  }

  /** What the walk visits from one directory: its entries by name, then its
      subdirectories from the last name to the first. */
  function Listing(path: Path, es: seq<Entry>): seq<Fact>
    decreases Weight(es), 1
  {
    var s := ByName(es);
    Level(path, s) + Subtrees(path, SubDirs(s))
  }

  function Subtrees(path: Path, ds: seq<Entry>): seq<Fact>
    requires forall i :: 0 <= i < |ds| ==> ds[i].node.Dir?
    decreases Weight(ds), 0
  {
    if ds == [] then []
    else
      var d := ds[|ds| - 1];
      Listing(path + [d.name], d.node.entries) + Subtrees(path, ds[..|ds| - 1])
  }

  lemma {:induction false} ListingMembers(path: Path, es: seq<Entry>, f: Fact)
    ensures f in Listing(path, es) <==> f in Facts(path, es)
    decreases Weight(es), 1, 0
  {
    FactsIgnoreOrder(path, es, ByName(es));
    SortedMembers(path, ByName(es), f);
  }

  lemma {:induction false} SortedMembers(path: Path, s: seq<Entry>, f: Fact)
    ensures f in Level(path, s) + Subtrees(path, SubDirs(s)) <==> f in Facts(path, s)
    decreases Weight(s), 0, |s|
  {
    if s != [] {
      var front, e := s[..|s| - 1], s[|s| - 1];
      SortedMembers(path, front, f);
      if e.node.Dir? {
        ListingMembers(path + [e.name], e.node.entries, f);
        assert SubDirs(s)[..|SubDirs(s)| - 1] == SubDirs(front);
      }
    }
  }

  /** The order in which any walk visits paths: a shorter path first; siblings by name;
      but everything inside a later sibling before everything inside an earlier one. */
  predicate Before(p: Path, q: Path) {
    if p == [] then q != []
    else if q == [] then false
    else if p[0] == q[0] then Before(p[1..], q[1..])
    else if |p| == 1 then |q| > 1 || LexLe(p[0], q[0])
    else |q| > 1 && LexLe(q[0], p[0])
  }

  predicate FactBefore(f: Fact, g: Fact) { Before(f.path, g.path) }

  lemma {:induction false} BeforeAsymmetric(p: Path, q: Path)
    requires Before(p, q)
    ensures !Before(q, p)
  {
    if p != [] && p[0] == q[0] {
      BeforeAsymmetric(p[1..], q[1..]);
    } else if p != [] {
      if LexLe(p[0], q[0]) && LexLe(q[0], p[0]) { LexAntisymmetric(p[0], q[0]); }
    }
  }

  lemma {:induction false} BeforePrefix(c: Path, p: Path, q: Path)
    ensures Before(c + p, c + q) == Before(p, q)
  {
    if c == [] {
      assert c + p == p && c + q == q;
    } else {
      BeforePrefix(c[1..], p, q);
      assert (c + p)[1..] == c[1..] + p && (c + q)[1..] == c[1..] + q;
    }
  }

  // Comparing two paths below the same directory.
  lemma {:induction false} BeforeBelow(path: Path, p: Path, q: Path)
    requires |p| > |path| && |q| > |path| && p[..|path|] == path && q[..|path|] == path
    requires p[|path|] != q[|path|]
    ensures Before(p, q) <==>
            if |p| == |path| + 1 then |q| > |path| + 1 || LexLe(p[|path|], q[|path|])
            else |q| > |path| + 1 && LexLe(q[|path|], p[|path|])
  {
    assert p == path + p[|path|..] && q == path + q[|path|..];
    BeforePrefix(path, p[|path|..], q[|path|..]);
  }

  // Sorted by name and without repeated names.
  predicate Ascending(s: seq<Entry>) {
    forall i, j :: 0 <= i < j < |s| ==> s[i].name != s[j].name && LexLe(s[i].name, s[j].name)
  }

  predicate AllWellFormed(s: seq<Entry>) {
    forall i :: 0 <= i < |s| && s[i].node.Dir? ==> WellFormed(s[i].node.entries)
  }

  lemma {:induction false} ByNameAscending(es: seq<Entry>)
    requires WellFormed(es)
    ensures Ascending(ByName(es)) && AllWellFormed(ByName(es))
    ensures forall e :: e in ByName(es) <==> e in es
  {
    NameLePreorder();
    SortSorted(es, NameLe);
    DistinctKeys(es, ByName(es), NameOf);
    SameElements(es, ByName(es));
    assert forall i :: 0 <= i < |ByName(es)| ==> ByName(es)[i] in es;
  }

  lemma {:induction false} LevelPaths(path: Path, s: seq<Entry>, f: Fact)
    requires f in Level(path, s)
    ensures exists e :: e in s && f.path == path + [e.name]
  {
    var front, e := s[..|s| - 1], s[|s| - 1];
    assert e in s;
    if f in Level(path, front) { LevelPaths(path, front, f); }
  }

  lemma {:induction false} ListingBelow(path: Path, name: Bytes, es: seq<Entry>, f: Fact)
    requires f in Listing(path + [name], es)
    ensures |f.path| > |path| + 1 && f.path[..|path|] == path && f.path[|path|] == name
  {
    ListingMembers(path + [name], es, f);
    FactPath(path + [name], es, f);
    assert f.path[..|path| + 1][..|path|] == path && f.path[..|path| + 1][|path|] == name;
  }

  lemma {:induction false} SubtreePaths(path: Path, ds: seq<Entry>, f: Fact)
    requires forall i :: 0 <= i < |ds| ==> ds[i].node.Dir?
    requires f in Subtrees(path, ds)
    ensures |f.path| > |path| + 1 && f.path[..|path|] == path
    ensures exists d :: d in ds && d.name == f.path[|path|]
  {
    var d := ds[|ds| - 1];
    assert d in ds;
    if f in Listing(path + [d.name], d.node.entries) {
      ListingBelow(path, d.name, d.node.entries, f);
    } else {
      SubtreePaths(path, ds[..|ds| - 1], f);
    }
  }

  lemma {:induction false} LevelOrdered(path: Path, s: seq<Entry>)
    requires Ascending(s)
    ensures SortedBy(Level(path, s), FactBefore)
  {
    if s != [] {
      var front, e := s[..|s| - 1], s[|s| - 1];
      LevelOrdered(path, front);
      forall x, y | x in Level(path, front) && y in EntryListing(path, e) ensures FactBefore(x, y) {
        LevelPaths(path, front, x);
        BeforeBelow(path, x.path, y.path);
      }
      SortedConcat(Level(path, front), EntryListing(path, e), FactBefore);
    }
  }

  lemma {:induction false} SubDirsAscending(s: seq<Entry>)
    requires Ascending(s) && AllWellFormed(s)
    ensures Ascending(SubDirs(s)) && AllWellFormed(SubDirs(s))
    ensures forall d :: d in SubDirs(s) ==> d in s
  {
    if s != [] {
      var front := s[..|s| - 1];
      SubDirsAscending(front);
      forall i | 0 <= i < |SubDirs(front)|
        ensures exists k :: 0 <= k < |s| - 1 && s[k] == SubDirs(front)[i]
      {
        assert SubDirs(front)[i] in front;
      }
    }
  }

  lemma {:induction false} SubtreesOrdered(path: Path, ds: seq<Entry>)
    requires forall i :: 0 <= i < |ds| ==> ds[i].node.Dir?
    requires Ascending(ds) && AllWellFormed(ds)
    ensures SortedBy(Subtrees(path, ds), FactBefore)
    decreases Weight(ds), 0
  {
    if ds != [] {
      var d, front := ds[|ds| - 1], ds[..|ds| - 1];
      var below := path + [d.name];
      ListingOrdered(below, d.node.entries);
      SubtreesOrdered(path, front);
      forall x, y | x in Listing(below, d.node.entries) && y in Subtrees(path, front) ensures FactBefore(x, y) {
        ListingBelow(path, d.name, d.node.entries, x);
        SubtreePaths(path, front, y);
        BeforeBelow(path, x.path, y.path);
      }
      SortedConcat(Listing(below, d.node.entries), Subtrees(path, front), FactBefore);
    }
  }

  // A directory's own entries come before what lies deeper.
  lemma {:induction false} LevelBeforeSubtrees(path: Path, s: seq<Entry>, ds: seq<Entry>, x: Fact, y: Fact)
    requires forall i :: 0 <= i < |ds| ==> ds[i].node.Dir?
    requires x in Level(path, s) && y in Subtrees(path, ds)
    ensures FactBefore(x, y)
  {
    hide Level, Subtrees;
    LevelPaths(path, s, x);
    SubtreePaths(path, ds, y);
    if x.path[|path|] == y.path[|path|] {
      assert x.path == path + [x.path[|path|]];
      assert y.path == path + y.path[|path|..];
      BeforePrefix(path, [x.path[|path|]], y.path[|path|..]);
    } else {
      BeforeBelow(path, x.path, y.path);
    }
  }

  /** The walk visits a well-formed tree in the order that depends on paths alone. */
  lemma {:induction false} ListingOrdered(path: Path, es: seq<Entry>)
    requires WellFormed(es)
    ensures SortedBy(Listing(path, es), FactBefore)
    decreases Weight(es), 1
  {
    hide WellFormed, Level, Subtrees;
    ByNameAscending(es);
    var s := ByName(es);
    LevelOrdered(path, s);
    SubDirsAscending(s);
    SubtreesOrdered(path, SubDirs(s));
    forall x, y | x in Level(path, s) && y in Subtrees(path, SubDirs(s)) ensures FactBefore(x, y) {
      LevelBeforeSubtrees(path, s, SubDirs(s), x, y);
    }
    SortedConcat(Level(path, s), Subtrees(path, SubDirs(s)), FactBefore);
  }

  /** Trees with the same reviewed content are visited identically, whatever the listing
      orders and special files. */
  lemma {:induction false} ListingDetermined(xs: seq<Entry>, ys: seq<Entry>)
    requires WellFormed(xs) && WellFormed(ys)
    ensures Listing([], xs) == Listing([], ys) <==> Facts([], xs) == Facts([], ys)
  {
    forall f ensures f in Listing([], xs) <==> f in Facts([], xs) { ListingMembers([], xs, f); }
    forall f ensures f in Listing([], ys) <==> f in Facts([], ys) { ListingMembers([], ys, f); }
    if Facts([], xs) == Facts([], ys) {
      ListingOrdered([], xs);
      ListingOrdered([], ys);
      forall f, g | FactBefore(f, g) ensures !FactBefore(g, f) { BeforeAsymmetric(f.path, g.path); }
      OrderedListingUnique(Listing([], xs), Listing([], ys), FactBefore);
    }
  }
}
