/** The digest code itself: a hasher, the explicit-stack walk over the bundle, and the
    two digest functions, proved to feed the streams of ReviewStream. */
module ReviewWalk {
  import opened Options
  import opened ByteStrings
  import opened Sorting
  import opened ReviewEncoding
  import opened PublicTree
  import opened ReviewStream
  import opened Utf8Text
  import Splitting

  /** The SHA-256 state: a digest is a function of the bytes fed so far. */
  class Hasher {
    var fed: Bytes

    constructor ()
      ensures fed == []
    {
      fed := [];
    }

    method Update(chunk: Bytes)
      modifies this
      ensures fed == old(fed) + chunk
    {
      fed := fed + chunk;
    }

    method HashField(heading: string, value: Bytes)
      requires IsAscii(heading)
      modifies this
      ensures fed == old(fed) + Field(Ascii(heading), value)
    {
      Update(Be64(|heading|));
      Update(Ascii(heading));
      Update(Be64(|value|));
      Update(value);
    }

    // Reads of any size between one byte and the buffer, until the file is exhausted; any of them,
    // or opening the file, may fail.
    method HashFile(disk: Disk, content: Bytes) returns (ok: bool)
      modifies this, disk
      ensures ok ==> fed == old(fed) + (Field(Ascii("file_size"), Be64(|content|)) + content)
      ensures disk.Sound() ==> ok
    {
      ok := disk.Access();
      if !ok { return; }
      HashField("file_size", Be64(|content|));
      ghost var before := fed;
      var read := 0;
      while read < |content|
        invariant 0 <= read <= |content|
        invariant fed == before + content[..read]
      {
        ok := disk.Access();
        if !ok { return; }
        var n :| 1 <= n <= 0x1_0000 && read + n <= |content|;
        Update(content[read..read + n]);
        read := read + n;
      }
      assert content[..read] == content;
      ok := disk.Access();
    }
  }

  /** The disk the bundle is on: accesses of an unchanging tree, any of which may fail. */
  class Disk {
    const fails: nat -> bool
    var accesses: nat

    constructor (fails: nat -> bool)
      ensures this.fails == fails
    {
      this.fails, accesses := fails, 0;
    }

    ghost predicate Sound() { forall n :: !fails(n) }

    method Access() returns (ok: bool)
      modifies this
      ensures Sound() ==> ok
    {
      ok := !fails(accesses);
      accesses := accesses + 1;
    }
  }

  datatype Outcome = Done | IoError | Invalid

  // No symlink anywhere, and every relative path is UTF-8 text.
  predicate Acceptable(path: Path, e: Entry) { Utf8(Rel(path + [e.name])) && !e.node.Symlink? }

  predicate Clean(path: Path, es: seq<Entry>)
    decreases es
  {
    forall i :: 0 <= i < |es| ==>
      Acceptable(path, es[i]) && (es[i].node.Dir? ==> Clean(path + [es[i].name], es[i].node.entries))
  }

  // ---------------------------------------------------------------------------
  // Which trees are clean

  // The tree has this node at this path, at whatever depth.
  ghost predicate Holds(es: seq<Entry>, p: Path, n: Node)
    decreases |p|, 0
  {
    exists i :: 0 <= i < |es| && p != [] && es[i].name == p[0] && LeadsTo(es[i].node, p[1..], n)
  }

  // What is left of the path leads from m to n.
  ghost predicate LeadsTo(m: Node, p: Path, n: Node)
    decreases |p|, 1
  {
    if p == [] then m == n else m.Dir? && Holds(m.entries, p, n)
  }

  lemma {:induction false} RelJoin(p: Path)
    ensures Rel(p) == Splitting.Join(p, 47)
  {
    if |p| > 1 { RelJoin(p[1..]); }
  }

  lemma {:induction false} CleanBelow(path: Path, es: seq<Entry>, p: Path, n: Node)
    requires Clean(path, es) && Holds(es, p, n)
    ensures Utf8(Rel(path + p)) && !n.Symlink?
    decreases |p|
  {
    hide Utf8, Rel;
    var i :| 0 <= i < |es| && es[i].name == p[0] && LeadsTo(es[i].node, p[1..], n);
    if |p| == 1 {
      assert p == [es[i].name];
    } else {
      CleanBelow(path + [p[0]], es[i].node.entries, p[1..], n);
      assert path + [p[0]] + p[1..] == path + p;
    }
  }

  // A tree that is not clean has an offending node somewhere.
  lemma {:induction false} Offender(path: Path, es: seq<Entry>) returns (p: Path, n: Node)
    requires !Clean(path, es)
    ensures Holds(es, p, n) && (!Utf8(Rel(path + p)) || n.Symlink?)
    decreases es
  {
    hide Utf8, Rel;
    var i :| 0 <= i < |es| &&
      !(Acceptable(path, es[i]) && (es[i].node.Dir? ==> Clean(path + [es[i].name], es[i].node.entries)));
    if !Acceptable(path, es[i]) {
      p, n := [es[i].name], es[i].node;
      assert p[1..] == [] && LeadsTo(es[i].node, p[1..], n);
    } else {
      var q;
      q, n := Offender(path + [es[i].name], es[i].node.entries);
      p := [es[i].name] + q;
      assert p[1..] == q && path + [es[i].name] + q == path + p;
      assert LeadsTo(es[i].node, p[1..], n);
    }
  }

  // No symlink anywhere, and every slash-joined path is text.
  ghost predicate Digestible(es: seq<Entry>) {
    forall p, n :: Holds(es, p, n) ==> !n.Symlink? && IsText(Splitting.Join(p, 47))
  }

  /** A bundle is digested, refused or not readable: it is digested exactly when no node at any depth
      is a symlink and every slash-joined path encodes a sequence of Unicode scalar values. */
  lemma {:induction false} VerdictIff(root: Option<seq<Entry>>)
    ensures Verdict(root).IoError? <==> root.None?
    ensures Verdict(root).Done? <==> root.Some? && Digestible(root.value)
  {
    hide Clean, Holds, Utf8, Rel, IsText;
    if root.Some? {
      var es := root.value;
      if Clean([], es) {
        forall p, n | Holds(es, p, n) ensures !n.Symlink? && IsText(Splitting.Join(p, 47)) {
          CleanBelow([], es, p, n);
          assert [] + p == p;
          RelJoin(p);
          Utf8Iff(Rel(p));
        }
      } else {
        var p, n := Offender([], es);
        assert [] + p == p;
        RelJoin(p);
        Utf8Iff(Rel(p));
        assert n.Symlink? || !IsText(Splitting.Join(p, 47));
        assert !Digestible(es);
      }
    }
  }

  datatype Frame = Frame(path: Path, entries: seq<Entry>)

  ghost function Frames(path: Path, ds: seq<Entry>): seq<Frame>
    requires forall i :: 0 <= i < |ds| ==> ds[i].node.Dir?
  {
    seq(|ds|, i requires 0 <= i < |ds| => Frame(path + [ds[i].name], ds[i].node.entries))
  }

  // What popping the whole stack will still visit.
  ghost function Drain(stack: seq<Frame>): seq<Fact> {
    if stack == [] then []
    else var f := stack[|stack| - 1]; Listing(f.path, f.entries) + Drain(stack[..|stack| - 1])
  }

  ghost function StackWeight(stack: seq<Frame>): nat {
    if stack == [] then 0 else StackWeight(stack[..|stack| - 1]) + 1 + Weight(stack[|stack| - 1].entries)
  }

  // One frame more on the stack.
  lemma {:induction false} PushOne(stack: seq<Frame>, f: Frame)
    ensures Drain(stack + [f]) == Listing(f.path, f.entries) + Drain(stack)
    ensures StackWeight(stack + [f]) == StackWeight(stack) + 1 + Weight(f.entries)
  {
    hide Listing, Weight;
    assert (stack + [f])[..|stack|] == stack;
  }

  lemma {:induction false} FramesOneMore(path: Path, ds: seq<Entry>)
    requires ds != [] && forall i :: 0 <= i < |ds| ==> ds[i].node.Dir?
    ensures var d, front := ds[|ds| - 1], ds[..|ds| - 1];
      && Frames(path, ds) == Frames(path, front) + [Frame(path + [d.name], d.node.entries)]
      && Subtrees(path, ds) == Listing(path + [d.name], d.node.entries) + Subtrees(path, front)
      && Weight(ds) == Weight(front) + 1 + Weight(d.node.entries)
  {
    hide Listing;
  }

  lemma {:induction false} PushSubDirs(stack: seq<Frame>, path: Path, ds: seq<Entry>)
    requires forall i :: 0 <= i < |ds| ==> ds[i].node.Dir?
    ensures Drain(stack + Frames(path, ds)) == Subtrees(path, ds) + Drain(stack)
    ensures StackWeight(stack + Frames(path, ds)) == StackWeight(stack) + Weight(ds)
  {
    hide Listing, Drain, StackWeight;
    if ds == [] {
      assert stack + Frames(path, ds) == stack;
    } else {
      hide Subtrees, Weight, Frames;
      var d, front := ds[|ds| - 1], ds[..|ds| - 1];
      var full, frame := stack + Frames(path, front), Frame(path + [d.name], d.node.entries);
      FramesOneMore(path, ds);
      PushSubDirs(stack, path, front);
      PushOne(full, frame);
      assert stack + Frames(path, ds) == full + [frame];
    }
  }

  ghost predicate AllClean(stack: seq<Frame>) {
    forall i :: 0 <= i < |stack| ==> Clean(stack[i].path, stack[i].entries)
  }

  predicate LevelAcceptable(path: Path, s: seq<Entry>) { forall i :: 0 <= i < |s| ==> Acceptable(path, s[i]) }

  lemma {:induction false} CleanLevel(path: Path, s: seq<Entry>)
    requires LevelAcceptable(path, s)
    ensures Clean(path, s) <==> AllClean(Frames(path, SubDirs(s)))
  {
    hide Weight, Acceptable;
    if s != [] {
      var front, e := s[..|s| - 1], s[|s| - 1];
      CleanLevel(path, front);
      assert Clean(path, s) <==> Clean(path, front) && (e.node.Dir? ==> Clean(path + [e.name], e.node.entries));
      var above := Frames(path, SubDirs(front));
      if e.node.Dir? {
        var frame := Frame(path + [e.name], e.node.entries);
        assert AllClean([frame]) <==> Clean([frame][0].path, [frame][0].entries);
        AllCleanConcat(above, [frame]);
        assert Frames(path, SubDirs(s)) == above + [frame];
      }
    }
  }

  lemma {:induction false} AllCleanConcat(a: seq<Frame>, b: seq<Frame>)
    ensures AllClean(a + b) <==> AllClean(a) && AllClean(b)
  {
    assert forall i :: 0 <= i < |a| ==> (a + b)[i] == a[i];
    assert forall i :: 0 <= i < |b| ==> (a + b)[|a| + i] == b[i];
  }

  lemma {:induction false} CleanIgnoresOrder(path: Path, xs: seq<Entry>, ys: seq<Entry>)
    requires multiset(xs) == multiset(ys)
    ensures Clean(path, xs) ==> Clean(path, ys)
  {
    SameElements(xs, ys);
    if Clean(path, xs) {
      forall i | 0 <= i < |ys|
        ensures Acceptable(path, ys[i]) && (ys[i].node.Dir? ==> Clean(path + [ys[i].name], ys[i].node.entries))
      {
        assert ys[i] in xs;
      }
    }
  }

  lemma {:induction false} ItemsConcat(a: seq<Fact>, b: seq<Fact>)
    ensures PrintAll(Items(a + b)) == PrintAll(Items(a)) + PrintAll(Items(b))
  {
    assert Items(a + b) == Items(a) + Items(b);
    FlatMapConcat(Print, Items(a), Items(b));
  }

  lemma {:induction false} PrintOne(f: Fact)
    ensures PrintAll(Items([f])) == Print(ItemOf(f))
  {
    assert Items([f]) == [ItemOf(f)];
    FlatMapOne(Print, ItemOf(f));
  }

  /** Feeds one entry: the body of the walk's inner loop for an entry that is accepted. */
  method HashEntry(hasher: Hasher, disk: Disk, path: Path, e: Entry) returns (ok: bool)
    requires Acceptable(path, e)
    modifies hasher, disk
    ensures ok ==> hasher.fed == old(hasher.fed) + PrintAll(Items(EntryListing(path, e)))
    ensures disk.Sound() ==> ok
  {
    hide Field, PrintAll, Rel;
    ok := true;
    var relative := Rel(path + [e.name]);
    match e.node {
      case Dir(_) =>
        hasher.HashField("dir", relative);
        PrintOne(DirAt(path + [e.name]));
      case File(content) =>
        hasher.HashField("file", relative);
        ok := hasher.HashFile(disk, content);
        PrintOne(FileAt(path + [e.name], content));
        assert ok ==> hasher.fed == old(hasher.fed) + Print(FileItem(relative, content));
      case _ =>
        PrintNothing();
    }
  }

  lemma {:induction false} PrintNothing()
    ensures PrintAll(Items([])) == []
  {}

  // One more entry of a directory, in the order of the inner loop.
  lemma {:induction false} LevelStep(path: Path, s: seq<Entry>, i: nat)
    requires i < |s|
    ensures Level(path, s[..i + 1]) == Level(path, s[..i]) + EntryListing(path, s[i])
  {
    assert s[..i + 1][..i] == s[..i];
  }

  lemma {:induction false} FramesStep(path: Path, s: seq<Entry>, i: nat)
    requires i < |s|
    ensures Frames(path, SubDirs(s[..i + 1]))
         == Frames(path, SubDirs(s[..i])) + if s[i].node.Dir? then [Frame(path + [s[i].name], s[i].node.entries)] else []
  {
    hide Weight;
    assert s[..i + 1][..i] == s[..i];
    var front := SubDirs(s[..i]);
    assert SubDirs(s[..i + 1]) == front + if s[i].node.Dir? then [s[i]] else [];
  }

  /** One directory popped from the stack: its entries are fed by name and its
      subdirectories are pushed, unless an entry is refused. */
  method HashDirectory(hasher: Hasher, disk: Disk, path: Path, es: seq<Entry>, below: seq<Frame>)
    returns (r: Outcome, stack: seq<Frame>)
    modifies hasher, disk
    ensures r.Invalid? ==> !Clean(path, es)
    ensures r.IoError? ==> !disk.Sound()
    ensures r.Done? ==> hasher.fed == old(hasher.fed) + PrintAll(Items(Level(path, ByName(es))))
    ensures r.Done? ==> stack == below + Frames(path, SubDirs(ByName(es))) && LevelAcceptable(path, ByName(es))
  {
    hide PrintAll, Items, Weight, Acceptable, ByName, Level, SubDirs, EntryListing;
    var s := ByName(es);
    stack := below;
    var ok := disk.Access();
    if !ok { return IoError, stack; }
    assert Level(path, s[..0]) == [] && SubDirs(s[..0]) == [] by { StartOfLevel(path, s); }
    PrintNothing();
    for i := 0 to |s|
      invariant LevelAcceptable(path, s[..i])
      invariant hasher.fed == old(hasher.fed) + PrintAll(Items(Level(path, s[..i])))
      invariant stack == below + Frames(path, SubDirs(s[..i]))
    {
      ok := disk.Access();
      if !ok { return IoError, stack; }
      if !Acceptable(path, s[i]) {
        CleanIgnoresOrder(path, es, s);
        return Invalid, stack;
      }
      ok := HashEntry(hasher, disk, path, s[i]);
      if !ok { return IoError, stack; }
      if s[i].node.Dir? {
        stack := stack + [Frame(path + [s[i].name], s[i].node.entries)];
      }
      LevelStep(path, s, i);
      FramesStep(path, s, i);
      ItemsConcat(Level(path, s[..i]), EntryListing(path, s[i]));
    }
    assert s[..|s|] == s;
    r := Done;
  }

  lemma {:induction false} StartOfLevel(path: Path, s: seq<Entry>)
    ensures Level(path, s[..0]) == [] && SubDirs(s[..0]) == []
  {}

  // Popping a directory and pushing its subdirectories leaves the same visit to do ...
  lemma {:induction false} PopAndPush(below: seq<Frame>, path: Path, es: seq<Entry>)
    ensures var stack, next := below + [Frame(path, es)], below + Frames(path, SubDirs(ByName(es)));
      && Drain(stack) == Level(path, ByName(es)) + Drain(next)
      && StackWeight(next) < StackWeight(stack)
  {
    hide Weight, Level, ByName, SubDirs;
    var stack := below + [Frame(path, es)];
    assert stack[..|stack| - 1] == below;
    PushSubDirs(below, path, SubDirs(ByName(es)));
    assert Drain(stack) == Listing(path, es) + Drain(below);
  }

  // ... and the same entries to accept.
  lemma {:induction false} PopAndPushClean(below: seq<Frame>, path: Path, es: seq<Entry>)
    requires LevelAcceptable(path, ByName(es))
    ensures AllClean(below + [Frame(path, es)]) <==> AllClean(below + Frames(path, SubDirs(ByName(es))))
  {
    hide Weight, ByName, SubDirs, Clean, LevelAcceptable;
    var s, frame := ByName(es), Frame(path, es);
    AllCleanConcat(below, [frame]);
    AllCleanConcat(below, Frames(path, SubDirs(s)));
    CleanIgnoresOrder(path, es, s);
    CleanIgnoresOrder(path, s, es);
    CleanLevel(path, s);
    assert AllClean([frame]) <==> Clean([frame][0].path, [frame][0].entries);
  }

  // The walk's invariant: what was visited and what the stack will visit make up the
  // tree's listing, and the tree is clean if what is on the stack is.
  ghost predicate Progress(es: seq<Entry>, done: seq<Fact>, stack: seq<Frame>) {
    done + Drain(stack) == Listing([], es) && (Clean([], es) <==> AllClean(stack))
  }

  lemma {:induction false} ProgressStep(all: seq<Entry>, done: seq<Fact>, below: seq<Frame>, path: Path, es: seq<Entry>)
    requires Progress(all, done, below + [Frame(path, es)]) && LevelAcceptable(path, ByName(es))
    ensures var next := below + Frames(path, SubDirs(ByName(es)));
      && Progress(all, done + Level(path, ByName(es)), next)
      && StackWeight(next) < StackWeight(below + [Frame(path, es)])
  {
    hide Listing, Level, ByName, Drain, AllClean, Clean, StackWeight, SubDirs, Frames, LevelAcceptable;
    PopAndPush(below, path, es);
    PopAndPushClean(below, path, es);
    var level, rest := Level(path, ByName(es)), Drain(below + Frames(path, SubDirs(ByName(es))));
    assert done + (level + rest) == done + level + rest;
  }

  // What becomes of a bundle when no access fails. A root is the listing that opening it as a
  // directory gives, which follows a symlink; None if that is not possible.
  ghost function Verdict(root: Option<seq<Entry>>): Outcome {
    if root.None? then IoError else if Clean([], root.value) then Done else Invalid
  }

  /** `hash_public_tree`: succeeds only on clean directories, and then has fed the tree's stream; it
      refuses only others; and it does so exactly, if no access fails. */
  method HashPublicTree(hasher: Hasher, disk: Disk, root: Option<seq<Entry>>) returns (r: Outcome)
    modifies hasher, disk
    ensures r == Verdict(root) || r.IoError?
    ensures disk.Sound() ==> r == Verdict(root)
    ensures r.Done? ==> hasher.fed == old(hasher.fed) + PrintAll(TreeItems(root.value))
  {
    hide *;
    VerdictOf(root);
    if root.None? { return IoError; }
    var entries := root.value;
    var stack := [Frame([], entries)];
    ghost var done: seq<Fact> := [];
    StartOfWalk(entries);
    PrintNothing();
    while stack != []
      invariant hasher.fed == old(hasher.fed) + PrintAll(Items(done))
      invariant Progress(entries, done, stack)
      decreases StackWeight(stack)
    {
      var Frame(path, es) := stack[|stack| - 1];
      var below := stack[..|stack| - 1];
      assert stack == below + [Frame(path, es)];
      var outcome, next := HashDirectory(hasher, disk, path, es, below);
      if outcome.Invalid? {
        NotAllClean(entries, done, stack);
        return Invalid;
      }
      if outcome.IoError? { return IoError; }
      ProgressStep(entries, done, below, path, es);
      ItemsConcat(done, Level(path, ByName(es)));
      done := done + Level(path, ByName(es));
      stack := next;
    }
    EndOfWalk(entries, done);
    r := Done;
  }

  lemma {:induction false} VerdictOf(root: Option<seq<Entry>>)
    ensures Verdict(root) == if root.None? then IoError else if Clean([], root.value) then Done else Invalid
  {}

  lemma {:induction false} StartOfWalk(es: seq<Entry>)
    ensures Progress(es, [], [Frame([], es)])
  {
    hide Listing;
    var stack := [Frame([], es)];
    assert stack[..0] == [];
    assert Drain(stack) == Listing(stack[0].path, stack[0].entries) + Drain([]);
    assert AllClean(stack) <==> Clean(stack[0].path, stack[0].entries);
  }

  lemma {:induction false} NotAllClean(es: seq<Entry>, done: seq<Fact>, stack: seq<Frame>)
    requires Progress(es, done, stack)
    requires stack != [] && !Clean(stack[|stack| - 1].path, stack[|stack| - 1].entries)
    ensures !Clean([], es)
  {}

  lemma {:induction false} EndOfWalk(es: seq<Entry>, done: seq<Fact>)
    requires Progress(es, done, [])
    ensures Clean([], es) && TreeItems(es) == Items(done)
  {
    assert done + [] == done;
  }

  /** `challenge_review_bundle_sha256_blocking`, up to the digest of the returned bytes. */
  method ReviewBundle(json: Proposal -> Bytes, m: Proposal, bundle: Option<seq<Entry>>, assets: seq<Asset>, fails: nat -> bool)
    returns (r: Outcome, stream: Bytes)
    ensures m.bundlePath.None? ==> r == Done
    ensures m.bundlePath.Some? ==> r == Verdict(bundle) || r.IoError?
    ensures m.bundlePath.Some? && (forall n :: !fails(n)) ==> r == Verdict(bundle)
    ensures r.Done? ==>
      stream == PrintAll(ReviewItems(json, m, if bundle.Some? then bundle.value else [], assets))
  {
    hide Field, PrintAll, Print, ReviewTag, TreeItems, ByAssetName, Clean;
    stream := [];
    var hasher := new Hasher();
    var disk := new Disk(fails);
    hasher.HashField("format", ReviewTag());
    hasher.HashField("manifest", json(m));
    ghost var head := Head(ReviewTag(), json(m));
    PrintHead(ReviewTag(), json(m));
    PrintNone();
    assert hasher.fed == PrintAll(head);
    ghost var tree := if bundle.Some? then bundle.value else [];
    if m.bundlePath.Some? {
      r := HashPublicTree(hasher, disk, bundle);
      if !r.Done? { return; }
    }
    ghost var front := head + BundleItems(m, tree);
    PrintConcat(head, BundleItems(m, tree));
    assert hasher.fed == PrintAll(front);
    var sorted := ByAssetName(assets);
    assert front + AssetItems(sorted[..0]) == front;
    for i := 0 to |sorted|
      invariant hasher.fed == PrintAll(front + AssetItems(sorted[..i]))
    {
      var a := sorted[i];
      ghost var before := front + AssetItems(sorted[..i]);
      HashAsset(hasher, a);
      assert front + AssetItems(sorted[..i + 1]) == before + [AssetItem(a)];
      PrintConcat(before, [AssetItem(a)]);
    }
    assert sorted[..|sorted|] == sorted;
    r, stream := Done, hasher.fed;
  }

  lemma {:induction false} PrintHead(tag: Bytes, manifest: Bytes)
    ensures PrintAll(Head(tag, manifest)) == Field(Ascii("format"), tag) + Field(Ascii("manifest"), manifest)
  {
    hide Field;
    assert Head(tag, manifest) == [Format(tag)] + [Manifest(manifest)];
    FlatMapConcat(Print, [Format(tag)], [Manifest(manifest)]);
    FlatMapOne(Print, Format(tag));
    FlatMapOne(Print, Manifest(manifest));
  }

  lemma {:induction false} PrintConcat(a: seq<Item>, b: seq<Item>)
    ensures PrintAll(a + b) == PrintAll(a) + PrintAll(b)
  {
    FlatMapConcat(Print, a, b);
  }

  lemma {:induction false} PrintNone()
    ensures PrintAll([]) == []
  {}

  method HashAsset(hasher: Hasher, a: Asset)
    modifies hasher
    ensures hasher.fed == old(hasher.fed) + PrintAll([AssetItem(a)])
  {
    hide Field, PrintAll, Hex, Be64, KindText, Ascii;
    hasher.HashField("asset_name", a.name);
    hasher.HashField("asset_kind", Ascii(KindText(a.kind)));
    hasher.HashField("asset_required", [if a.required then 1 else 0]);
    hasher.HashField("asset_size", Be64(a.size % U64));
    hasher.HashField("asset_sha256", Hex(a.sha256));
    PrintAsset(a);
  }

  lemma {:induction false} PrintAsset(a: Asset)
    ensures PrintAll([AssetItem(a)]) ==
      Field(Ascii("asset_name"), a.name) + Field(Ascii("asset_kind"), Ascii(KindText(a.kind)))
      + Field(Ascii("asset_required"), [if a.required then 1 else 0])
      + Field(Ascii("asset_size"), Be64(a.size % U64)) + Field(Ascii("asset_sha256"), Hex(a.sha256))
  {
    hide Field, Fields, Hex, Be64, KindText, Ascii;
    FourFields(AssetHeadings(), AssetValues(a));
    FlatMapOne(Print, AssetItem(a));
  }

  lemma {:induction false} FourFields(h: seq<Bytes>, v: seq<Bytes>)
    requires |h| == |v| == 4
    ensures Fields(h, v) == Field(h[0], v[0]) + Field(h[1], v[1]) + Field(h[2], v[2]) + Field(h[3], v[3])
  {
    hide Field;
    var h1, v1 := h[1..], v[1..];
    var h2, v2 := h1[1..], v1[1..];
    var h3, v3 := h2[1..], v2[1..];
    assert h3[1..] == [] && Fields(h3, v3) == Field(h[3], v[3]) + [];
    assert Fields(h2, v2) == Field(h[2], v[2]) + Fields(h3, v3);
    assert Fields(h1, v1) == Field(h[1], v[1]) + Fields(h2, v2);
  }

  /** `challenge_review_runtime_bundle_sha256_blocking`, up to the digest. */
  method ReviewRuntimeBundle(json: Proposal -> Bytes, m: Proposal, bundle: Option<seq<Entry>>, fails: nat -> bool)
    returns (r: Outcome, stream: Bytes)
    ensures r == Verdict(bundle) || r.IoError?
    ensures (forall n :: !fails(n)) ==> r == Verdict(bundle)
    ensures r.Done? ==> stream == PrintAll(RuntimeItems(json, m, bundle.value))
  {
    hide Field, PrintAll, Print, RuntimeTag, TreeItems, Clean;
    stream := [];
    var hasher := new Hasher();
    var disk := new Disk(fails);
    hasher.HashField("format", RuntimeTag());
    hasher.HashField("manifest", json(m));
    PrintHead(RuntimeTag(), json(m));
    r := HashPublicTree(hasher, disk, bundle);
    if r.Done? {
      PrintConcat(Head(RuntimeTag(), json(m)), TreeItems(bundle.value));
      stream := hasher.fed;
    }
  }
}
