/** The streams behind the review digest and the runtime-review digest: what they
    determine, and what they ignore. */
module ReviewStream {
  import opened Options
  import opened ByteStrings
  import opened Sorting
  import opened ReviewEncoding
  import opened PublicTree

  // ---------------------------------------------------------------------------
  // Relative paths

  // Components joined by slashes.
  function Rel(path: Path): Bytes {
    if path == [] then [] else if |path| == 1 then path[0] else path[0] + [SLASH] + Rel(path[1..])
  }

  predicate ValidPath(path: Path) { path != [] && forall k :: 0 <= k < |path| ==> ValidName(path[k]) }

  // The first component ends at the first slash, or at the end.
  lemma {:induction false} FirstComponent(p: Path, q: Path)
    requires ValidPath(p) && ValidPath(q) && Rel(p) == Rel(q)
    ensures |p[0]| >= |q[0]|
  {
    assert |p| > 1 ==> |Rel(p)| > |p[0]| && Rel(p)[|p[0]|] == SLASH;
    assert forall i :: 0 <= i < |q[0]| ==> Rel(q)[i] == q[0][i] && q[0][i] in q[0];
  }

  lemma {:induction false} RelInjective(p: Path, q: Path)
    requires ValidPath(p) && ValidPath(q) && Rel(p) == Rel(q)
    ensures p == q
  {
    FirstComponent(p, q);
    FirstComponent(q, p);
    assert p[0] == Rel(p)[..|p[0]|] && q[0] == Rel(q)[..|q[0]|];
    if |p| > 1 && |q| > 1 {
      assert Rel(p)[|p[0]| + 1..] == Rel(p[1..]) && Rel(q)[|q[0]| + 1..] == Rel(q[1..]);
      RelInjective(p[1..], q[1..]);
    }
    assert p == [p[0]] + p[1..] && q == [q[0]] + q[1..];
  }

  // ---------------------------------------------------------------------------
  // The tree part of a stream

  function ItemOf(f: Fact): Item {
    match f
    case DirAt(path) => DirItem(Rel(path))
    case FileAt(path, content) => FileItem(Rel(path), content)
  }

  function Items(fs: seq<Fact>): (r: seq<Item>)
    ensures |r| == |fs| && forall i :: 0 <= i < |fs| ==> r[i] == ItemOf(fs[i])
  {
    seq(|fs|, i requires 0 <= i < |fs| => ItemOf(fs[i]))
  }

  predicate FromTree(items: seq<Item>) { forall i :: 0 <= i < |items| ==> items[i].DirItem? || items[i].FileItem? }

  function TreeItems(es: seq<Entry>): (r: seq<Item>)
    ensures FromTree(r)
  {
    Items(Listing([], es))
  }

  // Every path and file is short enough for a 64-bit length.
  ghost predicate TreeFits(es: seq<Entry>) { forall f :: f in Facts([], es) ==> Fits(ItemOf(f)) }

  lemma {:induction false} TreeItemsFit(es: seq<Entry>)
    requires WellFormed(es) && TreeFits(es)
    ensures AllFit(TreeItems(es))
    ensures forall i :: 0 <= i < |Listing([], es)| ==> ValidPath(Listing([], es)[i].path)
  {
    var fs := Listing([], es);
    forall i | 0 <= i < |fs| ensures Fits(ItemOf(fs[i])) && ValidPath(fs[i].path) {
      ListingMembers([], es, fs[i]);
      FactPath([], es, fs[i]);
    }
  }

  lemma {:induction false} TreeItemsDetermine(xs: seq<Entry>, ys: seq<Entry>)
    requires WellFormed(xs) && TreeFits(xs) && WellFormed(ys) && TreeFits(ys)
    ensures TreeItems(xs) == TreeItems(ys) <==> Facts([], xs) == Facts([], ys)
  {
    ListingDetermined(xs, ys);
    if TreeItems(xs) == TreeItems(ys) {
      var fs, gs := Listing([], xs), Listing([], ys);
      TreeItemsFit(xs);
      TreeItemsFit(ys);
      assert |TreeItems(xs)| == |fs| && |TreeItems(ys)| == |gs|;
      forall i | 0 <= i < |fs| ensures fs[i] == gs[i] {
        assert ItemOf(fs[i]) == TreeItems(xs)[i] == TreeItems(ys)[i] == ItemOf(gs[i]);
        RelInjective(fs[i].path, gs[i].path);
      }
      assert fs == gs;
    }
  }

  /** The bytes fed for a tree decode to exactly its reviewed content: equal streams mean
      equal trees, and conversely. */
  lemma {:induction false} TreeStreamDetermines(xs: seq<Entry>, ys: seq<Entry>)
    requires WellFormed(xs) && TreeFits(xs) && WellFormed(ys) && TreeFits(ys)
    ensures PrintAll(TreeItems(xs)) == PrintAll(TreeItems(ys)) <==> SameTree(xs, ys)
  {
    SameFactsIff([], xs, ys);
    TreeItemsFit(xs);
    TreeItemsFit(ys);
    TreeItemsDetermine(xs, ys);
    if PrintAll(TreeItems(xs)) == PrintAll(TreeItems(ys)) {
      PrintAllInjective(TreeItems(xs), TreeItems(ys));
    }
  }

  // ---------------------------------------------------------------------------
  // Whole streams

  // The manifest as far as the digest code looks into it.
  datatype Proposal = Proposal(bundlePath: Option<Bytes>, otherFields: Bytes)

  ghost predicate Injective(json: Proposal -> Bytes) { forall m, n :: json(m) == json(n) ==> m == n }

  function ReviewTag(): Bytes { Ascii("agentics-review_record-review-v1") }
  function RuntimeTag(): Bytes { Ascii("agentics-review_record-runtime-review-v1") }

  predicate AssetLe(a: Asset, b: Asset) { LexLe(a.name, b.name) }

  function ByAssetName(assets: seq<Asset>): (r: seq<Asset>)
    ensures multiset(r) == multiset(assets)
  {
    Sort(assets, AssetLe)
  }

  function AssetItems(assets: seq<Asset>): (r: seq<Item>)
    ensures |r| == |assets| && forall i :: 0 <= i < |r| ==> r[i] == AssetItem(assets[i])
  {
    seq(|assets|, i requires 0 <= i < |assets| => AssetItem(assets[i]))
  }

  function Head(tag: Bytes, manifest: Bytes): seq<Item> { [Format(tag), Manifest(manifest)] }

  function BundleItems(m: Proposal, tree: seq<Entry>): seq<Item> {
    if m.bundlePath.Some? then TreeItems(tree) else []
  }

  function ReviewItems(json: Proposal -> Bytes, m: Proposal, tree: seq<Entry>, assets: seq<Asset>): seq<Item> {
    Head(ReviewTag(), json(m)) + BundleItems(m, tree) + AssetItems(ByAssetName(assets))
  }

  function RuntimeItems(json: Proposal -> Bytes, m: Proposal, tree: seq<Entry>): seq<Item> {
    Head(RuntimeTag(), json(m)) + TreeItems(tree)
  }

  // The inputs are within the sizes that 64-bit lengths and the Rust types allow.
  ghost predicate InputsFit(json: Proposal -> Bytes, m: Proposal, tree: seq<Entry>, assets: seq<Asset>) {
    && |json(m)| < U64
    && WellFormed(tree) && TreeFits(tree)
    && forall i :: 0 <= i < |assets| ==> AssetFits(assets[i])
  }

  lemma {:induction false} ReviewItemsFit(json: Proposal -> Bytes, m: Proposal, tree: seq<Entry>, assets: seq<Asset>)
    requires InputsFit(json, m, tree, assets)
    ensures AllFit(ReviewItems(json, m, tree, assets)) && AllFit(RuntimeItems(json, m, tree))
  {
    hide TreeItems, ByAssetName;
    TreeItemsFit(tree);
    var sorted := ByAssetName(assets);
    SameElements(assets, sorted);
    forall i | 0 <= i < |sorted| ensures Fits(AssetItems(sorted)[i]) {
      assert sorted[i] in assets;
    }
    FitConcat(Head(ReviewTag(), json(m)), BundleItems(m, tree));
    FitConcat(Head(ReviewTag(), json(m)) + BundleItems(m, tree), AssetItems(sorted));
    FitConcat(Head(RuntimeTag(), json(m)), TreeItems(tree));
  }

  lemma {:induction false} FitConcat(a: seq<Item>, b: seq<Item>)
    requires AllFit(a) && AllFit(b)
    ensures AllFit(a + b)
  {}

  // A tree part followed by an asset part can be cut in one place only.
  lemma {:induction false} OneCut(s: seq<Item>, a: seq<Asset>, t: seq<Item>, b: seq<Asset>)
    requires FromTree(s) && FromTree(t)
    requires s + AssetItems(a) == t + AssetItems(b)
    ensures s == t && a == b
  {
    var u := s + AssetItems(a);
    assert |s| < |u| ==> u[|s|].AssetItem?;
    assert |t| < |u| ==> u[|t|].AssetItem?;
    assert forall i :: 0 <= i < |s| ==> u[i] == s[i];
    assert forall i :: 0 <= i < |t| ==> u[i] == t[i];
    assert |s| == |t|;
    forall i | 0 <= i < |a| ensures a[i] == b[i] {
      assert u[|s| + i] == AssetItem(a[i]) && u[|t| + i] == AssetItem(b[i]);
    }
  }

  /** A review stream determines the manifest, the reviewed tree (when the manifest has
      one) and the name-sorted assets, and depends on nothing else. */
  lemma {:induction false} ReviewStreamDetermines(json: Proposal -> Bytes,
                               m: Proposal, xs: seq<Entry>, a: seq<Asset>,
                               n: Proposal, ys: seq<Entry>, b: seq<Asset>)
    requires Injective(json) && InputsFit(json, m, xs, a) && InputsFit(json, n, ys, b)
    ensures PrintAll(ReviewItems(json, m, xs, a)) == PrintAll(ReviewItems(json, n, ys, b))
       <==> && m == n
            && (m.bundlePath.Some? ==> SameTree(xs, ys))
            && ByAssetName(a) == ByAssetName(b)
  {
    hide PrintAll, ReviewItems, TreeItems, BundleItems, ByAssetName, Facts, SameTree, TreeFits, WellFormed, AssetFits;
    SameFactsIff([], xs, ys);
    var s, t := ReviewItems(json, m, xs, a), ReviewItems(json, n, ys, b);
    ReviewItemsFit(json, m, xs, a);
    ReviewItemsFit(json, n, ys, b);
    TreeItemsDetermine(xs, ys);
    ReviewItemsDetermine(json, m, xs, a, n, ys, b);
    if PrintAll(s) == PrintAll(t) {
      PrintAllInjective(s, t);
    }
  }

  lemma {:induction false} ReviewItemsDetermine(json: Proposal -> Bytes,
                             m: Proposal, xs: seq<Entry>, a: seq<Asset>,
                             n: Proposal, ys: seq<Entry>, b: seq<Asset>)
    requires Injective(json)
    ensures ReviewItems(json, m, xs, a) == ReviewItems(json, n, ys, b)
       <==> && m == n
            && (m.bundlePath.Some? ==> TreeItems(xs) == TreeItems(ys))
            && ByAssetName(a) == ByAssetName(b)
  {
    hide ReviewTag, TreeItems, ByAssetName;
    var s, t := ReviewItems(json, m, xs, a), ReviewItems(json, n, ys, b);
    assert s[1] == Manifest(json(m)) && t[1] == Manifest(json(n));
    assert s[2..] == BundleItems(m, xs) + AssetItems(ByAssetName(a));
    assert t[2..] == BundleItems(n, ys) + AssetItems(ByAssetName(b));
    if s == t {
      OneCut(BundleItems(m, xs), ByAssetName(a), BundleItems(n, ys), ByAssetName(b));
    }
  }

  lemma {:induction false} RuntimeStreamDetermines(json: Proposal -> Bytes, m: Proposal, xs: seq<Entry>, n: Proposal, ys: seq<Entry>)
    requires Injective(json) && InputsFit(json, m, xs, []) && InputsFit(json, n, ys, [])
    ensures PrintAll(RuntimeItems(json, m, xs)) == PrintAll(RuntimeItems(json, n, ys))
       <==> m == n && SameTree(xs, ys)
  {
    hide Facts, SameTree, WellFormed, TreeFits;
    SameFactsIff([], xs, ys);
    var s, t := RuntimeItems(json, m, xs), RuntimeItems(json, n, ys);
    TreeItemsDetermine(xs, ys);
    ReviewItemsFit(json, m, xs, []);
    ReviewItemsFit(json, n, ys, []);
    if PrintAll(s) == PrintAll(t) {
      PrintAllInjective(s, t);
      assert s[1] == Manifest(json(m)) && t[1] == Manifest(json(n));
      assert s[2..] == TreeItems(xs) && t[2..] == TreeItems(ys);
    }
  }

  // The length of the format field's value is the eight bytes after its heading.
  lemma {:induction false} TagLength(tag: Bytes, more: seq<Item>)
    requires |tag| < U64
    ensures var s := PrintAll([Format(tag)] + more); |s| >= 22 && FromBigEndian(s[14..22]) == |tag|
  {
    var rest := PrintAll(more);
    assert ([Format(tag)] + more)[1..] == more;
    var s := Field(Ascii("format"), tag) + rest;
    assert PrintAll([Format(tag)] + more) == s;
    assert s[14..22] == Be64(|tag|);
    Be64RoundTrip(|tag|);
  }

  /** No inputs at all make the two kinds of stream coincide. */
  lemma {:induction false} ReviewNeverRuntime(json: Proposal -> Bytes, m: Proposal, xs: seq<Entry>, a: seq<Asset>,
                           n: Proposal, ys: seq<Entry>)
    ensures PrintAll(ReviewItems(json, m, xs, a)) != PrintAll(RuntimeItems(json, n, ys))
  {
    var s, t := ReviewItems(json, m, xs, a), RuntimeItems(json, n, ys);
    assert s == [Format(ReviewTag())] + s[1..] && t == [Format(RuntimeTag())] + t[1..];
    TagLength(ReviewTag(), s[1..]);
    TagLength(RuntimeTag(), t[1..]);
  }

  // ---------------------------------------------------------------------------
  // The order of assets

  // The assets of one name, in the order given.
  function Named(assets: seq<Asset>, name: Bytes): seq<Asset> {
    if assets == [] then []
    else (if assets[0].name == name then [assets[0]] else []) + Named(assets[1..], name)
  }

  lemma {:induction false} NamedIn(s: seq<Asset>, name: Bytes, x: Asset)
    ensures x in Named(s, name) <==> x in s && x.name == name
  {
    if s != [] { NamedIn(s[1..], name, x); }
  }

  lemma {:induction false} NamedFirst(x: Asset, s: seq<Asset>, name: Bytes)
    ensures Named([x] + s, name) == (if x.name == name then [x] else []) + Named(s, name)
  {
    assert ([x] + s)[1..] == s;
  }

  lemma {:induction false} InsertKeepsNamed(x: Asset, s: seq<Asset>, name: Bytes)
    ensures Named(Insert(x, s, AssetLe), name) == Named([x] + s, name)
  {
    hide Named;
    if s != [] && !AssetLe(x, s[0]) {
      var tail := s[1..];
      InsertKeepsNamed(x, tail, name);
      NamedFirst(s[0], Insert(x, tail, AssetLe), name);
      NamedFirst(x, tail, name);
      NamedFirst(s[0], tail, name);
      NamedFirst(x, s, name);
      assert s == [s[0]] + tail;
      assert x.name != s[0].name by { LexTotal(x.name, x.name); }
    }
  }

  // The sort is stable.
  lemma {:induction false} SortKeepsNamed(a: seq<Asset>, name: Bytes)
    ensures Named(ByAssetName(a), name) == Named(a, name)
  {
    if a != [] {
      SortKeepsNamed(a[1..], name);
      InsertKeepsNamed(a[0], ByAssetName(a[1..]), name);
      assert ([a[0]] + ByAssetName(a[1..]))[1..] == ByAssetName(a[1..]);
    }
  }

  lemma {:induction false} AssetPreorder()
    ensures Preorder(AssetLe)
  {
    forall x: Asset, y: Asset ensures AssetLe(x, y) || AssetLe(y, x) { LexTotal(x.name, y.name); }
    forall x: Asset, y: Asset, z: Asset | AssetLe(x, y) && AssetLe(y, z) ensures AssetLe(x, z) {
      LexTransitive(x.name, y.name, z.name);
    }
  }

  lemma {:induction false} FirstNamed(s: seq<Asset>)
    ensures s != [] ==> Named(s, s[0].name) != [] && Named(s, s[0].name)[0] == s[0]
  {}

  // The same assets in the same order under each name.
  ghost predicate SameNamed(a: seq<Asset>, b: seq<Asset>) { forall n: Bytes :: Named(a, n) == Named(b, n) }

  lemma {:induction false} SameFirst(s: seq<Asset>, t: seq<Asset>)
    requires SortedBy(s, AssetLe) && SortedBy(t, AssetLe) && SameNamed(s, t) && s != []
    ensures t != [] && AssetLe(t[0], s[0])
  {
    hide Named;
    FirstNamed(s);
    NamedIn(t, s[0].name, s[0]);
    LexTotal(s[0].name, s[0].name);
    assert s[0] in Named(t, s[0].name) by { assert Named(s, s[0].name) == Named(t, s[0].name); }
  }

  lemma {:induction false} SameRest(s: seq<Asset>, t: seq<Asset>)
    requires s != [] && t != [] && s[0] == t[0] && SameNamed(s, t)
    ensures SameNamed(s[1..], t[1..])
  {
    forall n: Bytes ensures Named(s[1..], n) == Named(t[1..], n) {
      var first: seq<Asset> := if s[0].name == n then [s[0]] else [];
      assert Named(s, n) == first + Named(s[1..], n) && Named(t, n) == first + Named(t[1..], n);
      assert Named(s, n)[|first|..] == Named(t, n)[|first|..];
    }
  }

  lemma {:induction false} SameSorted(s: seq<Asset>, t: seq<Asset>)
    requires SortedBy(s, AssetLe) && SortedBy(t, AssetLe) && SameNamed(s, t)
    ensures s == t
    decreases |s|
  {
    hide Named;
    if s != [] {
      SameFirst(s, t);
      SameFirst(t, s);
      LexAntisymmetric(s[0].name, t[0].name);
      FirstNamed(s);
      FirstNamed(t);
      assert Named(s, s[0].name) == Named(t, s[0].name);
      SameRest(s, t);
      SameSorted(s[1..], t[1..]);
      assert s == [s[0]] + s[1..] && t == [t[0]] + t[1..];
    } else if t != [] {
      SameFirst(t, s);
    }
  }

  lemma {:induction false} SortedSameNamed(a: seq<Asset>, b: seq<Asset>)
    ensures SameNamed(ByAssetName(a), ByAssetName(b)) <==> SameNamed(a, b)
  {
    hide Named;
    forall n: Bytes ensures Named(ByAssetName(a), n) == Named(a, n) { SortKeepsNamed(a, n); }
    forall n: Bytes ensures Named(ByAssetName(b), n) == Named(b, n) { SortKeepsNamed(b, n); }
  }

  /** Two asset lists are hashed alike exactly when they hold, under each name, the same assets
      in the same order. */
  lemma {:induction false} SortedAssetsIff(a: seq<Asset>, b: seq<Asset>)
    ensures ByAssetName(a) == ByAssetName(b) <==> SameNamed(a, b)
  {
    SortedSameNamed(a, b);
    AssetPreorder();
    SortSorted(a, AssetLe);
    SortSorted(b, AssetLe);
    if SameNamed(a, b) { SameSorted(ByAssetName(a), ByAssetName(b)); }
  }

  /** Assets are hashed in the order of their names. */
  lemma {:induction false} AssetsInOrder(a: seq<Asset>, i: nat, j: nat)
    requires i < j < |ByAssetName(a)|
    ensures LexLe(ByAssetName(a)[i].name, ByAssetName(a)[j].name)
  {
    hide LexLe;
    AssetPreorder();
    SortSorted(a, AssetLe);
  }

  // Any two assets of one name are the same asset.
  predicate NamesTellApart(a: seq<Asset>) {
    forall x, y :: x in a && y in a && x.name == y.name ==> x == y
  }

  // Then what is listed under a name is that asset, as often as it occurs.
  lemma {:induction false} NamedRepeats(a: seq<Asset>, x: Asset)
    requires forall y :: y in a && y.name == x.name ==> y == x
    ensures Named(a, x.name) == Copies(x, multiset(a)[x])
  {
    if a != [] {
      var first, rest := a[0], a[1..];
      assert first in a && forall y :: y in rest ==> y in a;
      NamedRepeats(rest, x);
      WithoutFirst(a);
      assert Named(a, x.name) == (if first.name == x.name then [first] else []) + Named(rest, x.name);
    }
  }

  function Copies(x: Asset, n: nat): seq<Asset> { if n == 0 then [] else [x] + Copies(x, n - 1) }

  lemma {:induction false} NamedPermuted(a: seq<Asset>, b: seq<Asset>, n: Bytes)
    requires multiset(a) == multiset(b) && NamesTellApart(a)
    ensures Named(a, n) == Named(b, n)
  {
    SameElements(a, b);
    if Named(a, n) != [] {
      var x := Named(a, n)[0];
      NamedIn(a, n, x);
      NamedRepeats(a, x);
      NamedRepeats(b, x);
    } else if Named(b, n) != [] {
      var x := Named(b, n)[0];
      NamedIn(b, n, x);
      NamedIn(a, n, x);
    }
  }

  // Two assets of a list, brought to the front in either order.
  lemma {:induction false} ToFront(a: seq<Asset>, x: Asset, y: Asset) returns (rest: seq<Asset>)
    requires x in a && y in a && x != y
    ensures multiset([x, y] + rest) == multiset(a) == multiset([y, x] + rest)
  {
    var front, back := TakeOut(a, x);
    var without := front + back;
    assert y in multiset(a);
    front, back := TakeOut(without, y);
    rest := front + back;
    assert [x, y] + rest == [x] + ([y] + rest) && [y, x] + rest == [y] + ([x] + rest);
  }

  /** The order in which assets are listed is irrelevant exactly when no two different assets
      share a name: the sort by name is stable, so otherwise the order of those two shows. */
  lemma {:induction false} AssetOrderIrrelevantIff(a: seq<Asset>)
    ensures (forall b | multiset(b) == multiset(a) :: ByAssetName(b) == ByAssetName(a)) <==> NamesTellApart(a)
  {
    hide ByAssetName, Named;
    if NamesTellApart(a) {
      forall b | multiset(b) == multiset(a) ensures ByAssetName(b) == ByAssetName(a) {
        forall n ensures Named(b, n) == Named(a, n) { NamedPermuted(a, b, n); }
        SortedAssetsIff(b, a);
      }
    } else {
      var x, y :| x in a && y in a && x.name == y.name && x != y;
      var rest := ToFront(a, x, y);
      var b, c := [x, y] + rest, [y, x] + rest;
      FirstNamed(b);
      FirstNamed(c);
      SortedAssetsIff(b, c);
      assert Named(b, x.name) != Named(c, x.name);
    }
  }
}
