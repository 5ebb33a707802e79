/** Ordering shared by the models: byte-string order, the library's stable sort,
    and the fact that a sorted listing without ties is determined by its elements. */
module Sorting {
  import opened Options
  import opened ByteStrings

  // The order Rust gives byte strings and path components.
  predicate LexLe(a: Bytes, b: Bytes) {
    a == [] || (b != [] && (a[0] < b[0] || (a[0] == b[0] && LexLe(a[1..], b[1..]))))
  }

  // The first position at which neither is over and they differ.
  predicate DifferAt<T(==)>(a: seq<T>, b: seq<T>, k: int) {
    0 <= k < |a| && k < |b| && (forall j :: 0 <= j < k ==> a[j] == b[j]) && a[k] != b[k]
  }

  lemma {:induction false} DifferLater<T>(a: seq<T>, b: seq<T>, k: int)
    requires a != [] && b != [] && a[0] == b[0] && k > 0
    ensures DifferAt(a, b, k) <==> DifferAt(a[1..], b[1..], k - 1)
  {
    var c, d := a[1..], b[1..];
    if DifferAt(a, b, k) {
      forall j | 0 <= j < k - 1 ensures c[j] == d[j] { assert a[j + 1] == b[j + 1]; }
    }
    if DifferAt(c, d, k - 1) {
      forall j | 0 < j < k ensures a[j] == b[j] { assert c[j - 1] == d[j - 1]; }
    }
  }

  /** The order of byte strings: a beginning comes first; otherwise the smaller byte at the first
      difference. */
  lemma {:induction false} LexLeIff(a: Bytes, b: Bytes)
    ensures LexLe(a, b) <==> a <= b || exists k :: DifferAt(a, b, k) && a[k] < b[k]
  {
    if a != [] && b != [] {
      if a[0] == b[0] {
        LexLeIff(a[1..], b[1..]);
        assert a <= b <==> a[1..] <= b[1..];
        if k :| DifferAt(a[1..], b[1..], k) && a[1..][k] < b[1..][k] { DifferLater(a, b, k + 1); }
        if k :| DifferAt(a, b, k) && a[k] < b[k] { DifferLater(a, b, k); }
      } else {
        assert DifferAt(a, b, 0);
        forall k | DifferAt(a, b, k) ensures k == 0 {}
      }
    }
  }

  lemma {:induction false} LexTotal(a: Bytes, b: Bytes)
    ensures LexLe(a, b) || LexLe(b, a)
  {
    if a != [] && b != [] { LexTotal(a[1..], b[1..]); }
  }

  lemma {:induction false} LexAntisymmetric(a: Bytes, b: Bytes)
    requires LexLe(a, b) && LexLe(b, a)
    ensures a == b
  {
    if a != [] {
      LexAntisymmetric(a[1..], b[1..]);
      assert a == [a[0]] + a[1..] && b == [b[0]] + b[1..];
    }
  }

  lemma {:induction false} LexTransitive(a: Bytes, b: Bytes, c: Bytes)
    requires LexLe(a, b) && LexLe(b, c)
    ensures LexLe(a, c)
  {
    if a != [] && a[0] == b[0] && b[0] == c[0] {
      LexTransitive(a[1..], b[1..], c[1..]);
    }
  }

  predicate SortedBy<T(!new)>(xs: seq<T>, le: (T, T) -> bool) {
    forall i, j :: 0 <= i < j < |xs| ==> le(xs[i], xs[j])
  }

  ghost predicate Preorder<T(!new)>(le: (T, T) -> bool) {
    && (forall x, y :: le(x, y) || le(y, x))
    && (forall x, y, z :: le(x, y) && le(y, z) ==> le(x, z))
  }

  // Places x before the first element that it may precede.
  function Insert<T(!new)>(x: T, xs: seq<T>, le: (T, T) -> bool): (r: seq<T>)
    ensures multiset(r) == multiset(xs) + multiset{x}
    ensures |r| == |xs| + 1
  {
    if xs == [] || le(x, xs[0]) then [x] + xs
    else
      assert xs == [xs[0]] + xs[1..];
      [xs[0]] + Insert(x, xs[1..], le)
  }

  /** `sort_by`: stable, because an element is inserted ahead of its later equals. */
  function Sort<T(!new)>(xs: seq<T>, le: (T, T) -> bool): (r: seq<T>)
    ensures multiset(r) == multiset(xs)
    ensures |r| == |xs|
  {
    if xs == [] then []
    else
      assert xs == [xs[0]] + xs[1..];
      Insert(xs[0], Sort(xs[1..], le), le)
  }

  lemma {:induction false} SameElements<T>(xs: seq<T>, ys: seq<T>)
    requires multiset(xs) == multiset(ys)
    ensures forall x :: x in xs <==> x in ys
  {
    forall x ensures x in xs <==> x in ys {
      assert x in xs <==> x in multiset(xs);
      assert x in ys <==> x in multiset(ys);
    }
  }

  // Takes one occurrence of an element out of a listing.
  lemma {:induction false} TakeOut<T>(xs: seq<T>, x: T) returns (before: seq<T>, after: seq<T>)
    requires x in xs
    ensures xs == before + [x] + after
    ensures multiset(xs) == multiset(before + after) + multiset{x}
    ensures multiset([x] + (before + after)) == multiset(xs)
  {
    var i :| 0 <= i < |xs| && xs[i] == x;
    before, after := xs[..i], xs[i + 1..];
    assert xs == before + [x] + after;
  }

  lemma {:induction false} SameLength<T>(xs: seq<T>, ys: seq<T>)
    requires multiset(xs) == multiset(ys)
    ensures |xs| == |ys|
  {
    assert |xs| == |multiset(xs)| && |ys| == |multiset(ys)|;
  }

  // Takes the first element of one listing out of a permutation of it.
  lemma {:induction false} TakeFirst<T>(xs: seq<T>, ys: seq<T>) returns (before: seq<T>, after: seq<T>)
    requires xs != [] && multiset(xs) == multiset(ys)
    ensures ys == before + [xs[0]] + after && multiset(xs[1..]) == multiset(before + after)
  {
    SameElements(xs, ys);
    before, after := TakeOut(ys, xs[0]);
    WithoutFirst(xs);
    Cancel(multiset(xs[1..]), multiset(before + after), xs[0]);
  }

  lemma {:induction false} WithoutFirst<T>(xs: seq<T>)
    requires xs != []
    ensures multiset(xs) == multiset(xs[1..]) + multiset{xs[0]}
  {
    assert xs == [xs[0]] + xs[1..];
  }

  lemma {:induction false} Cancel<T>(a: multiset<T>, b: multiset<T>, x: T)
    requires a + multiset{x} == b + multiset{x}
    ensures a == b
  {
    assert a == (a + multiset{x}) - multiset{x} && b == (b + multiset{x}) - multiset{x};
  }

  lemma {:induction false} InsertSorted<T(!new)>(x: T, xs: seq<T>, le: (T, T) -> bool)
    requires Preorder(le) && SortedBy(xs, le)
    ensures SortedBy(Insert(x, xs, le), le)
  {
    if xs != [] && !le(x, xs[0]) {
      InsertSorted(x, xs[1..], le);
      var tail := Insert(x, xs[1..], le);
      forall j | 0 <= j < |tail| ensures le(xs[0], tail[j]) {
        assert tail[j] in multiset(tail);
        assert tail[j] in multiset(xs[1..]) + multiset{x};
      }
    }
  }

  lemma {:induction false} SortSorted<T(!new)>(xs: seq<T>, le: (T, T) -> bool)
    requires Preorder(le)
    ensures SortedBy(Sort(xs, le), le)
  {
    if xs != [] {
      SortSorted(xs[1..], le);
      InsertSorted(xs[0], Sort(xs[1..], le), le);
    }
  }

  /** Two duplicate-free-by-order listings of the same elements are the same listing:
      the order need only never hold both ways between elements of the listing. */
  lemma {:induction false} OrderedListingUnique<T(!new)>(xs: seq<T>, ys: seq<T>, before: (T, T) -> bool)
    requires SortedBy(xs, before) && SortedBy(ys, before)
    requires forall x, y :: x in xs && y in xs && before(x, y) ==> !before(y, x)
    requires forall x :: x in xs <==> x in ys
    ensures xs == ys
  {
    assert |xs| > 0 ==> xs[0] in ys;
    assert |ys| > 0 ==> ys[0] in xs;
    if xs != [] {
      var x, y := xs[0], ys[0];
      var i :| 0 <= i < |xs| && xs[i] == y;
      var j :| 0 <= j < |ys| && ys[j] == x;
      assert (i == 0 || before(x, y)) && (j == 0 || before(y, x));
      forall z ensures z in xs[1..] <==> z in ys[1..] {
        NotAgain(xs, z, before);
        NotAgain(ys, z, before);
      }
      OrderedListingUnique(xs[1..], ys[1..], before);
      assert xs == [x] + xs[1..] && ys == [y] + ys[1..];
    }
  }

  lemma {:induction false} NotAgain<T(!new)>(xs: seq<T>, z: T, before: (T, T) -> bool)
    requires xs != [] && SortedBy(xs, before)
    requires forall x, y :: x in xs && y in xs && before(x, y) ==> !before(y, x)
    ensures z in xs[1..] <==> z in xs && z != xs[0]
  {
    assert xs == [xs[0]] + xs[1..];
    assert xs[0] in xs && !before(xs[0], xs[0]);
    assert forall k :: 1 <= k < |xs| ==> before(xs[0], xs[k]);
  }

  lemma {:induction false} SortedConcat<T(!new)>(a: seq<T>, b: seq<T>, le: (T, T) -> bool)
    requires SortedBy(a, le) && SortedBy(b, le)
    requires forall x, y :: x in a && y in b ==> le(x, y)
    ensures SortedBy(a + b, le)
  {
    forall i, j | 0 <= i < j < |a + b| ensures le((a + b)[i], (a + b)[j]) {
      if i < |a| <= j {
        assert a[i] in a && b[j - |a|] in b;
      }
    }
  }

  // No two positions carry the same key.
  predicate Distinct<T(!new), K(==)>(xs: seq<T>, key: T -> K) {
    forall i, j :: 0 <= i < j < |xs| ==> key(xs[i]) != key(xs[j])
  }

  lemma {:induction false} Twice<T>(xs: seq<T>, i: int, j: int)
    requires 0 <= i < j < |xs|
    ensures xs[i] == xs[j] ==> multiset(xs)[xs[i]] >= 2
  {
    assert xs == xs[..i] + [xs[i]] + xs[i + 1..j] + [xs[j]] + xs[j + 1..];
  }

  lemma {:induction false} Once<T(!new), K>(xs: seq<T>, key: T -> K, x: T)
    requires Distinct(xs, key)
    ensures multiset(xs)[x] <= 1
  {
    if xs != [] {
      var front := xs[..|xs| - 1];
      Once(front, key, x);
      assert xs == front + [xs[|xs| - 1]];
      if x == xs[|xs| - 1] {
        assert forall i :: 0 <= i < |front| ==> key(xs[i]) != key(x);
        assert x !in front;
      }
    }
  }

  /** A permutation of a listing with distinct keys has distinct keys. */
  lemma {:induction false} DistinctKeys<T(!new), K>(xs: seq<T>, ys: seq<T>, key: T -> K)
    requires multiset(xs) == multiset(ys) && Distinct(xs, key)
    ensures Distinct(ys, key)
  {
    SameElements(xs, ys);
    forall i, j | 0 <= i < j < |ys| ensures key(ys[i]) != key(ys[j]) {
      Twice(ys, i, j);
      Once(xs, key, ys[i]);
      assert ys[i] in xs && ys[j] in xs;
      var a :| 0 <= a < |xs| && xs[a] == ys[i];
      var b :| 0 <= b < |xs| && xs[b] == ys[j];
      assert a != b;
    }
  }

  // ---------------------------------------------------------------------------
  // Paths in order

  predicate PathLe(p: Path, q: Path) {
    p == [] || (q != [] && if p[0] == q[0] then PathLe(p[1..], q[1..]) else LexLe(p[0], q[0]))
  }

  /** The order of paths: a directory before what is in it; otherwise by the first component that
      differs. */
  lemma {:induction false} PathLeIff(p: Path, q: Path)
    ensures PathLe(p, q) <==> p <= q || exists k :: DifferAt(p, q, k) && LexLe(p[k], q[k])
  {
    hide LexLe;
    if p != [] && q != [] {
      if p[0] == q[0] {
        PathLeIff(p[1..], q[1..]);
        assert p <= q <==> p[1..] <= q[1..];
        if k :| DifferAt(p[1..], q[1..], k) && LexLe(p[1..][k], q[1..][k]) { DifferLater(p, q, k + 1); }
        if k :| DifferAt(p, q, k) && LexLe(p[k], q[k]) { DifferLater(p, q, k); }
      } else {
        assert DifferAt(p, q, 0);
        forall k | DifferAt(p, q, k) ensures k == 0 {}
      }
    }
  }

  lemma {:induction false} PathTotal(p: Path, q: Path)
    ensures PathLe(p, q) || PathLe(q, p)
  {
    if p != [] && q != [] {
      if p[0] == q[0] { PathTotal(p[1..], q[1..]); } else { LexTotal(p[0], q[0]); }
    }
  }

  lemma {:induction false} PathAntisymmetric(p: Path, q: Path)
    ensures PathLe(p, q) && PathLe(q, p) ==> p == q
  {
    if p != [] && q != [] {
      if p[0] == q[0] {
        PathAntisymmetric(p[1..], q[1..]);
        assert p == [p[0]] + p[1..] && q == [q[0]] + q[1..];
      } else if LexLe(p[0], q[0]) && LexLe(q[0], p[0]) {
        LexAntisymmetric(p[0], q[0]);
      }
    }
  }

  lemma {:induction false} PathTransitive(p: Path, q: Path, r: Path)
    requires PathLe(p, q) && PathLe(q, r)
    ensures PathLe(p, r)
  {
    if p != [] {
      if p[0] == q[0] && q[0] == r[0] {
        PathTransitive(p[1..], q[1..], r[1..]);
      } else if p[0] != q[0] && q[0] != r[0] {
        LexTransitive(p[0], q[0], r[0]);
        if p[0] == r[0] { LexAntisymmetric(p[0], q[0]); }
      }
    }
  }

  lemma {:induction false} PathPreorder()
    ensures Preorder(PathLe)
  {
    forall p, q ensures PathLe(p, q) || PathLe(q, p) { PathTotal(p, q); }
    forall p, q, r | PathLe(p, q) && PathLe(q, r) ensures PathLe(p, r) { PathTransitive(p, q, r); }
  }

  // Strictly ascending: sorted, and nothing twice.
  ghost predicate Listed<T(!new)>(xs: seq<T>, le: (T, T) -> bool) { SortedBy(xs, le) && NoRepeats(xs) }

  predicate NoRepeats<T(==)>(xs: seq<T>) { forall i, j :: 0 <= i < j < |xs| ==> xs[i] != xs[j] }

  // An antisymmetric order lists the same elements in one way only.
  lemma {:induction false} OneListing<T(!new)>(xs: seq<T>, ys: seq<T>, le: (T, T) -> bool)
    requires Listed(xs, le) && Listed(ys, le) && forall x :: x in xs <==> x in ys
    requires forall x, y :: x in xs && y in xs && le(x, y) && le(y, x) ==> x == y
    ensures xs == ys
  {
    var before := (x, y) => le(x, y) && x != y;
    assert SortedBy(xs, before) && SortedBy(ys, before);
    OrderedListingUnique(xs, ys, before);
  }

  lemma {:induction false} NoRepeatsAppend<T>(xs: seq<T>, x: T)
    requires NoRepeats(xs) && x !in xs
    ensures NoRepeats(xs + [x])
  {}

  lemma {:induction false} SortListed<T(!new)>(xs: seq<T>, le: (T, T) -> bool)
    requires NoRepeats(xs) && Preorder(le)
    ensures Listed(Sort(xs, le), le) && forall x :: x in Sort(xs, le) <==> x in xs
  {
    SortSorted(xs, le);
    DistinctKeys(xs, Sort(xs, le), (x: T) => x);
    SameElements(xs, Sort(xs, le));
    assert Distinct(Sort(xs, le), (x: T) => x);
    forall i, j | 0 <= i < j < |xs| ensures Sort(xs, le)[i] != Sort(xs, le)[j] {
      assert ((x: T) => x)(Sort(xs, le)[i]) != ((x: T) => x)(Sort(xs, le)[j]);
    }
  }

  // What pushing, for each key in turn, the value f gives (if any) leaves.
  function Collect<K, V>(f: K -> Option<V>, ks: seq<K>): seq<V> {
    if ks == [] then []
    else Collect(f, ks[..|ks| - 1]) + if f(ks[|ks| - 1]).Some? then [f(ks[|ks| - 1]).value] else []
  }

  method CollectAll<K, V>(f: K -> Option<V>, ks: seq<K>) returns (r: seq<V>)
    ensures r == Collect(f, ks)
  {
    r := [];
    for i := 0 to |ks|
      invariant r == Collect(f, ks[..i])
    {
      assert ks[..i + 1][..i] == ks[..i];
      if f(ks[i]).Some? { r := r + [f(ks[i]).value]; }
    }
    assert ks[..|ks|] == ks;
  }

  lemma {:induction false} CollectIn<K, V>(f: K -> Option<V>, ks: seq<K>, v: V)
    ensures v in Collect(f, ks) <==> exists k :: k in ks && f(k) == Some(v)
  {
    if ks != [] {
      var front, last := ks[..|ks| - 1], ks[|ks| - 1];
      CollectIn(f, front, v);
      assert ks == front + [last];
      assert forall k :: k in ks <==> k in front || k == last;
    }
  }

  lemma {:induction false} CollectNoRepeats<K, V>(f: K -> Option<V>, ks: seq<K>)
    requires NoRepeats(ks) && forall j, k :: j in ks && k in ks && f(j).Some? && f(j) == f(k) ==> j == k
    ensures NoRepeats(Collect(f, ks))
  {
    if ks != [] {
      var front, last := ks[..|ks| - 1], ks[|ks| - 1];
      assert ks == front + [last];
      CollectNoRepeats(f, front);
      assert last !in front;
      if f(last).Some? {
        CollectIn(f, front, f(last).value);
        NoRepeatsAppend(Collect(f, front), f(last).value);
      }
    }
  }
}
