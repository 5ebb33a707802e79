/** Splitting at separators and joining again. */
module Splitting {

  // The pieces between separators, at least one piece.
  function Split<T>(s: seq<T>, sep: T -> bool): (r: seq<seq<T>>)
    ensures |r| > 0
  {
    if s == [] then [[]]
    else
      var r := Split(s[1..], sep);
      if sep(s[0]) then [[]] + r else [[s[0]] + r[0]] + r[1..]
  }

  function Join<T>(parts: seq<seq<T>>, x: T): seq<T> {
    if parts == [] then [] else if |parts| == 1 then parts[0] else parts[0] + [x] + Join(parts[1..], x)
  }

  lemma {:induction false} SplitConcat<T>(a: seq<T>, x: T, b: seq<T>, sep: T -> bool)
    requires sep(x)
    ensures Split(a + [x] + b, sep) == Split(a, sep) + Split(b, sep)
  {
    var s := a + [x] + b;
    if a == [] {
      assert s[1..] == b;
    } else {
      SplitConcat(a[1..], x, b, sep);
      assert s[1..] == a[1..] + [x] + b;
      Regroup(a[0], Split(a[1..], sep), Split(b, sep));
    }
  }

  lemma {:induction false} Regroup<T>(x: T, r: seq<seq<T>>, t: seq<seq<T>>)
    requires r != []
    ensures [[]] + (r + t) == [[]] + r + t
    ensures [[x] + (r + t)[0]] + (r + t)[1..] == [[x] + r[0]] + r[1..] + t
  {}

  predicate Free<T>(s: seq<T>, sep: T -> bool) { forall i :: 0 <= i < |s| ==> !sep(s[i]) }

  lemma {:induction false} SplitWhole<T>(s: seq<T>, sep: T -> bool)
    requires Free(s, sep)
    ensures Split(s, sep) == [s]
  {
    if s != [] {
      SplitWhole(s[1..], sep);
      assert s == [s[0]] + s[1..];
    }
  }

  lemma {:induction false} SplitPieces<T>(s: seq<T>, sep: T -> bool, piece: seq<T>)
    requires piece in Split(s, sep)
    ensures Free(piece, sep)
  {
    if s != [] {
      var r := Split(s[1..], sep);
      if piece in r {
        SplitPieces(s[1..], sep, piece);
      } else if !sep(s[0]) {
        assert piece == [s[0]] + r[0];
        SplitPieces(s[1..], sep, r[0]);
      }
    }
  }

  // Text without separators at the end belongs to the last piece.
  lemma {:induction false} SplitTail<T>(a: seq<T>, b: seq<T>, sep: T -> bool)
    requires Free(b, sep)
    ensures var r := Split(a, sep); Split(a + b, sep) == r[..|r| - 1] + [r[|r| - 1] + b]
  {
    if a == [] {
      assert a + b == b && [] + b == b;
      SplitWhole(b, sep);
    } else {
      SplitTail(a[1..], b, sep);
      assert (a + b)[1..] == a[1..] + b && (a + b)[0] == a[0];
      LastPiece(a[0], Split(a[1..], sep), b);
    }
  }

  lemma {:induction false} LastPiece<T>(x: T, r: seq<seq<T>>, b: seq<T>)
    requires r != []
    ensures var t := r[..|r| - 1] + [r[|r| - 1] + b];
      && (var u := [[]] + r; [[]] + t == u[..|u| - 1] + [u[|u| - 1] + b])
      && (var u := [[x] + r[0]] + r[1..]; [[x] + t[0]] + t[1..] == u[..|u| - 1] + [u[|u| - 1] + b])
  {
    if |r| == 1 { assert [x] + (r[0] + b) == [x] + r[0] + b; }
  }

  // s[i..j] lies between separators, or the ends, and holds none.
  predicate Between<T>(s: seq<T>, sep: T -> bool, i: int, j: int) {
    && 0 <= i <= j <= |s| && (forall k :: i <= k < j ==> !sep(s[k]))
    && (i == 0 || sep(s[i - 1])) && (j == |s| || sep(s[j]))
  }

  lemma {:induction false} BetweenIsPiece<T>(s: seq<T>, sep: T -> bool, i: int, j: int)
    requires Between(s, sep, i, j)
    ensures s[i..j] in Split(s, sep)
  {
    hide Split;
    var piece := s[i..j];
    assert Free(piece, sep);
    SplitWhole(piece, sep);
    var head := s[..j];
    if i > 0 {
      assert head == s[..i - 1] + [s[i - 1]] + piece;
      SplitConcat(s[..i - 1], s[i - 1], piece, sep);
    } else {
      assert head == piece;
    }
    assert piece in Split(head, sep);
    if j < |s| {
      assert s == head + [s[j]] + s[j + 1..];
      SplitConcat(head, s[j], s[j + 1..], sep);
    } else {
      assert s == head;
    }
  }

  lemma {:induction false} PieceIsBetween<T>(s: seq<T>, sep: T -> bool, k: nat) returns (i: nat, j: nat)
    requires k < |Split(s, sep)|
    ensures Between(s, sep, i, j) && Split(s, sep)[k] == s[i..j] && (i == 0 <==> k == 0)
  {
    if s == [] {
      i, j := 0, 0;
    } else if sep(s[0]) && k == 0 {
      i, j := 0, 0;
    } else {
      var rest := s[1..];
      var at := if sep(s[0]) then k - 1 else k;
      i, j := PieceIsBetween(rest, sep, at);
      assert Split(rest, sep)[at] == rest[i..j] == s[i + 1..j + 1];
      if !sep(s[0]) && k == 0 {
        assert s[..j + 1] == [s[0]] + rest[..j];
        forall n | 0 <= n < j + 1 ensures !sep(s[n]) { if n > 0 { assert !sep(rest[n - 1]); } }
        j := j + 1;
      } else {
        forall n | i + 1 <= n < j + 1 ensures !sep(s[n]) { assert !sep(rest[n - 1]); }
        assert i > 0 ==> sep(rest[i - 1]);
        i, j := i + 1, j + 1;
      }
    }
  }

  /** The pieces are exactly the stretches between separators. */
  lemma {:induction false} PieceIff<T>(s: seq<T>, sep: T -> bool, piece: seq<T>)
    ensures piece in Split(s, sep) <==> exists i, j :: Between(s, sep, i, j) && piece == s[i..j]
  {
    hide Split;
    if piece in Split(s, sep) {
      var k :| 0 <= k < |Split(s, sep)| && Split(s, sep)[k] == piece;
      var i, j := PieceIsBetween(s, sep, k);
    }
    if i, j :| Between(s, sep, i, j) && piece == s[i..j] { BetweenIsPiece(s, sep, i, j); }
  }

  /** Joining undoes splitting at a single separator ... */
  lemma {:induction false} JoinSplit<T>(s: seq<T>, x: T, sep: T -> bool)
    requires forall y :: y in s && sep(y) ==> y == x
    ensures Join(Split(s, sep), x) == s
  {
    if s != [] {
      JoinSplit(s[1..], x, sep);
      var r := Split(s[1..], sep);
      assert s == [s[0]] + s[1..];
      if sep(s[0]) {
        assert ([[]] + r)[1..] == r;
        assert Join([[]] + r, x) == [] + [x] + Join(r, x);
      } else {
        var t := [[s[0]] + r[0]] + r[1..];
        assert t[1..] == r[1..];
        if |r| > 1 { assert Join(t, x) == [s[0]] + r[0] + [x] + Join(r[1..], x); }
      }
    }
  }

  /** ... and splitting undoes joining pieces that hold no separator. */
  lemma {:induction false} SplitJoin<T>(parts: seq<seq<T>>, x: T, sep: T -> bool)
    requires parts != [] && sep(x) && forall i :: 0 <= i < |parts| ==> Free(parts[i], sep)
    ensures Split(Join(parts, x), sep) == parts
  {
    SplitWhole(parts[0], sep);
    hide Split;
    var first, rest := parts[0], parts[1..];
    assert parts == [first] + rest;
    if |parts| > 1 {
      assert forall i :: 0 <= i < |rest| ==> rest[i] == parts[i + 1];
      SplitJoin(rest, x, sep);
      SplitConcat(first, x, Join(rest, x), sep);
      assert Join(parts, x) == first + [x] + Join(rest, x);
    }
  }
}
