/** Where a backup object goes: the destination key of a source key, and when two source
    keys go to the same place. */
module BackupKeys {
  import opened Options
  import opened Splitting
  import opened StorageKey

  // trim_matches('/')
  function TrimLeft(s: string): string { if s != [] && s[0] == '/' then TrimLeft(s[1..]) else s }
  function TrimRight(s: string): string { if s != [] && s[|s| - 1] == '/' then TrimRight(s[..|s| - 1]) else s }
  function TrimSlashes(s: string): string { TrimRight(TrimLeft(s)) }

  datatype Normalized = NoPrefix | Prefix(key: string) | Unsafe

  /** `normalized_optional_prefix` */
  function NormalizedPrefix(value: string): (r: Normalized)
    ensures r.Prefix? ==> ValidKey(r.key)
  {
    var v := TrimSlashes(Trim(value));
    if v == "" then NoPrefix else if ValidKey(v) then Prefix(v) else Unsafe
  }

  predicate Slashes(s: string, from: int, to: int) { forall i :: 0 <= from <= i < to <= |s| ==> s[i] == '/' }

  // k with slashes around it.
  ghost predicate Surrounded(s: string, k: string) {
    exists i, j :: 0 <= i <= j <= |s| && s[i..j] == k && Slashes(s, 0, i) && Slashes(s, j, |s|)
  }

  lemma {:induction false} TrimLeftAt(s: string) returns (i: nat)
    ensures i <= |s| && TrimLeft(s) == s[i..] && Slashes(s, 0, i) && (i < |s| ==> s[i] != '/')
  {
    if s != [] && s[0] == '/' {
      i := TrimLeftAt(s[1..]);
      i := i + 1;
      assert s[i..] == s[1..][i - 1..];
      forall k | 0 <= k < i ensures s[k] == '/' { if k > 0 { assert s[1..][k - 1] == '/'; } }
    } else {
      i := 0;
    }
  }

  lemma {:induction false} TrimRightAt(s: string) returns (j: nat)
    ensures j <= |s| && TrimRight(s) == s[..j] && Slashes(s, j, |s|) && (j > 0 ==> s[j - 1] != '/')
  {
    if s != [] && s[|s| - 1] == '/' {
      var front := s[..|s| - 1];
      j := TrimRightAt(front);
      assert s[..j] == front[..j];
      forall k | j <= k < |s| ensures s[k] == '/' { if k < |s| - 1 { assert front[k] == '/'; } }
    } else {
      j := |s|;
    }
  }

  // What is left has no slash at either end.
  lemma {:induction false} TrimSlashesAt(s: string) returns (i: nat, j: nat)
    ensures i <= j <= |s| && TrimSlashes(s) == s[i..j] && Slashes(s, 0, i) && Slashes(s, j, |s|)
    ensures i < j ==> s[i] != '/' && s[j - 1] != '/'
  {
    i := TrimLeftAt(s);
    var rest := s[i..];
    j := TrimRightAt(rest);
    assert s[i..i + j] == rest[..j];
    forall k | i + j <= k < |s| ensures s[k] == '/' { assert rest[k - i] == '/'; }
    j := i + j;
  }

  /** There is no prefix exactly when the trimmed text is nothing but slashes; there is the prefix k
      exactly when k is a valid key and the trimmed text is k with slashes around it. */
  lemma {:induction false} NormalizedPrefixIff(value: string, k: string)
    ensures NormalizedPrefix(value).NoPrefix? <==> Slashes(Trim(value), 0, |Trim(value)|)
    ensures NormalizedPrefix(value) == Prefix(k) <==> ValidKey(k) && Surrounded(Trim(value), k)
  {
    hide ValidKey, Trim;
    var s := Trim(value);
    var i, j := TrimSlashesAt(s);
    if ValidKey(k) && Surrounded(s, k) {
      ValidKeyChars(k);
      var a, b :| 0 <= a <= b <= |s| && s[a..b] == k && Slashes(s, 0, a) && Slashes(s, b, |s|);
      assert s[a] == k[0] && s[b - 1] == k[|k| - 1];
      assert a == i && b == j;
    }
  }

  // What normalisation leaves of an optional prefix.
  predicate ValidPrefix(p: Option<string>) { p.Some? ==> ValidKey(p.value) }

  /** `backup_relative_key` */
  function RelativeKey(prefix: Option<string>, key: string): string {
    if prefix.None? then key
    else
      var p, k := TrimSlashes(prefix.value), TrimSlashes(key);
      if p <= k && |p| < |k| && k[|p|] == '/' then k[|p| + 1..] else key
  }

  /** `destination_key`; None is its error. */
  function DestinationKey(root: Option<string>, prefix: Option<string>, key: string): Option<string> {
    var parts :=
      (if root.Some? then [TrimSlashes(root.value)] else [])
      + (if prefix.Some? then [TrimSlashes(prefix.value)] else [])
      + [TrimSlashes(key)];
    var joined := Join(parts, '/');
    if ValidKey(joined) then Some(joined) else None
  }

  // The destination of a listed source key.
  function Destination(root: Option<string>, prefix: Option<string>, key: string): Option<string> {
    DestinationKey(root, prefix, RelativeKey(prefix, key))
  }

  // ---------------------------------------------------------------------------

  lemma {:induction false} TrimValid(s: string)
    requires ValidKey(s)
    ensures TrimSlashes(s) == s
  {
    ValidKeyChars(s);
  }

  function Under(p: string, k: string): string { p + "/" + k }

  predicate Inside(p: string, k: string) { p <= k && |p| < |k| && k[|p|] == '/' }

  /** Two keys joined by a slash are a key exactly when both are. */
  lemma {:induction false} UnderValid(p: string, k: string)
    ensures ValidKey(Under(p, k)) <==> ValidKey(p) && ValidKey(k)
  {
    SplitConcat(p, '/', k, IsSlash);
    assert Segments(Under(p, k)) == Segments(p) + Segments(k);
    var n, s := |Segments(p)|, Segments(Under(p, k));
    assert forall i :: 0 <= i < n ==> s[i] == Segments(p)[i];
    assert forall i :: 0 <= i < |Segments(k)| ==> s[n + i] == Segments(k)[i];
  }

  lemma {:induction false} InsideUnder(p: string, k: string)
    requires Inside(p, k)
    ensures k == Under(p, k[|p| + 1..])
  {}

  // On valid keys there is nothing to trim.
  lemma {:induction false} RelativeValid(prefix: Option<string>, key: string)
    requires ValidPrefix(prefix) && ValidKey(key)
    ensures RelativeKey(prefix, key)
         == if prefix.Some? && Inside(prefix.value, key) then key[|prefix.value| + 1..] else key
    ensures ValidKey(RelativeKey(prefix, key))
  {
    TrimValid(key);
    if prefix.Some? {
      TrimValid(prefix.value);
      if Inside(prefix.value, key) {
        InsideUnder(prefix.value, key);
        UnderValid(prefix.value, key[|prefix.value| + 1..]);
      }
    }
  }

  // The destination, put together from the outside in.
  function Placed(root: Option<string>, prefix: Option<string>, rel: string): string {
    var inner := if prefix.Some? then Under(prefix.value, rel) else rel;
    if root.Some? then Under(root.value, inner) else inner
  }

  lemma {:induction false} DestinationKeyValid(root: Option<string>, prefix: Option<string>, rel: string)
    requires ValidPrefix(root) && ValidPrefix(prefix) && ValidKey(rel)
    ensures DestinationKey(root, prefix, rel) == Some(Placed(root, prefix, rel))
  {
    TrimValid(rel);
    var inner := if prefix.Some? then Under(prefix.value, rel) else rel;
    if prefix.Some? { TrimValid(prefix.value); UnderValid(prefix.value, rel); }
    if root.Some? { TrimValid(root.value); UnderValid(root.value, inner); }
    var parts := (if root.Some? then [root.value] else []) + (if prefix.Some? then [prefix.value] else []) + [rel];
    if root.Some? && prefix.Some? {
      JoinThree(root.value, prefix.value, rel);
      assert parts == [root.value, prefix.value, rel];
    } else if root.Some? {
      JoinTwo(root.value, rel);
      assert parts == [root.value, rel];
    } else if prefix.Some? {
      JoinTwo(prefix.value, rel);
      assert parts == [prefix.value, rel];
    }
    assert Join(parts, '/') == Placed(root, prefix, rel);
  }

  lemma {:induction false} JoinTwo(a: string, b: string)
    ensures Join([a, b], '/') == Under(a, b)
  {
    assert [a, b][1..] == [b];
    assert Join([b], '/') == b;
  }

  lemma {:induction false} JoinThree(a: string, b: string, c: string)
    ensures Join([a, b, c], '/') == Under(a, Under(b, c))
  {
    assert [a, b, c][1..] == [b, c];
    JoinTwo(b, c);
  }

  /** Building the destination of a valid key never fails. */
  lemma {:induction false} DestinationNeverFails(root: Option<string>, prefix: Option<string>, key: string)
    requires ValidPrefix(root) && ValidPrefix(prefix) && ValidKey(key)
    ensures Destination(root, prefix, key) == Some(Placed(root, prefix, RelativeKey(prefix, key)))
    ensures ValidKey(Destination(root, prefix, key).value)
  {
    RelativeValid(prefix, key);
    DestinationKeyValid(root, prefix, RelativeKey(prefix, key));
  }

  lemma {:induction false} PlacedText(root: Option<string>, prefix: Option<string>, rel: string)
    ensures Placed(root, prefix, rel)
         == (if root.Some? then root.value + "/" else "") + (if prefix.Some? then prefix.value + "/" else "") + rel
  {
    if root.Some? && prefix.Some? {
      assert root.value + "/" + (prefix.value + "/" + rel) == root.value + "/" + (prefix.value + "/") + rel;
    }
  }

  lemma {:induction false} InsideIff(p: string, k: string)
    ensures Inside(p, k) <==> p + "/" <= k
  {
    if Inside(p, k) { assert k[..|p| + 1] == p + "/"; }
    if p + "/" <= k { assert k[|p|] == (p + "/")[|p|] && p == (p + "/")[..|p|] == k[..|p|]; }
  }

  /** The destination, letter by letter: the root prefix, the destination prefix, and the key without
      the destination prefix if it starts with that and a slash. */
  lemma {:induction false} DestinationText(root: Option<string>, prefix: Option<string>, key: string)
    requires ValidPrefix(root) && ValidPrefix(prefix) && ValidKey(key)
    ensures var rel := if prefix.Some? && prefix.value + "/" <= key then key[|prefix.value| + 1..] else key;
      Destination(root, prefix, key)
      == Some((if root.Some? then root.value + "/" else "") + (if prefix.Some? then prefix.value + "/" else "") + rel)
  {
    hide ValidKey, Destination, RelativeKey, Placed, Inside;
    DestinationNeverFails(root, prefix, key);
    RelativeValid(prefix, key);
    PlacedText(root, prefix, RelativeKey(prefix, key));
    if prefix.Some? { InsideIff(prefix.value, key); }
  }

  /** Stripping the destination prefix undoes adding it. */
  lemma {:induction false} StripUndoesAdd(prefix: string, key: string)
    requires ValidKey(prefix) && ValidKey(key)
    ensures RelativeKey(Some(prefix), Under(prefix, key)) == key
  {
    UnderValid(prefix, key);
    RelativeValid(Some(prefix), Under(prefix, key));
    assert Inside(prefix, Under(prefix, key));
  }

  lemma {:induction false} PlacedInjective(root: Option<string>, prefix: Option<string>, a: string, b: string)
    requires Placed(root, prefix, a) == Placed(root, prefix, b)
    ensures a == b
  {
    var ia := if prefix.Some? then Under(prefix.value, a) else a;
    var ib := if prefix.Some? then Under(prefix.value, b) else b;
    if root.Some? { UnderInjective(root.value, ia, ib); }
    if prefix.Some? { UnderInjective(prefix.value, a, b); }
  }

  lemma {:induction false} UnderInjective(p: string, a: string, b: string)
    requires Under(p, a) == Under(p, b)
    ensures a == b
  {
    assert Under(p, a)[|p| + 1..] == a && Under(p, b)[|p| + 1..] == b;
  }

  // k is the prefix, a slash and l, where l does not itself start with the prefix and a slash.
  predicate Shadows(prefix: string, k: string, l: string) { k == Under(prefix, l) && !Inside(prefix, l) }

  /** Two different source keys share a destination exactly when one is the other under the
      destination prefix. */
  lemma {:induction false} CollideIff(root: Option<string>, prefix: Option<string>, k: string, l: string)
    requires ValidPrefix(root) && ValidPrefix(prefix) && ValidKey(k) && ValidKey(l) && k != l
    ensures Destination(root, prefix, k) == Destination(root, prefix, l) <==>
            prefix.Some? && (Shadows(prefix.value, k, l) || Shadows(prefix.value, l, k))
  {
    hide ValidKey, Destination, RelativeKey, Placed;
    DestinationNeverFails(root, prefix, k);
    DestinationNeverFails(root, prefix, l);
    RelativeValid(prefix, k);
    RelativeValid(prefix, l);
    if Destination(root, prefix, k) == Destination(root, prefix, l) {
      PlacedInjective(root, prefix, RelativeKey(prefix, k), RelativeKey(prefix, l));
    }
    if prefix.Some? {
      var p := prefix.value;
      if Inside(p, k) { InsideUnder(p, k); }
      if Inside(p, l) { InsideUnder(p, l); }
      assert Shadows(p, k, l) ==> Inside(p, k) && k[|p| + 1..] == l;
      assert Shadows(p, l, k) ==> Inside(p, l) && l[|p| + 1..] == k;
    }
  }
}
