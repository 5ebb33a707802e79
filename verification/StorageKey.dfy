/** Storage keys: the component-based validator, the published pattern and the S3 prefix
    validator, and why they accept the same strings. Text is Unicode characters; a character
    outside ASCII has only non-ASCII bytes, so byte tests and character tests agree. */
module StorageKey {
  import opened Options
  import opened Splitting

  predicate IsSlash(c: char) { c == '/' }

  // u8::is_ascii_alphanumeric
  predicate AsciiAlphanumeric(b: int) { 0x30 <= b <= 0x39 || 0x41 <= b <= 0x5A || 0x61 <= b <= 0x7A }

  // The byte test of the validators: alphanumeric, `_`, `-` or `.`.
  predicate Safe(c: char) { AsciiAlphanumeric(c as int) || c as int == 0x5F || c as int == 0x2D || c as int == 0x2E }

  predicate AllSafe(s: string) { forall i :: 0 <= i < |s| ==> Safe(s[i]) }

  // char::is_whitespace
  predicate White(c: char) {
    '\t' <= c <= '\r' || c == ' ' || c == '\U{85}' || c == '\U{A0}' || c == '\U{1680}'
    || '\U{2000}' <= c <= '\U{200A}' || c == '\U{2028}' || c == '\U{2029}' || c == '\U{202F}'
    || c == '\U{205F}' || c == '\U{3000}'
  }

  // is_ascii_whitespace or is_ascii_control
  predicate WhiteOrControl(c: char) { c <= ' ' || c == '\U{7F}' }

  function TrimStart(s: string): string { if s != [] && White(s[0]) then TrimStart(s[1..]) else s }
  function TrimEnd(s: string): string { if s != [] && White(s[|s| - 1]) then TrimEnd(s[..|s| - 1]) else s }
  function Trim(s: string): string { TrimEnd(TrimStart(s)) }

  // Unicode's White_Space property, by code point.
  const WHITE_SPACE: seq<(int, int)> :=
    [(9, 13), (32, 32), (133, 133), (160, 160), (5760, 5760), (8192, 8202), (8232, 8233), (8239, 8239), (8287, 8287),
     (12288, 12288)]

  ghost predicate HasWhiteSpace(c: char) {
    exists k :: 0 <= k < |WHITE_SPACE| && WHITE_SPACE[k].0 <= c as int <= WHITE_SPACE[k].1
  }

  lemma {:induction false} WhiteIff(c: char)
    ensures White(c) <==> HasWhiteSpace(c)
  {
    if White(c) {
      var k := if c <= '\r' then 0 else if c == ' ' then 1 else if c == '\U{85}' then 2 else if c == '\U{A0}' then 3
               else if c == '\U{1680}' then 4 else if c <= '\U{200A}' then 5 else if c <= '\U{2029}' then 6
               else if c == '\U{202F}' then 7 else if c == '\U{205F}' then 8 else 9;
      assert WHITE_SPACE[k].0 <= c as int <= WHITE_SPACE[k].1;
    }
  }

  ghost predicate AllWhite(s: string, from: int, to: int) {
    forall i :: 0 <= from <= i < to <= |s| ==> HasWhiteSpace(s[i])
  }

  /** Trimming takes away white space at both ends, and leaves none there. */
  lemma {:induction false} TrimAt(s: string) returns (i: nat, j: nat)
    ensures i <= j <= |s| && Trim(s) == s[i..j] && AllWhite(s, 0, i) && AllWhite(s, j, |s|)
    ensures i < j ==> !HasWhiteSpace(s[i]) && !HasWhiteSpace(s[j - 1])
  {
    forall c ensures White(c) <==> HasWhiteSpace(c) { WhiteIff(c); }
    hide White, HasWhiteSpace;
    i := TrimStartAt(s);
    var rest := s[i..];
    j := TrimEndAt(rest);
    assert s[i..i + j] == rest[..j];
    forall k | i + j <= k < |s| ensures White(s[k]) { assert White(rest[k - i]); }
    j := i + j;
  }

  lemma {:induction false} TrimStartAt(s: string) returns (i: nat)
    ensures i <= |s| && TrimStart(s) == s[i..] && (forall k :: 0 <= k < i ==> White(s[k])) && (i < |s| ==> !White(s[i]))
  {
    hide White;
    if s != [] && White(s[0]) {
      i := TrimStartAt(s[1..]);
      i := i + 1;
      assert s[i..] == s[1..][i - 1..];
      forall k | 0 <= k < i ensures White(s[k]) { if k > 0 { assert White(s[1..][k - 1]); } }
    } else {
      i := 0;
    }
  }

  lemma {:induction false} TrimEndAt(s: string) returns (j: nat)
    ensures j <= |s| && TrimEnd(s) == s[..j] && (forall k :: j <= k < |s| ==> White(s[k])) && (j > 0 ==> !White(s[j - 1]))
  {
    hide White;
    if s != [] && White(s[|s| - 1]) {
      var front := s[..|s| - 1];
      j := TrimEndAt(front);
      assert s[..j] == front[..j];
      forall k | j <= k < |s| ensures White(s[k]) { if k < |s| - 1 { assert White(front[k]); } }
    } else {
      j := |s|;
    }
  }

  // ---------------------------------------------------------------------------
  // What a key is

  function Segments(s: string): seq<string> { Split(s, IsSlash) }

  predicate ValidSegment(seg: string) { seg != "" && AllSafe(seg) && seg != "." && seg != ".." }

  /** Nonempty slash-separated safe segments, none equal to `.` or `..`. */
  predicate ValidKey(s: string) { forall i :: 0 <= i < |Segments(s)| ==> ValidSegment(Segments(s)[i]) }

  lemma {:induction false} SegmentsJoin(s: string)
    ensures Join(Segments(s), '/') == s
  {
    JoinSplit(s, '/', IsSlash);
  }

  lemma {:induction false} JoinChars(parts: seq<string>, c: char)
    requires c in Join(parts, '/')
    ensures c == '/' || exists i :: 0 <= i < |parts| && c in parts[i]
  {
    if |parts| > 1 && c !in parts[0] && c != '/' {
      JoinChars(parts[1..], c);
      var i :| 0 <= i < |parts[1..]| && c in parts[1..][i];
      assert c in parts[i + 1];
    }
  }

  lemma {:induction false} ValidKeyChars(s: string)
    requires ValidKey(s)
    ensures s != "" && forall i :: 0 <= i < |s| ==> Safe(s[i]) || s[i] == '/'
    ensures s[0] != '/' && s[|s| - 1] != '/'
  {
    SegmentsJoin(s);
    forall i | 0 <= i < |s| ensures Safe(s[i]) || s[i] == '/' {
      JoinChars(Segments(s), s[i]);
    }
    assert ValidSegment(Segments(s)[0]) && ValidSegment(Segments(s)[|Segments(s)| - 1]);
    EndSlashes(s);
  }

  // A slash at an end makes an empty segment there.
  lemma {:induction false} EndSlashes(s: string)
    requires s != ""
    ensures s[0] == '/' ==> Segments(s)[0] == ""
    ensures s[|s| - 1] == '/' ==> Segments(s)[|Segments(s)| - 1] == ""
  {
    var n := |s| - 1;
    if s[n] == '/' {
      assert s == s[..n] + ['/'] + "";
      SplitConcat(s[..n], '/', "", IsSlash);
    }
  }

  lemma {:induction false} TrimIdentity(s: string)
    requires s == "" || (!White(s[0]) && !White(s[|s| - 1]))
    ensures Trim(s) == s
  {}

  // ---------------------------------------------------------------------------
  // The component-based validator

  datatype Component = Normal(part: string) | CurDir | ParentDir

  // std::path components of a relative path: empty and inner `.` pieces vanish.
  function Components(pieces: seq<string>, first: bool): seq<Component> {
    if pieces == [] then []
    else
      var p := pieces[0];
      (if p == "" then []
       else if p == "." then (if first then [CurDir] else [])
       else if p == ".." then [ParentDir]
       else [Normal(p)])
      + Components(pieces[1..], false)
  }

  // The early refusals, before the path is taken apart.
  predicate Refused(s: string) {
    s == "" || Trim(s) != s || s[0] == '/' || s[|s| - 1] == '/' || '\\' in s
    || exists i :: 0 <= i < |s| && WhiteOrControl(s[i])
  }

  lemma {:induction false} ComponentsOfValid(segs: seq<string>, first: bool)
    requires forall i :: 0 <= i < |segs| ==> ValidSegment(segs[i])
    ensures |Components(segs, first)| == |segs|
    ensures forall i :: 0 <= i < |segs| ==> Components(segs, first)[i] == Normal(segs[i])
  {
    if segs != [] { ComponentsOfValid(segs[1..], false); }
  }

  lemma {:induction false} NormalParts(pieces: seq<string>, first: bool, c: Component)
    requires c in Components(pieces, first) && c.Normal?
    ensures c.part in pieces && c.part != "" && c.part != "." && c.part != ".."
  {
    if c in Components(pieces[1..], false) { NormalParts(pieces[1..], false, c); }
  }

  /** `validate_storage_key` */
  method ValidateStorageKey(value: string) returns (ok: bool)
    ensures ok <==> ValidKey(value)
  {
    if Refused(value) {
      NotRefused(value);
      return false;
    }
    var components := Components(Segments(value), true);
    var parts: seq<string> := [];
    for k := 0 to |components|
      invariant |parts| == k
      invariant forall i :: 0 <= i < k ==> components[i] == Normal(parts[i]) && ValidSegment(parts[i])
    {
      match components[k] {
        case Normal(part) =>
          if part == "" || !AllSafe(part) {
            InvalidComponent(value, k);
            return false;
          }
          NormalParts(Segments(value), true, components[k]);
          parts := parts + [part];
        case _ =>
          InvalidComponent(value, k);
          return false;
      }
    }
    ok := parts != [] && Join(parts, '/') == value;
    if ok { PartsAreSegments(value, parts); } else { PartsOfValid(value, parts); }
  }

  lemma {:induction false} NotRefused(s: string)
    ensures ValidKey(s) ==> !Refused(s)
  {
    if ValidKey(s) {
      ValidKeyChars(s);
      TrimIdentity(s);
    }
  }

  lemma {:induction false} InvalidComponent(s: string, k: nat)
    requires k < |Components(Segments(s), true)|
    requires var c := Components(Segments(s), true)[k]; c.Normal? ==> c.part == "" || !AllSafe(c.part)
    ensures !ValidKey(s)
  {
    if ValidKey(s) { ComponentsOfValid(Segments(s), true); }
  }

  lemma {:induction false} PartsAreSegments(s: string, parts: seq<string>)
    requires parts != [] && Join(parts, '/') == s && forall i :: 0 <= i < |parts| ==> ValidSegment(parts[i])
    ensures ValidKey(s)
  {
    SplitJoin(parts, '/', IsSlash);
  }

  lemma {:induction false} PartsOfValid(s: string, parts: seq<string>)
    requires |parts| == |Components(Segments(s), true)|
    requires forall i :: 0 <= i < |parts| ==> Components(Segments(s), true)[i] == Normal(parts[i])
    ensures ValidKey(s) ==> parts != [] && Join(parts, '/') == s
  {
    if ValidKey(s) {
      ComponentsOfValid(Segments(s), true);
      assert parts == Segments(s);
      SegmentsJoin(s);
    }
  }

  // ---------------------------------------------------------------------------
  // The published pattern ^(?!.*(?:^|/)\.{1,2}(?:/|$))[A-Za-z0-9_.-]+(?:/[A-Za-z0-9_.-]+)*$

  // A match of (?:^|/)\.{1,2}(?:/|$) whose dots are s[i..i+k].
  predicate DotsAt(s: string, i: int, k: int) {
    && 0 <= i && 1 <= k <= 2 && i + k <= |s|
    && (i == 0 || s[i - 1] == '/')
    && (forall j :: i <= j < i + k ==> s[j] == '.')
    && (i + k == |s| || s[i + k] == '/')
  }

  predicate LineEnd(c: char) { c == '\n' || c == '\r' || c == '\U{2028}' || c == '\U{2029}' }

  // `.` does not cross line ends.
  ghost predicate LookaheadHits(s: string) {
    exists i, k :: DotsAt(s, i, k) && forall j :: 0 <= j < i - 1 ==> !LineEnd(s[j])
  }

  // The class [A-Za-z0-9_.-] as its ranges.
  const CLASS: seq<(char, char)> := [('A', 'Z'), ('a', 'z'), ('0', '9'), ('_', '_'), ('.', '.'), ('-', '-')]

  predicate InClass(c: char) { exists r | r in CLASS :: r.0 <= c <= r.1 }

  predicate AllInClass(s: string) { forall i :: 0 <= i < |s| ==> InClass(s[i]) }

  ghost predicate SegmentsMatch(s: string) {
    exists segs: seq<string> ::
      segs != [] && Join(segs, '/') == s && forall i :: 0 <= i < |segs| ==> segs[i] != "" && AllInClass(segs[i])
  }

  // The class holds exactly the characters that the validators' byte test lets through.
  lemma {:induction false} ClassIff(c: char)
    ensures InClass(c) <==> Safe(c)
  {
    assert CLASS[0] in CLASS && CLASS[1] in CLASS && CLASS[2] in CLASS;
    assert CLASS[3] in CLASS && CLASS[4] in CLASS && CLASS[5] in CLASS;
    assert forall r :: r in CLASS ==> exists k :: 0 <= k < 6 && r == CLASS[k];
  }

  lemma {:induction false} AllInClassIff(s: string)
    ensures AllInClass(s) <==> AllSafe(s)
  {
    hide InClass, Safe;
    forall c ensures InClass(c) <==> Safe(c) { ClassIff(c); }
  }

  ghost predicate MatchesPattern(s: string) { !LookaheadHits(s) && SegmentsMatch(s) }

  lemma {:induction false} ClassSegment(seg: string)
    ensures AllInClass(seg) <==> AllSafe(seg)
    ensures AllSafe(seg) ==> Free(seg, IsSlash)
  {
    AllInClassIff(seg);
  }

  lemma {:induction false} SegmentsMatchIff(s: string)
    ensures SegmentsMatch(s) <==> forall i :: 0 <= i < |Segments(s)| ==> Segments(s)[i] != "" && AllSafe(Segments(s)[i])
  {
    hide AllInClass, AllSafe, Free;
    SegmentsJoin(s);
    forall seg ensures (AllInClass(seg) <==> AllSafe(seg)) && (AllSafe(seg) ==> Free(seg, IsSlash)) { ClassSegment(seg); }
    if SegmentsMatch(s) {
      var segs: seq<string> :| segs != [] && Join(segs, '/') == s
        && forall i :: 0 <= i < |segs| ==> segs[i] != "" && AllInClass(segs[i]);
      SplitJoin(segs, '/', IsSlash);
    }
  }

  predicate DotSegment(seg: string) { seg == "." || seg == ".." }

  ghost predicate HasDots(s: string) { exists i, k :: DotsAt(s, i, k) }

  ghost predicate HasDotSegment(segs: seq<string>) { exists i :: 0 <= i < |segs| && DotSegment(segs[i]) }

  // Dots at the start of a joined path are its first segment.
  lemma {:induction false} DotsAtStart(s: string, head: string, k: int)
    requires |head| <= |s| && s[..|head|] == head && Free(head, IsSlash) && (|s| == |head| || s[|head|] == '/')
    ensures DotsAt(s, 0, k) <==> DotSegment(head) && k == |head|
  {
    assert forall j :: 0 <= j < |head| ==> s[j] == head[j];
    assert |head| < |s| ==> s[|head|] == '/';
    assert DotsAt(s, 0, k) && k < |head| ==> s[k] == '/' && IsSlash(head[k]);
    assert DotsAt(s, 0, k) && k == |head| ==> head == s[..k];
  }

  // Dots in a joined path are in its first segment or in the rest.
  lemma {:induction false} DotsSplit(s: string, head: string, tail: string)
    requires s == head + ['/'] + tail && Free(head, IsSlash)
    ensures HasDots(s) <==> DotSegment(head) || HasDots(tail)
  {
    var n := |head| + 1;
    if DotSegment(head) {
      DotsAtStart(s, head, |head|);
    }
    if i, k :| DotsAt(tail, i, k) {
      ShiftDots(s, tail, n, i, k);
    }
    if i, k :| DotsAt(s, i, k) {
      DotsAtStart(s, head, k);
      assert 0 < i <= |head| ==> s[i - 1] == head[i - 1] && !IsSlash(head[i - 1]);
      if i != 0 { ShiftDots(s, tail, n, i - n, k); }
    }
  }

  lemma {:induction false} HasDotSegmentCons(segs: seq<string>)
    requires segs != []
    ensures HasDotSegment(segs) <==> DotSegment(segs[0]) || HasDotSegment(segs[1..])
  {
    if i :| 0 <= i < |segs[1..]| && DotSegment(segs[1..][i]) { assert DotSegment(segs[i + 1]); }
    if i :| 0 < i < |segs| && DotSegment(segs[i]) { assert DotSegment(segs[1..][i - 1]); }
  }

  // A dot segment of joined segments sits at some position, and conversely.
  lemma {:induction false} DotsPosition(segs: seq<string>)
    requires segs != [] && forall i :: 0 <= i < |segs| ==> Free(segs[i], IsSlash)
    ensures HasDotSegment(segs) <==> HasDots(Join(segs, '/'))
  {
    hide DotsAt, DotSegment;
    var s, head := Join(segs, '/'), segs[0];
    HasDotSegmentCons(segs);
    if |segs| > 1 {
      DotsSplit(s, head, Join(segs[1..], '/'));
      DotsPosition(segs[1..]);
    } else {
      DotsAtStart(s, head, |head|);
      forall i, k | DotsAt(s, i, k) ensures DotSegment(head) { DotsInSegment(head, i, k); }
    }
  }

  lemma {:induction false} DotsInSegment(s: string, i: int, k: int)
    requires Free(s, IsSlash) && DotsAt(s, i, k)
    ensures DotSegment(s)
  {
    assert i != 0 ==> IsSlash(s[i - 1]);
    DotsAtStart(s, s, k);
  }

  lemma {:induction false} ShiftDots(s: string, tail: string, n: nat, i: int, k: int)
    requires 0 < n <= |s| && s[n..] == tail && s[n - 1] == '/'
    ensures i >= 0 ==> (DotsAt(s, n + i, k) <==> DotsAt(tail, i, k))
  {
    if i >= 0 {
      assert forall j :: 0 <= j < |tail| ==> tail[j] == s[n + j];
      if DotsAt(s, n + i, k) {
        forall j | i <= j < i + k ensures tail[j] == '.' { assert s[n + j] == '.'; }
      }
      if DotsAt(tail, i, k) {
        forall j | n + i <= j < n + i + k ensures s[j] == '.' { assert tail[j - n] == '.'; }
      }
    }
  }

  lemma {:induction false} NoLineEnd(s: string, i: nat)
    requires i < |s| && forall k :: 0 <= k < |Segments(s)| ==> AllSafe(Segments(s)[k])
    ensures !LineEnd(s[i])
  {
    SegmentsJoin(s);
    JoinChars(Segments(s), s[i]);
  }

  lemma {:induction false} DotsAreInside(s: string)
    ensures forall i, k :: DotsAt(s, i, k) ==> 0 <= i <= |s|
  {}

  /** The published pattern accepts exactly the valid keys. */
  lemma {:induction false} PatternIff(s: string)
    ensures MatchesPattern(s) <==> ValidKey(s)
  {
    hide SegmentsMatch, AllSafe, LineEnd, DotsAt;
    SegmentsMatchIff(s);
    SegmentsJoin(s);
    forall seg | seg in Segments(s) ensures Free(seg, IsSlash) { SplitPieces(s, IsSlash, seg); }
    DotsPosition(Segments(s));
    if SegmentsMatch(s) {
      forall i | 0 <= i < |s| ensures !LineEnd(s[i]) { NoLineEnd(s, i); }
    }
    DotsAreInside(s);
    assert LookaheadHits(s) ==> HasDots(s);
    assert HasDots(s) && SegmentsMatch(s) ==> LookaheadHits(s);
    assert ValidKey(s) <==> SegmentsMatch(s) && !HasDotSegment(Segments(s));
  }

  // Nonempty segments over the literal class, none `.` or `..`, joined by slashes.
  ghost predicate MadeOf(s: string, segs: seq<string>) {
    && segs != [] && Join(segs, '/') == s
    && forall i :: 0 <= i < |segs| ==> segs[i] != "" && AllInClass(segs[i]) && segs[i] != "." && segs[i] != ".."
  }

  /** The valid keys are exactly what such segments make. */
  lemma {:induction false} KeyIff(s: string)
    ensures ValidKey(s) <==> exists segs :: MadeOf(s, segs)
  {
    forall seg ensures AllInClass(seg) <==> AllSafe(seg) { AllInClassIff(seg); }
    hide AllInClass, AllSafe;
    if ValidKey(s) {
      SegmentsJoin(s);
      assert forall i :: 0 <= i < |Segments(s)| ==> ValidSegment(Segments(s)[i]);
      assert MadeOf(s, Segments(s));
    }
    if segs :| MadeOf(s, segs) {
      PartsAreSegments(s, segs);
    }
  }

  // ---------------------------------------------------------------------------
  // The S3 prefix validator

  // Its own byte test.
  predicate S3Safe(c: char) {
    !WhiteOrControl(c)
    && ('a' <= c <= 'z' || 'A' <= c <= 'Z' || '0' <= c <= '9' || c == '_' || c == '-' || c == '.')
  }

  /** `validate_s3_prefix` */
  predicate ValidateS3Prefix(value: Option<string>) {
    value.None? || Trim(value.value) == "" ||
    var prefix := Trim(value.value);
    && prefix[0] != '/' && prefix[|prefix| - 1] != '/' && '\\' !in prefix
    && forall i :: 0 <= i < |Segments(prefix)| ==>
         var c := Segments(prefix)[i];
         c != "" && c != "." && c != ".."
         && forall j :: 0 <= j < |c| ==> S3Safe(c[j])
  }

  /** On nonempty trimmed input it accepts exactly the valid keys. */
  lemma {:induction false} S3PrefixIff(value: string)
    requires Trim(value) != ""
    ensures ValidateS3Prefix(Some(value)) <==> ValidKey(Trim(value))
  {
    var prefix := Trim(value);
    if ValidKey(prefix) {
      ValidKeyChars(prefix);
      forall i | 0 <= i < |Segments(prefix)| ensures ValidSegment(Segments(prefix)[i]) {}
    }
    if ValidateS3Prefix(Some(value)) {
      forall i | 0 <= i < |Segments(prefix)| ensures ValidSegment(Segments(prefix)[i]) {
        var c := Segments(prefix)[i];
        assert forall j :: 0 <= j < |c| ==> S3Safe(c[j]);
      }
    }
  }
}
