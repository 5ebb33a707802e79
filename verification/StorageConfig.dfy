/** Reading the phases and slot classes that a storage plan is made from. */
module StorageConfig {
  import opened Options
  import opened ByteStrings
  import opened Sorting
  import opened Splitting
  import StorageKey
  import opened StoragePlan

  // A comma or ASCII white space.
  predicate Separates(c: char) { c == ',' || c == ' ' || c == '\t' || c == '\n' || c == '\U{0C}' || c == '\r' }

  // By code point: comma, tab, line feed, form feed, carriage return, space.
  lemma {:induction false} SeparatesIff(c: char)
    ensures Separates(c) <==> c as int in [44, 9, 10, 12, 13, 32]
  {
    assert forall k :: k in [44, 9, 10, 12, 13, 32] <==> k == 44 || k == 9 || k == 10 || k == 12 || k == 13 || k == 32;
  }

  // What is between separators, trimmed, without empty pieces.
  function Trimmed(raw: seq<string>): seq<string> {
    if raw == [] then []
    else
      var piece := StorageKey.Trim(raw[|raw| - 1]);
      Trimmed(raw[..|raw| - 1]) + if piece == "" then [] else [piece]
  }

  function Pieces(value: string): seq<string> { Trimmed(Split(value, Separates)) }

  lemma {:induction false} TrimmedIn(raw: seq<string>, piece: string)
    ensures piece in Trimmed(raw) <==> piece != "" && exists r :: r in raw && piece == StorageKey.Trim(r)
  {
    hide StorageKey.Trim;
    if raw != [] {
      var front, last := raw[..|raw| - 1], raw[|raw| - 1];
      TrimmedIn(front, piece);
      assert raw == front + [last];
      assert forall r :: r in raw <==> r in front || r == last;
    }
  }

  /** The pieces of a setting are what lies between separators, trimmed, if anything is left. */
  lemma {:induction false} PiecesIff(value: string, piece: string)
    ensures piece in Pieces(value) <==>
      piece != "" && exists i, j :: Between(value, Separates, i, j) && piece == StorageKey.Trim(value[i..j])
  {
    hide StorageKey.Trim, Separates;
    TrimmedIn(Split(value, Separates), piece);
    if piece in Pieces(value) {
      var r :| r in Split(value, Separates) && piece == StorageKey.Trim(r);
      PieceIff(value, Separates, r);
    }
    if i, j :| Between(value, Separates, i, j) && piece == StorageKey.Trim(value[i..j]) {
      PieceIff(value, Separates, value[i..j]);
    }
  }

  // ---------------------------------------------------------------------------
  // Phases

  /** `DgxPhase::from_str` */
  function PhaseFromText(value: string): Option<Phase> {
    var t := StorageKey.Trim(value);
    if t == "solution-setup" then Some(SolutionSetup)
    else if t == "solution-build" then Some(SolutionBuild)
    else if t == "solution-run" then Some(SolutionRun)
    else if t == "evaluator-setup" then Some(EvaluatorSetup)
    else if t == "evaluator-score" then Some(EvaluatorScore)
    else None
  }

  /** Text is a phase exactly when, trimmed, it is that phase's text: nothing else is one. */
  lemma {:induction false} PhaseFromTextIff(value: string, p: Phase)
    ensures PhaseFromText(value) == Some(p) <==> StorageKey.Trim(value) == PhaseText(p)
  {
    var t := StorageKey.Trim(value);
    assert |"solution-setup"| == 14 && |"solution-build"| == 14 && |"solution-run"| == 12;
    assert |"evaluator-setup"| == 15 && |"evaluator-score"| == 15;
    assert "solution-setup"[9] == 's' && "solution-build"[9] == 'b';
    assert "evaluator-setup"[11] == 'e' && "evaluator-score"[11] == 'c';
  }

  lemma {:induction false} PhaseTextParses(p: Phase)
    ensures StorageKey.Trim(PhaseText(p)) == PhaseText(p) && PhaseFromText(PhaseText(p)) == Some(p)
  {
    var t := PhaseText(p);
    assert !StorageKey.White(t[0]) && !StorageKey.White(t[|t| - 1]);
    StorageKey.TrimIdentity(t);
  }

  predicate AllPhases(pieces: seq<string>) {
    forall i :: 0 <= i < |pieces| ==> PhaseFromText(pieces[i]).Some?
  }

  // Each phase once, in the order of first mention.
  function Mentioned(pieces: seq<string>): seq<Phase>
    requires AllPhases(pieces)
  {
    if pieces == [] then []
    else
      var front, p := Mentioned(pieces[..|pieces| - 1]), PhaseFromText(pieces[|pieces| - 1]).value;
      if p in front then front else front + [p]
  }

  ghost predicate Mentions(pieces: seq<string>, p: Phase) {
    exists i :: 0 <= i < |pieces| && PhaseFromText(pieces[i]) == Some(p)
  }

  /** Exactly the phases mentioned, none twice. */
  lemma {:induction false} MentionedMembers(pieces: seq<string>)
    requires AllPhases(pieces)
    ensures NoRepeats(Mentioned(pieces)) && forall p :: p in Mentioned(pieces) <==> Mentions(pieces, p)
  {
    hide PhaseFromText;
    if pieces != [] {
      var front, last := pieces[..|pieces| - 1], pieces[|pieces| - 1];
      MentionedMembers(front);
      var p := PhaseFromText(last).value;
      forall q ensures Mentions(pieces, q) <==> Mentions(front, q) || q == p {
        if i :| 0 <= i < |front| && PhaseFromText(front[i]) == Some(q) { assert pieces[i] == front[i]; }
        if i :| 0 <= i < |pieces| && PhaseFromText(pieces[i]) == Some(q) { assert i < |front| ==> front[i] == pieces[i]; }
      }
      if p !in Mentioned(front) { NoRepeatsAppend(Mentioned(front), p); }
    }
  }

  /** `parse_phases`: fails exactly on an unknown phase or on no phase at all. */
  method ParsePhases(value: string) returns (r: Option<seq<Phase>>)
    ensures r == if AllPhases(Pieces(value)) && Pieces(value) != [] then Some(Mentioned(Pieces(value))) else None
  {
    hide PhaseFromText, StorageKey.Trim, Trimmed, Mentioned, AllPhases;
    var raw := Split(value, Separates);
    var phases: seq<Phase> := [];
    NothingMentioned(raw);
    for i := 0 to |raw|
      invariant AllPhases(Trimmed(raw[..i])) && phases == Mentioned(Trimmed(raw[..i]))
    {
      OnePiece(raw, i);
      var piece := StorageKey.Trim(raw[i]);
      if piece == "" { continue; }
      var phase := PhaseFromText(piece);
      OneMention(Trimmed(raw[..i]), piece);
      if phase.None? {
        UnknownPhase(Trimmed(raw), Trimmed(raw[..i]), piece);
        return None;
      }
      if phase.value !in phases { phases := phases + [phase.value]; }
    }
    assert raw[..|raw|] == raw;
    NoneMentioned(Pieces(value));
    if phases == [] { return None; }
    r := Some(phases);
  }

  lemma {:induction false} NothingMentioned(raw: seq<string>)
    ensures AllPhases(Trimmed(raw[..0])) && Mentioned(Trimmed(raw[..0])) == []
  {}

  lemma {:induction false} UnknownPhase(pieces: seq<string>, front: seq<string>, piece: string)
    requires front + [piece] <= pieces && PhaseFromText(piece).None?
    ensures !AllPhases(pieces)
  {
    hide PhaseFromText;
    assert pieces[|front|] == (front + [piece])[|front|] == piece;
  }

  lemma {:induction false} OneMention(pieces: seq<string>, piece: string)
    requires AllPhases(pieces)
    ensures AllPhases(pieces + [piece]) <==> PhaseFromText(piece).Some?
    ensures PhaseFromText(piece).Some? ==>
      var p, before := PhaseFromText(piece).value, Mentioned(pieces);
      Mentioned(pieces + [piece]) == if p in before then before else before + [p]
  {
    hide PhaseFromText;
    var more := pieces + [piece];
    assert more[..|more| - 1] == pieces && more[|pieces|] == piece;
  }

  lemma {:induction false} NoneMentioned(pieces: seq<string>)
    requires AllPhases(pieces)
    ensures Mentioned(pieces) == [] <==> pieces == []
  {
    hide PhaseFromText;
    MentionedMembers(pieces);
    assert pieces != [] ==> Mentions(pieces, PhaseFromText(pieces[0]).value);
  }

  lemma {:induction false} OnePiece(raw: seq<string>, i: nat)
    requires i < |raw|
    ensures var piece := StorageKey.Trim(raw[i]);
      Trimmed(raw[..i + 1]) == if piece == "" then Trimmed(raw[..i]) else Trimmed(raw[..i]) + [piece]
    ensures Trimmed(raw[..i + 1]) <= Trimmed(raw)
  {
    assert raw[..i + 1][..i] == raw[..i];
    TrimmedPrefix(raw, i + 1);
  }

  lemma {:induction false} TrimmedPrefix(raw: seq<string>, i: nat)
    requires i <= |raw|
    ensures Trimmed(raw[..i]) <= Trimmed(raw)
  {
    if i < |raw| {
      TrimmedPrefix(raw[..|raw| - 1], i);
      assert raw[..|raw| - 1][..i] == raw[..i];
    } else {
      assert raw[..i] == raw;
    }
  }

  function Texts(phases: seq<Phase>): (r: seq<string>)
    ensures |r| == |phases| && forall i :: 0 <= i < |r| ==> r[i] == PhaseText(phases[i])
  {
    seq(|phases|, i requires 0 <= i < |phases| => PhaseText(phases[i]))
  }

  lemma {:induction false} TextsTrimmed(phases: seq<Phase>, i: nat)
    requires i <= |phases|
    ensures Trimmed(Texts(phases)[..i]) == Texts(phases)[..i]
  {
    hide PhaseText, StorageKey.Trim, PhaseFromText, Trimmed, Separates, Texts;
    if i > 0 {
      TextsTrimmed(phases, i - 1);
      PhaseTextParses(phases[i - 1]);
      NoSeparators(phases[i - 1]);
      OnePiece(Texts(phases), i - 1);
    } else {
      NothingTrimmed(Texts(phases));
    }
  }

  lemma {:induction false} NothingTrimmed(raw: seq<string>)
    ensures Trimmed(raw[..0]) == []
  {}

  lemma {:induction false} NoSeparators(p: Phase)
    ensures PhaseText(p) != "" && Free(PhaseText(p), Separates)
  {}

  lemma {:induction false} MentionedTexts(phases: seq<Phase>)
    requires NoRepeats(phases)
    ensures AllPhases(Texts(phases)) && Mentioned(Texts(phases)) == phases
  {
    hide PhaseText, PhaseFromText;
    forall i | 0 <= i < |phases| ensures PhaseFromText(PhaseText(phases[i])) == Some(phases[i]) {
      PhaseTextParses(phases[i]);
    }
    if phases != [] {
      var front, last := phases[..|phases| - 1], phases[|phases| - 1];
      MentionedTexts(front);
      assert Texts(phases)[..|phases| - 1] == Texts(front);
      assert phases == front + [last] && last !in front;
    }
  }

  /** Printing phases with commas and reading them back gives the same phases in the same order. */
  lemma {:induction false} PhasesRoundTrip(phases: seq<Phase>)
    requires NoRepeats(phases) && phases != []
    ensures var pieces := Pieces(Join(Texts(phases), ','));
      AllPhases(pieces) && pieces != [] && Mentioned(pieces) == phases
  {
    hide PhaseText, PhaseFromText;
    forall i | 0 <= i < |phases| ensures Free(Texts(phases)[i], Separates) { NoSeparators(phases[i]); }
    SplitJoin(Texts(phases), ',', Separates);
    TextsTrimmed(phases, |phases|);
    assert Texts(phases)[..|phases|] == Texts(phases);
    MentionedTexts(phases);
  }

  // ---------------------------------------------------------------------------
  // Slot classes

  predicate IsDigit(c: char) { '0' <= c <= '9' }

  function DigitsValue(s: string): nat
    requires forall i :: 0 <= i < |s| ==> IsDigit(s[i])
  {
    if s == "" then 0 else assert IsDigit(s[|s| - 1]); DigitsValue(s[..|s| - 1]) * 10 + (s[|s| - 1] as int - '0' as int)
  }

  /** `str::parse::<u64>`: an optional plus sign, then digits whose value fits. */
  function ParseU64(s: string): Option<nat> {
    var digits := if s != "" && s[0] == '+' then s[1..] else s;
    if digits == "" || exists i :: 0 <= i < |digits| && !IsDigit(digits[i]) then None
    else if DigitsValue(digits) >= U64 then None
    else Some(DigitsValue(digits))
  }

  // The decimal digits of n as text.
  function DecimalText(n: nat): (r: string)
    ensures |r| > 0
  {
    if n < 10 then [('0' as int + n) as char] else DecimalText(n / 10) + [('0' as int + n % 10) as char]
  }

  lemma {:induction false} DecimalDigitsValue(n: nat)
    ensures forall i :: 0 <= i < |DecimalText(n)| ==> IsDigit(DecimalText(n)[i])
    ensures DigitsValue(DecimalText(n)) == n
  {
    var s := DecimalText(n);
    if n >= 10 {
      DecimalDigitsValue(n / 10);
      assert s[..|s| - 1] == DecimalText(n / 10);
    } else {
      assert s[..0] == "";
      assert DigitsValue(s) == DigitsValue(s[..0]) * 10 + n;
    }
  }

  /** The decimal text of a number parses to it, with or without a plus sign, exactly if it fits 64
      bits. */
  lemma {:induction false} DecimalParses(n: nat)
    ensures ParseU64(DecimalText(n)) == (if n < U64 then Some(n) else None)
    ensures ParseU64("+" + DecimalText(n)) == ParseU64(DecimalText(n))
  {
    hide DigitsValue;
    var s := DecimalText(n);
    DecimalDigitsValue(n);
    assert IsDigit(s[0]);
    assert ("+" + s)[1..] == s;
  }

  // For example, in base ten.
  lemma {:induction false} ClassText()
    ensures DecimalText(1024) == "1024" && ParseU64("1024") == Some(1024)
  {
    DecimalParses(1024);
    assert DecimalText(10) == "1" + "0";
    assert DecimalText(102) == DecimalText(10) + "2";
    assert DecimalText(1024) == DecimalText(102) + "4";
  }

  predicate NamesClass(piece: string) { ParseU64(piece).Some? && ParseU64(piece).value > 0 }

  predicate AllClasses(pieces: seq<string>) { forall i :: 0 <= i < |pieces| ==> NamesClass(pieces[i]) }

  ghost predicate ClassNamed(pieces: seq<string>, c: nat) {
    exists i :: 0 <= i < |pieces| && ParseU64(pieces[i]) == Some(c)
  }

  predicate NatLe(a: nat, b: nat) { a <= b }

  // Exactly the named classes, strictly ascending.
  ghost predicate ListsClasses(pieces: seq<string>, classes: seq<nat>) {
    Listed(classes, NatLe) && forall c :: c in classes <==> ClassNamed(pieces, c)
  }

  // `dedup`: drops an element equal to the last one kept.
  method Dedup(xs: seq<nat>) returns (r: seq<nat>)
    requires SortedBy(xs, NatLe)
    ensures Listed(r, NatLe) && forall x :: x in r <==> x in xs
  {
    r := [];
    for i := 0 to |xs|
      invariant Listed(r, NatLe) && forall x :: x in r <==> x in xs[..i]
      invariant if i == 0 then r == [] else r != [] && r[|r| - 1] == xs[i - 1]
    {
      assert xs[..i + 1] == xs[..i] + [xs[i]];
      assert i > 0 ==> NatLe(xs[i - 1], xs[i]);
      if r == [] || r[|r| - 1] != xs[i] {
        AppendLarger(r, xs[i]);
        r := r + [xs[i]];
      }
    }
    assert xs[..|xs|] == xs;
  }

  lemma {:induction false} AppendLarger(r: seq<nat>, x: nat)
    requires Listed(r, NatLe) && (r != [] ==> r[|r| - 1] < x)
    ensures Listed(r + [x], NatLe)
  {
    assert forall i :: 0 <= i < |r| ==> NatLe(r[i], r[|r| - 1]);
  }

  // What the parser has collected from the pieces so far.
  ghost predicate Collected(pieces: seq<string>, classes: seq<nat>) {
    && AllClasses(pieces) && |classes| == |pieces|
    && forall k :: 0 <= k < |classes| ==> ParseU64(pieces[k]) == Some(classes[k])
  }

  lemma {:induction false} CollectedStep(pieces: seq<string>, classes: seq<nat>, piece: string)
    requires Collected(pieces, classes)
    ensures NamesClass(piece) ==> Collected(pieces + [piece], classes + [ParseU64(piece).value])
  {
    hide ParseU64;
  }

  lemma {:induction false} BadPiece(pieces: seq<string>, front: seq<string>, piece: string)
    requires front + [piece] <= pieces && !NamesClass(piece)
    ensures !AllClasses(pieces)
  {
    assert pieces[|front|] == (front + [piece])[|front|] == piece;
  }

  /** `parse_slot_classes`: fails exactly on a piece that is not a positive number or on no piece at all. */
  method ParseSlotClasses(value: string) returns (r: Option<seq<nat>>)
    ensures r.Some? <==> AllClasses(Pieces(value)) && Pieces(value) != []
    ensures r.Some? ==> ListsClasses(Pieces(value), r.value)
  {
    hide ParseU64, StorageKey.Trim, Trimmed, AllClasses, Collected, Listed, ClassNamed;
    var raw := Split(value, Separates);
    var classes: seq<nat> := [];
    NothingCollected(raw);
    for i := 0 to |raw|
      invariant Collected(Trimmed(raw[..i]), classes)
    {
      OnePiece(raw, i);
      var piece := StorageKey.Trim(raw[i]);
      if piece == "" { continue; }
      CollectedStep(Trimmed(raw[..i]), classes, piece);
      var parsed := ParseU64(piece);
      if parsed.None? || parsed.value == 0 {
        BadPiece(Trimmed(raw), Trimmed(raw[..i]), piece);
        return None;
      }
      classes := classes + [parsed.value];
    }
    assert raw[..|raw|] == raw;
    ParsedMembers(Pieces(value), classes);
    r := SortedClasses(classes);
  }

  lemma {:induction false} NothingCollected(raw: seq<string>)
    ensures Collected(Trimmed(raw[..0]), [])
  {}

  // The end of the parser: sort, drop repeats, refuse an empty list.
  method SortedClasses(classes: seq<nat>) returns (r: Option<seq<nat>>)
    ensures r.None? <==> classes == []
    ensures r.Some? ==> Listed(r.value, NatLe) && forall c :: c in r.value <==> c in classes
  {
    hide Listed;
    SortSorted(classes, NatLe);
    SameElements(Sort(classes, NatLe), classes);
    var unique := Dedup(Sort(classes, NatLe));
    assert classes != [] ==> classes[0] in unique;
    assert unique != [] ==> unique[0] in classes;
    r := if unique == [] then None else Some(unique);
  }

  lemma {:induction false} ParsedMembers(pieces: seq<string>, classes: seq<nat>)
    requires Collected(pieces, classes)
    ensures AllClasses(pieces) && (classes == [] <==> pieces == [])
    ensures forall c :: c in classes <==> ClassNamed(pieces, c)
  {
    hide ParseU64;
    forall c | c in classes ensures ClassNamed(pieces, c) {
      var k :| 0 <= k < |classes| && classes[k] == c;
      assert ParseU64(pieces[k]) == Some(c);
    }
  }

  /** Texts that name the same classes, in any order and however often, are read alike. */
  lemma {:induction false} ClassesDetermined(a: seq<string>, b: seq<string>, x: seq<nat>, y: seq<nat>)
    requires ListsClasses(a, x) && ListsClasses(b, y)
    ensures x == y <==> forall c :: ClassNamed(a, c) <==> ClassNamed(b, c)
  {
    hide ClassNamed;
    if forall c :: ClassNamed(a, c) <==> ClassNamed(b, c) { OneListing(x, y, NatLe); }
  }
}
