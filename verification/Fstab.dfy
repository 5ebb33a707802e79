/** The fstab step: how a mount entry is recognised, and what appending one does. */
module Fstab {
  import opened ByteStrings
  import opened Splitting

  const NEWLINE: Byte := 10
  const SPACE: Byte := 32

  predicate IsNewline(b: Byte) { b == NEWLINE }

  // u8::is_ascii_whitespace
  predicate IsSpace(b: Byte) { b == SPACE || b == 9 || b == NEWLINE || b == 12 || b == 13 }

  function NonEmpty(parts: seq<Bytes>): seq<Bytes> {
    if parts == [] then [] else (if parts[0] == [] then [] else [parts[0]]) + NonEmpty(parts[1..])
  }

  function Words(line: Bytes): seq<Bytes> { NonEmpty(Split(line, IsSpace)) }

  function Lines(bytes: Bytes): (r: seq<Bytes>)
    ensures |r| > 0
  {
    Split(bytes, IsNewline)
  }

  predicate NamesMount(line: Bytes, mount: Bytes) { |Words(line)| >= 2 && Words(line)[1] == mount }

  /** `fstab_has_mount_entry` */
  predicate HasMountEntry(bytes: Bytes, mount: Bytes) {
    exists line :: line in Lines(bytes) && NamesMount(line, mount)
  }

  // `xfs loop,prjquota,nofail 0 0`
  function MountOptions(): Bytes { Ascii("xfs") + [SPACE] + Ascii("loop,prjquota,nofail 0 0") }

  // The printed entry without its newline.
  function Entry(image: Bytes, mount: Bytes): Bytes {
    image + [SPACE] + mount + [SPACE] + MountOptions()
  }

  function EndLine(current: Bytes): Bytes {
    if current != [] && current[|current| - 1] != NEWLINE then current + [NEWLINE] else current
  }

  function Append(current: Bytes, image: Bytes, mount: Bytes): Bytes {
    EndLine(current) + Entry(image, mount) + [NEWLINE]
  }

  /** `ensure_fstab_entry` as a change to the file's bytes (empty when the file is absent). */
  function Ensure(current: Bytes, image: Bytes, mount: Bytes): Bytes {
    if HasMountEntry(current, mount) then current else Append(current, image, mount)
  }

  // ---------------------------------------------------------------------------
  // Words

  lemma {:induction false} NonEmptyConcat(a: seq<Bytes>, b: seq<Bytes>)
    ensures NonEmpty(a + b) == NonEmpty(a) + NonEmpty(b)
  {
    if a == [] {
      assert a + b == b;
    } else {
      var first: seq<Bytes> := if a[0] == [] then [] else [a[0]];
      var rest, more := NonEmpty(a[1..]), NonEmpty(b);
      assert NonEmpty(a + b) == first + (rest + more) by {
        NonEmptyConcat(a[1..], b);
        assert (a + b)[1..] == a[1..] + b;
      }
      assert first + (rest + more) == (first + rest) + more;
    }
  }

  lemma {:induction false} NonEmptyMembers(parts: seq<Bytes>, x: Bytes)
    requires x in NonEmpty(parts)
    ensures x in parts && x != []
  {
    if x in NonEmpty(parts[1..]) { NonEmptyMembers(parts[1..], x); }
  }

  // ---------------------------------------------------------------------------
  // Recognition

  predicate Plain(s: Bytes) { s != [] && forall i :: 0 <= i < |s| ==> !IsSpace(s[i]) }

  // Nothing with a space in it, and not the empty text, is ever recognised.
  lemma {:induction false} OnlyPlainRecognised(bytes: Bytes, mount: Bytes)
    requires HasMountEntry(bytes, mount)
    ensures Plain(mount)
  {
    var line :| line in Lines(bytes) && NamesMount(line, mount);
    assert mount in Words(line);
    NonEmptyMembers(Split(line, IsSpace), mount);
    SplitPieces(line, IsSpace, mount);
  }

  // ---------------------------------------------------------------------------
  // What naming a mount means

  // Tabs, line feeds, form feeds, carriage returns and spaces.
  predicate Blank(s: Bytes) { forall i :: 0 <= i < |s| ==> s[i] == 9 || s[i] == 10 || s[i] == 12 || s[i] == 13 || s[i] == 32 }

  // None of those, and not empty.
  predicate Solid(s: Bytes) { s != [] && forall i :: 0 <= i < |s| ==> !Blank([s[i]]) }

  predicate Ends(s: Bytes) { s == [] || Blank([s[0]]) }

  // The line is blanks, a word, blanks, and then the word m.
  ghost predicate SecondWord(line: Bytes, m: Bytes) {
    exists a, w, b, c :: line == a + w + b + m + c && Blank(a) && Solid(w) && Blank(b) && b != [] && Solid(m) && Ends(c)
  }

  lemma {:induction false} SolidIsPlain(s: Bytes)
    ensures Solid(s) <==> Plain(s)
    ensures forall x :: Blank([x]) <==> IsSpace(x)
  {
    forall x ensures Blank([x]) <==> IsSpace(x) { assert [x][0] == x; }
  }

  lemma {:induction false} WordsSep(a: Bytes, x: Byte, b: Bytes)
    requires IsSpace(x)
    ensures Words(a + [x] + b) == Words(a) + Words(b)
  {
    SplitConcat(a, x, b, IsSpace);
    NonEmptyConcat(Split(a, IsSpace), Split(b, IsSpace));
  }

  lemma {:induction false} NoWords()
    ensures Words([]) == []
  {
    var parts := Split([], IsSpace);
    assert parts == [[]] && parts[1..] == [];
    assert NonEmpty(parts) == [] + NonEmpty([]);
  }

  lemma {:induction false} WordsAfterSpace(x: Byte, rest: Bytes)
    requires IsSpace(x)
    ensures Words([x] + rest) == Words(rest)
  {
    WordsSep([], x, rest);
    NoWords();
    assert [] + [x] + rest == [x] + rest && [] + Words(rest) == Words(rest);
  }

  lemma {:induction false} WordsAfterBlank(a: Bytes, rest: Bytes)
    requires Blank(a)
    ensures Words(a + rest) == Words(rest)
  {
    hide Words;
    if a == [] {
      assert a + rest == rest;
    } else {
      WordsAfterBlank(a[1..], rest);
      WordsAfterSpace(a[0], a[1..] + rest);
      assert a + rest == [a[0]] + (a[1..] + rest);
    }
  }

  lemma {:induction false} WordsFromSolid(w: Bytes, rest: Bytes)
    requires Solid(w) && Ends(rest)
    ensures Words(w + rest) == [w] + Words(rest)
  {
    SolidIsPlain(w);
    PlainWord(w);
    NoWords();
    if rest == [] {
      assert w + rest == w;
    } else {
      assert IsSpace(rest[0]);
      WordsSep(w, rest[0], rest[1..]);
      WordsAfterSpace(rest[0], rest[1..]);
      assert w + rest == w + [rest[0]] + rest[1..] && rest == [rest[0]] + rest[1..];
    }
  }

  // Up to the next blank.
  lemma {:induction false} TakeSolid(line: Bytes) returns (k: nat)
    requires line != [] && !IsSpace(line[0])
    ensures 0 < k <= |line| && Solid(line[..k]) && Ends(line[k..])
  {
    SolidIsPlain(line);
    k := 1;
    while k < |line| && !IsSpace(line[k])
      invariant 0 < k <= |line| && forall i :: 0 <= i < k ==> !IsSpace(line[i])
    {
      k := k + 1;
    }
  }

  lemma {:induction false} FirstWord(line: Bytes) returns (a: Bytes, w: Bytes, rest: Bytes)
    requires Words(line) != []
    ensures line == a + w + rest && Blank(a) && Solid(w) && Ends(rest) && Words(line) == [w] + Words(rest)
    decreases |line|
  {
    hide Words;
    NoWords();
    if IsSpace(line[0]) {
      WordsAfterSpace(line[0], line[1..]);
      assert line == [line[0]] + line[1..];
      var front;
      front, w, rest := FirstWord(line[1..]);
      a := [line[0]] + front;
      assert line == a + w + rest;
    } else {
      var k := TakeSolid(line);
      a, w, rest := [], line[..k], line[k..];
      assert line == w + rest == a + w + rest;
      WordsFromSolid(w, rest);
    }
  }

  /** A line names a mount exactly when that is the second of its words, words being runs of bytes
      between blanks. */
  lemma {:induction false} NamesMountIff(line: Bytes, m: Bytes)
    ensures NamesMount(line, m) <==> SecondWord(line, m)
  {
    hide Words, Blank, Solid, Ends;
    if NamesMount(line, m) {
      var a, w, rest := FirstWord(line);
      var b, v, c := FirstWord(rest);
      assert v == m;
      BlankBetween(rest, b, m, c);
      assert line == a + w + b + m + c;
    }
    if a, w, b, c :| line == a + w + b + m + c && Blank(a) && Solid(w) && Blank(b) && b != [] && Solid(m) && Ends(c) {
      assert line == a + (w + (b + (m + c)));
      WordsAfterBlank(a, w + (b + (m + c)));
      EndsBlank(b, m + c);
      WordsFromSolid(w, b + (m + c));
      WordsAfterBlank(b, m + c);
      WordsFromSolid(m, c);
      assert Words(line) == [w] + ([m] + Words(c));
    }
  }

  // A whole line: it holds no line feed, and there is one, or an end, on either side.
  predicate WholeLine(bytes: Bytes, i: int, j: int) {
    && 0 <= i <= j <= |bytes| && (forall k :: i <= k < j ==> bytes[k] != 10)
    && (i == 0 || bytes[i - 1] == 10) && (j == |bytes| || bytes[j] == 10)
  }

  /** An fstab has an entry for a mount exactly when that is the second word of one of its lines. */
  lemma {:induction false} HasMountEntryIff(bytes: Bytes, m: Bytes)
    ensures HasMountEntry(bytes, m) <==> exists i, j :: WholeLine(bytes, i, j) && SecondWord(bytes[i..j], m)
  {
    hide NamesMount, SecondWord;
    if HasMountEntry(bytes, m) {
      var line :| line in Lines(bytes) && NamesMount(line, m);
      NamesMountIff(line, m);
      PieceIff(bytes, IsNewline, line);
      var i, j :| Between(bytes, IsNewline, i, j) && line == bytes[i..j];
      assert WholeLine(bytes, i, j);
    }
    if i, j :| WholeLine(bytes, i, j) && SecondWord(bytes[i..j], m) {
      NamesMountIff(bytes[i..j], m);
      assert Between(bytes, IsNewline, i, j);
      PieceIff(bytes, IsNewline, bytes[i..j]);
    }
  }

  lemma {:induction false} BlankBetween(rest: Bytes, b: Bytes, m: Bytes, c: Bytes)
    requires rest == b + m + c && Solid(m)
    ensures Ends(rest) ==> b != []
  {
    if b == [] { assert rest[0] == m[0]; }
  }

  lemma {:induction false} EndsBlank(b: Bytes, rest: Bytes)
    requires Blank(b) && b != []
    ensures Ends(b + rest)
  {
    assert (b + rest)[0] == b[0];
  }

  // What is printed after the image path.
  function Rest(mount: Bytes): Bytes { [SPACE] + mount + [SPACE] + MountOptions() }

  function LastLine(s: Bytes): Bytes { Lines(s)[|Lines(s)| - 1] }

  lemma {:induction false} WordsConcat(a: Bytes, b: Bytes)
    ensures Words(a + [SPACE] + b) == Words(a) + Words(b)
  {
    SplitConcat(a, SPACE, b, IsSpace);
    NonEmptyConcat(Split(a, IsSpace), Split(b, IsSpace));
  }

  lemma {:induction false} PlainWord(s: Bytes)
    requires Plain(s)
    ensures Words(s) == [s]
  {
    SplitWhole(s, IsSpace);
    assert [s][1..] == [];
    assert NonEmpty([s]) == [s] + NonEmpty([]);
  }

  lemma {:induction false} PlainXfs()
    ensures Plain(Ascii("xfs"))
  {
    var xfs := Ascii("xfs");
    assert xfs[0] == "xfs"[0] as int && xfs[1] == "xfs"[1] as int && xfs[2] == "xfs"[2] as int;
  }

  lemma {:induction false} OptionsWords()
    ensures Words(MountOptions()) != [] && Words(MountOptions())[0] == Ascii("xfs")
  {
    PlainXfs();
    hide Words, Ascii;
    WordsConcat(Ascii("xfs"), Ascii("loop,prjquota,nofail 0 0"));
    PlainWord(Ascii("xfs"));
  }

  // The words of a line that ends in a printed mount and options.
  lemma {:induction false} RestWords(line: Bytes, mount: Bytes)
    requires Plain(mount)
    ensures Words(line + Rest(mount)) == Words(line) + ([mount] + Words(MountOptions()))
  {
    hide MountOptions;
    assert line + Rest(mount) == line + [SPACE] + (mount + [SPACE] + MountOptions());
    WordsConcat(line, mount + [SPACE] + MountOptions());
    WordsConcat(mount, MountOptions());
    PlainWord(mount);
  }

  lemma {:induction false} OptionsAreOneLine()
    ensures Free(MountOptions(), IsNewline)
  {
    var xfs, more := "xfs", "loop,prjquota,nofail 0 0";
    assert '\n' !in xfs && '\n' !in more;
    forall i | 0 <= i < |MountOptions()| ensures !IsNewline(MountOptions()[i]) {
      assert i < 3 ==> MountOptions()[i] == xfs[i] as int && xfs[i] != '\n';
      assert i > 3 ==> MountOptions()[i] == more[i - 4] as int && more[i - 4] != '\n';
    }
  }

  lemma {:induction false} RestIsOneLine(mount: Bytes)
    requires Plain(mount)
    ensures Free(Rest(mount), IsNewline)
  {
    var r, m := Rest(mount), |mount|;
    forall i | 0 <= i < |r| ensures !IsNewline(r[i]) {
      if 1 <= i <= m {
        assert r[i] == mount[i - 1];
      } else if m + 1 < i {
        assert r[i] == MountOptions()[i - m - 2];
        OptionsAreOneLine();
      }
    }
  }

  // The lines of a printed entry: those of the image path, with the rest after the last.
  lemma {:induction false} EntryLines(image: Bytes, mount: Bytes)
    requires Plain(mount)
    ensures var lines := Lines(image); Lines(Entry(image, mount)) == lines[..|lines| - 1] + [LastLine(image) + Rest(mount)]
  {
    assert Entry(image, mount) == image + Rest(mount);
    RestIsOneLine(mount);
    SplitTail(image, Rest(mount), IsNewline);
  }

  /** When a printed entry names its own mount: the mount has no white space, and before it in its
      line there is one word; or the image path itself names the mount; or there is no word before
      it and the mount is what comes next. */
  predicate ReadsBack(image: Bytes, mount: Bytes) {
    Plain(mount) &&
    (HasMountEntry(image, mount)
     || |Words(LastLine(image))| == 1
     || (|Words(LastLine(image))| == 0 && mount == Ascii("xfs")))
  }

  lemma {:induction false} LastLineNames(line: Bytes, mount: Bytes)
    requires Plain(mount)
    ensures NamesMount(line + Rest(mount), mount) <==>
            NamesMount(line, mount) || |Words(line)| == 1 || (|Words(line)| == 0 && mount == Ascii("xfs"))
  {
    hide Words, Rest, MountOptions, Ascii;
    RestWords(line, mount);
    OptionsWords();
  }

  lemma {:induction false} EntryReadsBack(image: Bytes, mount: Bytes)
    ensures HasMountEntry(Entry(image, mount), mount) <==> ReadsBack(image, mount)
  {
    hide Words, Rest, Entry, Lines, Plain;
    if Plain(mount) {
      EntryLines(image, mount);
      LastLineNames(LastLine(image), mount);
      var lines, e := Lines(image), Lines(Entry(image, mount));
      var front := lines[..|lines| - 1];
      assert lines == front + [LastLine(image)];
      assert e == front + [LastLine(image) + Rest(mount)];
    } else if HasMountEntry(Entry(image, mount), mount) {
      OnlyPlainRecognised(Entry(image, mount), mount);
    }
  }

  lemma {:induction false} PlainLine(image: Bytes)
    requires Plain(image)
    ensures Lines(image) == [image] && Words(LastLine(image)) == [image]
  {
    assert forall i :: 0 <= i < |image| ==> !IsNewline(image[i]);
    SplitWhole(image, IsNewline);
    PlainWord(image);
  }

  /** For paths without white space, a printed entry names its mount and nothing else. */
  lemma {:induction false} PlainEntryNames(image: Bytes, mount: Bytes, m: Bytes)
    requires Plain(image) && Plain(mount)
    ensures HasMountEntry(Entry(image, mount), m) <==> m == mount
  {
    hide Rest, Entry, MountOptions, Ascii;
    PlainLine(image);
    EntryLines(image, mount);
    RestWords(image, mount);
    var line := image + Rest(mount);
    assert [image][..0] + [line] == [line];
    assert Lines(Entry(image, mount)) == [line];
    assert Words(line)[1] == mount;
    assert line in Lines(Entry(image, mount));
  }

  // ---------------------------------------------------------------------------
  // Appending

  // The lines of a file, except the empty piece after a final newline.
  lemma {:induction false} EndLineLines(current: Bytes)
    ensures current != [] ==> EndLine(current) == EndLine(current)[..|EndLine(current)| - 1] + [NEWLINE]
    ensures current != [] ==>
      var body := Lines(EndLine(current)[..|EndLine(current)| - 1]);
      Lines(current) == body || Lines(current) == body + [[]]
  {
    if current != [] {
      var whole := EndLine(current);
      var front := whole[..|whole| - 1];
      if whole == current {
        assert current == front + [NEWLINE] + [];
        SplitConcat(front, NEWLINE, [], IsNewline);
      } else {
        assert front == current;
      }
    }
  }

  /** Existing bytes and lines survive unchanged and in place, with or without a trailing newline,
      and the entry follows them. */
  lemma {:induction false} AppendLines(current: Bytes, image: Bytes, mount: Bytes)
    ensures EndLine(current) <= Append(current, image, mount) && |Append(current, image, mount)| > |current|
    ensures exists body: seq<Bytes> ::
      && Lines(Append(current, image, mount)) == body + Lines(Entry(image, mount)) + [[]]
      && (Lines(current) == body || Lines(current) == body + [[]])
  {
    var e := Entry(image, mount);
    SplitConcat(e, NEWLINE, [], IsNewline);
    assert e + [NEWLINE] + [] == e + [NEWLINE];
    assert Lines(e + [NEWLINE]) == Lines(e) + [[]];
    if current == [] {
      assert Append(current, image, mount) == e + [NEWLINE];
      assert Lines(Append(current, image, mount)) == [] + Lines(e) + [[]];
      assert Lines(current) == [] + [[]];
    } else {
      EndLineLines(current);
      var whole := EndLine(current);
      var front := whole[..|whole| - 1];
      SplitConcat(front, NEWLINE, e + [NEWLINE], IsNewline);
      assert Append(current, image, mount) == front + [NEWLINE] + (e + [NEWLINE]);
      assert Lines(Append(current, image, mount)) == Lines(front) + Lines(e) + [[]];
    }
  }

  lemma {:induction false} EmptyLineNamesNothing(mount: Bytes)
    ensures !NamesMount([], mount)
  {
    var parts := Split([], IsSpace);
    assert parts == [[]] && parts[1..] == [];
    assert NonEmpty(parts) == [] + NonEmpty([]);
  }

  /** After an append exactly what was named before and what the entry names is recognised. */
  lemma {:induction false} AppendRecognises(current: Bytes, image: Bytes, mount: Bytes, m: Bytes)
    ensures HasMountEntry(Append(current, image, mount), m) <==>
            HasMountEntry(current, m) || HasMountEntry(Entry(image, mount), m)
  {
    hide Append, Entry, Words, Lines;
    AppendLines(current, image, mount);
    EmptyLineNamesNothing(m);
    var next, e := Append(current, image, mount), Lines(Entry(image, mount));
    var body: seq<Bytes> :| Lines(next) == body + e + [[]] && (Lines(current) == body || Lines(current) == body + [[]]);
    assert forall line :: line in Lines(next) <==> line in body || line in e || line == [];
    assert forall line :: line in Lines(current) ==> line in body || line == [];
    assert forall line :: line in body ==> line in Lines(current);
  }

  /** For all paths and files: after an append the mount is recognised exactly when it was before,
      or the printed entry reads back. */
  lemma {:induction false} RecognisedIff(current: Bytes, image: Bytes, mount: Bytes)
    ensures HasMountEntry(Append(current, image, mount), mount) <==>
            HasMountEntry(current, mount) || ReadsBack(image, mount)
  {
    hide Append, HasMountEntry, ReadsBack;
    AppendRecognises(current, image, mount, mount);
    EntryReadsBack(image, mount);
  }

  lemma {:induction false} PlainReadsBack(image: Bytes, mount: Bytes)
    requires Plain(image)
    ensures ReadsBack(image, mount) <==> Plain(mount)
  {
    PlainLine(image);
  }

  /** An image path of two words hides the mount, unless its second word is the mount. */
  lemma {:induction false} SpacedImageIsMissed(current: Bytes, x: Bytes, y: Bytes, mount: Bytes)
    requires Plain(x) && Plain(y) && Plain(mount) && y != mount && !HasMountEntry(current, mount)
    ensures !HasMountEntry(Append(current, x + [SPACE] + y, mount), mount)
  {
    var image := x + [SPACE] + y;
    assert Lines(image) == [image] by {
      forall i | 0 <= i < |image| ensures !IsNewline(image[i]) {
        assert i < |x| ==> image[i] == x[i];
        assert i > |x| ==> image[i] == y[i - |x| - 1];
      }
      SplitWhole(image, IsNewline);
    }
    WordsConcat(x, y);
    PlainWord(x);
    PlainWord(y);
    assert Words(image) == [x, y];
    hide Append, Words;
    assert !ReadsBack(image, mount);
    RecognisedIff(current, image, mount);
  }

  // ---------------------------------------------------------------------------
  // Whole runs

  lemma {:induction false} AppendGrows(current: Bytes, image: Bytes, mount: Bytes)
    ensures |Append(current, image, mount)| > |current|
  {
    AppendLines(current, image, mount);
  }

  /** Repeating a step changes nothing exactly when the mount was recognised at first or the
      printed entry reads back; otherwise every repetition adds another entry. */
  lemma {:induction false} EnsureTwiceIff(current: Bytes, image: Bytes, mount: Bytes)
    ensures var once := Ensure(current, image, mount);
      Ensure(once, image, mount) == once <==> HasMountEntry(current, mount) || ReadsBack(image, mount)
  {
    hide Append, HasMountEntry, ReadsBack;
    RecognisedIff(current, image, mount);
    AppendGrows(Ensure(current, image, mount), image, mount);
  }

  // The fstab steps of a run, one (image, mount) pair each.
  function EnsureAll(current: Bytes, steps: seq<(Bytes, Bytes)>): Bytes
    decreases |steps|
  {
    if steps == [] then current else EnsureAll(Ensure(current, steps[0].0, steps[0].1), steps[1..])
  }

  lemma {:induction false} EnsureAllStep(current: Bytes, steps: seq<(Bytes, Bytes)>, image: Bytes, mount: Bytes)
    ensures EnsureAll(current, steps + [(image, mount)]) == Ensure(EnsureAll(current, steps), image, mount)
    decreases |steps|
  {
    hide Ensure;
    var all := steps + [(image, mount)];
    if steps == [] {
      assert all[1..] == [] && all[0] == (image, mount);
    } else {
      assert all[1..] == steps[1..] + [(image, mount)];
      EnsureAllStep(Ensure(current, steps[0].0, steps[0].1), steps[1..], image, mount);
    }
  }

  // Step i finds its mount missing, so it appends its entry.
  predicate Applied(current: Bytes, steps: seq<(Bytes, Bytes)>, i: nat)
    requires i < |steps|
  {
    !HasMountEntry(EnsureAll(current, steps[..i]), steps[i].1)
  }

  // Some applied step names m.
  ghost predicate Added(current: Bytes, steps: seq<(Bytes, Bytes)>, m: Bytes) {
    exists i :: 0 <= i < |steps| && Applied(current, steps, i) && HasMountEntry(Entry(steps[i].0, steps[i].1), m)
  }

  lemma {:induction false} AddedStep(current: Bytes, steps: seq<(Bytes, Bytes)>, m: Bytes)
    requires steps != []
    ensures var n := |steps| - 1;
      Added(current, steps, m) <==>
        Added(current, steps[..n], m) || (Applied(current, steps, n) && HasMountEntry(Entry(steps[n].0, steps[n].1), m))
  {
    hide HasMountEntry, Entry;
    var n := |steps| - 1;
    var front := steps[..n];
    forall i | 0 <= i < n ensures Applied(current, front, i) <==> Applied(current, steps, i) {
      assert front[..i] == steps[..i];
    }
    if i :| 0 <= i < n && Applied(current, steps, i) && HasMountEntry(Entry(steps[i].0, steps[i].1), m) {
      assert front[i] == steps[i];
    }
    if i :| 0 <= i < n && Applied(current, front, i) && HasMountEntry(Entry(front[i].0, front[i].1), m) {
      assert front[i] == steps[i];
    }
  }

  /** After any steps, exactly what was recognised before and what the applied steps name is. */
  lemma {:induction false} EnsureAllRecognises(current: Bytes, steps: seq<(Bytes, Bytes)>, m: Bytes)
    ensures HasMountEntry(EnsureAll(current, steps), m) <==> HasMountEntry(current, m) || Added(current, steps, m)
    decreases |steps|
  {
    hide HasMountEntry, Entry, Added, EnsureAll;
    if steps == [] {
      assert !Added(current, steps, m) by { NothingAdded(current, m); }
      EnsureNone(current);
    } else {
      var n := |steps| - 1;
      var front, last := steps[..n], steps[n];
      assert steps == front + [(last.0, last.1)];
      EnsureAllRecognises(current, front, m);
      EnsureAllStep(current, front, last.0, last.1);
      AppendRecognises(EnsureAll(current, front), last.0, last.1, m);
      AddedStep(current, steps, m);
    }
  }

  lemma {:induction false} NothingAdded(current: Bytes, m: Bytes)
    ensures !Added(current, [], m)
  {}

  lemma {:induction false} EnsureNone(current: Bytes)
    ensures EnsureAll(current, []) == current
  {}

  lemma {:induction false} EnsureAllLonger(current: Bytes, steps: seq<(Bytes, Bytes)>)
    ensures |EnsureAll(current, steps)| >= |current|
    decreases |steps|
  {
    hide Append, HasMountEntry;
    if steps != [] {
      AppendGrows(current, steps[0].0, steps[0].1);
      EnsureAllLonger(Ensure(current, steps[0].0, steps[0].1), steps[1..]);
    }
  }

  lemma {:induction false} NothingToDoIff(current: Bytes, steps: seq<(Bytes, Bytes)>)
    ensures EnsureAll(current, steps) == current <==> forall i :: 0 <= i < |steps| ==> HasMountEntry(current, steps[i].1)
    decreases |steps|
  {
    hide Append, HasMountEntry;
    if steps != [] {
      var next := Ensure(current, steps[0].0, steps[0].1);
      AppendGrows(current, steps[0].0, steps[0].1);
      EnsureAllLonger(next, steps[1..]);
      NothingToDoIff(next, steps[1..]);
      assert forall i :: 0 <= i < |steps[1..]| ==> steps[1..][i] == steps[i + 1];
      assert forall i :: 0 < i < |steps| ==> steps[i] == steps[1..][i - 1];
    }
  }

  /** Repeating any steps changes no byte exactly when every mount was recognised at first or is
      named by an entry that the first run appended. */
  lemma {:induction false} EnsureAllIdempotentIff(current: Bytes, steps: seq<(Bytes, Bytes)>)
    ensures EnsureAll(EnsureAll(current, steps), steps) == EnsureAll(current, steps) <==>
            forall i :: 0 <= i < |steps| ==> HasMountEntry(current, steps[i].1) || Added(current, steps, steps[i].1)
  {
    hide HasMountEntry, EnsureAll, Added;
    NothingToDoIff(EnsureAll(current, steps), steps);
    forall i | 0 <= i < |steps|
      ensures HasMountEntry(EnsureAll(current, steps), steps[i].1) <==>
              HasMountEntry(current, steps[i].1) || Added(current, steps, steps[i].1)
    {
      EnsureAllRecognises(current, steps, steps[i].1);
    }
  }

  // What is recognised after some of the steps stays recognised.
  lemma {:induction false} StaysRecognised(current: Bytes, steps: seq<(Bytes, Bytes)>, i: nat, m: Bytes)
    requires i <= |steps| && HasMountEntry(EnsureAll(current, steps[..i]), m)
    ensures HasMountEntry(EnsureAll(current, steps), m)
    decreases |steps|
  {
    hide HasMountEntry, EnsureAll;
    if i == |steps| {
      assert steps[..i] == steps;
    } else {
      var n := |steps| - 1;
      var front, last := steps[..n], steps[n];
      assert steps == front + [(last.0, last.1)] && front[..i] == steps[..i];
      StaysRecognised(current, front, i, m);
      EnsureAllStep(current, front, last.0, last.1);
      AppendRecognises(EnsureAll(current, front), last.0, last.1, m);
    }
  }

  predicate AllReadBack(steps: seq<(Bytes, Bytes)>) {
    forall i :: 0 <= i < |steps| ==> ReadsBack(steps[i].0, steps[i].1)
  }

  /** In particular when every printed entry reads back: then every mount is recognised after a
      run, and a second run adds nothing. */
  lemma {:induction false} EnsureAllIdempotent(current: Bytes, steps: seq<(Bytes, Bytes)>)
    requires AllReadBack(steps)
    ensures forall i :: 0 <= i < |steps| ==> HasMountEntry(EnsureAll(current, steps), steps[i].1)
    ensures EnsureAll(EnsureAll(current, steps), steps) == EnsureAll(current, steps)
  {
    hide HasMountEntry, EnsureAll, ReadsBack, Added;
    forall i | 0 <= i < |steps| ensures HasMountEntry(EnsureAll(current, steps), steps[i].1) {
      var m := steps[i].1;
      if Applied(current, steps, i) {
        EntryReadsBack(steps[i].0, m);
        AddedBy(current, steps, i, m);
        EnsureAllRecognises(current, steps, m);
      } else {
        StaysRecognised(current, steps, i, m);
      }
    }
    NothingToDoIff(EnsureAll(current, steps), steps);
  }

  lemma {:induction false} AddedBy(current: Bytes, steps: seq<(Bytes, Bytes)>, i: nat, m: Bytes)
    requires i < |steps| && Applied(current, steps, i) && HasMountEntry(Entry(steps[i].0, steps[i].1), m)
    ensures Added(current, steps, m)
  {}
}
