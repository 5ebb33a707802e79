/** Loops over chunks and lines against one-line specifications: bounded output capture in its
    two variants, and line counting in its two forms. */
module StreamLimits {
  import opened Options
  import opened ByteStrings
  import opened Sorting

  // ---------------------------------------------------------------------------
  // Bounded output

  datatype Capture = Capture(bytes: Bytes, truncated: bool)

  function Prefix(s: Bytes, limit: nat): Bytes { if |s| <= limit then s else s[..limit] }

  function Flatten(chunks: seq<Bytes>): Bytes {
    if chunks == [] then [] else Flatten(chunks[..|chunks| - 1]) + chunks[|chunks| - 1]
  }

  // What a capture of the whole stream should be.
  function Captured(s: Bytes, limit: nat): Capture { Capture(Prefix(s, limit), |s| > limit) }

  /** `append_bounded_bytes` of the operations crate, as a change of buffer and flag. */
  function Append(c: Capture, chunk: Bytes, limit: nat): Capture {
    if |c.bytes| >= limit then c.(truncated := c.truncated || chunk != [])
    else if |chunk| > limit - |c.bytes| then Capture(c.bytes + chunk[..limit - |c.bytes|], true)
    else c.(bytes := c.bytes + chunk)
  }

  /** The worker's own variant: once the buffer is full it overwrites the flag. */
  function WorkerAppend(c: Capture, chunk: Bytes, limit: nat): Capture {
    if |c.bytes| >= limit then c.(truncated := chunk != [])
    else if |chunk| > limit - |c.bytes| then Capture(c.bytes + chunk[..limit - |c.bytes|], true)
    else c.(bytes := c.bytes + chunk)
  }

  // A buffer and flag that are changed in place.
  class OutputBuffer {
    var bytes: Bytes
    var truncated: bool

    constructor ()
      ensures Value() == Capture([], false)
    {
      bytes, truncated := [], false;
    }

    function Value(): Capture reads this { Capture(bytes, truncated) }

    method AppendBounded(chunk: Bytes, limit: nat)
      modifies this
      ensures Value() == Append(old(Value()), chunk, limit)
    {
      if |bytes| >= limit {
        truncated := truncated || chunk != [];
        return;
      }
      var remaining := limit - |bytes|;
      if |chunk| > remaining {
        bytes, truncated := bytes + chunk[..remaining], true;
      } else {
        bytes := bytes + chunk;
      }
    }

    method WorkerAppendBounded(chunk: Bytes, limit: nat)
      modifies this
      ensures Value() == WorkerAppend(old(Value()), chunk, limit)
    {
      if |bytes| >= limit {
        truncated := chunk != [];
        return;
      }
      var remaining := limit - |bytes|;
      if |chunk| > remaining {
        bytes, truncated := bytes + chunk[..remaining], true;
      } else {
        bytes := bytes + chunk;
      }
    }
  }

  lemma {:induction false} AppendCaptures(s: Bytes, chunk: Bytes, limit: nat)
    ensures Append(Captured(s, limit), chunk, limit) == Captured(s + chunk, limit)
  {
    if |s| < limit {
      assert |chunk| > limit - |s| ==> (s + chunk)[..limit] == s + chunk[..limit - |s|];
    } else {
      assert (s + chunk)[..limit] == s[..limit];
      assert |s| == limit ==> s[..limit] == s;
      assert chunk == [] ==> s + chunk == s;
    }
  }

  // A read loop stops at the first empty read; this is how many reads it handles.
  function HandledReads(chunks: seq<Bytes>): (n: nat)
    ensures n <= |chunks| && (n == |chunks| || chunks[n] == []) && forall i :: 0 <= i < n ==> chunks[i] != []
  {
    if chunks == [] || chunks[0] == [] then 0 else 1 + HandledReads(chunks[1..])
  }

  // The first min(limit, total) bytes, and whether there were more.
  ghost predicate Captures(c: Capture, s: Bytes, limit: nat) {
    && |c.bytes| == (if limit < |s| then limit else |s|)
    && (forall i :: 0 <= i < |c.bytes| ==> c.bytes[i] == s[i])
    && (c.truncated <==> limit < |s|)
  }

  lemma {:induction false} CapturedCaptures(s: Bytes, limit: nat, c: Capture)
    ensures c == Captured(s, limit) <==> Captures(c, s, limit)
  {
    if Captures(c, s, limit) { assert c.bytes == Prefix(s, limit); }
  }

  /** `read_bounded`: the buffer is the first min(limit, total) bytes of what was read, and the
      flag says whether anything was dropped, however the input was cut into chunks. */
  method ReadBounded(chunks: seq<Bytes>, limit: nat) returns (c: Capture)
    ensures c == Captured(Flatten(chunks[..HandledReads(chunks)]), limit)
    ensures Captures(c, Flatten(chunks[..HandledReads(chunks)]), limit)
  {
    var buffer := new OutputBuffer();
    var i := 0;
    while i < |chunks| && chunks[i] != []
      invariant i <= HandledReads(chunks) && buffer.Value() == Captured(Flatten(chunks[..i]), limit)
    {
      AppendCaptures(Flatten(chunks[..i]), chunks[i], limit);
      assert chunks[..i + 1][..i] == chunks[..i];
      buffer.AppendBounded(chunks[i], limit);
      i := i + 1;
    }
    c := buffer.Value();
    CapturedCaptures(Flatten(chunks[..HandledReads(chunks)]), limit, c);
  }

  function WorkerCapture(chunks: seq<Bytes>, limit: nat): Capture {
    if chunks == [] then Capture([], false)
    else WorkerAppend(WorkerCapture(chunks[..|chunks| - 1], limit), chunks[|chunks| - 1], limit)
  }

  // The worker's buffer is right; its flag is right unless an empty chunk comes last after a cut.
  lemma {:induction false} WorkerValue(chunks: seq<Bytes>, limit: nat)
    ensures WorkerCapture(chunks, limit) ==
            Captured(Flatten(chunks), limit).(truncated :=
              |Flatten(chunks)| > limit && chunks != [] && chunks[|chunks| - 1] != [])
  {
    if chunks != [] {
      var front, last := chunks[..|chunks| - 1], chunks[|chunks| - 1];
      WorkerValue(front, limit);
      AppendCaptures(Flatten(front), last, limit);
    }
  }

  /** The worker captures a stream correctly exactly when nothing was dropped or the last chunk
      is nonempty. */
  lemma {:induction false} WorkerCorrectIff(chunks: seq<Bytes>, limit: nat)
    ensures WorkerCapture(chunks, limit) == Captured(Flatten(chunks), limit) <==>
            |Flatten(chunks)| <= limit || chunks[|chunks| - 1] != []
  {
    WorkerValue(chunks, limit);
    assert chunks == [] ==> Flatten(chunks) == [];
  }

  /** `read_bounded_output` stops at the first empty read, so it never passes one on. */
  method ReadBoundedOutput(chunks: seq<Bytes>, limit: nat) returns (c: Capture)
    ensures c == Captured(Flatten(chunks[..HandledReads(chunks)]), limit)
    ensures Captures(c, Flatten(chunks[..HandledReads(chunks)]), limit)
  {
    var buffer := new OutputBuffer();
    var i := 0;
    while i < |chunks| && chunks[i] != []
      invariant i <= HandledReads(chunks) && buffer.Value() == WorkerCapture(chunks[..i], limit)
    {
      assert chunks[..i + 1][..i] == chunks[..i];
      buffer.WorkerAppendBounded(chunks[i], limit);
      i := i + 1;
    }
    WorkerCorrectIff(chunks[..i], limit);
    assert i == 0 ==> Flatten(chunks[..i]) == [];
    c := buffer.Value();
    CapturedCaptures(Flatten(chunks[..HandledReads(chunks)]), limit, c);
  }

  // A log frame: output, or something the loop passes over.
  datatype LogFrame = Output(message: Bytes) | Other

  function Messages(frames: seq<LogFrame>): seq<Bytes> {
    if frames == [] then []
    else Messages(frames[..|frames| - 1])
         + if frames[|frames| - 1].Output? then [frames[|frames| - 1].message] else []
  }

  /** The loop of `collect_probe_logs` takes frames as they come, empty ones too: its capture is
      right exactly when nothing was dropped or the last output frame is nonempty. */
  method CollectProbeLogs(frames: seq<LogFrame>, limit: nat) returns (c: Capture)
    ensures c.bytes == Prefix(Flatten(Messages(frames)), limit)
    ensures Captures(c, Flatten(Messages(frames)), limit) <==>
            |Flatten(Messages(frames))| <= limit || Messages(frames)[|Messages(frames)| - 1] != []
  {
    var buffer := new OutputBuffer();
    for i := 0 to |frames|
      invariant buffer.Value() == WorkerCapture(Messages(frames[..i]), limit)
    {
      assert frames[..i + 1][..i] == frames[..i];
      ghost var before := Messages(frames[..i]);
      if frames[i].Output? {
        assert (before + [frames[i].message])[..|before|] == before;
        assert Messages(frames[..i + 1]) == before + [frames[i].message];
        buffer.WorkerAppendBounded(frames[i].message, limit);
      } else {
        assert Messages(frames[..i + 1]) == before;
      }
    }
    assert frames[..|frames|] == frames;
    WorkerValue(Messages(frames), limit);
    WorkerCorrectIff(Messages(frames), limit);
    c := buffer.Value();
    CapturedCaptures(Flatten(Messages(frames)), limit, c);
  }

  /** For example, an empty frame after the cut clears the flag. */
  lemma {:induction false} EmptyFrameHidesTruncation(s: Bytes, limit: nat)
    requires |s| > limit
    ensures WorkerCapture([s, []], limit).truncated == false && Captured(Flatten([s, []]), limit).truncated
  {
    var chunks := [s, []];
    assert chunks[..1] == [s] && [s][..0] == [];
    assert Flatten([s]) == Flatten([]) + s;
    assert Flatten(chunks) == Flatten([s]) + [];
    WorkerValue(chunks, limit);
  }

  // ---------------------------------------------------------------------------
  // Line counts

  const NEWLINE: Byte := 10

  // How many bytes `read_until` takes: up to and including the next newline, or all that is left.
  function NextLine(s: Bytes): (n: nat)
    requires s != []
    ensures 1 <= n <= |s|
    ensures s[n - 1] == NEWLINE || n == |s|
    ensures forall i :: 0 <= i < n - 1 ==> s[i] != NEWLINE
  {
    if s[0] == NEWLINE || |s| == 1 then 1 else 1 + NextLine(s[1..])
  }

  function Newlines(s: Bytes): nat {
    if s == [] then 0 else (if s[0] == NEWLINE then 1 else 0) + Newlines(s[1..])
  }

  /** `count_lines_in_bytes`; None is a count that does not fit. No slice is long enough for its
      newlines alone not to fit. */
  function CountInBytes(s: Bytes): Option<nat> {
    if s == [] then Some(0)
    else if Newlines(s) >= U64 then None
    else if s[|s| - 1] == NEWLINE then Some(Newlines(s))
    else if Newlines(s) + 1 < U64 then Some(Newlines(s) + 1) else None
  }

  lemma {:induction false} NewlinesConcat(a: Bytes, b: Bytes)
    ensures Newlines(a + b) == Newlines(a) + Newlines(b)
  {
    if a == [] {
      assert a + b == b;
    } else {
      NewlinesConcat(a[1..], b);
      assert (a + b)[1..] == a[1..] + b;
    }
  }

  lemma {:induction false} NoNewlines(s: Bytes)
    requires forall i :: 0 <= i < |s| ==> s[i] != NEWLINE
    ensures Newlines(s) == 0
  {
    if s != [] { NoNewlines(s[1..]); }
  }

  // Lines as a reader sees them: newlines, plus an unterminated last line.
  function LineCount(s: Bytes): nat {
    Newlines(s) + if s != [] && s[|s| - 1] != NEWLINE then 1 else 0
  }

  ghost function NewlinePositions(s: Bytes): set<int> { set i | 0 <= i < |s| && s[i] == 10 }

  lemma {:induction false} NewlinesArePositions(s: Bytes)
    ensures Newlines(s) == |NewlinePositions(s)|
  {
    if s == [] {
      assert NewlinePositions(s) == {};
    } else {
      var n := |s| - 1;
      var front := s[..n];
      NewlinesArePositions(front);
      assert s == front + [s[n]];
      NewlinesConcat(front, [s[n]]);
      assert Newlines([s[n]]) == (if s[n] == 10 then 1 else 0) + Newlines([s[n]][1..]);
      assert n !in NewlinePositions(front);
      assert NewlinePositions(s) == NewlinePositions(front) + if s[n] == 10 then {n} else {};
    }
  }

  /** The number of lines: the positions of byte 10, and one more if the last byte is another. */
  lemma {:induction false} LineCountIs(s: Bytes)
    ensures LineCount(s) == |NewlinePositions(s)| + if s != [] && s[|s| - 1] != 10 then 1 else 0
  {
    NewlinesArePositions(s);
  }

  lemma {:induction false} CountInBytesValue(s: Bytes)
    ensures CountInBytes(s) == if LineCount(s) < U64 then Some(LineCount(s)) else None
  {
    assert s == [] ==> LineCount(s) == 0;
  }

  // Taking one line off the front.
  lemma {:induction false} OneLine(s: Bytes)
    requires s != []
    ensures LineCount(s) == 1 + LineCount(s[NextLine(s)..])
  {
    var n := NextLine(s);
    var line, rest := s[..n], s[n..];
    assert s == line + rest && line == line[..n - 1] + [s[n - 1]];
    NewlinesConcat(line, rest);
    NewlinesConcat(line[..n - 1], [s[n - 1]]);
    NoNewlines(line[..n - 1]);
    assert Newlines([s[n - 1]]) == if s[n - 1] == NEWLINE then 1 else 0;
    assert rest != [] ==> rest[|rest| - 1] == s[|s| - 1];
  }

  /** `count_lines`: the reader loop agrees with the formula on every byte string. */
  method CountLines(s: Bytes) returns (lines: Option<nat>)
    ensures lines == CountInBytes(s)
    ensures lines == if LineCount(s) < U64 then Some(LineCount(s)) else None
  {
    CountInBytesValue(s);
    var rest, count := s, 0;
    while rest != []
      invariant count < U64 && count + LineCount(rest) == LineCount(s)
      decreases |rest|
    {
      OneLine(rest);
      if count + 1 >= U64 { return None; }
      rest, count := rest[NextLine(rest)..], count + 1;
    }
    lines := Some(count);
  }

  // ---------------------------------------------------------------------------
  // The two large-file scans

  datatype SourceFile = SourceFile(path: Path, content: Bytes)
  datatype FileLines = FileLines(path: Path, lines: nat)
  datatype Limits = Limits(threshold: nat, watch: Option<nat>)
  datatype ScanReport = ScanReport(scanned: nat, oversized: seq<FileLines>, watch: seq<FileLines>)

  // The order of `sort_counts`: more lines first, then by path.
  predicate CountLe(a: FileLines, b: FileLines) {
    if a.lines != b.lines then a.lines > b.lines else PathLe(a.path, b.path)
  }

  function Scanned(isSource: Path -> bool): SourceFile -> Option<FileLines> {
    (f: SourceFile) =>
      if isSource(f.path) then Some(FileLines(f.path, LineCount(f.content))) else None
  }

  function Oversized(isSource: Path -> bool, limits: Limits): SourceFile -> Option<FileLines> {
    (f: SourceFile) =>
      if isSource(f.path) && LineCount(f.content) >= limits.threshold
      then Some(FileLines(f.path, LineCount(f.content))) else None
  }

  function Watched(isSource: Path -> bool, limits: Limits): SourceFile -> Option<FileLines> {
    (f: SourceFile) =>
      if isSource(f.path) && LineCount(f.content) < limits.threshold
         && limits.watch.Some? && LineCount(f.content) >= limits.watch.value
      then Some(FileLines(f.path, LineCount(f.content))) else None
  }

  /** What either scan of some files should report. */
  function ScanOf(isSource: Path -> bool, limits: Limits, files: seq<SourceFile>): ScanReport {
    ScanReport(|Collect(Scanned(isSource), files)|,
               Sort(Collect(Oversized(isSource, limits), files), CountLe),
               Sort(Collect(Watched(isSource, limits), files), CountLe))
  }

  // The counters can hold the number of source files and of lines of each.
  predicate Countable(isSource: Path -> bool, files: seq<SourceFile>) {
    && |Collect(Scanned(isSource), files)| < U64
    && forall i :: 0 <= i < |files| && isSource(files[i].path) ==> LineCount(files[i].content) < U64
  }

  lemma {:induction false} CountableFront(isSource: Path -> bool, files: seq<SourceFile>, i: nat)
    requires i <= |files| && Countable(isSource, files)
    ensures Countable(isSource, files[..i])
    decreases |files|
  {
    if i < |files| {
      var front := files[..|files| - 1];
      assert Countable(isSource, front);
      CountableFront(isSource, front, i);
      assert front[..i] == files[..i];
    } else {
      assert files[..i] == files;
    }
  }

  lemma {:induction false} EmptyScan(isSource: Path -> bool, limits: Limits)
    ensures Countable(isSource, []) && Collect(Scanned(isSource), []) == []
    ensures Collect(Oversized(isSource, limits), []) == [] == Collect(Watched(isSource, limits), [])
  {}

  // One more file looked at.
  lemma {:induction false} CollectNext<K, V>(f: K -> Option<V>, ks: seq<K>, i: nat)
    requires i < |ks|
    ensures Collect(f, ks[..i + 1]) == Collect(f, ks[..i]) + if f(ks[i]).Some? then [f(ks[i]).value] else []
  {
    assert ks[..i + 1][..i] == ks[..i];
  }

  lemma {:induction false} CountableNext(isSource: Path -> bool, files: seq<SourceFile>, i: nat)
    requires i < |files|
    ensures Countable(isSource, files[..i + 1]) <==>
            Countable(isSource, files[..i]) && |Collect(Scanned(isSource), files[..i + 1])| < U64
            && (isSource(files[i].path) ==> LineCount(files[i].content) < U64)
    ensures Countable(isSource, files) ==> Countable(isSource, files[..i + 1])
  {
    hide LineCount;
    var fewer, more := files[..i], files[..i + 1];
    CollectNext(Scanned(isSource), files, i);
    assert forall j :: 0 <= j < |fewer| ==> fewer[j] == more[j];
    assert more[i] == files[i];
    if Countable(isSource, files) { CountableFront(isSource, files, i + 1); }
  }

  // Classifies one counted file; the tail of both scan loops.
  function Classified(limits: Limits, file: FileLines, oversized: seq<FileLines>, watch: seq<FileLines>):
    (seq<FileLines>, seq<FileLines>)
  {
    if file.lines >= limits.threshold then (oversized + [file], watch)
    else if limits.watch.Some? && file.lines >= limits.watch.value then (oversized, watch + [file])
    else (oversized, watch)
  }

  /** `scan_large_files_with_cancel`: counts each file by reading it line by line. */
  method ScanTree(isSource: Path -> bool, limits: Limits, files: seq<SourceFile>) returns (r: Option<ScanReport>)
    ensures r == if Countable(isSource, files) then Some(ScanOf(isSource, limits, files)) else None
  {
    hide LineCount, CountInBytes, Countable, Collect, Sort;
    assert files[..0] == [];
    EmptyScan(isSource, limits);
    var scanned, oversized, watch := 0, [], [];
    for i := 0 to |files|
      invariant Countable(isSource, files[..i])
      invariant scanned == |Collect(Scanned(isSource), files[..i])| < U64
      invariant oversized == Collect(Oversized(isSource, limits), files[..i])
      invariant watch == Collect(Watched(isSource, limits), files[..i])
    {
      var file := files[i];
      CountableNext(isSource, files, i);
      CollectNext(Scanned(isSource), files, i);
      CollectNext(Oversized(isSource, limits), files, i);
      CollectNext(Watched(isSource, limits), files, i);
      if !isSource(file.path) { continue; }
      if scanned + 1 >= U64 { return None; }
      scanned := scanned + 1;
      var lines := CountLines(file.content);
      if lines.None? { return None; }
      var (larger, nearer) := Classified(limits, FileLines(file.path, lines.value), oversized, watch);
      oversized, watch := larger, nearer;
    }
    assert files[..|files|] == files;
    r := Some(ScanReport(scanned, Sort(oversized, CountLe), Sort(watch, CountLe)));
  }

  /** `scan_large_file_blobs`: counts newlines in each blob, and reports the same. */
  method ScanBlobs(isSource: Path -> bool, limits: Limits, files: seq<SourceFile>) returns (r: Option<ScanReport>)
    ensures r == if Countable(isSource, files) then Some(ScanOf(isSource, limits, files)) else None
  {
    hide LineCount, CountInBytes, Countable, Collect, Sort;
    assert files[..0] == [];
    EmptyScan(isSource, limits);
    var scanned, oversized, watch := 0, [], [];
    for i := 0 to |files|
      invariant Countable(isSource, files[..i])
      invariant scanned == |Collect(Scanned(isSource), files[..i])| < U64
      invariant oversized == Collect(Oversized(isSource, limits), files[..i])
      invariant watch == Collect(Watched(isSource, limits), files[..i])
    {
      var file := files[i];
      CountableNext(isSource, files, i);
      CollectNext(Scanned(isSource), files, i);
      CollectNext(Oversized(isSource, limits), files, i);
      CollectNext(Watched(isSource, limits), files, i);
      if !isSource(file.path) { continue; }
      if scanned + 1 >= U64 { return None; }
      scanned := scanned + 1;
      var lines := CountInBytes(file.content);
      CountInBytesValue(file.content);
      if lines.None? { return None; }
      var (larger, nearer) := Classified(limits, FileLines(file.path, lines.value), oversized, watch);
      oversized, watch := larger, nearer;
    }
    assert files[..|files|] == files;
    r := Some(ScanReport(scanned, Sort(oversized, CountLe), Sort(watch, CountLe)));
  }

  function PathOfFile(f: SourceFile): Path { f.path }

  lemma {:induction false} CountOrder()
    ensures Preorder(CountLe)
  {
    PathPreorder();
    hide PathLe;
    forall a: FileLines, b: FileLines, c: FileLines | CountLe(a, b) && CountLe(b, c) ensures CountLe(a, c) {}
  }

  // A listing collected from distinct paths, sorted, does not depend on the order of the files.
  lemma {:induction false} SortedCollection(f: SourceFile -> Option<FileLines>, xs: seq<SourceFile>, ys: seq<SourceFile>)
    requires multiset(xs) == multiset(ys) && Distinct(xs, PathOfFile)
    requires forall x :: f(x).Some? ==> f(x).value.path == x.path
    ensures Sort(Collect(f, xs), CountLe) == Sort(Collect(f, ys), CountLe)
  {
    SameElements(xs, ys);
    DistinctKeys(xs, ys, PathOfFile);
    CountOrder();
    CollectDistinct(f, xs);
    CollectDistinct(f, ys);
    SortListed(Collect(f, xs), CountLe);
    SortListed(Collect(f, ys), CountLe);
    forall v ensures v in Collect(f, xs) <==> v in Collect(f, ys) { CollectIn(f, xs, v); CollectIn(f, ys, v); }
    forall a: FileLines, b: FileLines | CountLe(a, b) && CountLe(b, a) ensures a == b { PathAntisymmetric(a.path, b.path); }
    OneListing(Sort(Collect(f, xs), CountLe), Sort(Collect(f, ys), CountLe), CountLe);
  }

  lemma {:induction false} CollectDistinct(f: SourceFile -> Option<FileLines>, xs: seq<SourceFile>)
    requires Distinct(xs, PathOfFile) && forall x :: f(x).Some? ==> f(x).value.path == x.path
    ensures NoRepeats(Collect(f, xs))
  {
    assert NoRepeats(xs) by {
      forall i, j | 0 <= i < j < |xs| ensures xs[i] != xs[j] { assert PathOfFile(xs[i]) != PathOfFile(xs[j]); }
    }
    forall x, y | x in xs && y in xs && f(x).Some? && f(x) == f(y) ensures x == y {
      var i :| 0 <= i < |xs| && xs[i] == x;
      var j :| 0 <= j < |xs| && xs[j] == y;
      assert PathOfFile(xs[i]) == PathOfFile(xs[j]);
    }
    CollectNoRepeats(f, xs);
  }

  /** Files with distinct paths give the same report in whatever order they are met. */
  lemma {:induction false} ScanIgnoresOrder(isSource: Path -> bool, limits: Limits, xs: seq<SourceFile>, ys: seq<SourceFile>)
    requires multiset(xs) == multiset(ys) && Distinct(xs, PathOfFile)
    ensures ScanOf(isSource, limits, xs) == ScanOf(isSource, limits, ys)
  {
    hide LineCount;
    SortedCollection(Scanned(isSource), xs, ys);
    SortedCollection(Oversized(isSource, limits), xs, ys);
    SortedCollection(Watched(isSource, limits), xs, ys);
    assert |Sort(Collect(Scanned(isSource), xs), CountLe)| == |Sort(Collect(Scanned(isSource), ys), CountLe)|;
  }

  /** A source file is listed as oversized, as watched or not at all by its number of lines,
      nothing else is listed, and both lists are strictly ordered. */
  lemma {:induction false} ScanPartition(isSource: Path -> bool, limits: Limits, files: seq<SourceFile>, x: FileLines)
    requires Distinct(files, PathOfFile)
    ensures var r := ScanOf(isSource, limits, files);
      && Listed(r.oversized, CountLe) && Listed(r.watch, CountLe)
      && (x in r.oversized <==> Counted(isSource, files, x) && x.lines >= limits.threshold)
      && (x in r.watch <==> Counted(isSource, files, x) && limits.watch.Some?
                            && limits.watch.value <= x.lines < limits.threshold)
      && MostFirst(r.oversized) && MostFirst(r.watch)
      && r.scanned == |SourcePositions(isSource, files)|
  {
    ScannedAre(isSource, files);
    hide LineCount, Collect, Sort;
    var f, g := Oversized(isSource, limits), Watched(isSource, limits);
    CountOrder();
    CollectDistinct(f, files);
    CollectDistinct(g, files);
    SortListed(Collect(f, files), CountLe);
    SortListed(Collect(g, files), CountLe);
    CollectIn(f, files, x);
    CollectIn(g, files, x);
    if Counted(isSource, files, x) {
      var file :| file in files && isSource(file.path) && x == FileLines(file.path, LineCount(file.content));
      assert x.lines >= limits.threshold ==> f(file) == Some(x);
      assert limits.watch.Some? && limits.watch.value <= x.lines < limits.threshold ==> g(file) == Some(x);
    }
  }

  // More lines first; for as many lines, by path.
  ghost predicate MostFirst(xs: seq<FileLines>) {
    forall i, j :: 0 <= i < j < |xs| ==>
      xs[i].lines > xs[j].lines || (xs[i].lines == xs[j].lines && PathLe(xs[i].path, xs[j].path))
  }

  ghost function SourcePositions(isSource: Path -> bool, files: seq<SourceFile>): set<int> {
    set i | 0 <= i < |files| && isSource(files[i].path)
  }

  lemma {:induction false} OneMorePosition(isSource: Path -> bool, files: seq<SourceFile>)
    requires files != []
    ensures var n := |files| - 1;
      |SourcePositions(isSource, files)|
      == |SourcePositions(isSource, files[..n])| + if isSource(files[n].path) then 1 else 0
  {
    var n := |files| - 1;
    var some := SourcePositions(isSource, files[..n]);
    assert n !in some;
    assert SourcePositions(isSource, files) == some + if isSource(files[n].path) then {n} else {};
  }

  lemma {:induction false} ScannedAre(isSource: Path -> bool, files: seq<SourceFile>)
    ensures |Collect(Scanned(isSource), files)| == |SourcePositions(isSource, files)|
  {
    hide LineCount, SourcePositions;
    if files == [] {
      NoPositions(isSource);
    } else {
      ScannedAre(isSource, files[..|files| - 1]);
      OneMorePosition(isSource, files);
    }
  }

  lemma {:induction false} NoPositions(isSource: Path -> bool)
    ensures SourcePositions(isSource, []) == {}
  {}

  // x is the line count of one of the source files.
  ghost predicate Counted(isSource: Path -> bool, files: seq<SourceFile>, x: FileLines) {
    exists f :: f in files && isSource(f.path) && x == FileLines(f.path, LineCount(f.content))
  }
}
