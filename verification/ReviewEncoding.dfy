/** The byte format that review digests are computed over: labelled, length-prefixed
    fields, plus the raw file bytes that follow a `file_size` field. A decoder for the
    format shows that a byte stream has at most one reading. */
module ReviewEncoding {
  import opened Options
  import opened ByteStrings

  // ---------------------------------------------------------------------------
  // Integers, text and hexadecimal

  // The k low bytes of n, most significant first.
  function BigEndian(n: nat, k: nat): (r: Bytes)
    ensures |r| == k
  {
    if k == 0 then [] else BigEndian(n / 256, k - 1) + [n % 256]
  }

  function FromBigEndian(s: Bytes): nat {
    if s == [] then 0 else FromBigEndian(s[..|s| - 1]) * 256 + s[|s| - 1]
  }

  function Power256(k: nat): nat {
    if k == 0 then 1 else 256 * Power256(k - 1)
  }

  lemma {:induction false} BigEndianRoundTrip(n: nat, k: nat)
    requires n < Power256(k)
    ensures FromBigEndian(BigEndian(n, k)) == n
  {
    if k != 0 {
      BigEndianRoundTrip(n / 256, k - 1);
      var s := BigEndian(n, k);
      assert s[..|s| - 1] == BigEndian(n / 256, k - 1);
    }
  }

  // u64::to_be_bytes
  function Be64(n: nat): (r: Bytes)
    ensures |r| == 8
  {
    BigEndian(n, 8)
  }

  lemma {:induction false} Be64RoundTrip(n: nat)
    requires n < U64
    ensures FromBigEndian(Be64(n)) == n
  {
    assert Power256(2) == 0x1_0000;
    assert Power256(4) == 0x1_0000_0000;
    assert Power256(6) == 0x1_0000_0000_0000;
    assert Power256(8) == U64;
    BigEndianRoundTrip(n, 8);
  }

  // i64::to_be_bytes goes through two's complement; this is its inverse.
  function FromTwosComplement(n: nat): int {
    if n < I64 then n else n - U64
  }

  function HexDigit(n: int): Byte
    requires 0 <= n < 16
  {
    if n < 10 then '0' as int + n else 'a' as int + (n - 10)
  }

  function HexValue(c: Byte): int {
    if '0' as int <= c <= '9' as int then c - '0' as int else c - 'a' as int + 10
  }

  // Lower-case hexadecimal text of a digest.
  function Hex(s: Bytes): (r: Bytes)
    ensures |r| == 2 * |s|
  {
    if s == [] then [] else [HexDigit(s[0] / 16), HexDigit(s[0] % 16)] + Hex(s[1..])
  }

  function UnHex(s: Bytes): Bytes {
    if |s| < 2 then [] else [(HexValue(s[0]) * 16 + HexValue(s[1])) % 256] + UnHex(s[2..])
  }

  lemma {:induction false} HexByte(b: Byte)
    ensures (HexValue(HexDigit(b / 16)) * 16 + HexValue(HexDigit(b % 16))) % 256 == b
  {
    assert HexValue(HexDigit(b / 16)) == b / 16 && HexValue(HexDigit(b % 16)) == b % 16;
  }

  lemma {:induction false} HexRoundTrip(s: Bytes)
    ensures UnHex(Hex(s)) == s
  {
    hide HexDigit, HexValue;
    if s != [] {
      HexRoundTrip(s[1..]);
      HexByte(s[0]);
      var h := Hex(s);
      assert h[0] == HexDigit(s[0] / 16) && h[1] == HexDigit(s[0] % 16) && h[2..] == Hex(s[1..]);
      assert s == [s[0]] + s[1..];
    }
  }

  // Lower-case digits, the high one first.
  lemma {:induction false} HexText()
    ensures Hex([0x0A, 0x9F]) == Ascii("0a9f")
  {
    assert [0x0A, 0x9F][1..] == [0x9F] && [0x9F][1..] == [];
    assert Hex([0x9F]) == [57, 102] + Hex([]);
    assert Hex([0x0A, 0x9F]) == [48, 97] + Hex([0x9F]);
    assert Ascii("0a9f") == [48, 97, 57, 102];
  }

  // ---------------------------------------------------------------------------
  // Fields

  /** What `hash_field` feeds to the hasher. */
  function Field(heading: Bytes, value: Bytes): (r: Bytes)
    ensures |r| == 16 + |heading| + |value|
  {
    Be64(|heading|) + heading + (Be64(|value|) + value)
  }

  // Several fields in a row.
  function Fields(headings: seq<Bytes>, values: seq<Bytes>): Bytes
    requires |headings| == |values|
  {
    if headings == [] then [] else Field(headings[0], values[0]) + Fields(headings[1..], values[1..])
  }

  datatype Read<+T> = Bad | Read(value: T, rest: Bytes)

  // One length-prefixed run of bytes.
  function ReadRun(s: Bytes): (r: Read<Bytes>)
    ensures r.Read? ==> |r.rest| + 8 <= |s|
  {
    if |s| < 8 then Bad
    else
      var n := FromBigEndian(s[..8]);
      if |s| - 8 < n then Bad else Read(s[8..8 + n], s[8 + n..])
  }

  lemma {:induction false} ReadRunPrinted(value: Bytes, rest: Bytes)
    requires |value| < U64
    ensures ReadRun(Be64(|value|) + value + rest) == Read(value, rest)
  {
    var s := Be64(|value|) + value + rest;
    Be64RoundTrip(|value|);
    assert s[..8] == Be64(|value|);
    assert s[8..8 + |value|] == value;
    assert s[8 + |value|..] == rest;
  }

  // A heading and its value.
  function ReadField(s: Bytes): (r: Read<(Bytes, Bytes)>)
    ensures r.Read? ==> |r.rest| < |s|
  {
    var heading := ReadRun(s);
    if heading.Bad? then Bad else
    var value := ReadRun(heading.rest);
    if value.Bad? then Bad else Read((heading.value, value.value), value.rest)
  }

  lemma {:induction false} ReadFieldPrinted(heading: Bytes, value: Bytes, rest: Bytes)
    requires |heading| < U64 && |value| < U64
    ensures ReadField(Field(heading, value) + rest) == Read((heading, value), rest)
  {
    var tail := Be64(|value|) + value + rest;
    ReadRunPrinted(heading, tail);
    ReadRunPrinted(value, rest);
    assert Field(heading, value) + rest == Be64(|heading|) + heading + tail;
  }

  // Fields whose headings are known in advance.
  function ReadFields(headings: seq<Bytes>, s: Bytes): (r: Read<seq<Bytes>>)
    ensures r.Read? ==> |r.value| == |headings| && |r.rest| <= |s|
  {
    if headings == [] then Read([], s)
    else
      var first := ReadField(s);
      if first.Bad? || first.value.0 != headings[0] then Bad
      else
        var more := ReadFields(headings[1..], first.rest);
        if more.Bad? then Bad else Read([first.value.1] + more.value, more.rest)
  }

  lemma {:induction false} ReadFieldsPrinted(headings: seq<Bytes>, values: seq<Bytes>, rest: Bytes)
    requires |headings| == |values|
    requires forall i :: 0 <= i < |headings| ==> |headings[i]| < U64 && |values[i]| < U64
    ensures ReadFields(headings, Fields(headings, values) + rest) == Read(values, rest)
  {
    hide Field, ReadField;
    if headings == [] {
      assert Fields(headings, values) + rest == rest;
    } else {
      var s, tail := Fields(headings, values) + rest, Fields(headings[1..], values[1..]) + rest;
      assert ReadField(s) == Read((headings[0], values[0]), tail) by {
        assert s == Field(headings[0], values[0]) + tail;
        ReadFieldPrinted(headings[0], values[0], tail);
      }
      ReadFieldsPrinted(headings[1..], values[1..], rest);
      assert values == [values[0]] + values[1..];
    }
  }

  // ---------------------------------------------------------------------------
  // Items: the units a stream is made of

  datatype AssetKind = PrivateBenchmarkData | PrivateEvaluatorPackage | PrivateSeeds | PrivateReferenceOutputs

  function KindText(kind: AssetKind): (r: string)
    ensures IsAscii(r) && |r| < 64
  {
    match kind
    case PrivateBenchmarkData => "private_benchmark_data"
    case PrivateEvaluatorPackage => "private_evaluator_package"
    case PrivateSeeds => "private_seeds"
    case PrivateReferenceOutputs => "private_reference_outputs"
  }

  function KindFromText(s: Bytes): AssetKind {
    if s == Ascii("private_benchmark_data") then PrivateBenchmarkData
    else if s == Ascii("private_evaluator_package") then PrivateEvaluatorPackage
    else if s == Ascii("private_seeds") then PrivateSeeds
    else PrivateReferenceOutputs
  }

  lemma {:induction false} KindRoundTrip(kind: AssetKind)
    ensures KindFromText(Ascii(KindText(kind))) == kind
    ensures kind.PrivateReferenceOutputs? ==> KindText(kind) == "private_reference_outputs"
  {
    var e, r := "private_evaluator_package", "private_reference_outputs";
    assert Ascii(e)[8] == 'e' as int && Ascii(r)[8] == 'r' as int;
    assert |"private_benchmark_data"| == 22 && |"private_seeds"| == 13 && |e| == |r| == 25;
  }

  // The part of a private asset that is hashed.
  datatype Asset = Asset(name: Bytes, kind: AssetKind, required: bool, size: int, sha256: Bytes)

  datatype Item =
    | Format(tag: Bytes)
    | Manifest(json: Bytes)
    | DirItem(path: Bytes)
    | FileItem(path: Bytes, content: Bytes)
    | AssetItem(asset: Asset)

  // Lengths that a 64-bit length prefix can carry, and sizes and digests of their Rust types.
  predicate AssetFits(a: Asset) {
    |a.name| < U64 && -I64 <= a.size < I64 && |a.sha256| == 32
  }

  predicate Fits(item: Item) {
    match item
    case Format(tag) => |tag| < U64
    case Manifest(json) => |json| < U64
    case DirItem(path) => |path| < U64
    case FileItem(path, content) => |path| < U64 && |content| < U64
    case AssetItem(a) => AssetFits(a)
  }

  // The fields after an asset's name.
  function AssetHeadings(): (r: seq<Bytes>)
    ensures |r| == 4 && forall i :: 0 <= i < 4 ==> |r[i]| < 64
  {
    [Ascii("asset_kind"), Ascii("asset_required"), Ascii("asset_size"), Ascii("asset_sha256")]
  }

  function AssetValues(a: Asset): (r: seq<Bytes>)
    ensures |r| == 4
    ensures AssetFits(a) ==> forall i :: 0 <= i < 4 ==> |r[i]| < U64
  {
    [Ascii(KindText(a.kind)), [if a.required then 1 else 0], Be64(a.size % U64), Hex(a.sha256)]
  }

  function Print(item: Item): Bytes {
    match item
    case Format(tag) => Field(Ascii("format"), tag)
    case Manifest(json) => Field(Ascii("manifest"), json)
    case DirItem(path) => Field(Ascii("dir"), path)
    case FileItem(path, content) =>
      Field(Ascii("file"), path) + (Field(Ascii("file_size"), Be64(|content|)) + content)
    case AssetItem(a) => Field(Ascii("asset_name"), a.name) + Fields(AssetHeadings(), AssetValues(a))
  }

  predicate AllFit(items: seq<Item>) { forall i :: 0 <= i < |items| ==> Fits(items[i]) }

  function FlatMap<T>(f: T -> Bytes, xs: seq<T>): Bytes {
    if xs == [] then [] else f(xs[0]) + FlatMap(f, xs[1..])
  }

  lemma {:induction false} FlatMapConcat<T>(f: T -> Bytes, a: seq<T>, b: seq<T>)
    ensures FlatMap(f, a + b) == FlatMap(f, a) + FlatMap(f, b)
  {
    if a == [] {
      assert a + b == b;
    } else {
      var rest, more := FlatMap(f, a[1..]), FlatMap(f, b);
      assert FlatMap(f, a + b) == f(a[0]) + (rest + more) by {
        FlatMapConcat(f, a[1..], b);
        assert (a + b)[1..] == a[1..] + b;
      }
      assert f(a[0]) + (rest + more) == f(a[0]) + rest + more;
    }
  }

  lemma {:induction false} FlatMapOne<T>(f: T -> Bytes, x: T)
    ensures FlatMap(f, [x]) == f(x)
  {
    assert [x][1..] == [];
    assert FlatMap(f, [x]) == f(x) + FlatMap(f, []);
  }

  function PrintAll(items: seq<Item>): Bytes { FlatMap(Print, items) }

  // ---------------------------------------------------------------------------
  // Decoding

  // A size field and then that many raw bytes.
  function ReadSized(heading: Bytes, s: Bytes): (r: Read<Bytes>)
    ensures r.Read? ==> |r.rest| <= |s|
  {
    var size := ReadField(s);
    if size.Bad? || size.value.0 != heading || |size.rest| < FromBigEndian(size.value.1) then Bad
    else
      var n := FromBigEndian(size.value.1);
      Read(size.rest[..n], size.rest[n..])
  }

  lemma {:induction false} ReadSizedPrinted(heading: Bytes, content: Bytes, rest: Bytes)
    requires |heading| < U64 && |content| < U64
    ensures ReadSized(heading, Field(heading, Be64(|content|)) + content + rest) == Read(content, rest)
  {
    hide Field, ReadField, Be64;
    var s := Field(heading, Be64(|content|)) + content + rest;
    assert ReadField(s) == Read((heading, Be64(|content|)), content + rest) by {
      assert s == Field(heading, Be64(|content|)) + (content + rest);
      ReadFieldPrinted(heading, Be64(|content|), content + rest);
    }
    Be64RoundTrip(|content|);
    assert (content + rest)[..|content|] == content && (content + rest)[|content|..] == rest;
  }

  function AssetFrom(name: Bytes, values: seq<Bytes>): Asset
    requires |values| == 4
  {
    Asset(name, KindFromText(values[0]), values[1] == [1],
          FromTwosComplement(FromBigEndian(values[2])), UnHex(values[3]))
  }

  // How an item goes on after its first field.
  function ReadRest(heading: Bytes, value: Bytes, rest: Bytes): (r: Read<Item>)
    ensures r.Read? ==> |r.rest| <= |rest|
  {
    if heading == Ascii("format") then Read(Format(value), rest)
    else if heading == Ascii("manifest") then Read(Manifest(value), rest)
    else if heading == Ascii("dir") then Read(DirItem(value), rest)
    else if heading == Ascii("file") then
      var content := ReadSized(Ascii("file_size"), rest);
      if content.Bad? then Bad else Read(FileItem(value, content.value), content.rest)
    else if heading == Ascii("asset_name") then
      var fields := ReadFields(AssetHeadings(), rest);
      if fields.Bad? then Bad else Read(AssetItem(AssetFrom(value, fields.value)), fields.rest)
    else Bad
  }

  function ReadItem(s: Bytes): (r: Read<Item>)
    ensures r.Read? ==> |r.rest| < |s|
  {
    var first := ReadField(s);
    if first.Bad? then Bad else ReadRest(first.value.0, first.value.1, first.rest)
  }

  function ReadAll(s: Bytes): Option<seq<Item>>
    decreases |s|
  {
    if s == [] then Some([])
    else
      var item := ReadItem(s);
      if item.Bad? then None
      else
        var items := ReadAll(item.rest);
        if items.None? then None else Some([item.value] + items.value)
  }

  lemma {:induction false} AssetRoundTrip(a: Asset)
    requires AssetFits(a)
    ensures AssetFrom(a.name, AssetValues(a)) == a
  {
    hide KindFromText, KindText;
    KindRoundTrip(a.kind);
    Be64RoundTrip(a.size % U64);
    HexRoundTrip(a.sha256);
  }

  // An item as its first field and what follows.
  function First(item: Item): (r: (Bytes, Bytes))
    ensures Fits(item) ==> |r.0| < U64 && |r.1| < U64
  {
    match item
    case Format(tag) => (Ascii("format"), tag)
    case Manifest(json) => (Ascii("manifest"), json)
    case DirItem(path) => (Ascii("dir"), path)
    case FileItem(path, _) => (Ascii("file"), path)
    case AssetItem(a) => (Ascii("asset_name"), a.name)
  }

  function Following(item: Item): Bytes {
    match item
    case FileItem(_, content) => Field(Ascii("file_size"), Be64(|content|)) + content
    case AssetItem(a) => Fields(AssetHeadings(), AssetValues(a))
    case _ => []
  }

  lemma {:induction false} PrintSplit(item: Item)
    ensures Print(item) == Field(First(item).0, First(item).1) + Following(item)
  {}

  lemma {:induction false} ReadRestPrinted(item: Item, rest: Bytes)
    requires Fits(item)
    ensures ReadRest(First(item).0, First(item).1, Following(item) + rest) == Read(item, rest)
  {
    match item
    case FileItem(path, content) =>
      assert ReadSized(Ascii("file_size"), Following(item) + rest) == Read(content, rest) by {
        ReadSizedPrinted(Ascii("file_size"), content, rest);
      }
    case AssetItem(a) =>
      assert ReadFields(AssetHeadings(), Following(item) + rest) == Read(AssetValues(a), rest) by {
        ReadFieldsPrinted(AssetHeadings(), AssetValues(a), rest);
      }
      AssetRoundTrip(a);
    case _ =>
      assert Following(item) + rest == rest;
  }

  lemma {:induction false} ReadSplit(printed: Bytes, heading: Bytes, value: Bytes, following: Bytes, rest: Bytes)
    requires |heading| < U64 && |value| < U64
    requires printed == Field(heading, value) + following
    ensures ReadField(printed + rest) == Read((heading, value), following + rest)
  {
    hide Field, ReadField;
    ReadFieldPrinted(heading, value, following + rest);
    assert printed + rest == Field(heading, value) + (following + rest);
  }

  lemma {:induction false} ReadItemPrinted(item: Item, rest: Bytes)
    requires Fits(item)
    ensures ReadItem(Print(item) + rest) == Read(item, rest)
  {
    PrintSplit(item);
    ReadSplit(Print(item), First(item).0, First(item).1, Following(item), rest);
    ReadRestPrinted(item, rest);
  }

  lemma {:induction false} PrintNonEmpty(item: Item)
    ensures |Print(item)| > 0
  {
    PrintSplit(item);
  }

  /** Decoding undoes printing, for every sequence of items. */
  lemma {:induction false} ReadAllPrinted(items: seq<Item>)
    requires AllFit(items)
    ensures ReadAll(PrintAll(items)) == Some(items)
  {
    hide Print, ReadItem, Fits;
    if items != [] {
      assert ReadItem(PrintAll(items)) == Read(items[0], PrintAll(items[1..])) by {
        ReadItemPrinted(items[0], PrintAll(items[1..]));
      }
      PrintNonEmpty(items[0]);
      ReadAllPrinted(items[1..]);
      assert items == [items[0]] + items[1..];
    }
  }

  /** Hence a stream has one reading. */
  lemma {:induction false} PrintAllInjective(a: seq<Item>, b: seq<Item>)
    requires AllFit(a) && AllFit(b)
    requires PrintAll(a) == PrintAll(b)
    ensures a == b
  {
    ReadAllPrinted(a);
    ReadAllPrinted(b);
  }

  // ---------------------------------------------------------------------------
  // Byte by byte

  function Zeros(k: nat): Bytes { if k == 0 then [] else [0] + Zeros(k - 1) }

  lemma {:induction false} SmallBigEndian(n: nat, k: nat)
    requires n < 256 && k > 0
    ensures BigEndian(n, k) == Zeros(k - 1) + [n]
  {
    if k == 1 {
      assert BigEndian(n, 0) == [];
    } else {
      SmallBigEndian(0, k - 1);
      ZerosEnd(k - 2);
    }
  }

  lemma {:induction false} ZerosEnd(k: nat)
    ensures Zeros(k) + [0] == Zeros(k + 1)
  {
    if k > 0 {
      ZerosEnd(k - 1);
      assert Zeros(k) + [0] == [0] + (Zeros(k - 1) + [0]);
    } else {
      assert Zeros(1) == [0] + Zeros(0);
    }
  }

  lemma {:induction false} SmallLength(n: nat)
    requires n < 256
    ensures Be64(n) == [0, 0, 0, 0, 0, 0, 0, n]
  {
    SmallBigEndian(n, 8);
    assert Zeros(3) == [0, 0, 0] by { assert Zeros(1) == [0]; assert Zeros(2) == [0, 0]; }
    assert Zeros(5) == [0, 0] + Zeros(3);
    assert Zeros(7) == [0, 0] + Zeros(5);
  }

  lemma {:induction false} SmallField(heading: Bytes, value: Bytes)
    requires |heading| < 256 && |value| < 256
    ensures Field(heading, value)
         == [0, 0, 0, 0, 0, 0, 0, |heading|] + heading + ([0, 0, 0, 0, 0, 0, 0, |value|] + value)
  {
    SmallLength(|heading|);
    SmallLength(|value|);
  }

  /** A directory on the wire: the length of `dir` in eight bytes, `dir`, the length of its path in
      eight bytes, its path. */
  lemma {:induction false} DirBytes(path: Bytes)
    requires |path| < 256
    ensures Print(DirItem(path)) == [0, 0, 0, 0, 0, 0, 0, 3] + [100, 105, 114] + ([0, 0, 0, 0, 0, 0, 0, |path|] + path)
  {
    hide Field;
    assert Ascii("dir") == [100, 105, 114];
    SmallField(Ascii("dir"), path);
  }

  /** A file on the wire: `file` and its path, `file_size` and its size in eight bytes, and then the
      bytes themselves. */
  lemma {:induction false} FileBytes(path: Bytes, content: Bytes)
    requires |path| < 256 && |content| < 256
    ensures Print(FileItem(path, content)) ==
      [0, 0, 0, 0, 0, 0, 0, 4] + [102, 105, 108, 101] + ([0, 0, 0, 0, 0, 0, 0, |path|] + path)
      + ([0, 0, 0, 0, 0, 0, 0, 9] + [102, 105, 108, 101, 95, 115, 105, 122, 101]
         + ([0, 0, 0, 0, 0, 0, 0, 8] + [0, 0, 0, 0, 0, 0, 0, |content|]) + content)
  {
    hide Field;
    assert Ascii("file") == [102, 105, 108, 101];
    assert Ascii("file_size") == [102, 105, 108, 101, 95, 115, 105, 122, 101];
    SmallField(Ascii("file"), path);
    SmallField(Ascii("file_size"), Be64(|content|));
    SmallLength(|content|);
  }

  /** The labels of an asset's fields after its name: `asset_kind`, `asset_required`, `asset_size` and
      `asset_sha256`. */
  lemma {:induction false} AssetLabelBytes()
    ensures AssetHeadings()[0] == [97, 115, 115, 101, 116, 95, 107, 105, 110, 100]
    ensures AssetHeadings()[1] == [97, 115, 115, 101, 116, 95, 114, 101, 113, 117, 105, 114, 101, 100]
    ensures AssetHeadings()[2] == [97, 115, 115, 101, 116, 95, 115, 105, 122, 101]
    ensures AssetHeadings()[3] == [97, 115, 115, 101, 116, 95, 115, 104, 97, 50, 53, 54]
  {
    var a, b, c, d := [97, 115, 115, 101, 116, 95, 107, 105, 110, 100], [97, 115, 115, 101, 116, 95, 114, 101, 113, 117, 105, 114, 101, 100], [97, 115, 115, 101, 116, 95, 115, 105, 122, 101], [97, 115, 115, 101, 116, 95, 115, 104, 97, 50, 53, 54];
    assert AssetHeadings()[0] == a;
    assert AssetHeadings()[1] == b;
    assert AssetHeadings()[2] == c;
    assert AssetHeadings()[3] == d;
  }
}
