/**
  The diagnostic archive writer: stored entries in the ZIP layout of PKWARE APPNOTE
  (local headers 4.3.7, central directory 4.3.12, end record 4.3.16), and a reader that goes from
  the end record to the directory to the local headers.
 */
module Zip {
  import opened Utf8
  import opened Struct

  datatype ArchiveEntry = ArchiveEntry(name: seq<byte>, content: seq<byte>)

  type u16 = n: nat | n <= 0xFFFF

  /** The time stamp both kinds of header carry. */
  datatype Stamp = Stamp(time: u16, date: u16)

  const LOCAL: seq<nat> := [4, 2, 2, 2, 2, 2, 4, 4, 4, 2, 2]
  const CENTRAL: seq<nat> := [4, 2, 2, 2, 2, 2, 2, 4, 4, 4, 2, 2, 2, 2, 2, 4, 4]
  const END: seq<nat> := [4, 2, 2, 2, 2, 4, 4, 2]

  const LOCAL_SIGN: nat := 0x04034B50
  const CENTRAL_SIGN: nat := 0x02014B50
  const END_SIGN: nat := 0x06054B50

  const MAX16: nat := 0xFFFF
  const MAX32: nat := 0xFFFFFFFF

  // ----- CRC-32 -----

  /** One bit of the reflected polynomial division. */
  function CrcBit(c: bv32): bv32 { (c >> 1) ^ (if c & 1 == 1 then 0xEDB88320 else 0) }

  function CrcBits(crc: bv32, n: nat): bv32 { if n == 0 then crc else CrcBit(CrcBits(crc, n - 1)) }

  function Mix(crc: bv32, b: byte): bv32 { crc ^ (b as bv32) }

  function CrcOver(data: seq<byte>): bv32
  {
    if data == [] then 0xFFFFFFFF else CrcBits(Mix(CrcOver(data[..|data| - 1]), data[|data| - 1]), 8)
  }

  function Complement(c: bv32): (r: nat)
    ensures r <= MAX32
  {
    (c ^ 0xFFFFFFFF) as nat
  }

  function Crc32(data: seq<byte>): (r: nat)
    ensures r <= MAX32
  {
    Complement(CrcOver(data))
  }

  method ComputeCrc32(data: seq<byte>) returns (r: nat)
    ensures r == Crc32(data)
  {
    hide CrcBit, Mix, Complement;
    var crc: bv32 := 0xFFFFFFFF;
    for i := 0 to |data|
      invariant crc == CrcOver(data[..i])
    {
      assert data[..i + 1][..i] == data[..i];
      crc := Mix(crc, data[i]);
      ghost var mixed := crc;
      for bit := 0 to 8
        invariant crc == CrcBits(mixed, bit)
      {
        crc := CrcBit(crc);
      }
    }
    assert data[..|data|] == data;
    return Complement(crc);
  }

  // ----- The layout -----

  function LocalFields(e: ArchiveEntry, s: Stamp): (r: seq<nat>)
    ensures |r| == 11
  {
    [LOCAL_SIGN, 20, 0x0800, 0, s.time, s.date, Crc32(e.content), |e.content|, |e.content|, |e.name|, 0]
  }

  function CentralFields(e: ArchiveEntry, s: Stamp, offset: nat): (r: seq<nat>)
    ensures |r| == 17
  {
    [CENTRAL_SIGN, 20, 20, 0x0800, 0, s.time, s.date, Crc32(e.content), |e.content|, |e.content|, |e.name|,
     0, 0, 0, 0, 0, offset]
  }

  function EndFields(count: nat, size: nat, offset: nat): (r: seq<nat>)
    ensures |r| == 8
  {
    [END_SIGN, 0, 0, count, count, size, offset, 0]
  }

  function Local(e: ArchiveEntry, s: Stamp): seq<byte> { Pack(LocalFields(e, s), LOCAL) + e.name + e.content }

  function Central(e: ArchiveEntry, s: Stamp, offset: nat): seq<byte>
  {
    Pack(CentralFields(e, s, offset), CENTRAL) + e.name
  }

  function Locals(entries: seq<ArchiveEntry>, s: Stamp): seq<byte>
  {
    if entries == [] then [] else Locals(entries[..|entries| - 1], s) + Local(entries[|entries| - 1], s)
  }

  /** Where an entry's local header starts. */
  function Offset(entries: seq<ArchiveEntry>, s: Stamp, i: nat): nat
    requires i <= |entries|
  {
    |Locals(entries[..i], s)|
  }

  /** The directory rows of the first `n` entries. */
  function Directory(entries: seq<ArchiveEntry>, s: Stamp, n: nat): seq<byte>
    requires n <= |entries|
  {
    if n == 0 then [] else Directory(entries, s, n - 1) + Central(entries[n - 1], s, Offset(entries, s, n - 1))
  }

  function Archive(entries: seq<ArchiveEntry>, s: Stamp): seq<byte>
  {
    var body, directory := Locals(entries, s), Directory(entries, s, |entries|);
    body + directory + Pack(EndFields(|entries|, |directory|, |body|), END)
  }

  // ----- When writing succeeds -----

  /** Two dots in a row. */
  predicate HasParent(name: seq<byte>) { exists i :: 0 <= i < |name| - 1 && name[i] == 0x2E && name[i + 1] == 0x2E }

  predicate NameOk(name: seq<byte>)
  {
    name != [] && !HasParent(name) && 0x5C !in name && |name| <= MAX16
  }

  predicate EntryOk(e: ArchiveEntry) { NameOk(e.name) && |e.content| <= MAX32 }

  /** Every name is allowed and every length, offset and count fits the field it is written to. */
  ghost predicate Writable(entries: seq<ArchiveEntry>, s: Stamp)
  {
    && EntriesFit(entries, s, |entries|) && Offset(entries, s, |entries|) <= MAX32
    && Offset(entries, s, |entries|) + |Directory(entries, s, |entries|)| <= MAX32
    && |entries| <= MAX16
  }

  // ----- The writer -----

  method WriteU16(stream: seq<byte>, value: nat) returns (r: seq<byte>)
    ensures r == stream + Le(value, 2)
  {
    r := stream + [value % 256, (value / 256) % 256];
    LeStep(value, 2);
    LeStep(value / 256, 1);
  }

  method WriteU32(stream: seq<byte>, value: nat) returns (r: seq<byte>)
    ensures r == stream + Le(value, 4)
  {
    var second := value / 256;
    var third := second / 256;
    var fourth := third / 256;
    r := stream + [value % 256, second % 256, third % 256, fourth % 256];
    LeStep(value, 4);
    LeStep(second, 3);
    LeStep(third, 2);
    LeStep(fourth, 1);
  }

  lemma {:induction false} LeStep(n: nat, width: nat)
    requires width > 0
    ensures Le(n, width) == [n % 256] + Le(n / 256, width - 1) && Le(n, 0) == []
  {
  }

  lemma {:induction false} PackSnoc(fields: seq<nat>, widths: seq<nat>, n: nat)
    requires |fields| == |widths| && n < |widths|
    ensures Pack(fields[..n + 1], widths[..n + 1]) == Pack(fields[..n], widths[..n]) + Le(fields[n], widths[n])
    decreases n
  {
    var f, w := fields[..n + 1], widths[..n + 1];
    if n == 0 {
      assert f[1..] == [] && w[1..] == [];
    } else {
      PackSnoc(fields[1..], widths[1..], n - 1);
      assert f[1..] == fields[1..][..n] && w[1..] == widths[1..][..n];
      assert fields[..n][1..] == fields[1..][..n - 1] && widths[..n][1..] == widths[1..][..n - 1];
    }
  }

  predicate Words(widths: seq<nat>) { forall i :: 0 <= i < |widths| ==> widths[i] == 2 || widths[i] == 4 }

  lemma {:induction false} AllWords()
    ensures Words(LOCAL) && |LOCAL| == 11 && Words(CENTRAL) && |CENTRAL| == 17 && Words(END) && |END| == 8
  {
  }

  /** A run of `WriteU16` and `WriteU32` calls, one per field. */
  method WriteFields(stream: seq<byte>, fields: seq<nat>, widths: seq<nat>) returns (r: seq<byte>)
    requires |fields| == |widths| && Words(widths)
    ensures r == stream + Pack(fields, widths)
  {
    r := stream;
    assert fields[..0] == [] && widths[..0] == [];
    for i := 0 to |fields|
      invariant r == stream + Pack(fields[..i], widths[..i])
    {
      if widths[i] == 2 { r := WriteU16(r, fields[i]); } else { r := WriteU32(r, fields[i]); }
      PackSnoc(fields, widths, i);
    }
    assert fields[..|fields|] == fields && widths[..|widths|] == widths;
  }

  method WriteLocal(stream: seq<byte>, e: ArchiveEntry, s: Stamp) returns (r: seq<byte>)
    ensures r == stream + Local(e, s)
  {
    hide Pack, LocalFields, LocalWith, Words, Size;
    AllWords();
    var crc := ComputeCrc32(e.content);
    assert LocalFields(e, s) == LocalWith(e, s, crc) by { LocalCrc(e, s); }
    r := WriteFields(stream, LocalWith(e, s, crc), LOCAL);
    r := r + e.name;
    r := r + e.content;
  }

  /** The local fields around a computed checksum. */
  function LocalWith(e: ArchiveEntry, s: Stamp, crc: nat): (r: seq<nat>)
    ensures |r| == 11
  {
    [LOCAL_SIGN, 20, 0x0800, 0, s.time, s.date, crc, |e.content|, |e.content|, |e.name|, 0]
  }

  lemma {:induction false} LocalCrc(e: ArchiveEntry, s: Stamp)
    ensures LocalFields(e, s) == LocalWith(e, s, Crc32(e.content))
  {
  }

  method WriteCentral(stream: seq<byte>, e: ArchiveEntry, s: Stamp, offset: nat) returns (r: seq<byte>)
    ensures r == stream + Central(e, s, offset)
  {
    hide Pack, CentralFields, Words, Size;
    AllWords();
    r := WriteFields(stream, CentralFields(e, s, offset), CENTRAL);
    r := r + e.name;
  }

  method WriteEnd(stream: seq<byte>, count: nat, size: nat, offset: nat) returns (r: seq<byte>)
    ensures r == stream + Pack(EndFields(count, size, offset), END)
  {
    hide Pack, EndFields;
    AllWords();
    r := WriteFields(stream, EndFields(count, size, offset), END);
  }

  lemma {:induction false} LocalsNext(entries: seq<ArchiveEntry>, s: Stamp, i: nat)
    requires i < |entries|
    ensures Locals(entries[..i + 1], s) == Locals(entries[..i], s) + Local(entries[i], s)
  {
    assert entries[..i + 1][..i] == entries[..i];
  }

  ghost predicate EntriesFit(entries: seq<ArchiveEntry>, s: Stamp, n: nat)
    requires n <= |entries|
  {
    forall i :: 0 <= i < n ==> EntryOk(entries[i]) && Offset(entries, s, i) <= MAX32
  }

  /** The first loop: local headers and contents, noting each start. */
  method WriteLocals(entries: seq<ArchiveEntry>, s: Stamp) returns (r: Option<(seq<byte>, seq<nat>)>)
    ensures r.Some? <==> EntriesFit(entries, s, |entries|)
    ensures r.Some? ==> r.value.0 == Locals(entries, s) && |r.value.1| == |entries|
    ensures r.Some? ==> forall j :: 0 <= j < |entries| ==> r.value.1[j] == Offset(entries, s, j)
  {
    hide Local;
    var stream: seq<byte> := [];
    var offsets: seq<nat> := [];
    assert entries[..0] == [];
    for i := 0 to |entries|
      invariant stream == Locals(entries[..i], s) && |offsets| == i && EntriesFit(entries, s, i)
      invariant forall j :: 0 <= j < i ==> offsets[j] == Offset(entries, s, j)
    {
      var name := entries[i].name;
      if name == [] || (exists k :: 0 <= k && k + 1 < |name| && name[k] == 0x2E && name[k + 1] == 0x2E) ||
         0x5C in name || |name| > 0xFFFF || |entries[i].content| > 0xFFFFFFFF {
        return None;
      }
      if |stream| > 0xFFFFFFFF { return None; }
      offsets := offsets + [|stream|];
      stream := WriteLocal(stream, entries[i], s);
      LocalsNext(entries, s, i);
    }
    assert entries[..|entries|] == entries;
    return Some((stream, offsets));
  }

  /** The whole writer: the archive, or nothing when an entry or a size is refused. */
  method WriteZip(entries: seq<ArchiveEntry>, s: Stamp) returns (r: Option<seq<byte>>)
    ensures r.Some? <==> Writable(entries, s)
    ensures r.Some? ==> r.value == Archive(entries, s)
  {
    hide EndFields, Pack, Central, Locals;
    var locals := WriteLocals(entries, s);
    if locals.None? { return None; }
    var (body, offsets) := locals.value;
    assert entries[..|entries|] == entries;
    if |body| > MAX32 { return None; }
    var stream := body;
    for i := 0 to |entries|
      invariant stream == body + Directory(entries, s, i)
    {
      stream := WriteCentral(stream, entries[i], s, offsets[i]);
    }
    if |stream| > MAX32 || |entries| > MAX16 { return None; }
    stream := WriteEnd(stream, |entries|, |stream| - |body|, |body|);
    return Some(stream);
  }

  // ----- The reader -----

  lemma {:induction false} SizeConcat(a: seq<nat>, b: seq<nat>)
    ensures Size(a + b) == Size(a) + Size(b)
    decreases |a|
  {
    if a == [] {
      assert a + b == b;
    } else {
      SizeConcat(a[1..], b);
      assert (a + b)[1..] == a[1..] + b;
    }
  }

  lemma {:induction false} PairSize(x: nat, y: nat)
    ensures Size([x, y]) == x + y
  {
    OneSize(y);
    assert [x, y][1..] == [y];
  }

  lemma {:induction false} QuadSize(x: nat, y: nat, u: nat, v: nat)
    ensures Size([x, y, u, v]) == x + y + u + v
  {
    PairSize(x, y);
    PairSize(u, v);
    SizeConcat([x, y], [u, v]);
    assert [x, y] + [u, v] == [x, y, u, v];
  }

  lemma {:induction false} HeaderSizes()
    ensures Size(LOCAL) == 30 && Size(CENTRAL) == 46 && Size(END) == 22
  {
    hide Size;
    LocalSize();
    CentralSize();
    QuadSize(4, 2, 2, 2);
    QuadSize(2, 4, 4, 2);
    SizeConcat([4, 2, 2, 2], [2, 4, 4, 2]);
    assert END == [4, 2, 2, 2] + [2, 4, 4, 2];
  }

  lemma {:induction false} LocalSize()
    ensures Size(LOCAL) == 30
  {
    hide Size;
    QuadSize(4, 2, 2, 2);
    QuadSize(2, 2, 4, 4);
    PairSize(4, 2);
    SizeConcat([4, 2, 2, 2], [2, 2, 4, 4]);
    SizeConcat([4, 2, 2, 2, 2, 2, 4, 4], [4, 2]);
    SizeConcat([4, 2, 2, 2, 2, 2, 4, 4, 4, 2], [2]);
    OneSize(2);
    assert [4, 2, 2, 2] + [2, 2, 4, 4] == [4, 2, 2, 2, 2, 2, 4, 4];
    assert [4, 2, 2, 2, 2, 2, 4, 4] + [4, 2] == [4, 2, 2, 2, 2, 2, 4, 4, 4, 2];
    assert LOCAL == [4, 2, 2, 2, 2, 2, 4, 4, 4, 2] + [2];
  }

  lemma {:induction false} OneSize(x: nat)
    ensures Size([x]) == x
  {
    assert [x][1..] == [];
  }

  lemma {:induction false} CentralSize()
    ensures Size(CENTRAL) == 46
  {
    hide Size;
    QuadSize(4, 2, 2, 2);
    QuadSize(2, 2, 2, 4);
    QuadSize(4, 4, 2, 2);
    QuadSize(2, 2, 2, 4);
    OneSize(4);
    SizeConcat([4, 2, 2, 2], [2, 2, 2, 4]);
    SizeConcat([4, 4, 2, 2], [2, 2, 2, 4]);
    SizeConcat([4, 2, 2, 2] + [2, 2, 2, 4], [4, 4, 2, 2] + [2, 2, 2, 4]);
    SizeConcat([4, 2, 2, 2] + [2, 2, 2, 4] + ([4, 4, 2, 2] + [2, 2, 2, 4]), [4]);
    assert CENTRAL == [4, 2, 2, 2] + [2, 2, 2, 4] + ([4, 4, 2, 2] + [2, 2, 2, 4]) + [4];
  }

  /** The header of the given format at a position. */
  function FieldsAt(z: seq<byte>, at: nat, widths: seq<nat>): (r: Option<seq<nat>>)
    ensures r.Some? ==> |r.value| == |widths| && at + Size(widths) <= |z|
  {
    if at + Size(widths) <= |z| then Some(Unpack(z[at..at + Size(widths)], widths)) else None
  }

  function Slice(z: seq<byte>, at: nat, length: nat): Option<seq<byte>>
  {
    if at + length <= |z| then Some(z[at..at + length]) else None
  }

  function LocalAt(z: seq<byte>, at: nat): (r: Option<seq<nat>>)
    ensures r.Some? ==> |r.value| == 11
  {
    FieldsAt(z, at, LOCAL)
  }

  function CentralAt(z: seq<byte>, at: nat): (r: Option<seq<nat>>)
    ensures r.Some? ==> |r.value| == 17
  {
    FieldsAt(z, at, CENTRAL)
  }

  /** The name and content that follow a local header, under a checksum that must match. */
  function EntryAfter(z: seq<byte>, at: nat, f: seq<nat>): Option<ArchiveEntry>
    requires |f| == 11
  {
    var name, content := Slice(z, at + 30, f[9]), Slice(z, at + 30 + f[9] + f[10], f[7]);
    if f[0] != LOCAL_SIGN || f[3] != 0 || f[7] != f[8] then None
    else if name.None? || content.None? || Crc32(content.value) != f[6] then None
    else Some(ArchiveEntry(name.value, content.value))
  }

  /** A stored entry: its header, its name and its content. */
  function ReadLocal(z: seq<byte>, at: nat): Option<ArchiveEntry>
  {
    match LocalAt(z, at)
    case None => None
    case Some(f) => EntryAfter(z, at, f)
  }

  /** The directory row agrees with the entry its local header gives. */
  predicate Agrees(z: seq<byte>, at: nat, g: seq<nat>, e: ArchiveEntry)
    requires |g| == 17
  {
    g[0] == CENTRAL_SIGN && Slice(z, at + 46, g[10]) == Some(e.name) && g[8] == |e.content| && g[9] == |e.content| &&
    g[7] == Crc32(e.content)
  }

  /** The directory row at a position: the entry it points at and where the next row starts. */
  function ReadCentral(z: seq<byte>, at: nat): Option<(ArchiveEntry, nat)>
  {
    match CentralAt(z, at)
    case None => None
    case Some(g) =>
      match ReadLocal(z, g[16])
      case None => None
      case Some(e) => if Agrees(z, at, g, e) then Some((e, at + 46 + g[10] + g[11] + g[12])) else None
  }

  function ReadDirectory(z: seq<byte>, at: nat, count: nat): Option<seq<ArchiveEntry>>
    decreases count
  {
    if count == 0 then Some([])
    else match ReadCentral(z, at)
      case None => None
      case Some((e, next)) =>
        match ReadDirectory(z, next, count - 1)
        case None => None
        case Some(rest) => Some([e] + rest)
  }

  /** Reads an archive from its end record. */
  function ReadZip(z: seq<byte>): Option<seq<ArchiveEntry>>
  {
    if |z| < 22 then None
    else match FieldsAt(z, |z| - 22, END)
      case None => None
      case Some(f) =>
        if f[0] != END_SIGN || f[3] != f[4] || f[6] + f[5] != |z| - 22 then None
        else ReadDirectory(z, f[6], f[4])
  }

  // ----- Round trip -----

  lemma {:induction false} ReadFields(a: seq<byte>, fields: seq<nat>, widths: seq<nat>, b: seq<byte>)
    requires Fits(fields, widths)
    ensures FieldsAt(a + Pack(fields, widths) + b, |a|, widths) == Some(fields)
  {
    var z := a + Pack(fields, widths) + b;
    assert z[|a|..|a| + Size(widths)] == Pack(fields, widths);
    UnpackPack(fields, widths);
  }

  /** Two-byte and four-byte fields that are small enough fit. */
  lemma {:induction false} WordsFit(fields: seq<nat>, widths: seq<nat>)
    requires |fields| == |widths| && Words(widths)
    requires forall i :: 0 <= i < |fields| ==> fields[i] <= (if widths[i] == 2 then MAX16 else MAX32)
    ensures Fits(fields, widths)
  {
    Powers();
  }

  /** No header field is truncated when it is written. */
  lemma {:induction false} NothingTruncated(e: ArchiveEntry, s: Stamp, offset: nat)
    requires EntryOk(e) && offset <= MAX32
    ensures Fits(LocalFields(e, s), LOCAL) && Fits(CentralFields(e, s, offset), CENTRAL)
  {
    hide Fits;
    AllWords();
    WordsFit(LocalFields(e, s), LOCAL);
    WordsFit(CentralFields(e, s, offset), CENTRAL);
  }

  /** Nor is one of the end record. */
  lemma {:induction false} EndNotTruncated(entries: seq<ArchiveEntry>, s: Stamp)
    requires Writable(entries, s)
    ensures Fits(EndFields(|entries|, |Directory(entries, s, |entries|)|, |Locals(entries, s)|), END)
  {
    hide Fits, Locals, Directory;
    assert entries[..|entries|] == entries;
    AllWords();
    WordsFit(EndFields(|entries|, |Directory(entries, s, |entries|)|, |Locals(entries, s)|), END);
  }

  lemma {:induction false} ReadLocalBack(a: seq<byte>, e: ArchiveEntry, s: Stamp, b: seq<byte>)
    requires EntryOk(e)
    ensures ReadLocal(a + Local(e, s) + b, |a|) == Some(e)
  {
    hide Pack, Unpack, Fits, Size, FieldsAt, Crc32, NameOk;
    NothingTruncated(e, s, 0);
    HeaderSizes();
    var head, z := Pack(LocalFields(e, s), LOCAL), a + Local(e, s) + b;
    ReadFields(a, LocalFields(e, s), LOCAL, e.name + e.content + b);
    assert z == a + head + (e.name + e.content + b);
    assert Slice(z, |a| + 30, |e.name|) == Some(e.name) by { assert z[|a| + 30..|a| + 30 + |e.name|] == e.name; }
    var at := |a| + 30 + |e.name|;
    assert Slice(z, at, |e.content|) == Some(e.content) by { assert z[at..at + |e.content|] == e.content; }
  }

  lemma {:induction false} ReadCentralBack(a: seq<byte>, e: ArchiveEntry, s: Stamp, offset: nat, b: seq<byte>)
    requires EntryOk(e) && offset <= MAX32
    requires ReadLocal(a + Central(e, s, offset) + b, offset) == Some(e)
    ensures ReadCentral(a + Central(e, s, offset) + b, |a|) == Some((e, |a| + |Central(e, s, offset)|))
  {
    hide Pack, Unpack, Fits, Size, FieldsAt, Crc32, NameOk, ReadLocal;
    NothingTruncated(e, s, offset);
    HeaderSizes();
    var head, z := Pack(CentralFields(e, s, offset), CENTRAL), a + Central(e, s, offset) + b;
    ReadFields(a, CentralFields(e, s, offset), CENTRAL, e.name + b);
    assert z == a + head + (e.name + b);
    assert Slice(z, |a| + 46, |e.name|) == Some(e.name) by { assert z[|a| + 46..|a| + 46 + |e.name|] == e.name; }
  }

  /** The locals before and after an entry. */
  lemma {:induction false} LocalsSplit(entries: seq<ArchiveEntry>, s: Stamp, i: nat) returns (rest: seq<byte>)
    requires i < |entries|
    ensures Locals(entries, s) == Locals(entries[..i], s) + Local(entries[i], s) + rest
  {
    hide Local;
    if i == |entries| - 1 {
      rest := [];
    } else {
      var front := entries[..|entries| - 1];
      rest := LocalsSplit(front, s, i);
      assert front[..i] == entries[..i];
      rest := rest + Local(entries[|entries| - 1], s);
    }
  }

  lemma {:induction false} DirectorySplit(entries: seq<ArchiveEntry>, s: Stamp, i: nat,
                                          n: nat) returns (rest: seq<byte>)
    requires i < n <= |entries|
    ensures Directory(entries, s, n) ==
            Directory(entries, s, i) + Central(entries[i], s, Offset(entries, s, i)) + rest
    decreases n
  {
    hide Central, Offset;
    if i == n - 1 {
      rest := [];
    } else {
      rest := DirectorySplit(entries, s, i, n - 1);
      rest := rest + Central(entries[n - 1], s, Offset(entries, s, n - 1));
    }
  }

  /** Row `i` of the directory leads back to entry `i`. */
  lemma {:induction false} ReadRow(entries: seq<ArchiveEntry>, s: Stamp, tail: seq<byte>, i: nat)
    requires Writable(entries, s) && i < |entries|
    ensures var z, at := Locals(entries, s) + Directory(entries, s, |entries|) + tail,
            |Locals(entries, s)| + |Directory(entries, s, i)|;
            ReadCentral(z, at) == Some((entries[i], |Locals(entries, s)| + |Directory(entries, s, i + 1)|))
  {
    hide Locals, Local, Central, ReadCentral, ReadLocal, EntryOk;
    var body, directory := Locals(entries, s), Directory(entries, s, |entries|);
    var z := body + directory + tail;
    var e, offset := entries[i], Offset(entries, s, i);
    assert EntryOk(e) && offset <= MAX32;
    var rest := LocalsSplit(entries, s, i);
    assert z == Locals(entries[..i], s) + Local(e, s) + (rest + directory + tail);
    ReadLocalBack(Locals(entries[..i], s), e, s, rest + directory + tail);
    var more := DirectorySplit(entries, s, i, |entries|);
    var a := body + Directory(entries, s, i);
    assert z == a + Central(e, s, offset) + (more + tail);
    ReadCentralBack(a, e, s, offset, more + tail);
  }

  lemma {:induction false} ReadRows(entries: seq<ArchiveEntry>, s: Stamp, tail: seq<byte>, i: nat)
    requires Writable(entries, s) && i <= |entries|
    ensures var z, at := Locals(entries, s) + Directory(entries, s, |entries|) + tail,
            |Locals(entries, s)| + |Directory(entries, s, i)|;
            ReadDirectory(z, at, |entries| - i) == Some(entries[i..])
    decreases |entries| - i
  {
    hide Writable, Locals, Directory, ReadCentral;
    assert entries[|entries|..] == [];
    if i < |entries| {
      ReadRow(entries, s, tail, i);
      ReadRows(entries, s, tail, i + 1);
      assert entries[i..] == [entries[i]] + entries[i + 1..];
    }
  }

  /** Whatever is written reads back: names, contents, sizes and checksums, in order. */
  lemma {:induction false} RoundTrip(entries: seq<ArchiveEntry>, s: Stamp)
    requires Writable(entries, s)
    ensures ReadZip(Archive(entries, s)) == Some(entries)
  {
    hide Pack, Unpack, Fits, Size, FieldsAt, Locals, ReadDirectory;
    var body, directory := Locals(entries, s), Directory(entries, s, |entries|);
    var fields := EndFields(|entries|, |directory|, |body|);
    EndNotTruncated(entries, s);
    HeaderSizes();
    ReadFields(body + directory, fields, END, []);
    var z := Archive(entries, s);
    assert z == body + directory + Pack(fields, END) + [];
    ReadRows(entries, s, Pack(fields, END), 0);
    assert |body| + |Directory(entries, s, 0)| == |body| && entries[0..] == entries;
  }
}
