/**
  `verify`: decodes the sections of an `.azdic` image into tables and checks them against each other.
 */
module Azdic {
  import opened Utf8
  import opened Sorting
  import opened Struct
  import opened DoubleArray
  import opened TrieBuilder
  import opened TrieCheck
  import Frame
  import Aliases

  // ----- Readings -----

  /** Katakana becomes hiragana and full-width ASCII becomes ASCII. */
  function NormalizeScalar(c: scalar): scalar
  {
    if 0x30A1 <= c <= 0x30F6 then c - 0x60 else if 0xFF01 <= c <= 0xFF5E then c - 0xFEE0 else c
  }

  predicate HasText(t: Text) { t != [] && 0 !in t }

  /** `normalize` of a text it accepts; it raises on an empty text or one that contains NUL. */
  function Normalize(t: Text): Text
  {
    seq(|t|, i requires 0 <= i < |t| => NormalizeScalar(t[i]))
  }

  /** Free of what normalising rewrites: katakana with a hiragana, and full-width ASCII. */
  predicate Normal(t: Text)
  {
    forall i :: 0 <= i < |t| ==> !(0x30A1 <= t[i] <= 0x30F6) && !(0xFF01 <= t[i] <= 0xFF5E)
  }

  /**
    Normalising yields a normal text of the same length, so doing it again changes nothing; it leaves
    exactly the normal texts alone, and neither empties a text nor brings in or removes a NUL.
   */
  lemma {:induction false} NormalizeMeans(t: Text)
    ensures Normal(Normalize(t)) && |Normalize(t)| == |t|
    ensures Normalize(Normalize(t)) == Normalize(t)
    ensures Normalize(t) == t <==> Normal(t)
    ensures HasText(Normalize(t)) <==> HasText(t)
  {
    var n := Normalize(t);
    assert forall i :: 0 <= i < |t| ==> n[i] == NormalizeScalar(t[i]);
    assert Normalize(n) == n;
    if Normalize(t) == t { assert forall i :: 0 <= i < |t| ==> t[i] == NormalizeScalar(t[i]); }
    NulKept(t);
  }

  /**
    What each character becomes: full-width ASCII the ASCII character of the same place in order,
    katakana the hiragana of the same place in order, and every other character itself.
   */
  lemma {:induction false} NormalizeKeepsOrder(a: scalar, b: scalar)
    ensures |Normalize([a])| == 1
    ensures 0xFF01 <= a < b <= 0xFF5E ==> 0x21 <= Normalize([a])[0] < Normalize([b])[0] <= 0x7E
    ensures 0x30A1 <= a < b <= 0x30F6 ==> 0x3041 <= Normalize([a])[0] < Normalize([b])[0] <= 0x3096
    ensures !(0xFF01 <= a <= 0xFF5E) && !(0x30A1 <= a <= 0x30F6) ==> Normalize([a])[0] == a
  {
  }

  /** Normalising is character by character. */
  lemma {:induction false} NormalizeConcat(s: Text, t: Text)
    ensures Normalize(s + t) == Normalize(s) + Normalize(t)
  {
  }

  lemma {:induction false} NulKept(t: Text)
    ensures 0 in t <==> 0 in Normalize(t)
  {
    var n := Normalize(t);
    if i :| 0 <= i < |t| && t[i] == 0 { assert n[i] == 0; }
    if i :| 0 <= i < |n| && n[i] == 0 { assert t[i] == 0; }
  }

  // ----- Tables -----

  datatype KeyRecord = KeyRecord(offset: nat, length: nat)

  datatype Ref = Ref(entry: nat, kind: nat, reserved: nat)

  datatype Entry = Entry(surfaceAt: nat, surfaceLength: nat, readingAt: nat, readingLength: nat, pos: nat,
                         category: nat, cost: nat, frequency: nat, source: nat, priority: nat, reserved: nat)

  /** What `json.loads` makes of META: an error, or an object with or without a `pos_table`. */
  datatype Meta = NotJson | Json(posCount: Option<nat>)

  datatype Tables = Tables(layer: nat, keyCount: nat, nodes: seq<Node>, keys: seq<KeyRecord>, refs: seq<Ref>,
                           entries: seq<Entry>, pool: seq<byte>, surfaceIndex: Option<seq<nat>>, posCount: Option<nat>)

  // ----- What `verify` demands of the tables -----

  predicate StringIn(pool: seq<byte>, at: nat, length: nat)
  {
    length != 0 && at <= |pool| && length <= |pool| - at
  }

  ghost predicate StringOk(pool: seq<byte>, at: nat, length: nat)
  {
    StringIn(pool, at, length) && Decode(pool[at..at + length]).Some? && HasText(Decode(pool[at..at + length]).value)
  }

  ghost predicate EntryOk(t: Tables, e: Entry)
  {
    && t.posCount.Some? && e.pos < t.posCount.value && e.source == t.layer && e.category < 1024 && e.reserved == 0
    && StringOk(t.pool, e.surfaceAt, e.surfaceLength) && StringOk(t.pool, e.readingAt, e.readingLength)
  }

  function SurfaceOf(pool: seq<byte>, e: Entry): seq<byte>
  {
    if StringIn(pool, e.surfaceAt, e.surfaceLength) then pool[e.surfaceAt..e.surfaceAt + e.surfaceLength] else []
  }

  ghost function ReadingOf(pool: seq<byte>, e: Entry): Text
  {
    if StringOk(pool, e.readingAt, e.readingLength)
    then Normalize(Decode(pool[e.readingAt..e.readingAt + e.readingLength]).value) else []
  }

  predicate KeyRecordOk(t: Tables, k: KeyRecord)
  {
    k.length != 0 && k.offset <= |t.refs| && k.length <= |t.refs| - k.offset
  }

  predicate RefOk(t: Tables, r: Ref) { r.entry < |t.entries| && r.kind <= 1 && r.reserved == 0 }

  ghost predicate EntriesOk(t: Tables)
  {
    forall i {:trigger EntryOk(t, t.entries[i])} :: 0 <= i < |t.entries| ==> EntryOk(t, t.entries[i])
  }

  function Surfaces(t: Tables): (r: seq<seq<byte>>)
    ensures |r| == |t.entries| && forall i :: 0 <= i < |r| ==> r[i] == SurfaceOf(t.pool, t.entries[i])
  {
    seq(|t.entries|, i requires 0 <= i < |t.entries| => SurfaceOf(t.pool, t.entries[i]))
  }

  ghost function Readings(t: Tables): (r: seq<Text>)
    ensures |r| == |t.entries| && forall i :: 0 <= i < |r| ==> r[i] == ReadingOf(t.pool, t.entries[i])
  {
    seq(|t.entries|, i requires 0 <= i < |t.entries| => ReadingOf(t.pool, t.entries[i]))
  }

  /** Entry numbers ordered by (surface bytes, number). */
  predicate Before(surfaces: seq<seq<byte>>, a: nat, b: nat)
    requires a < |surfaces| && b < |surfaces|
  {
    Less(surfaces[a], surfaces[b]) || (surfaces[a] == surfaces[b] && a < b)
  }

  ghost predicate IndexOk(surfaces: seq<seq<byte>>, order: seq<nat>)
  {
    && |order| == |surfaces|
    && (forall i :: 0 <= i < |order| ==> order[i] < |surfaces|)
    && (forall i :: 0 < i < |order| ==> Before(surfaces, order[i - 1], order[i]))
  }

  /** An exact reference names the entry's own reading; an alias reference another spelling of it. */
  ghost predicate RefMatches(reading: Text, key: Text, kind: nat)
  {
    && (kind == 0 ==> key == reading)
    && (kind == 1 ==> key != reading && key in Aliases.AliasSet(reading))
  }

  ghost predicate RefsOk(t: Tables)
  {
    && (forall i :: 0 <= i < |t.keys| ==> KeyRecordOk(t, t.keys[i]))
    && (forall i :: 0 <= i < |t.refs| ==> RefOk(t, t.refs[i]))
  }

  /** The references of one key all match it. */
  ghost predicate KeyMatches(readings: seq<Text>, key: Text, refs: seq<Ref>)
  {
    forall i :: 0 <= i < |refs| ==> refs[i].entry < |readings| && RefMatches(readings[refs[i].entry], key, refs[i].kind)
  }

  ghost predicate RefsMatch(t: Tables, readings: seq<Text>, texts: seq<Text>)
    requires RefsOk(t)
  {
    |texts| == |t.keys| &&
    forall k :: 0 <= k < |t.keys| ==>
      KeyRecordOk(t, t.keys[k]) &&
      KeyMatches(readings, texts[k], t.refs[t.keys[k].offset..t.keys[k].offset + t.keys[k].length])
  }

  ghost predicate TablesOk(t: Tables, texts: seq<Text>)
  {
    && |texts| == t.keyCount && TrieAccepted(t.nodes, texts) && RefsOk(t) && EntriesOk(t)
    && (t.surfaceIndex.Some? ==> IndexOk(Surfaces(t), t.surfaceIndex.value))
    && RefsMatch(t, Readings(t), texts)
  }

  // ----- The checks as loops -----

  method CheckString(pool: seq<byte>, at: nat, length: nat) returns (ok: bool, text: Text)
    ensures ok <==> StringOk(pool, at, length)
    ensures ok ==> Decode(pool[at..at + length]) == Some(text)
  {
    text := [];
    if !StringIn(pool, at, length) { return false, text; }
    var decoded := DecodeUtf8CodePoints(pool[at..at + length]);
    if decoded.None? || !HasText(decoded.value) { return false, text; }
    return true, decoded.value;
  }

  method CheckEntry(t: Tables, e: Entry) returns (r: Option<Text>)
    ensures r.Some? <==> EntryOk(t, e)
    ensures r.Some? ==> r.value == ReadingOf(t.pool, e)
  {
    hide StringOk, Normalize, Decode;
    if t.posCount.None? || e.pos >= t.posCount.value || e.source != t.layer || e.category >= 1024 || e.reserved != 0 {
      return None;
    }
    var okSurface, surface := CheckString(t.pool, e.surfaceAt, e.surfaceLength);
    if !okSurface { return None; }
    var okReading, reading := CheckString(t.pool, e.readingAt, e.readingLength);
    if !okReading { return None; }
    return Some(Normalize(reading));
  }

  /** The surfaces and normalised readings of all entries, when every record is sound. */
  method CheckEntries(t: Tables) returns (r: Option<(seq<seq<byte>>, seq<Text>)>)
    ensures r.Some? <==> EntriesOk(t)
    ensures r.Some? ==> r.value.0 == Surfaces(t) && r.value.1 == Readings(t)
  {
    hide StringOk, EntryOk, SurfaceOf, ReadingOf;
    var surfaces: seq<seq<byte>>, readings: seq<Text> := [], [];
    for i := 0 to |t.entries|
      invariant |surfaces| == |readings| == i
      invariant forall j {:trigger EntryOk(t, t.entries[j])} :: 0 <= j < i ==> EntryOk(t, t.entries[j])
      invariant forall j :: 0 <= j < i ==> surfaces[j] == SurfaceOf(t.pool, t.entries[j])
      invariant forall j :: 0 <= j < i ==> readings[j] == ReadingOf(t.pool, t.entries[j])
    {
      var reading := CheckEntry(t, t.entries[i]);
      if reading.None? { return None; }
      surfaces := surfaces + [SurfaceOf(t.pool, t.entries[i])];
      readings := readings + [reading.value];
    }
    return Some((surfaces, readings));
  }

  method CheckRefs(t: Tables) returns (ok: bool)
    ensures ok <==> RefsOk(t)
  {
    for i := 0 to |t.keys|
      invariant forall j :: 0 <= j < i ==> KeyRecordOk(t, t.keys[j])
    {
      if !KeyRecordOk(t, t.keys[i]) { return false; }
    }
    for i := 0 to |t.refs|
      invariant forall j :: 0 <= j < i ==> RefOk(t, t.refs[j])
    {
      if !RefOk(t, t.refs[i]) { return false; }
    }
    return true;
  }

  method CheckIndex(surfaces: seq<seq<byte>>, order: seq<nat>) returns (ok: bool)
    requires |order| == |surfaces|
    ensures ok <==> IndexOk(surfaces, order)
  {
    for i := 0 to |order|
      invariant forall j :: 0 <= j < i ==> order[j] < |surfaces|
    {
      if order[i] >= |surfaces| { return false; }
    }
    var i := 1;
    while i < |order|
      invariant forall j :: 0 < j < i && j < |order| ==> Before(surfaces, order[j - 1], order[j])
    {
      if !Before(surfaces, order[i - 1], order[i]) { return false; }
      i := i + 1;
    }
    return true;
  }

  /** The references of one key against the readings they name. */
  method CheckKey(readings: seq<Text>, key: Text, refs: seq<Ref>) returns (ok: bool)
    requires forall i :: 0 <= i < |refs| ==> refs[i].entry < |readings|
    ensures ok <==> KeyMatches(readings, key, refs)
  {
    for i := 0 to |refs|
      invariant forall j :: 0 <= j < i ==> RefMatches(readings[refs[j].entry], key, refs[j].kind)
    {
      var reading := readings[refs[i].entry];
      if refs[i].kind == 0 && key != reading { return false; }
      if refs[i].kind == 1 {
        var spellings := Aliases.Aliases(reading);
        if key == reading || key !in spellings { return false; }
      }
    }
    return true;
  }

  lemma {:induction false} RefsInRange(t: Tables, lo: nat, hi: nat)
    requires RefsOk(t) && lo <= hi <= |t.refs|
    ensures forall i :: 0 <= i < hi - lo ==> t.refs[lo..hi][i].entry < |t.entries|
  {
    forall i | 0 <= i < hi - lo ensures t.refs[lo..hi][i].entry < |t.entries| { assert RefOk(t, t.refs[lo + i]); }
  }

  method CheckMatch(t: Tables, readings: seq<Text>, texts: seq<Text>) returns (ok: bool)
    requires RefsOk(t) && |texts| == |t.keys| && |readings| == |t.entries|
    ensures ok <==> RefsMatch(t, readings, texts)
  {
    hide KeyMatches;
    for k := 0 to |t.keys|
      invariant forall j :: 0 <= j < k ==>
                  KeyMatches(readings, texts[j], t.refs[t.keys[j].offset..t.keys[j].offset + t.keys[j].length])
    {
      var lo, hi := t.keys[k].offset, t.keys[k].offset + t.keys[k].length;
      assert KeyRecordOk(t, t.keys[k]);
      var refs := t.refs[lo..hi];
      RefsInRange(t, lo, hi);
      ok := CheckKey(readings, texts[k], refs);
      if !ok { return; }
    }
    return true;
  }

  method CheckTables(t: Tables) returns (r: Option<seq<Text>>)
    requires |t.keys| == t.keyCount && (t.surfaceIndex.Some? ==> |t.surfaceIndex.value| == |t.entries|)
    ensures r.Some? ==> TablesOk(t, r.value)
    ensures r.None? ==> forall texts :: !TablesOk(t, texts)
  {
    var trie := CheckTrie(t.nodes, t.keyCount);
    if trie.None? { return None; }
    OneText(t.nodes, trie.value);
    var ok := CheckRefs(t);
    if !ok { return None; }
    var read := CheckEntries(t);
    if read.None? { return None; }
    var (surfaces, readings) := read.value;
    if t.surfaceIndex.Some? {
      ok := CheckIndex(surfaces, t.surfaceIndex.value);
      if !ok { return None; }
    }
    ok := CheckMatch(t, readings, trie.value);
    if !ok { return None; }
    return trie;
  }

  /** A trie has at most one list of acceptable texts. */
  lemma {:induction false} OneText(nodes: seq<Node>, texts: seq<Text>)
    requires TrieAccepted(nodes, texts)
    ensures forall other: seq<Text> :: |other| == |texts| && TrieAccepted(nodes, other) ==> other == texts
  {
    forall other: seq<Text> | |other| == |texts| && TrieAccepted(nodes, other) ensures other == texts {
      forall k | 0 <= k < |texts| ensures other[k] == texts[k] {
        assert HasNode(nodes, k);
        var i: nat :| KeyNode(nodes, i) && nodes[i].key == k;
        EncodeInjective(other[k], texts[k]);
      }
    }
  }

  // ----- From sections to tables -----

  const NODE: seq<nat> := [4, 4, 4, 4]
  const KEY: seq<nat> := [4, 4]
  const REF: seq<nat> := [4, 1, 3]
  const ENTRY: seq<nat> := [4, 4, 4, 4, 2, 2, 2, 2, 1, 1, 6]
  const INDEX: seq<nat> := [4]

  lemma {:induction false} RecordSizes()
    ensures Size(NODE) == 16 && Size(KEY) == 8 && Size(REF) == 8 && Size(INDEX) == 4
    ensures Size(ENTRY) == 32
  {
    assert Size([]) == 0;
    assert INDEX[1..] == [] && KEY[1..] == INDEX && NODE[1..] == [4, 4, 4] && [4, 4, 4][1..] == KEY;
    assert REF[1..] == [1, 3] && [1, 3][1..] == [3] && [3][1..] == [];
    EntrySize();
  }

  lemma {:induction false} EntrySize()
    ensures Size(ENTRY) == 32
  {
    assert ENTRY[1..] == [4, 4, 4, 2, 2, 2, 2, 1, 1, 6] &&
           [4, 4, 4, 2, 2, 2, 2, 1, 1, 6][1..] == [4, 4, 2, 2, 2, 2, 1, 1, 6];
    assert [4, 4, 2, 2, 2, 2, 1, 1, 6][1..] == [4, 2, 2, 2, 2, 1, 1, 6] &&
           [4, 2, 2, 2, 2, 1, 1, 6][1..] == [2, 2, 2, 2, 1, 1, 6];
    EntryTailSize();
  }

  lemma {:induction false} EntryTailSize()
    ensures Size([2, 2, 2, 2, 1, 1, 6]) == 16
  {
    assert [2, 2, 2, 2, 1, 1, 6][1..] == [2, 2, 2, 1, 1, 6] && [2, 2, 2, 1, 1, 6][1..] == [2, 2, 1, 1, 6];
    assert [2, 2, 1, 1, 6][1..] == [2, 1, 1, 6] && [2, 1, 1, 6][1..] == [1, 1, 6] && [1, 1, 6][1..] == [1, 6];
    assert [1, 6][1..] == [6] && [6][1..] == [];
  }

  function ToNode(f: seq<nat>): Node requires |f| == 4 { Node(f[0], f[1], f[2], f[3]) }

  function ToKey(f: seq<nat>): KeyRecord requires |f| == 2 { KeyRecord(f[0], f[1]) }

  function ToRef(f: seq<nat>): Ref requires |f| == 3 { Ref(f[0], f[1], f[2]) }

  function ToEntry(f: seq<nat>): Entry
    requires |f| == 11
  {
    Entry(f[0], f[1], f[2], f[3], f[4], f[5], f[6], f[7], f[8], f[9], f[10])
  }

  function ReadNodes(s: seq<byte>, n: nat): (r: seq<Node>)
    requires |s| == 16 * n
    ensures |r| == n
  {
    RecordSizes();
    var f := UnpackAll(s, NODE, n);
    seq(n, i requires 0 <= i < n => ToNode(f[i]))
  }

  function ReadKeys(s: seq<byte>, n: nat): (r: seq<KeyRecord>)
    requires |s| == 8 * n
    ensures |r| == n
  {
    RecordSizes();
    var f := UnpackAll(s, KEY, n);
    seq(n, i requires 0 <= i < n => ToKey(f[i]))
  }

  function ReadRefs(s: seq<byte>, n: nat): (r: seq<Ref>)
    requires |s| == 8 * n
    ensures |r| == n
  {
    RecordSizes();
    var f := UnpackAll(s, REF, n);
    seq(n, i requires 0 <= i < n => ToRef(f[i]))
  }

  function ReadEntries(s: seq<byte>, n: nat): (r: seq<Entry>)
    requires |s| == 32 * n
    ensures |r| == n
  {
    RecordSizes();
    var f := UnpackAll(s, ENTRY, n);
    seq(n, i requires 0 <= i < n => ToEntry(f[i]))
  }

  function ReadIndex(s: seq<byte>, n: nat): (r: seq<nat>)
    requires |s| == 4 * n
    ensures |r| == n
  {
    RecordSizes();
    var f := UnpackAll(s, INDEX, n);
    seq(n, i requires 0 <= i < n => f[i][0])
  }

  predicate SectionsPresent(m: map<nat, seq<byte>>)
  {
    Frame.TRIE in m && Frame.KEYS in m && Frame.EIDX in m && Frame.ENTS in m && Frame.STRS in m && Frame.META in m
  }

  predicate SectionsSized(h: Frame.Header, m: map<nat, seq<byte>>)
    requires SectionsPresent(m)
  {
    && |m[Frame.KEYS]| == 8 * h.keyCount && |m[Frame.ENTS]| == 32 * h.count
    && (Frame.SIDX in m ==> |m[Frame.SIDX]| == 4 * h.count)
    && |m[Frame.TRIE]| % 16 == 0 && |m[Frame.EIDX]| % 8 == 0
  }

  /** The decoded tables, or nothing when a section is missing or has the wrong size, or META is not JSON. */
  function TablesOf(h: Frame.Header, m: map<nat, seq<byte>>, parse: seq<byte> -> Meta): (r: Option<Tables>)
    ensures r.Some? ==> |r.value.keys| == r.value.keyCount
    ensures r.Some? && r.value.surfaceIndex.Some? ==> |r.value.surfaceIndex.value| == |r.value.entries|
  {
    if !SectionsPresent(m) || !SectionsSized(h, m) || parse(m[Frame.META]).NotJson? then None
    else
      var trie, refs := m[Frame.TRIE], m[Frame.EIDX];
      Some(Tables(h.layer, h.keyCount, ReadNodes(trie, |trie| / 16), ReadKeys(m[Frame.KEYS], h.keyCount),
                  ReadRefs(refs, |refs| / 8), ReadEntries(m[Frame.ENTS], h.count), m[Frame.STRS],
                  if Frame.SIDX in m then Some(ReadIndex(m[Frame.SIDX], h.count)) else None,
                  parse(m[Frame.META]).posCount))
  }

  // ----- Whole images -----

  /** Everything an accepted image is: a sound frame around sound tables. */
  ghost predicate ImageHolds(image: seq<byte>, parse: seq<byte> -> Meta, t: Tables, texts: seq<Text>)
  {
    Frame.FrameOk(image) && TablesOk(t, texts) &&
    exists m :: Frame.Holds(image, Frame.Rows(image, Frame.HeaderOf(image).sectionCount), m) &&
                TablesOf(Frame.HeaderOf(image), m, parse) == Some(t)
  }

  ghost predicate ImageOk(image: seq<byte>, parse: seq<byte> -> Meta)
  {
    exists t, texts :: ImageHolds(image, parse, t, texts)
  }

  /** The rows determine the sections. */
  lemma {:induction false} SectionsUnique(image: seq<byte>, rows: seq<Frame.Row>, a: map<nat, seq<byte>>,
                                          b: map<nat, seq<byte>>)
    requires Frame.Holds(image, rows, a) && Frame.Holds(image, rows, b)
    ensures a == b
  {
    forall n ensures n in a <==> n in b {
      if n in a {
        var i :| 0 <= i < |rows| && rows[i].name == n;
        assert Frame.HoldsRow(image, rows[i], b);
      }
      if n in b {
        var i :| 0 <= i < |rows| && rows[i].name == n;
        assert Frame.HoldsRow(image, rows[i], a);
      }
    }
    forall n | n in a ensures a[n] == b[n] {
      var i :| 0 <= i < |rows| && rows[i].name == n;
      assert Frame.HoldsRow(image, rows[i], a) && Frame.HoldsRow(image, rows[i], b);
    }
  }

  /** `verify`: accepts exactly the images whose frame and tables hold. */
  method Verify(image: seq<byte>, parse: seq<byte> -> Meta) returns (ok: bool)
    ensures ok <==> ImageOk(image, parse)
  {
    hide TablesOk, Frame.Holds, TablesOf, Frame.HeaderOf, Frame.Rows;
    var frame := Frame.ReadFrame(image);
    if frame.None? { return false; }
    var (h, m) := frame.value;
    forall other | Frame.Holds(image, Frame.Rows(image, h.sectionCount), other) ensures other == m {
      SectionsUnique(image, Frame.Rows(image, h.sectionCount), other, m);
    }
    var t := TablesOf(h, m, parse);
    if t.None? { return false; }
    var texts := CheckTables(t.value);
    if texts.None? { return false; }
    assert ImageHolds(image, parse, t.value, texts.value);
    return true;
  }

  // ----- Soundness -----

  lemma {:induction false} IndexAscends(surfaces: seq<seq<byte>>, order: seq<nat>, i: nat, j: nat)
    requires IndexOk(surfaces, order) && i < j < |order|
    ensures Before(surfaces, order[i], order[j])
    decreases j - i
  {
    assert Before(surfaces, order[j - 1], order[j]);
    if i < j - 1 {
      IndexAscends(surfaces, order, i, j - 1);
      var a, b, c := surfaces[order[i]], surfaces[order[j - 1]], surfaces[order[j]];
      if Less(a, b) && Less(b, c) { LessTransitive(a, b, c); }
    }
  }

  /** The surface index is a permutation of the entries. */
  lemma {:induction false} IndexIsPermutation(surfaces: seq<seq<byte>>, order: seq<nat>)
    requires IndexOk(surfaces, order)
    ensures forall i, j :: 0 <= i < j < |order| ==> order[i] != order[j]
    ensures forall e :: 0 <= e < |surfaces| ==> e in order
  {
    forall i, j | 0 <= i < j < |order| ensures order[i] != order[j] {
      IndexAscends(surfaces, order, i, j);
      if order[i] == order[j] { LessIrreflexive(surfaces[order[i]]); }
    }
    var found := set i | 0 <= i < |order| :: order[i];
    DistinctSize(order, |order|);
    FullSet(found, |surfaces|);
    forall e | 0 <= e < |surfaces| ensures e in order { assert e in found; }
  }

  lemma {:induction false} LessIrreflexive(a: seq<int>)
    ensures !Less(a, a)
  {
    if Less(a, a) { LessAsymmetric(a, a); }
  }

  lemma {:induction false} DistinctSize(order: seq<nat>, n: nat)
    requires n <= |order| && forall i, j :: 0 <= i < j < |order| ==> order[i] != order[j]
    ensures |set i | 0 <= i < n :: order[i]| == n
  {
    if n > 0 {
      DistinctSize(order, n - 1);
      var less := set i | 0 <= i < n - 1 :: order[i];
      assert (set i | 0 <= i < n :: order[i]) == less + {order[n - 1]};
    }
  }

  /** Entries with one surface stand together in the index, in ascending order. */
  lemma {:induction false} IndexGroups(surfaces: seq<seq<byte>>, order: seq<nat>, i: nat, j: nat, k: nat)
    requires IndexOk(surfaces, order) && i < j < k < |order| && surfaces[order[i]] == surfaces[order[k]]
    ensures surfaces[order[j]] == surfaces[order[i]] && order[i] < order[j] < order[k]
  {
    IndexAscends(surfaces, order, i, j);
    IndexAscends(surfaces, order, j, k);
    var a, b := surfaces[order[i]], surfaces[order[j]];
    if Less(a, b) { LessAsymmetric(a, b); }
    if Less(b, a) { LessAsymmetric(b, a); }
  }

  /**
    In accepted tables a NUL-free word finds key `k` exactly when it is that key's text; this holds
    of all words if and only if no stray slot carries a key, so always below 2^32 slots.
   */
  lemma {:induction false} AcceptedLookup(t: Tables, texts: seq<Text>)
    requires TablesOk(t, texts)
    ensures (forall w: seq<byte>, k: nat :: NulFree(w) ==> AgreesOn(t.nodes, texts, w, k)) <==> !StrayKey(t.nodes)
    ensures |t.nodes| <= NONE ==> !StrayKey(t.nodes)
  {
    hide AgreesOn, NulFree, StrayKey, EntriesOk, RefsOk, RefsMatch, IndexOk;
    AgreesExactly(t.nodes, texts);
    if |t.nodes| <= NONE { SmallHasNoStray(t.nodes); }
  }

  /** Every used slot lies on a path from the root that spells its own labels. */
  lemma {:induction false} AcceptedReachable(t: Tables, texts: seq<Text>, i: nat)
    requires TablesOk(t, texts) && Used(t.nodes, i)
    ensures Walk(t.nodes, 0, PathOf(t.nodes, i)) == Some(i)
  {
    PathLeads(t.nodes, i);
  }

  /** Each key has one slot and one text; texts are nonempty, free of NUL and ascending. */
  lemma {:induction false} AcceptedKeys(t: Tables, texts: seq<Text>)
    requires TablesOk(t, texts)
    ensures |texts| == t.keyCount
    ensures forall i, j :: 0 <= i < j < |texts| ==> Less(Encode(texts[i]), Encode(texts[j])) && Less(texts[i], texts[j])
    ensures forall k :: 0 <= k < |texts| ==> HasNode(t.nodes, k) && texts[k] != [] && NulFree(Encode(texts[k]))
    ensures forall i: nat, j: nat :: KeyNode(t.nodes, i) && KeyNode(t.nodes, j) && t.nodes[i].key == t.nodes[j].key ==>
      i == j
  {
    hide EntriesOk, RefsOk, RefsMatch, IndexOk, Less;
    KeysAscend(t.nodes, texts);
    var keys := EncodeAll(texts);
    forall i, j | 0 <= i < j < |texts| ensures Less(Encode(texts[i]), Encode(texts[j])) && Less(texts[i], texts[j]) {
      assert Less(keys[i], keys[j]);
      EncodeKeepsOrder(texts[i], texts[j]);
    }
    forall k | 0 <= k < |texts| ensures HasNode(t.nodes, k) && texts[k] != [] && NulFree(Encode(texts[k])) {
      assert HasNode(t.nodes, k);
      var i: nat :| KeyNode(t.nodes, i) && t.nodes[i].key == k;
      assert EdgeOk(t.nodes, i) && Encode(texts[k]) == PathOf(t.nodes, i);
    }
  }

  /** What a key refers to is spelled like it: the same reading, or one of its aliases. */
  lemma {:induction false} AcceptedReferences(t: Tables, texts: seq<Text>, k: nat, i: nat)
    requires TablesOk(t, texts) && k < |t.keys|
    requires t.keys[k].offset <= i < t.keys[k].offset + t.keys[k].length
    ensures i < |t.refs| && t.refs[i].entry < |t.entries|
    ensures texts[k] in Aliases.AliasSet(Readings(t)[t.refs[i].entry])
    ensures texts[k] == Readings(t)[t.refs[i].entry] <==> t.refs[i].kind == 0
  {
    hide TrieAccepted, EntriesOk, IndexOk, StringOk, ReadingOf, SurfaceOf, Aliases.AliasSet;
    assert KeyRecordOk(t, t.keys[k]);
    var lo, hi := t.keys[k].offset, t.keys[k].offset + t.keys[k].length;
    var refs := t.refs[lo..hi];
    assert KeyMatches(Readings(t), texts[k], refs);
    assert refs[i - lo] == t.refs[i] && RefOk(t, t.refs[i]);
    Aliases.SelfAlias(Readings(t)[t.refs[i].entry]);
  }
}
