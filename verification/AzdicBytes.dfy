/**
  The `.azdic` format by byte positions, written out apart from the records the other modules use:
  what an accepted frame holds at which offset, and where each field of each table stands.
 */
module AzdicBytes {
  import opened Utf8
  import opened Struct
  import opened Sorting
  import opened DoubleArray
  import opened TrieCheck
  import opened Azdic
  import Frame
  import Aliases
  import Sequences

  // ----- The header and the section rows -----

  lemma {:induction false} HeaderOffsets()
    ensures var w := Frame.HEADER;
            |w| == 10 && Size(w[..0]) == 0 && Size(w[..1]) == 8 && Size(w[..2]) == 10 && Size(w[..3]) == 12 &&
            Size(w[..4]) == 16 && Size(w[..5]) == 20 && Size(w[..6]) == 24 && Size(w[..7]) == 28 &&
            Size(w[..8]) == 32 && Size(w[..9]) == 40
  {
    hide Size;
    var w := Frame.HEADER;
    SizeStep(w, 0);
    SizeStep(w, 1);
    SizeStep(w, 2);
    SizeStep(w, 3);
    SizeStep(w, 4);
    SizeStep(w, 5);
    SizeStep(w, 6);
    SizeStep(w, 7);
    SizeStep(w, 8);
  }

  lemma {:induction false} HeaderField(image: seq<byte>, j: nat)
    requires |image| >= 64 && j < |Frame.HEADER|
    ensures Size(Frame.HEADER) == 64 && Size(Frame.HEADER[..j]) + Frame.HEADER[j] <= 64
    ensures var o := Size(Frame.HEADER[..j]);
            Unpack(image[..64], Frame.HEADER)[j] == Read(image[o..o + Frame.HEADER[j]])
  {
    hide Read, Unpack, Size;
    Frame.FrameSizes();
    UnpackAt(image[..64], Frame.HEADER, j);
    var o := Size(Frame.HEADER[..j]);
    Sequences.SliceOfSlice(image, 0, 64, o, o + Frame.HEADER[j]);
  }

  /** The header's fields by position. */
  lemma {:induction false} HeaderOnBytes(image: seq<byte>)
    requires |image| >= 64
    ensures var h := Frame.HeaderOf(image);
            h.magic == U64At(image, 0) && h.version == U16At(image, 8) && h.size == U16At(image, 10) &&
            h.flags == U32At(image, 12) && h.layer == U32At(image, 16) && h.count == U32At(image, 20) &&
            h.keyCount == U32At(image, 24) && h.sectionCount == U32At(image, 28) && h.digest == U64At(image, 32) &&
            (h.reserved == 0 <==> AllZero(image[40..64]))
  {
    hide Read, Unpack, Size, U16At, U32At, U64At, AllZero;
    HeaderOffsets();
    forall j | 0 <= j < 10
      ensures Size(Frame.HEADER) == 64 && Size(Frame.HEADER[..j]) + Frame.HEADER[j] <= 64
      ensures var o := Size(Frame.HEADER[..j]);
              Unpack(image[..64], Frame.HEADER)[j] == Read(image[o..o + Frame.HEADER[j]])
    {
      HeaderField(image, j);
    }
    Read8(image, 0);
    Read2(image, 8);
    Read2(image, 10);
    Read4(image, 12);
    Read4(image, 16);
    Read4(image, 20);
    Read4(image, 24);
    Read4(image, 28);
    Read8(image, 32);
    ReadZero(image[40..64]);
  }

  lemma {:induction false} RowOffsets()
    ensures var w := Frame.ROW;
            |w| == 4 && Size(w[..0]) == 0 && Size(w[..1]) == 4 && Size(w[..2]) == 8 && Size(w[..3]) == 16
  {
    hide Size;
    SizeStep(Frame.ROW, 0);
    SizeStep(Frame.ROW, 1);
    SizeStep(Frame.ROW, 2);
  }

  /** A section row's fields by position. */
  lemma {:induction false} RowOnBytes(image: seq<byte>, i: nat)
    requires |image| >= 64 + 24 * (i + 1)
    ensures var r, at := Frame.RowOf(image, i), 64 + 24 * i;
            r.name == U32At(image, at) && r.reserved == U32At(image, at + 4) && r.offset == U64At(image, at + 8) &&
            r.length == U64At(image, at + 16)
  {
    hide Read, Unpack, Size, U32At, U64At;
    var at := 64 + 24 * i;
    var row := image[at..at + 24];
    Frame.FrameSizes();
    RowOffsets();
    UnpackAt(row, Frame.ROW, 0);
    UnpackAt(row, Frame.ROW, 1);
    UnpackAt(row, Frame.ROW, 2);
    UnpackAt(row, Frame.ROW, 3);
    Sequences.SliceOfSlice(image, at, at + 24, 0, 4);
    Sequences.SliceOfSlice(image, at, at + 24, 4, 8);
    Sequences.SliceOfSlice(image, at, at + 24, 8, 16);
    Sequences.SliceOfSlice(image, at, at + 24, 16, 24);
    Read4(image, at);
    Read4(image, at + 4);
    Read8(image, at + 8);
    Read8(image, at + 16);
  }

  /** The eight bytes "AZDIC1" and two zeros. */
  const MAGIC_BYTES: seq<byte> := [0x41, 0x5A, 0x44, 0x49, 0x43, 0x31, 0, 0]

  lemma {:induction false} MagicSpelled(image: seq<byte>)
    requires |image| >= 8
    ensures U64At(image, 0) == Frame.MAGIC <==> image[..8] == MAGIC_BYTES
  {
    var m := image[..8];
    assert m[0] == image[0] && m[1] == image[1] && m[2] == image[2] && m[3] == image[3];
    assert m[4] == image[4] && m[5] == image[5] && m[6] == image[6] && m[7] == image[7];
    if U64At(image, 0) == Frame.MAGIC { Digits(image); }
  }

  lemma {:induction false} Digits(s: seq<byte>)
    requires |s| >= 8 && U64At(s, 0) == Frame.MAGIC
    ensures s[0] == 0x41 && s[1] == 0x5A && s[2] == 0x44 && s[3] == 0x49 && s[4] == 0x43 && s[5] == 0x31
    ensures s[6] == 0 && s[7] == 0
  {
    Halves(U32At(s, 0), U32At(s, 4), 0x4944_5A41, 0x0000_3143);
  }

  lemma {:induction false} Halves(a: nat, b: nat, c: nat, d: nat)
    requires a < 0x1_0000_0000 && c < 0x1_0000_0000 && a + 0x1_0000_0000 * b == c + 0x1_0000_0000 * d
    ensures a == c && b == d
  {
  }

  /** Section `i` of an image that has `n`: aligned, after the rows, inside the image. */
  ghost predicate RowFramed(image: seq<byte>, n: nat, i: nat)
    requires i < n && |image| >= 64 + 24 * n
  {
    var at := 64 + 24 * i;
    var offset, length := U64At(image, at + 8), U64At(image, at + 16);
    U32At(image, at + 4) == 0 && offset % 8 == 0 && 64 + 24 * n <= offset && offset + length <= |image|
  }

  /** Two sections have different names and do not overlap. */
  ghost predicate RowsFramed(image: seq<byte>, n: nat, i: nat, j: nat)
    requires i < n && j < n && |image| >= 64 + 24 * n
  {
    var a, b := 64 + 24 * i, 64 + 24 * j;
    U32At(image, a) != U32At(image, b) &&
    (U64At(image, a + 8) + U64At(image, a + 16) <= U64At(image, b + 8) ||
     U64At(image, b + 8) + U64At(image, b + 16) <= U64At(image, a + 8))
  }

  ghost predicate HeadFramed(image: seq<byte>)
  {
    && |image| >= 64 && image[..8] == MAGIC_BYTES && U16At(image, 8) == 1 && U16At(image, 10) == 64
    && U32At(image, 12) <= 1 && U32At(image, 16) <= 4 && 6 <= U32At(image, 28) <= 64
    && |image| >= 64 + 24 * U32At(image, 28) && U64At(image, 32) == Frame.Fnv(image[64..]) && AllZero(image[40..64])
  }

  ghost predicate WellFramed(image: seq<byte>)
  {
    HeadFramed(image) &&
    var n := U32At(image, 28);
    (forall i :: 0 <= i < n ==> RowFramed(image, n, i)) &&
    forall i, j :: 0 <= i < j < n ==> RowsFramed(image, n, i, j)
  }

  lemma {:induction false} HeadOnBytes(image: seq<byte>)
    ensures Frame.HeadOk(image) <==> HeadFramed(image)
    ensures |image| >= 64 ==> Frame.HeaderOf(image).sectionCount == U32At(image, 28)
  {
    hide U16At, U32At, U64At, AllZero, Frame.HeaderOf, Frame.Fnv;
    if |image| >= 64 {
      HeaderOnBytes(image);
      MagicSpelled(image);
    }
  }

  lemma {:induction false} RowFieldsOnBytes(image: seq<byte>, n: nat, i: nat)
    requires i < n && |image| >= 64 + 24 * n
    ensures RowFramed(image, n, i) <==> Frame.RowOk(Frame.RowOf(image, i), n, |image|)
  {
    hide U32At, U64At, Frame.RowOf;
    RowOnBytes(image, i);
  }

  lemma {:induction false} RowPairOnBytes(image: seq<byte>, n: nat, i: nat, j: nat)
    requires i < n && j < n && |image| >= 64 + 24 * n
    ensures var a, b := Frame.RowOf(image, i), Frame.RowOf(image, j);
            RowsFramed(image, n, i, j) <==> a.name != b.name && Frame.Apart(Frame.Extent(a), Frame.Extent(b))
  {
    hide U32At, U64At, Frame.RowOf;
    RowOnBytes(image, i);
    RowOnBytes(image, j);
  }

  /** `verify` accepts the frame of an image exactly when these bytes stand at these places. */
  lemma {:induction false} FrameOnBytes(image: seq<byte>)
    ensures Frame.FrameOk(image) <==> WellFramed(image)
  {
    hide RowFramed, RowsFramed, U32At;
    hide Frame.HeadOk, Frame.RowOk, Frame.Apart, Frame.Extent, Frame.RowOf, Frame.HeaderOf;
    HeadOnBytes(image);
    if HeadFramed(image) {
      var n := U32At(image, 28);
      var rows := Frame.Rows(image, n);
      forall i | 0 <= i < n ensures RowFramed(image, n, i) <==> Frame.RowOk(rows[i], n, |image|) {
        RowFieldsOnBytes(image, n, i);
      }
      forall i, j | 0 <= i < j < n
        ensures RowsFramed(image, n, i, j) <==>
                (rows[i].name != rows[j].name && Frame.Apart(Frame.Extent(rows[i]), Frame.Extent(rows[j])))
      {
        RowPairOnBytes(image, n, i, j);
      }
      PairsBothWays(image, n, rows);
    }
  }

  lemma {:induction false} PairsBothWays(image: seq<byte>, n: nat, rows: seq<Frame.Row>)
    requires |image| >= 64 + 24 * n && |rows| == n
    requires forall i :: 0 <= i < n ==> (RowFramed(image, n, i) <==> Frame.RowOk(rows[i], n, |image|))
    requires forall i, j :: 0 <= i < j < n ==>
      (RowsFramed(image, n, i, j) <==>
        (rows[i].name != rows[j].name && Frame.Apart(Frame.Extent(rows[i]), Frame.Extent(rows[j]))))
    ensures (Frame.RowsGood(rows, n, |image|) && Frame.RowsApart(rows)) <==>
            ((forall i :: 0 <= i < n ==> RowFramed(image, n, i)) &&
             (forall i, j :: 0 <= i < j < n ==> RowsFramed(image, n, i, j)))
  {
    hide RowFramed, RowsFramed, Frame.RowOk, Frame.Apart, Frame.Extent;
  }

  lemma {:induction false} Letters(n: nat, a: byte, b: byte, c: byte, d: byte)
    requires n == a as nat + 256 * (b as nat + 256 * (c as nat + 256 * (d as nat)))
    ensures Le(n, 4) == [a, b, c, d]
  {
    var w: nat, x: nat, y: nat, z: nat := a, b, c, d;
    LeStep(n, 4);
    LeStep(x + 256 * (y + 256 * z), 3);
    LeStep(y + 256 * z, 2);
    LeStep(z, 1);
    Digit256(w, x + 256 * (y + 256 * z));
    Digit256(x, y + 256 * z);
    Digit256(y, z);
    Digit256(z, 0);
    hide Le;
  }

  lemma {:induction false} LeStep(n: nat, width: nat)
    requires width > 0
    ensures Le(n, width) == [n % 256] + Le(n / 256, width - 1) && Le(n, 0) == []
  {
  }

  lemma {:induction false} Digit256(r: nat, q: nat)
    requires r < 256
    ensures (r + 256 * q) % 256 == r && (r + 256 * q) / 256 == q
  {
  }

  /** Section names are their four letters, and the value for "none" is all ones. */
  lemma {:induction false} NamesSpelled()
    ensures Le(Frame.TRIE, 4) == [0x54, 0x52, 0x49, 0x45] && Le(Frame.KEYS, 4) == [0x4B, 0x45, 0x59, 0x53]
    ensures Le(Frame.EIDX, 4) == [0x45, 0x49, 0x44, 0x58] && Le(Frame.ENTS, 4) == [0x45, 0x4E, 0x54, 0x53]
    ensures Le(Frame.STRS, 4) == [0x53, 0x54, 0x52, 0x53] && Le(Frame.SIDX, 4) == [0x53, 0x49, 0x44, 0x58]
    ensures Le(Frame.META, 4) == [0x4D, 0x45, 0x54, 0x41] && Le(NONE, 4) == [0xFF, 0xFF, 0xFF, 0xFF]
  {
    hide Le;
    Letters(Frame.TRIE, 0x54, 0x52, 0x49, 0x45);
    Letters(Frame.KEYS, 0x4B, 0x45, 0x59, 0x53);
    Letters(Frame.EIDX, 0x45, 0x49, 0x44, 0x58);
    Letters(Frame.ENTS, 0x45, 0x4E, 0x54, 0x53);
    Letters(Frame.STRS, 0x53, 0x54, 0x52, 0x53);
    Letters(Frame.SIDX, 0x53, 0x49, 0x44, 0x58);
    Letters(Frame.META, 0x4D, 0x45, 0x54, 0x41);
    Letters(NONE, 0xFF, 0xFF, 0xFF, 0xFF);
  }

  /** Published values of 64-bit FNV-1a: the empty text and the letter a. */
  lemma {:induction false} HashValues()
    ensures Frame.Fnv([]) == 0xCBF29CE484222325 && Frame.Fnv([0x61]) == 0xAF63DC4C8601EC8C
  {
    assert [0x61][..0] == [];
    OneHash();
    hide Frame.FnvStep;
  }

  lemma {:induction false} OneHash()
    ensures Frame.FnvStep(0xCBF29CE484222325, 0x61) == 0xAF63DC4C8601EC8C
  {
    assert (0xCBF29CE484222325 as bv64) ^ (0x61 as bv64) == (0xCBF29CE484222344 as bv64);
    HashProduct();
  }

  lemma {:induction false} HashProduct()
    ensures (0xCBF29CE484222344 * 1099511628211) % 0x1_0000_0000_0000_0000 == 0xAF63DC4C8601EC8C
  {
  }

  /** The header and rows of a packed image by position. */
  lemma {:induction false} PackedOnBytes(image: seq<byte>, sections: seq<(nat, seq<byte>)>, layer: nat, count: nat,
                                         keyCount: nat)
    requires Frame.Packed(image, sections, layer, count, keyCount)
    ensures |image| >= 64 + 24 * |sections| && image[..8] == MAGIC_BYTES && U16At(image, 8) == 1
    ensures U16At(image, 10) == 64 && U32At(image, 12) == 1 && U32At(image, 16) == layer && U32At(image, 20) == count
    ensures U32At(image, 24) == keyCount && U32At(image, 28) == |sections|
    ensures U64At(image, 32) == Frame.Fnv(image[64..]) && AllZero(image[40..64])
    ensures forall i :: 0 <= i < |sections| ==> RowHolds(image, i, sections[i])
  {
    hide U16At, U32At, U64At, AllZero, Frame.HeaderOf, Frame.Fnv, Frame.RowOf, RowHolds;
    HeaderOnBytes(image);
    MagicSpelled(image);
    forall i | 0 <= i < |sections| ensures RowHolds(image, i, sections[i]) {
      Frame.PackedRow(image, sections, layer, count, keyCount, i);
      RowIsHeld(image, sections, i);
    }
  }

  /** Row `i` names the section, is padded with zero, and points at the section's bytes. */
  ghost predicate RowHolds(image: seq<byte>, i: nat, section: (nat, seq<byte>))
  {
    var at := 64 + 24 * i;
    at + 24 <= |image| && U32At(image, at) == section.0 && U32At(image, at + 4) == 0 &&
    U64At(image, at + 16) == |section.1| && U64At(image, at + 8) % 8 == 0 &&
    U64At(image, at + 8) + |section.1| <= |image| &&
    image[U64At(image, at + 8)..U64At(image, at + 8) + |section.1|] == section.1
  }

  lemma {:induction false} RowIsHeld(image: seq<byte>, sections: seq<(nat, seq<byte>)>, i: nat)
    requires i < |sections| && |image| >= 64 + 24 * |sections|
    requires var n, r := |sections|, Frame.Rows(image, |sections|)[i];
             r.name == sections[i].0 && Frame.RowOk(r, n, |image|) && r.length == |sections[i].1| &&
             image[r.offset..r.offset + r.length] == sections[i].1
    ensures RowHolds(image, i, sections[i])
  {
    hide U32At, U64At, Frame.RowOf;
    RowOnBytes(image, i);
  }

  // ----- The tables -----

  /** Where a field of record `i` stands. */
  lemma {:induction false} FieldOnBytes(s: seq<byte>, widths: seq<nat>, count: nat, i: nat, j: nat)
    requires |s| == count * Size(widths) && i < count && j < |widths|
    ensures var at := i * Size(widths) + Size(widths[..j]);
            0 <= at && at + widths[j] <= |s| && |UnpackAll(s, widths, count)[i]| == |widths| &&
            UnpackAll(s, widths, count)[i][j] == Read(s[at..at + widths[j]])
  {
    hide Read, Unpack, Size, UnpackAll;
    var n, o := Size(widths), Size(widths[..j]);
    UnpackAllAt(s, widths, count, i);
    UnpackAt(s[i * n..i * n + n], widths, j);
    Sequences.SliceOfSlice(s, i * n, i * n + n, o, o + widths[j]);
  }

  lemma {:induction false} NodeOnBytes(s: seq<byte>, n: nat, i: nat)
    requires |s| == 16 * n && i < n
    ensures var x := ReadNodes(s, n)[i];
            x.base == U32At(s, 16 * i) && x.parent == U32At(s, 16 * i + 4) && x.key == U32At(s, 16 * i + 8) &&
            x.depth == U32At(s, 16 * i + 12)
  {
    hide Read, Unpack, UnpackAll, Size, U32At;
    RecordSizes();
    SizeStep(NODE, 0);
    SizeStep(NODE, 1);
    SizeStep(NODE, 2);
    forall j | 0 <= j < 4
      ensures var at := 16 * i + 4 * j;
              |UnpackAll(s, NODE, n)[i]| == 4 && UnpackAll(s, NODE, n)[i][j] == U32At(s, at)
    {
      FieldOnBytes(s, NODE, n, i, j);
      Read4(s, 16 * i + 4 * j);
    }
  }

  lemma {:induction false} KeyOnBytes(s: seq<byte>, n: nat, i: nat)
    requires |s| == 8 * n && i < n
    ensures var x := ReadKeys(s, n)[i]; x.offset == U32At(s, 8 * i) && x.length == U32At(s, 8 * i + 4)
  {
    hide Read, Unpack, UnpackAll, Size, U32At;
    RecordSizes();
    SizeStep(KEY, 0);
    FieldOnBytes(s, KEY, n, i, 0);
    FieldOnBytes(s, KEY, n, i, 1);
    Read4(s, 8 * i);
    Read4(s, 8 * i + 4);
  }

  lemma {:induction false} RefOnBytes(s: seq<byte>, n: nat, i: nat)
    requires |s| == 8 * n && i < n
    ensures var x := ReadRefs(s, n)[i];
            x.entry == U32At(s, 8 * i) && x.kind == s[8 * i + 4] &&
            (x.reserved == 0 <==> AllZero(s[8 * i + 5..8 * i + 8]))
  {
    hide Read, Unpack, UnpackAll, Size, U32At, AllZero;
    RecordSizes();
    SizeStep(REF, 0);
    SizeStep(REF, 1);
    FieldOnBytes(s, REF, n, i, 0);
    FieldOnBytes(s, REF, n, i, 1);
    FieldOnBytes(s, REF, n, i, 2);
    Read4(s, 8 * i);
    ReadOne(s[8 * i + 4..8 * i + 5]);
    ReadZero(s[8 * i + 5..8 * i + 8]);
  }

  lemma {:induction false} IndexOnBytes(s: seq<byte>, n: nat, i: nat)
    requires |s| == 4 * n && i < n
    ensures ReadIndex(s, n)[i] == U32At(s, 4 * i)
  {
    hide Read, Unpack, UnpackAll, Size, U32At;
    RecordSizes();
    SizeStep(INDEX, 0);
    FieldOnBytes(s, INDEX, n, i, 0);
    Read4(s, 4 * i);
  }

  lemma {:induction false} EntryOffsets()
    ensures var w := ENTRY;
            |w| == 11 && Size(w) == 32 && Size(w[..0]) == 0 && Size(w[..1]) == 4 && Size(w[..2]) == 8 &&
            Size(w[..3]) == 12 && Size(w[..4]) == 16 && Size(w[..5]) == 18 && Size(w[..6]) == 20 &&
            Size(w[..7]) == 22 && Size(w[..8]) == 24 && Size(w[..9]) == 25 && Size(w[..10]) == 26
  {
    hide Size;
    RecordSizes();
    SizeStep(ENTRY, 0);
    SizeStep(ENTRY, 1);
    SizeStep(ENTRY, 2);
    SizeStep(ENTRY, 3);
    SizeStep(ENTRY, 4);
    SizeStep(ENTRY, 5);
    SizeStep(ENTRY, 6);
    SizeStep(ENTRY, 7);
    SizeStep(ENTRY, 8);
    SizeStep(ENTRY, 9);
  }

  lemma {:induction false} EntryField(s: seq<byte>, n: nat, i: nat, j: nat)
    requires |s| == 32 * n && i < n && j < 11
    ensures var at := 32 * i + Size(ENTRY[..j]);
            Size(ENTRY) == 32 && at + ENTRY[j] <= |s| && |UnpackAll(s, ENTRY, n)[i]| == 11 &&
            UnpackAll(s, ENTRY, n)[i][j] == Read(s[at..at + ENTRY[j]])
  {
    hide Read, UnpackAll, Size;
    RecordSizes();
    FieldOnBytes(s, ENTRY, n, i, j);
  }

  /** An entry's fields by position: the `struct` format IIIIHHhHBB and six zero bytes. */
  lemma {:induction false} EntryOnBytes(s: seq<byte>, n: nat, i: nat)
    requires |s| == 32 * n && i < n
    ensures var e, at := ReadEntries(s, n)[i], 32 * i;
            e.surfaceAt == U32At(s, at) && e.surfaceLength == U32At(s, at + 4) && e.readingAt == U32At(s, at + 8) &&
            e.readingLength == U32At(s, at + 12) && e.pos == U16At(s, at + 16) && e.category == U16At(s, at + 18) &&
            e.cost == U16At(s, at + 20) && e.frequency == U16At(s, at + 22) && e.source == s[at + 24] &&
            e.priority == s[at + 25] && (e.reserved == 0 <==> AllZero(s[at + 26..at + 32]))
  {
    hide Read, Unpack, UnpackAll, Size, U16At, U32At, AllZero;
    EntryOffsets();
    forall j | 0 <= j < 11
      ensures var at := 32 * i + Size(ENTRY[..j]);
              Size(ENTRY) == 32 && at + ENTRY[j] <= |s| && |UnpackAll(s, ENTRY, n)[i]| == 11 &&
              UnpackAll(s, ENTRY, n)[i][j] == Read(s[at..at + ENTRY[j]])
    {
      EntryField(s, n, i, j);
    }
    var at := 32 * i;
    Read4(s, at);
    Read4(s, at + 4);
    Read4(s, at + 8);
    Read4(s, at + 12);
    Read2(s, at + 16);
    Read2(s, at + 18);
    Read2(s, at + 20);
    Read2(s, at + 22);
    ReadOne(s[at + 24..at + 25]);
    ReadOne(s[at + 25..at + 26]);
    ReadZero(s[at + 26..at + 32]);
  }

  // ----- What the tables must satisfy, spelled out -----

  /** A string of the pool: nonempty, inside it, UTF-8 without NUL. */
  ghost predicate Spells(pool: seq<byte>, at: nat, length: nat)
  {
    1 <= length && at + length <= |pool| && Decode(pool[at..at + length]).Some? &&
    0 !in Decode(pool[at..at + length]).value
  }

  ghost predicate EntrySound(t: Tables, e: Entry)
  {
    t.posCount.Some? && e.pos < t.posCount.value && e.source == t.layer && e.category < 1024 && e.reserved == 0 &&
    Spells(t.pool, e.surfaceAt, e.surfaceLength) && Spells(t.pool, e.readingAt, e.readingLength)
  }

  ghost predicate RefSound(t: Tables, r: Ref)
  {
    r.entry < |t.entries| && (r.kind == 0 || r.kind == 1) && r.reserved == 0
  }

  /** The key is the reading itself under kind 0, another alias of it under kind 1. */
  ghost predicate NamedBy(key: Text, reading: Text, kind: nat)
  {
    (kind == 0 && key == reading) || (kind == 1 && key != reading && key in Aliases.AliasSet(reading))
  }

  /** The references of a key lie in the table, there is one, and each names its entry. */
  ghost predicate KeySound(t: Tables, key: Text, k: KeyRecord)
  {
    1 <= k.length && k.offset + k.length <= |t.refs| &&
    forall i :: k.offset <= i < k.offset + k.length ==>
      t.refs[i].entry < |t.entries| && NamedBy(key, Readings(t)[t.refs[i].entry], t.refs[i].kind)
  }

  /** Every entry once at most and in range, by surface bytes and then by number. */
  ghost predicate Climbs(surfaces: seq<seq<byte>>, order: seq<nat>)
  {
    |order| == |surfaces| && (forall i :: 0 <= i < |order| ==> order[i] < |surfaces|) &&
    forall i :: 0 < i < |order| ==>
      Less(surfaces[order[i - 1]], surfaces[order[i]]) ||
      (surfaces[order[i - 1]] == surfaces[order[i]] && order[i - 1] < order[i])
  }

  /** What `verify` demands of the tables once the trie has given the key texts. */
  ghost predicate TablesSound(t: Tables, texts: seq<Text>)
  {
    && |texts| == t.keyCount == |t.keys|
    && (forall i :: 0 <= i < |t.refs| ==> RefSound(t, t.refs[i]))
    && (forall i :: 0 <= i < |t.entries| ==> EntrySound(t, t.entries[i]))
    && (forall k :: 0 <= k < |t.keys| ==> KeySound(t, texts[k], t.keys[k]))
    && (t.surfaceIndex.Some? ==> Climbs(Surfaces(t), t.surfaceIndex.value))
  }

  lemma {:induction false} SpellsIsOk(pool: seq<byte>, at: nat, length: nat)
    ensures Spells(pool, at, length) <==> StringOk(pool, at, length)
  {
    hide Encode;
    if 1 <= length && at + length <= |pool| && Decode(pool[at..at + length]).Some? {
      assert Decode(pool[at..at + length]).value != [] by { NotEmpty(Decode(pool[at..at + length]).value, length); }
    }
  }

  lemma {:induction false} NotEmpty(t: seq<scalar>, length: nat)
    requires |Encode(t)| == length && length > 0
    ensures t != []
  {
  }

  lemma {:induction false} EntriesAreSound(t: Tables)
    ensures EntriesOk(t) <==> forall i :: 0 <= i < |t.entries| ==> EntrySound(t, t.entries[i])
  {
    hide EntryOk, EntrySound;
    forall i | 0 <= i < |t.entries| ensures EntrySound(t, t.entries[i]) <==> EntryOk(t, t.entries[i]) {
      EntryIsSound(t, t.entries[i]);
    }
  }

  lemma {:induction false} EntryIsSound(t: Tables, e: Entry)
    ensures EntrySound(t, e) <==> EntryOk(t, e)
  {
    hide Spells, StringOk;
    SpellsIsOk(t.pool, e.surfaceAt, e.surfaceLength);
    SpellsIsOk(t.pool, e.readingAt, e.readingLength);
  }

  lemma {:induction false} MatchIsNamed(key: Text, reading: Text, kind: nat)
    requires kind == 0 || kind == 1
    ensures RefMatches(reading, key, kind) <==> NamedBy(key, reading, kind)
  {
    hide Aliases.AliasSet;
  }

  /** For references in range, matching a slice is matching each of its places. */
  lemma {:induction false} KeyIsSound(t: Tables, readings: seq<Text>, key: Text, k: KeyRecord)
    requires readings == Readings(t) && KeyRecordOk(t, k) && forall i :: 0 <= i < |t.refs| ==> RefSound(t, t.refs[i])
    ensures KeyMatches(readings, key, t.refs[k.offset..k.offset + k.length]) <==> KeySound(t, key, k)
  {
    hide Readings, RefMatches, NamedBy;
    var lo, hi := k.offset, k.offset + k.length;
    var refs := t.refs[lo..hi];
    forall r | r in refs
      ensures r.entry < |readings|
      ensures RefMatches(readings[r.entry], key, r.kind) <==> NamedBy(key, readings[r.entry], r.kind)
    {
      var i :| 0 <= i < |refs| && refs[i] == r;
      assert RefSound(t, t.refs[lo + i]);
      MatchIsNamed(key, readings[r.entry], r.kind);
    }
    hide RefSound, KeyMatches, KeySound;
    if KeyMatches(readings, key, refs) { MatchesAreSound(t, readings, key, k); }
    if KeySound(t, key, k) { SoundMatches(t, readings, key, k); }
  }

  /** Every reference is in range and matches the key exactly when it is named by it. */
  ghost predicate AllRelate(readings: seq<Text>, key: Text, refs: seq<Ref>)
  {
    forall r :: r in refs ==>
      r.entry < |readings| &&
      (RefMatches(readings[r.entry], key, r.kind) <==> NamedBy(key, readings[r.entry], r.kind))
  }

  lemma {:induction false} MatchesAreSound(t: Tables, readings: seq<Text>, key: Text, k: KeyRecord)
    requires readings == Readings(t) && KeyRecordOk(t, k)
    requires AllRelate(readings, key, t.refs[k.offset..k.offset + k.length])
    requires KeyMatches(readings, key, t.refs[k.offset..k.offset + k.length])
    ensures KeySound(t, key, k)
  {
    hide Readings, RefMatches, NamedBy;
    var lo, refs := k.offset, t.refs[k.offset..k.offset + k.length];
    forall i | lo <= i < lo + k.length
      ensures t.refs[i].entry < |t.entries| && NamedBy(key, readings[t.refs[i].entry], t.refs[i].kind)
    {
      assert refs[i - lo] == t.refs[i] && t.refs[i] in refs;
    }
  }

  lemma {:induction false} SoundMatches(t: Tables, readings: seq<Text>, key: Text, k: KeyRecord)
    requires readings == Readings(t) && KeyRecordOk(t, k) && KeySound(t, key, k)
    requires AllRelate(readings, key, t.refs[k.offset..k.offset + k.length])
    ensures KeyMatches(readings, key, t.refs[k.offset..k.offset + k.length])
  {
    hide Readings, RefMatches, NamedBy;
    var lo, refs := k.offset, t.refs[k.offset..k.offset + k.length];
    forall i | 0 <= i < |refs|
      ensures refs[i].entry < |readings| && RefMatches(readings[refs[i].entry], key, refs[i].kind)
    {
      assert refs[i] == t.refs[lo + i] && refs[i] in refs;
    }
  }

  /** The tables `verify` accepts are exactly those whose trie is accepted and that meet every rule. */
  lemma {:induction false} TablesSpelledOut(t: Tables, texts: seq<Text>)
    ensures TablesOk(t, texts) <==> TrieAccepted(t.nodes, texts) && TablesSound(t, texts)
  {
    hide TrieAccepted, Readings, Surfaces, EntrySound, EntriesOk, KeySound, KeyMatches;
    EntriesAreSound(t);
    assert forall i :: 0 <= i < |t.refs| ==> (RefSound(t, t.refs[i]) <==> RefOk(t, t.refs[i]));
    if |texts| == |t.keys| && forall i :: 0 <= i < |t.refs| ==> RefSound(t, t.refs[i]) {
      forall k | 0 <= k < |t.keys|
        ensures KeySound(t, texts[k], t.keys[k]) <==>
                (KeyRecordOk(t, t.keys[k]) &&
                 KeyMatches(Readings(t), texts[k], t.refs[t.keys[k].offset..t.keys[k].offset + t.keys[k].length]))
      {
        if KeyRecordOk(t, t.keys[k]) {
          KeyIsSound(t, Readings(t), texts[k], t.keys[k]);
        } else {
          NoRoom(t, texts[k], t.keys[k]);
        }
      }
    }
  }

  lemma {:induction false} NoRoom(t: Tables, key: Text, k: KeyRecord)
    requires !KeyRecordOk(t, k)
    ensures !KeySound(t, key, k)
  {
    hide NamedBy;
  }
}
