/**
  The archive by byte positions, as sections 4.3.7, 4.3.12 and 4.3.16 of the PKWARE APPNOTE give them,
  and a published check value of CRC-32.
 */
module ZipBytes {
  import opened Utf8
  import opened Struct
  import opened Zip

  lemma {:induction false} Signature(h: seq<byte>, n: nat)
    requires |h| >= 4 && U32At(h, 0) == n
    ensures n == 0x04034B50 ==> h[..4] == [0x50, 0x4B, 3, 4]
    ensures n == 0x02014B50 ==> h[..4] == [0x50, 0x4B, 1, 2]
    ensures n == 0x06054B50 ==> h[..4] == [0x50, 0x4B, 5, 6]
  {
    SplitWord(U16At(h, 0), U16At(h, 2));
    var a: nat, b: nat, c: nat, d: nat := h[0], h[1], h[2], h[3];
    SplitByte(a, b);
    SplitByte(c, d);
  }

  lemma {:induction false} SplitWord(a: nat, b: nat)
    requires a < 65536
    ensures (a + 65536 * b) % 65536 == a && (a + 65536 * b) / 65536 == b
  {
  }

  lemma {:induction false} SplitByte(a: nat, b: nat)
    requires a < 256
    ensures (a + 256 * b) % 256 == a && (a + 256 * b) / 256 == b
  {
  }

  lemma {:induction false} LocalOffsets()
    ensures var w := LOCAL;
            |w| == 11 && Size(w) == 30 &&
            Size(w[..0]) == 0 && Size(w[..1]) == 4 && Size(w[..2]) == 6 && Size(w[..3]) == 8 &&
            Size(w[..4]) == 10 && Size(w[..5]) == 12 && Size(w[..6]) == 14 && Size(w[..7]) == 18 &&
            Size(w[..8]) == 22 && Size(w[..9]) == 26 && Size(w[..10]) == 28
  {
    hide Size;
    HeaderSizes();
    SizeStep(LOCAL, 0);
    SizeStep(LOCAL, 1);
    SizeStep(LOCAL, 2);
    SizeStep(LOCAL, 3);
    SizeStep(LOCAL, 4);
    SizeStep(LOCAL, 5);
    SizeStep(LOCAL, 6);
    SizeStep(LOCAL, 7);
    SizeStep(LOCAL, 8);
    SizeStep(LOCAL, 9);
  }

  lemma {:induction false} LocalField(fields: seq<nat>, j: nat)
    requires Fits(fields, LOCAL) && j < 11
    ensures var at, head := Size(LOCAL[..j]), Pack(fields, LOCAL);
            |LOCAL| == 11 && at + LOCAL[j] <= |head| && fields[j] == Read(head[at..at + LOCAL[j]])
  {
    hide Read, Unpack, Size, Pack;
    LocalOffsets();
    UnpackPack(fields, LOCAL);
    UnpackAt(Pack(fields, LOCAL), LOCAL, j);
  }

  /** A local header: signature, version, UTF-8 flag, stored, stamp, checksum, sizes and lengths. */
  lemma {:induction false} LocalOnBytes(e: ArchiveEntry, s: Stamp)
    requires EntryOk(e)
    ensures var h := Pack(LocalFields(e, s), LOCAL);
            |h| == 30 && h[..4] == [0x50, 0x4B, 3, 4] &&
            U16At(h, 4) == 20 && U16At(h, 6) == 0x0800 && U16At(h, 8) == 0 && U16At(h, 10) == s.time &&
            U16At(h, 12) == s.date && U32At(h, 14) == Crc32(e.content) && U32At(h, 18) == |e.content| &&
            U32At(h, 22) == |e.content| && U16At(h, 26) == |e.name| && U16At(h, 28) == 0
  {
    hide Read, Unpack, Size, Pack, Fits, U16At, U32At, Crc32;
    var f := LocalFields(e, s);
    NothingTruncated(e, s, 0);
    var h := Pack(f, LOCAL);
    LocalOffsets();
    forall j | 0 <= j < 11
      ensures var at := Size(LOCAL[..j]); at + LOCAL[j] <= |h| && f[j] == Read(h[at..at + LOCAL[j]])
    {
      LocalField(f, j);
    }
    Read4(h, 0);
    Read2(h, 4);
    Read2(h, 6);
    Read2(h, 8);
    Read2(h, 10);
    Read2(h, 12);
    Read4(h, 14);
    Read4(h, 18);
    Read4(h, 22);
    Read2(h, 26);
    Read2(h, 28);
    Signature(h, f[0]);
  }

  lemma {:induction false} CentralOffsets()
    ensures var w := CENTRAL;
            |w| == 17 && Size(w) == 46 &&
            Size(w[..0]) == 0 && Size(w[..1]) == 4 && Size(w[..2]) == 6 && Size(w[..3]) == 8 &&
            Size(w[..4]) == 10 && Size(w[..5]) == 12 && Size(w[..6]) == 14 && Size(w[..7]) == 16 &&
            Size(w[..8]) == 20 && Size(w[..9]) == 24 && Size(w[..10]) == 28 && Size(w[..11]) == 30 &&
            Size(w[..12]) == 32 && Size(w[..13]) == 34 && Size(w[..14]) == 36 && Size(w[..15]) == 38 &&
            Size(w[..16]) == 42
  {
    hide Size;
    HeaderSizes();
    SizeStep(CENTRAL, 0);
    SizeStep(CENTRAL, 1);
    SizeStep(CENTRAL, 2);
    SizeStep(CENTRAL, 3);
    SizeStep(CENTRAL, 4);
    SizeStep(CENTRAL, 5);
    SizeStep(CENTRAL, 6);
    SizeStep(CENTRAL, 7);
    SizeStep(CENTRAL, 8);
    SizeStep(CENTRAL, 9);
    SizeStep(CENTRAL, 10);
    SizeStep(CENTRAL, 11);
    SizeStep(CENTRAL, 12);
    SizeStep(CENTRAL, 13);
    SizeStep(CENTRAL, 14);
    SizeStep(CENTRAL, 15);
  }

  lemma {:induction false} CentralField(fields: seq<nat>, j: nat)
    requires Fits(fields, CENTRAL) && j < 17
    ensures var at, head := Size(CENTRAL[..j]), Pack(fields, CENTRAL);
            |CENTRAL| == 17 && at + CENTRAL[j] <= |head| && fields[j] == Read(head[at..at + CENTRAL[j]])
  {
    hide Read, Unpack, Size, Pack;
    CentralOffsets();
    UnpackPack(fields, CENTRAL);
    UnpackAt(Pack(fields, CENTRAL), CENTRAL, j);
  }

  /** A directory row: the same, with the offset of the local header. */
  lemma {:induction false} CentralOnBytes(e: ArchiveEntry, s: Stamp, offset: nat)
    requires EntryOk(e) && offset <= MAX32
    ensures var h := Pack(CentralFields(e, s, offset), CENTRAL);
            |h| == 46 && h[..4] == [0x50, 0x4B, 1, 2] &&
            U16At(h, 4) == 20 && U16At(h, 6) == 20 && U16At(h, 8) == 0x0800 && U16At(h, 10) == 0 &&
            U16At(h, 12) == s.time && U16At(h, 14) == s.date && U32At(h, 16) == Crc32(e.content) &&
            U32At(h, 20) == |e.content| && U32At(h, 24) == |e.content| && U16At(h, 28) == |e.name| &&
            U16At(h, 30) == 0 && U16At(h, 32) == 0 && U16At(h, 34) == 0 && U16At(h, 36) == 0 &&
            U32At(h, 38) == 0 && U32At(h, 42) == offset
  {
    hide Read, Unpack, Size, Pack, Fits, U16At, U32At, Crc32;
    var f := CentralFields(e, s, offset);
    NothingTruncated(e, s, offset);
    var h := Pack(f, CENTRAL);
    CentralOffsets();
    forall j | 0 <= j < 17
      ensures var at := Size(CENTRAL[..j]); at + CENTRAL[j] <= |h| && f[j] == Read(h[at..at + CENTRAL[j]])
    {
      CentralField(f, j);
    }
    Read4(h, 0);
    Read2(h, 4);
    Read2(h, 6);
    Read2(h, 8);
    Read2(h, 10);
    Read2(h, 12);
    Read2(h, 14);
    Read4(h, 16);
    Read4(h, 20);
    Read4(h, 24);
    Read2(h, 28);
    Read2(h, 30);
    Read2(h, 32);
    Read2(h, 34);
    Read2(h, 36);
    Read4(h, 38);
    Read4(h, 42);
    Signature(h, f[0]);
  }

  lemma {:induction false} EndOffsets()
    ensures var w := END;
            |w| == 8 && Size(w) == 22 &&
            Size(w[..0]) == 0 && Size(w[..1]) == 4 && Size(w[..2]) == 6 && Size(w[..3]) == 8 &&
            Size(w[..4]) == 10 && Size(w[..5]) == 12 && Size(w[..6]) == 16 && Size(w[..7]) == 20
  {
    hide Size;
    HeaderSizes();
    SizeStep(END, 0);
    SizeStep(END, 1);
    SizeStep(END, 2);
    SizeStep(END, 3);
    SizeStep(END, 4);
    SizeStep(END, 5);
    SizeStep(END, 6);
  }

  lemma {:induction false} EndField(fields: seq<nat>, j: nat)
    requires Fits(fields, END) && j < 8
    ensures var at, head := Size(END[..j]), Pack(fields, END);
            |END| == 8 && at + END[j] <= |head| && fields[j] == Read(head[at..at + END[j]])
  {
    hide Read, Unpack, Size, Pack;
    EndOffsets();
    UnpackPack(fields, END);
    UnpackAt(Pack(fields, END), END, j);
  }

  /** The end record: the count twice, and the size and place of the directory. */
  lemma {:induction false} EndOnBytes(entries: seq<ArchiveEntry>, s: Stamp)
    requires Writable(entries, s)
    ensures var h := Pack(EndFields(|entries|, |Directory(entries, s, |entries|)|, |Locals(entries, s)|), END);
            |h| == 22 && h[..4] == [0x50, 0x4B, 5, 6] &&
            U16At(h, 4) == 0 && U16At(h, 6) == 0 && U16At(h, 8) == |entries| && U16At(h, 10) == |entries| &&
            U32At(h, 12) == |Directory(entries, s, |entries|)| && U32At(h, 16) == |Locals(entries, s)| &&
            U16At(h, 20) == 0
  {
    hide Read, Unpack, Size, Pack, Fits, U16At, U32At, Crc32;
    var f := EndFields(|entries|, |Directory(entries, s, |entries|)|, |Locals(entries, s)|);
    EndNotTruncated(entries, s);
    var h := Pack(f, END);
    EndOffsets();
    forall j | 0 <= j < 8
      ensures var at := Size(END[..j]); at + END[j] <= |h| && f[j] == Read(h[at..at + END[j]])
    {
      EndField(f, j);
    }
    Read4(h, 0);
    Read2(h, 4);
    Read2(h, 6);
    Read2(h, 8);
    Read2(h, 10);
    Read4(h, 12);
    Read4(h, 16);
    Read2(h, 20);
    Signature(h, f[0]);
  }

  /** A name an entry may have: not empty, no two dots in a row, no backslash, below 64 KiB. */
  ghost predicate Named(name: seq<byte>)
  {
    1 <= |name| < 0x1_0000 && (forall i :: 0 <= i < |name| ==> name[i] != 0x5C) &&
    forall i :: 0 < i < |name| ==> name[i - 1] != 0x2E || name[i] != 0x2E
  }

  lemma {:induction false} NamedIsOk(name: seq<byte>)
    ensures Named(name) <==> NameOk(name)
  {
    if i :| 0 < i < |name| && name[i - 1] == 0x2E && name[i] == 0x2E {
      var k := i - 1;
      assert name[k] == 0x2E && name[k + 1] == 0x2E && HasParent(name);
    }
  }

  lemma {:induction false} LocalsGrow(entries: seq<ArchiveEntry>, s: Stamp, i: nat)
    requires i <= |entries|
    ensures Offset(entries, s, i) <= |Locals(entries, s)|
    decreases |entries| - i
  {
    hide Local;
    if i < |entries| {
      LocalsNext(entries, s, i);
      LocalsGrow(entries, s, i + 1);
    } else {
      assert entries[..i] == entries;
    }
  }

  /** The archives the writer does not refuse: good names, and a body and directory below 4 GiB. */
  lemma {:induction false} WritableSpelled(entries: seq<ArchiveEntry>, s: Stamp)
    ensures Writable(entries, s) <==>
            |entries| < 0x1_0000 &&
            |Locals(entries, s)| + |Directory(entries, s, |entries|)| < 0x1_0000_0000 &&
            forall i :: 0 <= i < |entries| ==> Named(entries[i].name) && |entries[i].content| < 0x1_0000_0000
  {
    hide Named, NameOk, Locals, Directory;
    assert entries[..|entries|] == entries;
    forall i | 0 <= i < |entries|
      ensures Offset(entries, s, i) <= |Locals(entries, s)| && (Named(entries[i].name) <==> NameOk(entries[i].name))
    {
      LocalsGrow(entries, s, i);
      NamedIsOk(entries[i].name);
    }
  }

  lemma {:induction false} CrcStep(data: seq<byte>, b: byte, before: bv32, after: bv32)
    requires CrcOver(data) == before && CrcBits(Mix(before, b), 8) == after
    ensures CrcOver(data + [b]) == after
  {
    hide CrcBits, Mix;
    assert (data + [b])[..|data|] == data;
  }

  lemma {:induction false} EightBits(crc: bv32)
    ensures CrcBits(crc, 8) == CrcBit(CrcBit(CrcBit(CrcBit(CrcBit(CrcBit(CrcBit(CrcBit(crc))))))))
  {
    hide CrcBit;
    assert CrcBits(crc, 0) == crc && CrcBits(crc, 1) == CrcBit(CrcBits(crc, 0));
    assert CrcBits(crc, 2) == CrcBit(CrcBits(crc, 1)) && CrcBits(crc, 3) == CrcBit(CrcBits(crc, 2));
    assert CrcBits(crc, 4) == CrcBit(CrcBits(crc, 3)) && CrcBits(crc, 5) == CrcBit(CrcBits(crc, 4));
    assert CrcBits(crc, 6) == CrcBit(CrcBits(crc, 5)) && CrcBits(crc, 7) == CrcBit(CrcBits(crc, 6));
    assert CrcBits(crc, 8) == CrcBit(CrcBits(crc, 7));
  }

  lemma {:induction false} CheckByte1()
    ensures CrcBits(Mix(0xFFFFFFFF, 0x31), 8) == 0x7C231048
  {
    EightBits(Mix(0xFFFFFFFF, 0x31));
    hide CrcBits;
  }

  lemma {:induction false} CheckByte2()
    ensures CrcBits(Mix(0x7C231048, 0x32), 8) == 0xB0ACBB32
  {
    EightBits(Mix(0x7C231048, 0x32));
    hide CrcBits;
  }

  lemma {:induction false} CheckByte3()
    ensures CrcBits(Mix(0xB0ACBB32, 0x33), 8) == 0x77B79C2D
  {
    EightBits(Mix(0xB0ACBB32, 0x33));
    hide CrcBits;
  }

  lemma {:induction false} CheckByte4()
    ensures CrcBits(Mix(0x77B79C2D, 0x34), 8) == 0x641C1F5C
  {
    EightBits(Mix(0x77B79C2D, 0x34));
    hide CrcBits;
  }

  lemma {:induction false} CheckByte5()
    ensures CrcBits(Mix(0x641C1F5C, 0x35), 8) == 0x340AC5E3
  {
    EightBits(Mix(0x641C1F5C, 0x35));
    hide CrcBits;
  }

  lemma {:induction false} CheckByte6()
    ensures CrcBits(Mix(0x340AC5E3, 0x36), 8) == 0xF68D2C9E
  {
    EightBits(Mix(0x340AC5E3, 0x36));
    hide CrcBits;
  }

  lemma {:induction false} CheckByte7()
    ensures CrcBits(Mix(0xF68D2C9E, 0x37), 8) == 0xAFFC9660
  {
    EightBits(Mix(0xF68D2C9E, 0x37));
    hide CrcBits;
  }

  lemma {:induction false} CheckByte8()
    ensures CrcBits(Mix(0xAFFC9660, 0x38), 8) == 0x651F2550
  {
    EightBits(Mix(0xAFFC9660, 0x38));
    hide CrcBits;
  }

  lemma {:induction false} CheckByte9()
    ensures CrcBits(Mix(0x651F2550, 0x39), 8) == 0x340BC6D9
  {
    EightBits(Mix(0x651F2550, 0x39));
    hide CrcBits;
  }

  /** The check value of CRC-32: the checksum of the digits 1 to 9. */
  lemma {:induction false} CheckValue()
    ensures Crc32([0x31, 0x32, 0x33, 0x34, 0x35, 0x36, 0x37, 0x38, 0x39]) == 0xCBF43926
  {
    hide CrcBits, Mix;
    CheckByte1();
    CrcStep([], 0x31, 0xFFFFFFFF, 0x7C231048);
    assert [] + [0x31] == [0x31];
    CheckByte2();
    CrcStep([0x31], 0x32, 0x7C231048, 0xB0ACBB32);
    assert [0x31] + [0x32] == [0x31, 0x32];
    CheckByte3();
    CrcStep([0x31, 0x32], 0x33, 0xB0ACBB32, 0x77B79C2D);
    assert [0x31, 0x32] + [0x33] == [0x31, 0x32, 0x33];
    CheckByte4();
    CrcStep([0x31, 0x32, 0x33], 0x34, 0x77B79C2D, 0x641C1F5C);
    assert [0x31, 0x32, 0x33] + [0x34] == [0x31, 0x32, 0x33, 0x34];
    CheckByte5();
    CrcStep([0x31, 0x32, 0x33, 0x34], 0x35, 0x641C1F5C, 0x340AC5E3);
    assert [0x31, 0x32, 0x33, 0x34] + [0x35] == [0x31, 0x32, 0x33, 0x34, 0x35];
    CheckByte6();
    CrcStep([0x31, 0x32, 0x33, 0x34, 0x35], 0x36, 0x340AC5E3, 0xF68D2C9E);
    assert [0x31, 0x32, 0x33, 0x34, 0x35] + [0x36] == [0x31, 0x32, 0x33, 0x34, 0x35, 0x36];
    CheckByte7();
    CrcStep([0x31, 0x32, 0x33, 0x34, 0x35, 0x36], 0x37, 0xF68D2C9E, 0xAFFC9660);
    assert [0x31, 0x32, 0x33, 0x34, 0x35, 0x36] + [0x37] == [0x31, 0x32, 0x33, 0x34, 0x35, 0x36, 0x37];
    CheckByte8();
    CrcStep([0x31, 0x32, 0x33, 0x34, 0x35, 0x36, 0x37], 0x38, 0xAFFC9660, 0x651F2550);
    assert [0x31, 0x32, 0x33, 0x34, 0x35, 0x36, 0x37] + [0x38] == [0x31, 0x32, 0x33, 0x34, 0x35, 0x36, 0x37, 0x38];
    CheckByte9();
    CrcStep([0x31, 0x32, 0x33, 0x34, 0x35, 0x36, 0x37, 0x38], 0x39, 0x651F2550, 0x340BC6D9);
    assert [0x31, 0x32, 0x33, 0x34, 0x35, 0x36, 0x37, 0x38] + [0x39] ==
           [0x31, 0x32, 0x33, 0x34, 0x35, 0x36, 0x37, 0x38, 0x39];
  }
}
