/**
  An image past the size the format is made for: `verify` accepts it, yet a word that is no key
  finds a key. It shows that the condition of `AgreesExactly` cannot be dropped for whole images.
 */
module AzdicLimits {
  import opened Utf8
  import opened Struct
  import opened Sorting
  import opened DoubleArray
  import opened TrieCheck
  import opened Azdic
  import opened AzdicBuild
  import Frame
  import Aliases

  /** One entry whose reading and surface are the character U+0002, under the oversized trie. */
  function LimitTables(): Tables
  {
    Tables(0, 1, Oversized(), [KeyRecord(0, 1)], [Ref(0, 0, 0)], [Entry(0, 1, 0, 1, 0, 1, 0, 0, 0, 51, 0)], [2],
           Some([0]), Some(1))
  }

  lemma {:induction false} LimitEntry()
    ensures var t := LimitTables();
            EntriesOk(t) && Surfaces(t) == [[2]] && Readings(t) == [[2]]
  {
    hide Oversized, Encode, Decode;
    var t := LimitTables();
    EncodeTwo();
    DecodeEncode([2]);
    assert t.pool[0..0 + 1] == [2];
    NormalizeMeans([2]);
  }

  lemma {:induction false} LimitRefs()
    requires Readings(LimitTables()) == [[2]]
    ensures var t := LimitTables(); RefsOk(t) && RefsMatch(t, Readings(t), [[2]])
  {
    hide Oversized;
    var t := LimitTables();
    assert t.refs[0..1] == [Ref(0, 0, 0)];
  }

  lemma {:induction false} LimitAccepted()
    ensures TablesOk(LimitTables(), [[2]])
  {
    hide Oversized, TrieAccepted, EntriesOk, Surfaces, Readings;
    LimitEntry();
    LimitRefs();
    OversizedAccepted();
  }

  lemma {:induction false} NodeFits(x: Node)
    requires x.base <= NONE && x.parent <= NONE && x.key <= NONE && x.depth <= NONE
    ensures |NodeFields(x)| == |NODE| && Fits(NodeFields(x), NODE)
  {
    hide Pow256;
    Powers();
  }

  lemma {:induction false} OversizedFields(i: nat)
    requires i < |Oversized()|
    ensures var x := Oversized()[i]; x.base <= NONE && x.parent <= NONE && x.key <= NONE && x.depth <= NONE
  {
  }

  lemma {:induction false} LimitNodesFit()
    ensures AllFit(NodeRecords(Oversized()), NODE)
  {
    hide Oversized, Fits, NodeFields;
    forall i | 0 <= i < |Oversized()|
      ensures |NodeFields(Oversized()[i])| == |NODE| && Fits(NodeFields(Oversized()[i]), NODE)
    {
      OversizedFields(i);
      NodeFits(Oversized()[i]);
    }
  }

  lemma {:induction false} LimitFits()
    ensures TablesFit(LimitTables())
  {
    hide Oversized, Pow256;
    LimitNodesFit();
    Powers();
  }

  /** Sections shorter than 2^60 bytes, and no more than seven, always have room. */
  lemma {:induction false} RoomForSeven(sections: seq<(nat, seq<byte>)>, i: nat)
    requires i <= |sections| == 7 && forall j :: 0 <= j < 7 ==> |sections[j].1| < 0x1000_0000_0000_0000
    ensures Frame.End(sections, i) <= 232 + i * 0x1000_0000_0000_0007
  {
    if i > 0 { RoomForSeven(sections, i - 1); }
  }

  lemma {:induction false} LimitSizes(meta: seq<byte>)
    requires |meta| < 0x1000_0000_0000_0000 && TablesFit(LimitTables())
    ensures var s := Sections(LimitTables(), meta);
            forall j :: 0 <= j < 7 ==> |s[j].1| < 0x1000_0000_0000_0000 && s[j].0 < 0x1_0000_0000
  {
    hide Oversized, AllFit, PackFit, ReadNodes, ReadKeys, ReadRefs, ReadEntries, ReadIndex;
    var t := LimitTables();
    OversizedSlots();
    NodesBack(t.nodes);
    KeysBack(t.keys);
    RefsBack(t.refs);
    EntrysBack(t.entries);
    IndexBack(t.surfaceIndex.value);
  }

  lemma {:induction false} LimitPackable(meta: seq<byte>)
    requires |meta| < 0x1000_0000_0000_0000 && TablesFit(LimitTables())
    ensures Frame.Packable(Sections(LimitTables(), meta), 0, 1, 1)
  {
    hide Sections, TablesFit, Oversized;
    LimitSizes(meta);
    SevenPackable(Sections(LimitTables(), meta));
  }

  lemma {:induction false} SevenPackable(s: seq<(nat, seq<byte>)>)
    requires |s| == 7 && forall j :: 0 <= j < 7 ==> |s[j].1| < 0x1000_0000_0000_0000 && s[j].0 < 0x1_0000_0000
    ensures Frame.Packable(s, 0, 1, 1)
  {
    forall i | 0 <= i < |s| ensures Frame.RowPackable(s, i) { RoomForSeven(s, i); }
  }

  /** The image itself, for any META that lists one part of speech. */
  method OversizedImage(meta: seq<byte>, parse: seq<byte> -> Meta) returns (image: seq<byte>, accepted: bool)
    requires parse(meta) == Json(Some(1)) && |meta| < 0x1000_0000_0000_0000
    ensures accepted && ImageHolds(image, parse, LimitTables(), [[2]])
    ensures Encode([2]) == [2] && LimitTables().nodes != [] && Lookup(LimitTables().nodes, [1, 2]) == Some(0)
  {
    hide Oversized, TablesOk, TablesFit, Frame.Packed, Frame.Packable, ImageHolds, Sections, Lookup, Encode;
    hide EncodeScalar;
    OversizedSlots();
    OversizedAccepted();
    LimitAccepted();
    LimitFits();
    LimitPackable(meta);
    var t := LimitTables();
    var packed := Frame.PackSections(Sections(t, meta), 0, 1, 1);
    image := packed.value;
    PackedTables(image, t, [[2]], meta, parse);
    accepted := Verify(image, parse);
  }
}
