/**
  The container of an `.azdic` image: a 64-byte header, a table of named sections and their bytes.
  `ReadFrame` is the first part of `verify`; `PackSections` is `pack`.
 */
module Frame {
  import opened Utf8
  import opened Struct
  import Sequences

  // Section names and the magic, read as little-endian numbers.
  const TRIE: nat := 0x45495254
  const KEYS: nat := 0x5359454B
  const EIDX: nat := 0x58444945
  const ENTS: nat := 0x53544E45
  const STRS: nat := 0x53525453
  const SIDX: nat := 0x58444953
  const META: nat := 0x4154454D
  const MAGIC: nat := 0x0000_3143_4944_5A41

  const HEADER: seq<nat> := [8, 2, 2, 4, 4, 4, 4, 4, 8, 24]
  const ROW: seq<nat> := [4, 4, 8, 8]

  lemma {:induction false} FrameSizes()
    ensures Size(HEADER) == 64 && Size(ROW) == 24
  {
    assert HEADER[1..] == [2, 2, 4, 4, 4, 4, 4, 8, 24] && HEADER[1..][1..] == [2, 4, 4, 4, 4, 4, 8, 24];
    assert HEADER[1..][1..][1..] == [4, 4, 4, 4, 4, 8, 24] && [4, 4, 4, 4, 4, 8, 24][1..] == [4, 4, 4, 4, 8, 24];
    assert [4, 4, 4, 4, 8, 24][1..] == [4, 4, 4, 8, 24] && [4, 4, 4, 8, 24][1..] == [4, 4, 8, 24];
    assert [4, 4, 8, 24][1..] == [4, 8, 24] && [4, 8, 24][1..] == [8, 24] && [8, 24][1..] == [24] && [24][1..] == [];
    assert ROW[1..] == [4, 8, 8] && [4, 8, 8][1..] == [8, 8] && [8, 8][1..] == [8] && [8][1..] == [];
  }

  // ----- The content hash (64-bit FNV-1a) -----

  const TWO64: nat := 0x1_0000_0000_0000_0000

  function FnvStep(v: nat, b: byte): nat
    requires v < TWO64
  {
    (((v as bv64) ^ (b as bv64)) as nat * 1099511628211) % TWO64
  }

  function Fnv(data: seq<byte>): (v: nat)
    ensures v < TWO64
  {
    if data == [] then 14695981039346656037 else FnvStep(Fnv(data[..|data| - 1]), data[|data| - 1])
  }

  // ----- Reading -----

  datatype Header = Header(magic: nat, version: nat, size: nat, flags: nat, layer: nat, count: nat, keyCount: nat,
                           sectionCount: nat, digest: nat, reserved: nat)

  datatype Row = Row(name: nat, reserved: nat, offset: nat, length: nat)

  function HeaderOf(image: seq<byte>): Header
    requires |image| >= 64
  {
    FrameSizes();
    var f := Unpack(image[..64], HEADER);
    Header(f[0], f[1], f[2], f[3], f[4], f[5], f[6], f[7], f[8], f[9])
  }

  function RowOf(image: seq<byte>, i: nat): Row
    requires |image| >= 64 + 24 * (i + 1)
  {
    FrameSizes();
    var f := Unpack(image[64 + 24 * i..88 + 24 * i], ROW);
    Row(f[0], f[1], f[2], f[3])
  }

  predicate HeaderOk(h: Header)
  {
    h.magic == MAGIC && h.version == 1 && h.size == 64 && h.flags <= 1 && h.layer <= 4 && h.reserved == 0
  }

  predicate RowOk(r: Row, sectionCount: nat, total: nat)
  {
    r.reserved == 0 && r.offset % 8 == 0 && 64 + 24 * sectionCount <= r.offset <= total && r.length <= total - r.offset
  }

  predicate Apart(a: (nat, nat), b: (nat, nat)) { a.1 <= b.0 || b.1 <= a.0 }

  function Extent(r: Row): (nat, nat) { (r.offset, r.offset + r.length) }

  function Rows(image: seq<byte>, n: nat): (r: seq<Row>)
    requires |image| >= 64 + 24 * n
    ensures |r| == n && forall i :: 0 <= i < n ==> r[i] == RowOf(image, i)
  {
    seq(n, i requires 0 <= i < n => RowOf(image, i))
  }

  /** Rows that are in range and differently named. */
  ghost predicate RowsGood(rows: seq<Row>, n: nat, total: nat)
  {
    && (forall i :: 0 <= i < |rows| ==> RowOk(rows[i], n, total))
    && (forall i, j :: 0 <= i < j < |rows| ==> rows[i].name != rows[j].name)
  }

  ghost predicate RowsApart(rows: seq<Row>)
  {
    forall i, j :: 0 <= i < j < |rows| ==> Apart(Extent(rows[i]), Extent(rows[j]))
  }

  predicate HeadOk(image: seq<byte>)
  {
    |image| >= 64 &&
    var h := HeaderOf(image);
    HeaderOk(h) && 6 <= h.sectionCount <= 64 && |image| >= 64 + 24 * h.sectionCount && Fnv(image[64..]) == h.digest
  }

  /** What a well-framed image is: aligned, named, pairwise disjoint sections under an intact hash. */
  ghost predicate FrameOk(image: seq<byte>)
  {
    HeadOk(image) &&
    var n := HeaderOf(image).sectionCount;
    RowsGood(Rows(image, n), n, |image|) && RowsApart(Rows(image, n))
  }

  ghost predicate HoldsRow(image: seq<byte>, r: Row, sections: map<nat, seq<byte>>)
  {
    r.offset + r.length <= |image| && r.name in sections && sections[r.name] == image[r.offset..r.offset + r.length]
  }

  /** `sections` maps each row's name to the bytes the row points at. */
  ghost predicate Holds(image: seq<byte>, rows: seq<Row>, sections: map<nat, seq<byte>>)
  {
    && (forall i :: 0 <= i < |rows| ==> HoldsRow(image, rows[i], sections))
    && (forall n :: n in sections ==> exists i :: 0 <= i < |rows| && rows[i].name == n)
  }

  // ----- Sorting the extents shows overlaps -----

  predicate PairLeq(a: (nat, nat), b: (nat, nat)) { a.0 < b.0 || (a.0 == b.0 && a.1 <= b.1) }

  function Insert(x: (nat, nat), s: seq<(nat, nat)>): (r: seq<(nat, nat)>)
    ensures |r| == |s| + 1
    ensures forall y :: y in r <==> y == x || y in s
  {
    if s == [] || PairLeq(x, s[0]) then [x] + s else [s[0]] + Insert(x, s[1..])
  }

  /** `list.sort` on pairs. */
  function SortPairs(s: seq<(nat, nat)>): (r: seq<(nat, nat)>)
    ensures |r| == |s|
    ensures forall y :: y in r <==> y in s
  {
    if s == [] then [] else Insert(s[0], SortPairs(s[1..]))
  }

  predicate AllApart(s: seq<(nat, nat)>)
  {
    s == [] || ((forall y :: y in s[1..] ==> Apart(s[0], y)) && AllApart(s[1..]))
  }

  predicate Sorted(s: seq<(nat, nat)>)
  {
    s == [] || ((forall y :: y in s[1..] ==> PairLeq(s[0], y)) && Sorted(s[1..]))
  }

  lemma {:induction false} InsertKeeps(x: (nat, nat), s: seq<(nat, nat)>)
    requires Sorted(s)
    ensures Sorted(Insert(x, s))
    ensures AllApart(Insert(x, s)) <==> AllApart(s) && forall y :: y in s ==> Apart(x, y)
  {
    if s == [] || PairLeq(x, s[0]) {
      assert Insert(x, s)[1..] == s && Insert(x, s)[0] == x;
      forall y | y in s ensures PairLeq(x, y) { SortedHead(s, y); }
    } else {
      InsertKeeps(x, s[1..]);
      assert Insert(x, s)[1..] == Insert(x, s[1..]) && Insert(x, s)[0] == s[0];
      var t := Insert(x, s);
      assert forall y :: y in s <==> y == s[0] || y in s[1..];
      assert (forall y :: y in t[1..] ==> Apart(t[0], y)) <==>
             (Apart(x, s[0]) && forall y :: y in s[1..] ==> Apart(s[0], y)) by {
        assert x in t[1..] && forall y :: y in t[1..] <==> y == x || y in s[1..];
      }
    }
  }

  lemma {:induction false} SortKeeps(s: seq<(nat, nat)>)
    ensures Sorted(SortPairs(s)) && (AllApart(SortPairs(s)) <==> AllApart(s))
  {
    if s != [] {
      SortKeeps(s[1..]);
      InsertKeeps(s[0], SortPairs(s[1..]));
    }
  }

  /** In sorted order it is enough to compare neighbours. */
  predicate NeighboursApart(s: seq<(nat, nat)>)
  {
    forall i :: 0 <= i < |s| - 1 ==> s[i].1 <= s[i + 1].0
  }

  lemma {:induction false} NeighboursEnough(s: seq<(nat, nat)>)
    requires Sorted(s) && forall y :: y in s ==> y.0 <= y.1
    ensures NeighboursApart(s) <==> AllApart(s)
  {
    if |s| > 1 {
      NeighboursEnough(s[1..]);
      assert s[1] == s[1..][0] && s[1] in s[1..];
      if NeighboursApart(s) {
        forall i | 0 <= i < |s[1..]| - 1 ensures s[1..][i].1 <= s[1..][i + 1].0 {
          var k := i + 1;
          assert s[k].1 <= s[k + 1].0;
        }
        forall y | y in s[1..] ensures Apart(s[0], y) { SortedHead(s[1..], y); }
      }
      if AllApart(s) {
        assert Apart(s[0], s[1]) && PairLeq(s[0], s[1]);
        forall i | 0 <= i < |s| - 1 ensures s[i].1 <= s[i + 1].0 {
          if i > 0 { assert s[i] == s[1..][i - 1] && s[i + 1] == s[1..][i - 1 + 1]; }
        }
      }
    }
  }

  lemma {:induction false} SortedHead(s: seq<(nat, nat)>, y: (nat, nat))
    requires Sorted(s) && y in s
    ensures PairLeq(s[0], y)
  {
    if y != s[0] {
      var i :| 0 <= i < |s| && s[i] == y;
      assert y == s[1..][i - 1];
    }
  }

  lemma {:induction false} AllApartMeans(s: seq<(nat, nat)>)
    ensures AllApart(s) <==> forall i, j :: 0 <= i < j < |s| ==> Apart(s[i], s[j])
  {
    if s != [] {
      AllApartMeans(s[1..]);
      if AllApart(s) {
        forall i, j | 0 <= i < j < |s| ensures Apart(s[i], s[j]) {
          assert s[j] == s[1..][j - 1];
          if i > 0 { assert s[i] == s[1..][i - 1]; }
        }
      }
      if forall i, j :: 0 <= i < j < |s| ==> Apart(s[i], s[j]) {
        forall i, j | 0 <= i < j < |s[1..]| ensures Apart(s[1..][i], s[1..][j]) {
          assert Apart(s[i + 1], s[j + 1]);
        }
        forall y | y in s[1..] ensures Apart(s[0], y) {
          var i :| 0 <= i < |s[1..]| && s[1..][i] == y;
          assert Apart(s[0], s[i + 1]);
        }
      }
    }
  }

  // ----- `verify`, first part -----

  /** The rows read so far are sound, have distinct names and are recorded in `sections` and `extents`. */
  ghost predicate RowsRead(image: seq<byte>, rows: seq<Row>, n: nat, sections: map<nat, seq<byte>>,
                           extents: seq<(nat, nat)>)
  {
    && Holds(image, rows, sections) && |extents| == |rows|
    && RowsGood(rows, n, |image|) && forall i :: 0 <= i < |rows| ==> extents[i] == Extent(rows[i])
  }

  lemma {:induction false} RowInside(r: Row, n: nat, total: nat)
    requires RowOk(r, n, total)
    ensures r.offset + r.length <= total
  {
  }

  lemma {:induction false} RowsReadMore(image: seq<byte>, rows: seq<Row>, n: nat, sections: map<nat, seq<byte>>,
                                        extents: seq<(nat, nat)>, r: Row)
    requires RowsRead(image, rows, n, sections, extents) && RowOk(r, n, |image|) && r.name !in sections
    ensures RowsRead(image, rows + [r], n, sections[r.name := image[r.offset..r.offset + r.length]],
                     extents + [Extent(r)])
  {
    hide RowOk;
    RowInside(r, n, |image|);
    HoldsMore(image, rows, sections, r);
    forall i | 0 <= i < |rows| ensures rows[i].name != r.name { assert HoldsRow(image, rows[i], sections); }
    hide Holds;
  }

  lemma {:induction false} HoldsMore(image: seq<byte>, rows: seq<Row>, sections: map<nat, seq<byte>>, r: Row)
    requires Holds(image, rows, sections) && r.offset + r.length <= |image| && r.name !in sections
    ensures Holds(image, rows + [r], sections[r.name := image[r.offset..r.offset + r.length]])
  {
    var all, more := rows + [r], sections[r.name := image[r.offset..r.offset + r.length]];
    assert HoldsRow(image, r, more);
    forall i | 0 <= i < |all| ensures HoldsRow(image, all[i], more) {
      if i < |rows| { assert HoldsRow(image, rows[i], sections); }
    }
    forall m | m in more ensures exists i :: 0 <= i < |all| && all[i].name == m {
      if m == r.name {
        assert all[|rows|].name == m;
      } else {
        var i :| 0 <= i < |rows| && rows[i].name == m;
        assert all[i].name == m;
      }
    }
  }

  lemma {:induction false} NameTaken(image: seq<byte>, rows: seq<Row>, i: nat, sections: map<nat, seq<byte>>)
    requires i < |rows| && Holds(image, rows[..i], sections) && rows[i].name in sections
    ensures exists j :: 0 <= j < i && rows[j].name == rows[i].name
  {
    var j :| 0 <= j < i && rows[..i][j].name == rows[i].name;
    assert rows[j].name == rows[i].name;
  }

  method ReadRows(image: seq<byte>, n: nat) returns (r: Option<(map<nat, seq<byte>>, seq<(nat, nat)>)>)
    requires |image| >= 64 + 24 * n
    ensures r.Some? <==> RowsGood(Rows(image, n), n, |image|)
    ensures r.Some? ==> RowsRead(image, Rows(image, n), n, r.value.0, r.value.1)
  {
    ghost var all := Rows(image, n);
    var sections: map<nat, seq<byte>> := map[];
    var extents := [];
    for i := 0 to n
      invariant RowsRead(image, all[..i], n, sections, extents)
    {
      var row := RowOf(image, i);
      assert all[i] == row && all[..i + 1] == all[..i] + [row];
      if !RowOk(row, n, |image|) { return None; }
      if row.name in sections {
        NameTaken(image, all, i, sections);
        return None;
      }
      RowsReadMore(image, all[..i], n, sections, extents, row);
      sections := sections[row.name := image[row.offset..row.offset + row.length]];
      extents := extents + [Extent(row)];
    }
    assert all[..n] == all;
    return Some((sections, extents));
  }

  lemma {:induction false} OverlapsShow(rows: seq<Row>, extents: seq<(nat, nat)>)
    requires |extents| == |rows| && forall i :: 0 <= i < |rows| ==> extents[i] == Extent(rows[i])
    ensures NeighboursApart(SortPairs(extents)) <==> RowsApart(rows)
  {
    SortKeeps(extents);
    assert forall y :: y in extents ==> y.0 <= y.1;
    NeighboursEnough(SortPairs(extents));
    AllApartMeans(extents);
  }

  method ReadFrame(image: seq<byte>) returns (r: Option<(Header, map<nat, seq<byte>>)>)
    ensures r.Some? <==> FrameOk(image)
    ensures r.Some? ==> r.value.0 == HeaderOf(image) && Holds(image, Rows(image, r.value.0.sectionCount), r.value.1)
  {
    if |image| < 64 { return None; }
    var h := HeaderOf(image);
    if !HeaderOk(h) { return None; }
    var n := h.sectionCount;
    if !(6 <= n <= 64) || |image| < 64 + n * 24 || Fnv(image[64..]) != h.digest { return None; }
    var rows := ReadRows(image, n);
    if rows.None? { return None; }
    var (sections, extents) := rows.value;
    OverlapsShow(Rows(image, n), extents);
    if !NeighboursApart(SortPairs(extents)) { return None; }
    return Some((h, sections));
  }

  // ----- `pack` -----

  /** Row `j` of the table is `r`; it describes the section and points at its bytes. */
  ghost predicate Laid(image: seq<byte>, n: nat, j: nat, section: (nat, seq<byte>), r: Row)
    requires j < n
  {
    |image| >= 64 + 24 * n && RowOf(image, j) == r && r.name == section.0 && r.length == |section.1| &&
    RowOk(r, n, |image|) && image[r.offset..r.offset + r.length] == section.1
  }

  lemma {:induction false} LaidKept(image: seq<byte>, after: seq<byte>, n: nat, j: nat, section: (nat, seq<byte>),
                                    r: Row)
    requires j < n && Laid(image, n, j, section, r) && |image| <= |after|
    requires after[64 + 24 * j..88 + 24 * j] == image[64 + 24 * j..88 + 24 * j]
    requires after[64 + 24 * n..|image|] == image[64 + 24 * n..]
    ensures Laid(after, n, j, section, r)
  {
    var lo, hi, m := r.offset, r.offset + r.length, 64 + 24 * n;
    Sequences.SliceOfSlice(after, m, |image|, lo - m, hi - m);
    Sequences.SliceOfSlice(image, m, |image|, lo - m, hi - m);
    assert image[m..|image|] == image[m..];
  }

  /** The first sections are in place, one after another, under the given rows. */
  ghost predicate LaidOut(image: seq<byte>, sections: seq<(nat, seq<byte>)>, rows: seq<Row>)
  {
    var n := |sections|;
    && |rows| <= n && |image| >= 64 + 24 * n
    && (forall j {:trigger Laid(image, n, j, sections[j], rows[j])} ::
          0 <= j < |rows| ==> Laid(image, n, j, sections[j], rows[j]))
    && (forall j, k :: 0 <= j < k < |rows| ==> Extent(rows[j]).1 <= rows[k].offset)
  }

  function Zeros(n: nat): (r: seq<byte>)
    ensures |r| == n
  {
    seq(n, _ => 0)
  }

  /** Padding to the next multiple of eight. */
  function Padding(n: nat): (p: nat)
    ensures p < 8 && (n + p) % 8 == 0
  {
    (8 - n % 8) % 8
  }

  /** Overwrites one table row. */
  function PutRow(image: seq<byte>, i: nat, row: seq<byte>): (r: seq<byte>)
    requires |row| == 24 && |image| >= 88 + 24 * i
    ensures |r| == |image| && r[64 + 24 * i..88 + 24 * i] == row
  {
    image[..64 + 24 * i] + row + image[88 + 24 * i..]
  }

  lemma {:induction false} PutRowKeeps(image: seq<byte>, i: nat, row: seq<byte>, lo: nat, hi: nat)
    requires |row| == 24 && |image| >= 88 + 24 * i && lo <= hi <= |image| && (hi <= 64 + 24 * i || 88 + 24 * i <= lo)
    ensures PutRow(image, i, row)[lo..hi] == image[lo..hi]
  {
  }

  function RowBytes(section: (nat, seq<byte>), at: nat): (r: seq<byte>)
    ensures |r| == 24
  {
    FrameSizes();
    Pack([section.0, 0, at, |section.1|], ROW)
  }

  /** Writes one section: padding, its row, then its bytes. */
  function PutSection(image: seq<byte>, n: nat, i: nat, section: (nat, seq<byte>)): (r: seq<byte>)
    requires i < n && |image| >= 64 + 24 * n
  {
    PutRow(image, i, RowBytes(section, |image| + Padding(|image|))) + Zeros(Padding(|image|)) + section.1
  }

  /** Bytes outside the written row stay where they were. */
  lemma {:induction false} PutSectionKeeps(image: seq<byte>, n: nat, i: nat, section: (nat, seq<byte>), lo: nat,
                                           hi: nat)
    requires i < n && |image| >= 64 + 24 * n && lo <= hi <= |image| && (hi <= 64 + 24 * i || 88 + 24 * i <= lo)
    ensures var r := PutSection(image, n, i, section);
            |r| == |image| + Padding(|image|) + |section.1| && r[lo..hi] == image[lo..hi]
  {
    var row := RowBytes(section, |image| + Padding(|image|));
    PutRowKeeps(image, i, row, lo, hi);
    assert PutSection(image, n, i, section)[lo..hi] == PutRow(image, i, row)[lo..hi];
  }

  lemma {:induction false} OldRowsLaid(image: seq<byte>, sections: seq<(nat, seq<byte>)>, rows: seq<Row>, j: nat)
    requires LaidOut(image, sections, rows) && j < |rows| < |sections|
    ensures Laid(PutSection(image, |sections|, |rows|, sections[|rows|]), |sections|, j, sections[j], rows[j])
  {
    var n, i := |sections|, |rows|;
    assert Laid(image, n, j, sections[j], rows[j]);
    PutSectionKeeps(image, n, i, sections[i], 64 + 24 * j, 88 + 24 * j);
    PutSectionKeeps(image, n, i, sections[i], 64 + 24 * n, |image|);
    LaidKept(image, PutSection(image, n, i, sections[i]), n, j, sections[j], rows[j]);
  }

  lemma {:induction false} NewRowLaid(image: seq<byte>, n: nat, i: nat, section: (nat, seq<byte>))
    requires i < n && |image| >= 64 + 24 * n && Fits([section.0, 0, |image| + Padding(|image|), |section.1|], ROW)
    ensures Laid(PutSection(image, n, i, section), n, i, section,
                 Row(section.0, 0, |image| + Padding(|image|), |section.1|))
  {
    hide Pack, Unpack, Fits, Padding;
    var r, at := PutSection(image, n, i, section), |image| + Padding(|image|);
    UnpackPack([section.0, 0, at, |section.1|], ROW);
    assert r[64 + 24 * i..88 + 24 * i] == RowBytes(section, at);
    assert r[at..at + |section.1|] == section.1;
  }

  lemma {:induction false} PutSectionLaid(image: seq<byte>, sections: seq<(nat, seq<byte>)>,
                                          rows: seq<Row>) returns (more: seq<Row>)
    requires LaidOut(image, sections, rows) && |rows| < |sections|
    requires Fits([sections[|rows|].0, 0, |image| + Padding(|image|), |sections[|rows|].1|], ROW)
    ensures LaidOut(PutSection(image, |sections|, |rows|, sections[|rows|]), sections, more)
    ensures more == rows + [Row(sections[|rows|].0, 0, Aligned(|image|), |sections[|rows|].1|)]
  {
    var n, i := |sections|, |rows|;
    var r := PutSection(image, n, i, sections[i]);
    more := rows + [Row(sections[i].0, 0, |image| + Padding(|image|), |sections[i].1|)];
    NewRowLaid(image, n, i, sections[i]);
    forall j | 0 <= j < |more| ensures Laid(r, n, j, sections[j], more[j]) {
      if j < i { OldRowsLaid(image, sections, rows, j); }
    }
    forall j, k | 0 <= j < k < |more| ensures Extent(more[j]).1 <= more[k].offset {
      assert Laid(image, n, j, sections[j], rows[j]);
    }
  }

  /** The packed image: every section in place under a header that counts and hashes them. */
  ghost predicate Packed(image: seq<byte>, sections: seq<(nat, seq<byte>)>, layer: nat, count: nat, keyCount: nat)
  {
    |image| >= 64 + 24 * |sections| && LaidOut(image, sections, Rows(image, |sections|)) &&
    HeaderOf(image) == Header(MAGIC, 1, 64, 1, layer, count, keyCount, |sections|, Fnv(image[64..]), 0)
  }

  /** The size of the image once the first `i` sections are in. */
  function End(sections: seq<(nat, seq<byte>)>, i: nat): nat
    requires i <= |sections|
  {
    if i == 0 then 64 + 24 * |sections| else Aligned(End(sections, i - 1)) + |sections[i - 1].1|
  }

  /** Where section `i` starts: at the next multiple of eight. */
  function Place(sections: seq<(nat, seq<byte>)>, i: nat): nat
    requires i < |sections|
  {
    Aligned(End(sections, i))
  }

  function Aligned(n: nat): nat { n + Padding(n) }

  const TWO32: nat := 0x1_0000_0000

  predicate RowPackable(sections: seq<(nat, seq<byte>)>, i: nat)
    requires i < |sections|
  {
    sections[i].0 < TWO32 && Place(sections, i) < TWO64 && |sections[i].1| < TWO64
  }

  /** Every number fits its field; otherwise `struct.pack` raises. */
  ghost predicate Packable(sections: seq<(nat, seq<byte>)>, layer: nat, count: nat, keyCount: nat)
  {
    layer < TWO32 && count < TWO32 && keyCount < TWO32 && |sections| < TWO32 &&
    forall i :: 0 <= i < |sections| ==> RowPackable(sections, i)
  }

  lemma {:induction false} RowFits(name: nat, at: nat, length: nat)
    ensures Fits([name, 0, at, length], ROW) <==> name < TWO32 && at < TWO64 && length < TWO64
  {
    hide Pow256;
    Powers();
    var f := [name, 0, at, length];
    assert Fits(f, ROW) ==> f[0] < Pow256(ROW[0]) && f[2] < Pow256(ROW[2]) && f[3] < Pow256(ROW[3]);
  }

  function HeaderFields(layer: nat, count: nat, keyCount: nat, n: nat, digest: nat): seq<nat>
  {
    [MAGIC, 1, 64, 1, layer, count, keyCount, n, digest, 0]
  }

  lemma {:induction false} HeaderFits(layer: nat, count: nat, keyCount: nat, n: nat, digest: nat)
    requires digest < TWO64
    ensures Fits(HeaderFields(layer, count, keyCount, n, digest), HEADER) <==>
            layer < TWO32 && count < TWO32 && keyCount < TWO32 && n < TWO32
  {
    hide Pow256;
    Powers();
    var f := HeaderFields(layer, count, keyCount, n, digest);
    assert Fits(f, HEADER) ==> f[4] < Pow256(HEADER[4]) && f[5] < Pow256(HEADER[5]);
    assert Fits(f, HEADER) ==> f[6] < Pow256(HEADER[6]) && f[7] < Pow256(HEADER[7]);
  }

  function PutHeader(image: seq<byte>, layer: nat, count: nat, keyCount: nat, n: nat): (r: seq<byte>)
    requires |image| >= 64
    ensures |r| == |image| && r[64..] == image[64..]
  {
    FrameSizes();
    Pack(HeaderFields(layer, count, keyCount, n, Fnv(image[64..])), HEADER) + image[64..]
  }

  lemma {:induction false} PutHeaderPacked(image: seq<byte>, sections: seq<(nat, seq<byte>)>, rows: seq<Row>,
                                           layer: nat, count: nat, keyCount: nat)
    requires LaidOut(image, sections, rows) && |rows| == |sections|
    requires Fits(HeaderFields(layer, count, keyCount, |sections|, Fnv(image[64..])), HEADER)
    ensures Packed(PutHeader(image, layer, count, keyCount, |sections|), sections, layer, count, keyCount)
    ensures Rows(PutHeader(image, layer, count, keyCount, |sections|), |sections|) == rows
  {
    var n := |sections|;
    var r := PutHeader(image, layer, count, keyCount, n);
    PutHeaderRead(image, layer, count, keyCount, n);
    forall j | 0 <= j < n ensures Laid(r, n, j, sections[j], rows[j]) {
      assert Laid(image, n, j, sections[j], rows[j]);
      SameTail(image, r, n, j, sections[j], rows[j]);
    }
    SameRows(r, sections, rows);
  }

  lemma {:induction false} SameRows(image: seq<byte>, sections: seq<(nat, seq<byte>)>, rows: seq<Row>)
    requires LaidOut(image, sections, rows) && |rows| == |sections|
    ensures Rows(image, |sections|) == rows
  {
    forall j | 0 <= j < |rows| ensures Rows(image, |sections|)[j] == rows[j] {
      assert Laid(image, |sections|, j, sections[j], rows[j]);
    }
  }

  lemma {:induction false} SameTail(image: seq<byte>, after: seq<byte>, n: nat, j: nat, section: (nat, seq<byte>),
                                    r: Row)
    requires j < n && Laid(image, n, j, section, r) && |image| == |after| && image[64..] == after[64..]
    ensures Laid(after, n, j, section, r)
  {
    assert after[64 + 24 * j..88 + 24 * j] == after[64..][24 * j..24 + 24 * j];
    assert image[64 + 24 * j..88 + 24 * j] == image[64..][24 * j..24 + 24 * j];
    assert after[64 + 24 * n..|image|] == after[64..][24 * n..] && image[64 + 24 * n..] == image[64..][24 * n..];
    LaidKept(image, after, n, j, section, r);
  }

  lemma {:induction false} PutHeaderRead(image: seq<byte>, layer: nat, count: nat, keyCount: nat, n: nat)
    requires |image| >= 64 && Fits(HeaderFields(layer, count, keyCount, n, Fnv(image[64..])), HEADER)
    ensures HeaderOf(PutHeader(image, layer, count, keyCount, n)) ==
            Header(MAGIC, 1, 64, 1, layer, count, keyCount, n, Fnv(image[64..]), 0)
  {
    FrameSizes();
    var f := HeaderFields(layer, count, keyCount, n, Fnv(image[64..]));
    UnpackPack(f, HEADER);
    assert PutHeader(image, layer, count, keyCount, n)[..64] == Pack(f, HEADER);
  }

  lemma {:induction false} NothingLaid(image: seq<byte>, sections: seq<(nat, seq<byte>)>)
    requires |image| >= 64 + 24 * |sections|
    ensures LaidOut(image, sections, [])
  {
  }

  /** `pack`: the image, or nothing when a number does not fit its field. */
  method PackSections(sections: seq<(nat, seq<byte>)>, layer: nat, count: nat,
                      keyCount: nat) returns (r: Option<seq<byte>>)
    ensures r.Some? ==> Packed(r.value, sections, layer, count, keyCount)
    ensures r.Some? <==> Packable(sections, layer, count, keyCount)
    ensures r.Some? ==> |r.value| == End(sections, |sections|) >= 64 + 24 * |sections|
    ensures r.Some? ==> forall i :: 0 <= i < |sections| ==> RowOf(r.value, i).offset == Place(sections, i)
  {
    hide LaidOut, Fits, Packed, RowOf, Padding, Fnv, HeaderFields;
    var image := Zeros(64 + 24 * |sections|);
    ghost var rows := [];
    NothingLaid(image, sections);
    for i := 0 to |sections|
      invariant LaidOut(image, sections, rows) && |rows| == i && |image| == End(sections, i) >= 64 + 24 * |sections|
      invariant forall j :: 0 <= j < i ==> RowPackable(sections, j) && rows[j].offset == Place(sections, j)
    {
      RowFits(sections[i].0, |image| + Padding(|image|), |sections[i].1|);
      if !Fits([sections[i].0, 0, |image| + Padding(|image|), |sections[i].1|], ROW) {
        assert !RowPackable(sections, i);
        return None;
      }
      rows := PutSectionLaid(image, sections, rows);
      PutSectionKeeps(image, |sections|, i, sections[i], 0, 0);
      image := PutSection(image, |sections|, i, sections[i]);
    }
    HeaderFits(layer, count, keyCount, |sections|, Fnv(image[64..]));
    if !Fits(HeaderFields(layer, count, keyCount, |sections|, Fnv(image[64..])), HEADER) { return None; }
    PutHeaderPacked(image, sections, rows, layer, count, keyCount);
    return Some(PutHeader(image, layer, count, keyCount, |sections|));
  }

  ghost predicate DistinctNames(sections: seq<(nat, seq<byte>)>)
  {
    forall i, j :: 0 <= i < j < |sections| ==> sections[i].0 != sections[j].0
  }

  lemma {:induction false} PackedRow(image: seq<byte>, sections: seq<(nat, seq<byte>)>, layer: nat, count: nat,
                                     keyCount: nat, i: nat)
    requires Packed(image, sections, layer, count, keyCount) && i < |sections|
    ensures var n, r := |sections|, Rows(image, |sections|)[i];
            r.name == sections[i].0 && RowOk(r, n, |image|) && r.length == |sections[i].1| &&
            image[r.offset..r.offset + r.length] == sections[i].1
  {
    assert Laid(image, |sections|, i, sections[i], Rows(image, |sections|)[i]);
  }

  /** `pack` always produces an image that the first part of `verify` accepts. */
  lemma {:induction false} PackedFrameOk(image: seq<byte>, sections: seq<(nat, seq<byte>)>, layer: nat, count: nat,
                                         keyCount: nat)
    requires Packed(image, sections, layer, count, keyCount) && layer <= 4 && 6 <= |sections| <= 64 &&
             DistinctNames(sections)
    ensures FrameOk(image)
  {
    var rows := Rows(image, |sections|);
    forall i | 0 <= i < |rows| ensures RowOk(rows[i], |sections|, |image|) && rows[i].name == sections[i].0 {
      PackedRow(image, sections, layer, count, keyCount, i);
    }
  }

  /** The sections `verify` reads are exactly those `pack` was given. */
  lemma {:induction false} PackedReadsBack(image: seq<byte>, sections: seq<(nat, seq<byte>)>, layer: nat, count: nat,
                                           keyCount: nat,
                        read: map<nat, seq<byte>>)
    requires Packed(image, sections, layer, count, keyCount) && Holds(image, Rows(image, |sections|), read)
    ensures forall i :: 0 <= i < |sections| ==> sections[i].0 in read && read[sections[i].0] == sections[i].1
    ensures forall m :: m in read ==> exists i :: 0 <= i < |sections| && sections[i].0 == m
  {
    var rows := Rows(image, |sections|);
    forall i | 0 <= i < |sections| ensures sections[i].0 in read && read[sections[i].0] == sections[i].1 {
      PackedRow(image, sections, layer, count, keyCount, i);
      assert HoldsRow(image, rows[i], read);
    }
    forall m | m in read ensures exists i :: 0 <= i < |sections| && sections[i].0 == m {
      var i :| 0 <= i < |rows| && rows[i].name == m;
      PackedRow(image, sections, layer, count, keyCount, i);
    }
  }

  /** The sections of a well-framed image by name. */
  ghost function SectionMap(image: seq<byte>): (m: map<nat, seq<byte>>)
    requires FrameOk(image)
    ensures Holds(image, Rows(image, HeaderOf(image).sectionCount), m)
  {
    var rows := Rows(image, HeaderOf(image).sectionCount);
    MapRows(image, rows)
  }

  ghost function MapRows(image: seq<byte>, rows: seq<Row>): (m: map<nat, seq<byte>>)
    requires forall i :: 0 <= i < |rows| ==> rows[i].offset + rows[i].length <= |image|
    requires forall i, j :: 0 <= i < j < |rows| ==> rows[i].name != rows[j].name
    ensures Holds(image, rows, m)
  {
    map i | 0 <= i < |rows| :: rows[i].name := image[rows[i].offset..rows[i].offset + rows[i].length]
  }
}
