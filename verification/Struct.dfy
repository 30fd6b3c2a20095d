/**
  Fixed-width little-endian records, as Python's `struct` module and the ZIP writer lay them out.
  A record format is the list of its field widths in bytes.
 */
module Struct {
  import opened Utf8
  import Sequences

  // ----- Little-endian numbers -----

  function Pow256(n: nat): (r: nat)
    ensures r > 0
  {
    if n == 0 then 1 else 256 * Pow256(n - 1)
  }

  lemma {:induction false} Powers()
    ensures Pow256(0) == 1 && Pow256(1) == 0x100 && Pow256(2) == 0x1_0000 && Pow256(3) == 0x100_0000
    ensures Pow256(4) == 0x1_0000_0000 && Pow256(6) == 0x1_0000_0000_0000 && Pow256(8) == 0x1_0000_0000_0000_0000
  {
    assert Pow256(1) == 256 * Pow256(0) && Pow256(2) == 256 * Pow256(1) && Pow256(3) == 256 * Pow256(2);
    assert Pow256(4) == 256 * Pow256(3) && Pow256(5) == 256 * Pow256(4) && Pow256(6) == 256 * Pow256(5);
    assert Pow256(7) == 256 * Pow256(6) && Pow256(8) == 256 * Pow256(7);
  }

  /** The low `width` bytes of a number, least significant first. */
  function Le(n: nat, width: nat): (r: seq<byte>)
    ensures |r| == width
  {
    if width == 0 then [] else [n % 256] + Le(n / 256, width - 1)
  }

  function Read(s: seq<byte>): (n: nat)
  {
    if s == [] then 0 else s[0] + 256 * Read(s[1..])
  }

  lemma {:induction false} ReadBound(s: seq<byte>)
    ensures Read(s) < Pow256(|s|)
  {
    if s != [] { ReadBound(s[1..]); }
  }

  lemma {:induction false} ReadLe(n: nat, width: nat)
    requires n < Pow256(width)
    ensures Read(Le(n, width)) == n
  {
    if width > 0 { ReadLe(n / 256, width - 1); }
  }

  lemma {:induction false} LeRead(s: seq<byte>)
    ensures Le(Read(s), |s|) == s
  {
    if s != [] {
      LeRead(s[1..]);
      var n: int := Read(s[1..]);
      var b: int := s[0];
      assert (b + 256 * n) % 256 == b && (b + 256 * n) / 256 == n;
      assert s == [s[0]] + s[1..];
    }
  }

  // ----- Records -----

  function Size(widths: seq<nat>): nat { if widths == [] then 0 else widths[0] + Size(widths[1..]) }

  /** Every field is small enough for its width; `struct.pack` raises otherwise. */
  predicate Fits(fields: seq<nat>, widths: seq<nat>)
  {
    |fields| == |widths| && forall i :: 0 <= i < |fields| ==> fields[i] < Pow256(widths[i])
  }

  function Pack(fields: seq<nat>, widths: seq<nat>): (r: seq<byte>)
    requires |fields| == |widths|
    ensures |r| == Size(widths)
  {
    if widths == [] then [] else Le(fields[0], widths[0]) + Pack(fields[1..], widths[1..])
  }

  function Unpack(s: seq<byte>, widths: seq<nat>): (r: seq<nat>)
    requires |s| == Size(widths)
    ensures |r| == |widths|
  {
    if widths == [] then [] else [Read(s[..widths[0]])] + Unpack(s[widths[0]..], widths[1..])
  }

  lemma {:induction false} UnpackPack(fields: seq<nat>, widths: seq<nat>)
    requires Fits(fields, widths)
    ensures Unpack(Pack(fields, widths), widths) == fields
  {
    if widths != [] {
      var s, w := Pack(fields, widths), widths[0];
      assert s[..w] == Le(fields[0], w) && s[w..] == Pack(fields[1..], widths[1..]);
      ReadLe(fields[0], w);
      UnpackPack(fields[1..], widths[1..]);
      assert fields == [fields[0]] + fields[1..];
    }
  }

  lemma {:induction false} PackUnpack(s: seq<byte>, widths: seq<nat>)
    requires |s| == Size(widths)
    ensures Fits(Unpack(s, widths), widths) && Pack(Unpack(s, widths), widths) == s
  {
    if widths != [] {
      var w := widths[0];
      ReadBound(s[..w]);
      LeRead(s[..w]);
      PackUnpack(s[w..], widths[1..]);
      assert s == s[..w] + s[w..];
    }
  }

  // ----- Fields by position -----

  /** Little-endian numbers at a position. */
  function U16At(s: seq<byte>, at: nat): nat
    requires at + 2 <= |s|
  {
    s[at] as nat + 256 * (s[at + 1] as nat)
  }

  function U32At(s: seq<byte>, at: nat): nat
    requires at + 4 <= |s|
  {
    U16At(s, at) + 65536 * U16At(s, at + 2)
  }

  function U64At(s: seq<byte>, at: nat): nat
    requires at + 8 <= |s|
  {
    U32At(s, at) + 0x1_0000_0000 * U32At(s, at + 4)
  }

  lemma {:induction false} ReadOne(s: seq<byte>)
    requires |s| == 1
    ensures Read(s) == s[0]
  {
    assert s[1..] == [];
  }

  lemma {:induction false} ReadStep(s: seq<byte>)
    requires s != []
    ensures Read(s) == s[0] + 256 * Read(s[1..])
  {
  }

  lemma {:induction false} Read2(s: seq<byte>, at: nat)
    requires at + 2 <= |s|
    ensures Read(s[at..at + 2]) == U16At(s, at)
  {
    hide Read;
    var t := s[at..at + 2];
    ReadStep(t);
    ReadOne(t[1..]);
  }

  /** The number in two adjoining pieces. */
  lemma {:induction false} ReadConcat(a: seq<byte>, b: seq<byte>)
    ensures Read(a + b) == Read(a) + Pow256(|a|) * Read(b)
  {
    if a == [] {
      assert a + b == b;
    } else {
      ReadConcat(a[1..], b);
      Sequences.ConcatDrop(a, b, 1);
      Multiply(Pow256(|a| - 1), Read(b));
    }
  }

  lemma {:induction false} Multiply(p: int, n: int)
    ensures 256 * (p * n) == (256 * p) * n
  {
  }

  lemma {:induction false} Read4(s: seq<byte>, at: nat)
    requires at + 4 <= |s|
    ensures Read(s[at..at + 4]) == U32At(s, at)
  {
    hide Read, Pow256;
    Powers();
    Read2(s, at);
    Read2(s, at + 2);
    Sequences.SliceJoin(s, at, at + 2, at + 4);
    ReadConcat(s[at..at + 2], s[at + 2..at + 4]);
  }

  lemma {:induction false} Read8(s: seq<byte>, at: nat)
    requires at + 8 <= |s|
    ensures Read(s[at..at + 8]) == U64At(s, at)
  {
    hide Read, Pow256, U32At;
    Powers();
    Read4(s, at);
    Read4(s, at + 4);
    Sequences.SliceJoin(s, at, at + 4, at + 8);
    ReadConcat(s[at..at + 4], s[at + 4..at + 8]);
  }

  predicate AllZero(s: seq<byte>) { forall i :: 0 <= i < |s| ==> s[i] == 0 }

  lemma {:induction false} ReadZero(s: seq<byte>)
    ensures Read(s) == 0 <==> AllZero(s)
  {
    if s != [] {
      ReadZero(s[1..]);
      if AllZero(s[1..]) && s[0] == 0 {
        forall i | 0 <= i < |s| ensures s[i] == 0 { if i > 0 { assert s[i] == s[1..][i - 1]; } }
      }
    }
  }

  lemma {:induction false} SizeStep(widths: seq<nat>, j: nat)
    requires j < |widths|
    ensures Size(widths[..j + 1]) == Size(widths[..j]) + widths[j] && Size(widths[..0]) == 0
  {
    if j > 0 {
      SizeStep(widths[1..], j - 1);
      assert widths[..j + 1][1..] == widths[1..][..j] && widths[..j][1..] == widths[1..][..j - 1];
    } else {
      assert widths[..1][1..] == [];
    }
  }

  lemma {:induction false} SizeWithin(widths: seq<nat>, j: nat)
    requires j <= |widths|
    ensures Size(widths[..j]) <= Size(widths)
  {
    if j > 0 {
      SizeWithin(widths[1..], j - 1);
      assert widths[..j][1..] == widths[1..][..j - 1];
    }
  }

  /** A field is read at the sum of the widths before it. */
  lemma {:induction false} UnpackAt(s: seq<byte>, widths: seq<nat>, j: nat)
    requires |s| == Size(widths) && j < |widths|
    ensures var o := Size(widths[..j]);
            o + widths[j] <= |s| && Unpack(s, widths)[j] == Read(s[o..o + widths[j]])
    decreases j
  {
    hide Read;
    SizeStep(widths, j);
    SizeWithin(widths, j + 1);
    if j > 0 {
      var w, o := widths[0], Size(widths[1..][..j - 1]);
      UnpackAt(s[w..], widths[1..], j - 1);
      assert widths[..j][1..] == widths[1..][..j - 1];
      Sequences.SliceOfDrop(s, w, o, o + widths[j]);
    }
  }

  // ----- Arrays of records -----

  lemma {:induction false} MulStep(count: int, n: int)
    ensures count * n == n + (count - 1) * n
    ensures count >= 1 && n >= 0 ==> (count - 1) * n >= 0
  {
  }

  function PackAll(records: seq<seq<nat>>, widths: seq<nat>): (r: seq<byte>)
    requires forall i :: 0 <= i < |records| ==> |records[i]| == |widths|
    ensures |r| == |records| * Size(widths)
  {
    if records == [] then []
    else
      MulStep(|records|, Size(widths));
      Pack(records[0], widths) + PackAll(records[1..], widths)
  }

  /** `struct.iter_unpack`; it raises unless the length is a multiple of the record size. */
  function UnpackAll(s: seq<byte>, widths: seq<nat>, count: nat): (r: seq<seq<nat>>)
    requires |s| == count * Size(widths)
    ensures |r| == count && forall i :: 0 <= i < count ==> |r[i]| == |widths|
  {
    if count == 0 then []
    else
      var n := Size(widths);
      MulStep(count, n);
      [Unpack(s[..n], widths)] + UnpackAll(s[n..], widths, count - 1)
  }

  lemma {:induction false} UnpackPackAll(records: seq<seq<nat>>, widths: seq<nat>)
    requires forall i :: 0 <= i < |records| ==> |records[i]| == |widths| && Fits(records[i], widths)
    ensures UnpackAll(PackAll(records, widths), widths, |records|) == records
  {
    if records != [] {
      var s, n := PackAll(records, widths), Size(widths);
      assert s[..n] == Pack(records[0], widths) && s[n..] == PackAll(records[1..], widths);
      UnpackPack(records[0], widths);
      UnpackPackAll(records[1..], widths);
      assert records == [records[0]] + records[1..];
    }
  }

  lemma {:induction false} TimesLess(i: int, count: int, n: int)
    requires 0 <= i < count && n >= 0
    ensures 0 <= i * n && i * n + n <= count * n
  {
    Product(i, n);
    Product(count - i - 1, n);
    Spread(i, count - i - 1, n);
  }

  lemma {:induction false} Product(a: nat, b: nat)
    ensures a * b >= 0
  {
  }

  lemma {:induction false} Spread(i: int, r: int, n: int)
    ensures (i + 1 + r) * n == i * n + n + r * n
  {
  }

  /** A record is read at its number times the record size. */
  lemma {:induction false} UnpackAllAt(s: seq<byte>, widths: seq<nat>, count: nat, i: nat)
    requires |s| == count * Size(widths) && i < count
    ensures var n := Size(widths);
            0 <= i * n && i * n + n <= |s| && UnpackAll(s, widths, count)[i] == Unpack(s[i * n..i * n + n], widths)
    decreases i
  {
    hide Unpack;
    var n := Size(widths);
    TimesLess(i, count, n);
    MulStep(count, n);
    if i > 0 {
      MulStep(i, n);
      UnpackAllAt(s[n..], widths, count - 1, i - 1);
      var a := (i - 1) * n;
      assert s[n..][a..a + n] == s[n + a..n + a + n];
    }
  }
}
