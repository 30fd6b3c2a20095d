/**
  UTF-8 as sections 3 and 4 of RFC 3629 define it: the encoder, the octet-sequence grammar,
  the strict decoder of the conversion-quality bench, and the order that both share.
  Bit operations on octets are written as the arithmetic they compute
  (`x & 0x3f` is `x % 64`, `c << 6 | t` is `c * 64 + t` for a six-bit `t`).
 */
module Utf8 {
  import Sequences

  type byte = b: int | 0 <= b < 256

  /** A Unicode scalar value: a code point that is not a surrogate. */
  type scalar = c: int | 0 <= c < 0xD800 || 0xDFFF < c <= 0x10FFFF

  predicate IsScalar(c: int) { 0 <= c < 0xD800 || 0xDFFF < c <= 0x10FFFF }

  datatype Option<+T> = None | Some(value: T)

  // ----- The encoding (RFC 3629 section 3) -----

  function Encode2(c: scalar): (r: seq<byte>)
    requires 0x80 <= c < 0x800
    ensures Utf8_2(r) && ScalarOf(r) == c
  {
    var a: byte, b: byte := 0xC0 + c / 64, 0x80 + c % 64;
    [a, b]
  }

  function Encode3(c: scalar): (r: seq<byte>)
    requires 0x800 <= c < 0x10000
    ensures Utf8_3(r) && ScalarOf(r) == c
  {
    var high: int := c / 64;
    var a: byte, b: byte, d: byte := 0xE0 + high / 64, 0x80 + high % 64, 0x80 + c % 64;
    [a, b, d]
  }

  function Encode4(c: scalar): (r: seq<byte>)
    requires 0x10000 <= c
    ensures Utf8_4(r) && ScalarOf(r) == c
  {
    var high: int := c / 64;
    var top: int := high / 64;
    var a: byte, b: byte, d: byte, e: byte := 0xF0 + top / 64, 0x80 + top % 64, 0x80 + high % 64, 0x80 + c % 64;
    [a, b, d, e]
  }

  function EncodeScalar(c: scalar): (r: seq<byte>)
    ensures IsChar(r) && ScalarOf(r) == c
  {
    if c < 0x80 then var b: byte := c; [b]
    else if c < 0x800 then Encode2(c)
    else if c < 0x10000 then Encode3(c)
    else Encode4(c)
  }

  function Encode(text: seq<scalar>): (r: seq<byte>)
  {
    if text == [] then [] else EncodeScalar(text[0]) + Encode(text[1..])
  }

  // ----- The grammar (RFC 3629 section 4) -----

  predicate Tail(b: byte) { 0x80 <= b <= 0xBF }

  predicate Utf8_1(s: seq<byte>) { |s| == 1 && s[0] <= 0x7F }

  predicate Utf8_2(s: seq<byte>) { |s| == 2 && 0xC2 <= s[0] <= 0xDF && Tail(s[1]) }

  predicate Utf8_3(s: seq<byte>) {
    |s| == 3 && Tail(s[2]) &&
    ((s[0] == 0xE0 && 0xA0 <= s[1] <= 0xBF) || (0xE1 <= s[0] <= 0xEC && Tail(s[1])) ||
     (s[0] == 0xED && 0x80 <= s[1] <= 0x9F) || (0xEE <= s[0] <= 0xEF && Tail(s[1])))
  }

  predicate Utf8_4(s: seq<byte>) {
    |s| == 4 && Tail(s[2]) && Tail(s[3]) &&
    ((s[0] == 0xF0 && 0x90 <= s[1] <= 0xBF) || (0xF1 <= s[0] <= 0xF3 && Tail(s[1])) ||
     (s[0] == 0xF4 && 0x80 <= s[1] <= 0x8F))
  }

  predicate IsChar(s: seq<byte>) { Utf8_1(s) || Utf8_2(s) || Utf8_3(s) || Utf8_4(s) }

  ghost predicate WellFormed(s: seq<byte>)
    decreases |s|
  {
    s == [] || exists n :: 1 <= n <= |s| && IsChar(s[..n]) && WellFormed(s[n..])
  }

  // ----- One character -----

  /** Undoes `EncodeScalar` by removing the markers and joining the six-bit groups. */
  function ScalarOf(s: seq<int>): int
    requires 1 <= |s| <= 4
  {
    if |s| == 1 then s[0]
    else if |s| == 2 then (s[0] - 0xC0) * 64 + (s[1] - 0x80)
    else if |s| == 3 then (s[0] - 0xE0) * 4096 + (s[1] - 0x80) * 64 + (s[2] - 0x80)
    else (s[0] - 0xF0) * 262144 + (s[1] - 0x80) * 4096 + (s[2] - 0x80) * 64 + (s[3] - 0x80)
  }

  lemma {:induction false} EncodeScalarOf2(s: seq<byte>)
    requires Utf8_2(s)
    ensures 0x80 <= ScalarOf(s) < 0x800 && Encode2(ScalarOf(s)) == s
  {
  }

  lemma {:induction false} EncodeScalarOf3(s: seq<byte>)
    requires Utf8_3(s)
    ensures 0x800 <= ScalarOf(s) < 0x10000 && IsScalar(ScalarOf(s)) && Encode3(ScalarOf(s)) == s
  {
    var a: int, b: int, c: int := s[0], s[1], s[2];
    Digit(a - 0xE0, b - 0x80);
    Digit((a - 0xE0) * 64 + (b - 0x80), c - 0x80);
  }

  /** A number written with a last digit to base 64. */
  lemma {:induction false} Digit(q: int, r: int)
    requires 0 <= r < 64
    ensures (q * 64 + r) / 64 == q && (q * 64 + r) % 64 == r
  {
  }

  lemma {:induction false} EncodeScalarOf4(s: seq<byte>)
    requires Utf8_4(s)
    ensures 0x10000 <= ScalarOf(s) && IsScalar(ScalarOf(s)) && Encode4(ScalarOf(s)) == s
  {
    var a: int, b: int, c: int, d: int := s[0], s[1], s[2], s[3];
    FourDigits(a - 0xF0, b - 0x80, c - 0x80, d - 0x80);
  }

  lemma {:induction false} FourDigits(a: int, b: int, c: int, d: int)
    requires 0 <= a <= 4 && 0 <= b < 64 && 0 <= c < 64 && 0 <= d < 64
    requires (a == 0 ==> b >= 16) && (a == 4 ==> b < 16)
    ensures var n := ((a * 64 + b) * 64 + c) * 64 + d;
            0x10000 <= n <= 0x10FFFF && Encode4(n) == [0xF0 + a, 0x80 + b, 0x80 + c, 0x80 + d]
  {
    Digit(a, b);
    Digit(a * 64 + b, c);
    Digit((a * 64 + b) * 64 + c, d);
  }

  lemma {:induction false} EncodeScalarOf(s: seq<byte>)
    requires IsChar(s)
    ensures IsScalar(ScalarOf(s)) && EncodeScalar(ScalarOf(s)) == s
  {
    if Utf8_2(s) { EncodeScalarOf2(s); }
    if Utf8_3(s) { EncodeScalarOf3(s); }
    if Utf8_4(s) { EncodeScalarOf4(s); }
  }

  /** The first octet of a character fixes how many octets it has; 0 when it can start none. */
  function LeadLength(lead: byte): nat
  {
    if lead <= 0x7F then 1 else if lead < 0xC0 then 0 else if lead < 0xE0 then 2
    else if lead < 0xF0 then 3 else if lead < 0xF8 then 4 else 0
  }

  lemma {:induction false} LeadFixesLength(s: seq<byte>)
    requires IsChar(s)
    ensures |s| == LeadLength(s[0])
  {
  }

  lemma {:induction false} CharScalar(s: seq<byte>) returns (c: scalar)
    requires IsChar(s)
    ensures EncodeScalar(c) == s
  {
    EncodeScalarOf(s);
    c := ScalarOf(s);
  }

  // ----- Whole texts -----

  lemma {:induction false} WellFormedStep(s: seq<byte>, n: nat)
    requires 1 <= n <= |s| && IsChar(s[..n])
    ensures WellFormed(s) <==> WellFormed(s[n..])
  {
    LeadFixesLength(s[..n]);
    if WellFormed(s) {
      var m :| 1 <= m <= |s| && IsChar(s[..m]) && WellFormed(s[m..]);
      LeadFixesLength(s[..m]);
    }
  }

  lemma {:induction false} EncodeConcat(a: seq<scalar>, b: seq<scalar>)
    ensures Encode(a + b) == Encode(a) + Encode(b)
  {
    hide EncodeScalar;
    if a == [] {
      assert a + b == b;
    } else {
      var c := a + b;
      assert c[0] == a[0] && c[1..] == a[1..] + b;
      EncodeConcat(a[1..], b);
      assert Encode(c) == EncodeScalar(a[0]) + (Encode(a[1..]) + Encode(b));
    }
  }

  lemma {:induction false} EncodeWellFormed(text: seq<scalar>)
    ensures WellFormed(Encode(text))
  {
    if text != [] {
      EncodeWellFormed(text[1..]);
      var n := |EncodeScalar(text[0])|;
      assert Encode(text)[..n] == EncodeScalar(text[0]) && Encode(text)[n..] == Encode(text[1..]);
    }
  }

  lemma {:induction false} FirstChar(s: seq<byte>) returns (n: nat)
    requires WellFormed(s) && s != []
    ensures 1 <= n <= |s| && IsChar(s[..n]) && WellFormed(s[n..])
  {
    n :| 1 <= n <= |s| && IsChar(s[..n]) && WellFormed(s[n..]);
  }

  /** Every sentence of the grammar is the encoding of some text. */
  lemma {:induction false} WellFormedEncodes(s: seq<byte>) returns (text: seq<scalar>)
    requires WellFormed(s)
    ensures Encode(text) == s
    decreases |s|
  {
    hide EncodeScalar, WellFormed, IsChar;
    text := [];
    if s != [] {
      var n := FirstChar(s);
      var c := CharScalar(s[..n]);
      var rest := WellFormedEncodes(s[n..]);
      text := [c] + rest;
      assert text[1..] == rest;
      assert s == s[..n] + s[n..];
    }
  }

  /** Two encodings that agree on a stretch agree on their first characters. */
  lemma {:induction false} FirstScalar(a: scalar, b: scalar, x: seq<byte>, y: seq<byte>)
    requires EncodeScalar(a) + x == EncodeScalar(b) + y
    ensures a == b && x == y
  {
    var p, q := EncodeScalar(a), EncodeScalar(b);
    LeadFixesLength(p);
    LeadFixesLength(q);
    assert p[0] == (p + x)[0] && q[0] == (q + y)[0];
    assert p == (p + x)[..|p|] && q == (q + y)[..|q|];
    assert x == (p + x)[|p|..] && y == (q + y)[|q|..];
  }

  lemma {:induction false} EncodeInjective(a: seq<scalar>, b: seq<scalar>)
    requires Encode(a) == Encode(b)
    ensures a == b
  {
    if a != [] && b != [] {
      FirstScalar(a[0], b[0], Encode(a[1..]), Encode(b[1..]));
      EncodeInjective(a[1..], b[1..]);
      assert a == [a[0]] + a[1..] && b == [b[0]] + b[1..];
    }
  }

  /** The decoder's meaning: the one text whose encoding is `s`, when there is one. */
  ghost function Decode(s: seq<byte>): (r: Option<seq<scalar>>)
    ensures r.Some? <==> WellFormed(s)
    ensures r.Some? ==> Encode(r.value) == s
  {
    if exists text: seq<scalar> :: Encode(text) == s then
      var text: seq<scalar> :| Encode(text) == s;
      EncodeWellFormed(text);
      Some(text)
    else
      assert !WellFormed(s) by { if WellFormed(s) { var t := WellFormedEncodes(s); } }
      None
  }

  lemma {:induction false} DecodeEncode(text: seq<scalar>)
    ensures Decode(Encode(text)) == Some(text)
  {
    EncodeWellFormed(text);
    EncodeInjective(Decode(Encode(text)).value, text);
  }

  // ----- Order (RFC 3629 section 1: byte order is code point order) -----

  /** Lexicographic order on sequences of numbers. */
  predicate Less(a: seq<int>, b: seq<int>)
  {
    b != [] && (a == [] || a[0] < b[0] || (a[0] == b[0] && Less(a[1..], b[1..])))
  }

  lemma {:induction false} LessCommonPrefix(p: seq<int>, a: seq<int>, b: seq<int>)
    ensures Less(p + a, p + b) <==> Less(a, b)
  {
    if p == [] {
      assert p + a == a && p + b == b;
    } else {
      LessCommonPrefix(p[1..], a, b);
      assert (p + a)[1..] == p[1..] + a && (p + b)[1..] == p[1..] + b;
    }
  }

  /** The first difference decides. */
  lemma {:induction false} LessAt(s: seq<int>, t: seq<int>, k: nat)
    requires k < |s| && k < |t| && s[..k] == t[..k] && s[k] < t[k]
    ensures Less(s, t)
  {
    LessCommonPrefix(s[..k], s[k..], t[k..]);
    assert s == s[..k] + s[k..] && t == s[..k] + t[k..];
  }

  /** A text comes before its continuations. */
  lemma {:induction false} PrefixLess(s: seq<int>, t: seq<int>)
    requires s < t
    ensures Less(s, t)
  {
    LessCommonPrefix(s, [], t[|s|..]);
    assert s == s + [] && t == s + t[|s|..];
  }

  lemma {:induction false} FirstDifference(p: seq<byte>, q: seq<byte>) returns (k: nat)
    requires IsChar(p) && IsChar(q) && ScalarOf(p) < ScalarOf(q)
    ensures k < |p| && k < |q| && p[..k] == q[..k] && p[k] < q[k]
  {
    LeadFixesLength(p);
    LeadFixesLength(q);
    k := if p[0] != q[0] then 0 else if p[1] != q[1] then 1 else if p[2] != q[2] then 2 else 3;
  }

  /** Characters compare as their code points, whatever follows them. */
  lemma {:induction false} ScalarOrder(a: scalar, b: scalar, x: seq<byte>, y: seq<byte>)
    requires a < b
    ensures Less(EncodeScalar(a) + x, EncodeScalar(b) + y)
  {
    var p, q := EncodeScalar(a), EncodeScalar(b);
    var k := FirstDifference(p, q);
    assert (p + x)[..k] == p[..k] && (q + y)[..k] == q[..k];
    LessAt(p + x, q + y, k);
  }

  lemma {:induction false} EncodeKeepsOrder(a: seq<scalar>, b: seq<scalar>)
    ensures Less(a, b) <==> Less(Encode(a), Encode(b))
  {
    if a != [] && b != [] {
      var x, y := Encode(a[1..]), Encode(b[1..]);
      if a[0] < b[0] {
        ScalarOrder(a[0], b[0], x, y);
      } else if b[0] < a[0] {
        ScalarOrder(b[0], a[0], y, x);
        LessAsymmetric(Encode(b), Encode(a));
      } else {
        EncodeKeepsOrder(a[1..], b[1..]);
        LessCommonPrefix(EncodeScalar(a[0]), x, y);
      }
    }
  }

  lemma {:induction false} LessAsymmetric(a: seq<int>, b: seq<int>)
    requires Less(a, b)
    ensures !Less(b, a) && a != b
  {
    if a != [] && a[0] == b[0] { LessAsymmetric(a[1..], b[1..]); }
  }

  lemma {:induction false} LessTransitive(a: seq<int>, b: seq<int>, c: seq<int>)
    requires Less(a, b) && Less(b, c)
    ensures Less(a, c)
  {
    if a != [] && a[0] == b[0] && b[0] == c[0] { LessTransitive(a[1..], b[1..], c[1..]); }
  }

  lemma {:induction false} LessTotal(a: seq<int>, b: seq<int>)
    ensures Less(a, b) || a == b || Less(b, a)
  {
    if a != [] && b != [] && a[0] == b[0] {
      LessTotal(a[1..], b[1..]);
      assert a == [a[0]] + a[1..] && b == [b[0]] + b[1..];
    }
  }

  // ----- The decoder of the bench -----

  /** The value bits of a lead octet: what is left without its marker. */
  function LeadBits(lead: byte): int
  {
    if lead <= 0x7F then lead else if lead < 0xE0 then (lead as int) - 0xC0
    else if lead < 0xF0 then (lead as int) - 0xE0 else (lead as int) - 0xF0
  }

  function Accumulate(c: int, tail: seq<int>): int
  {
    if tail == [] then c else Accumulate(c, tail[..|tail| - 1]) * 64 + (tail[|tail| - 1] - 0x80)
  }

  predicate Overlong(continuation: nat, c: int)
  {
    (continuation == 1 && c < 0x80) || (continuation == 2 && c < 0x800) || (continuation == 3 && c < 0x10000)
  }

  lemma {:induction false} Masks(b: byte)
    ensures Tail(b) ==> b % 64 == b - 0x80
    ensures 0xC0 <= b < 0xE0 ==> b % 32 == b - 0xC0
    ensures 0xE0 <= b < 0xF0 ==> b % 16 == b - 0xE0
    ensures 0xF0 <= b < 0xF8 ==> b % 8 == b - 0xF0
  {
  }

  lemma {:induction false} AccumulateNone(c: int)
    ensures Accumulate(c, []) == c
  {
  }

  lemma {:induction false} AccumulateLast(c: int, tail: seq<int>, b: int)
    ensures Accumulate(c, tail + [b]) == Accumulate(c, tail) * 64 + (b - 0x80)
  {
    assert (tail + [b])[..|tail|] == tail;
  }

  /** Joining the bits of lead and tail octets removes their markers. */
  lemma {:induction false} AccumulateIsScalarOf(s: seq<byte>)
    requires s != [] && |s| == LeadLength(s[0]) && forall i :: 1 <= i < |s| ==> Tail(s[i])
    ensures Accumulate(LeadBits(s[0]), s[1..]) == ScalarOf(s)
  {
    var lead := LeadBits(s[0]);
    if |s| == 1 {
      assert s[1..] == [];
    } else if |s| == 2 {
      Accumulate1(lead, s[1]);
      assert s[1..] == [s[1]];
    } else if |s| == 3 {
      Accumulate2(lead, s[1], s[2]);
      assert s[1..] == [s[1], s[2]];
    } else {
      Accumulate3(lead, s[1], s[2], s[3]);
      assert s[1..] == [s[1], s[2], s[3]];
    }
    hide Accumulate;
  }

  lemma {:induction false} Accumulate1(lead: int, a: int)
    ensures Accumulate(lead, [a]) == lead * 64 + (a - 0x80)
  {
    AccumulateNone(lead);
    AccumulateLast(lead, [], a);
    assert [] + [a] == [a];
  }

  lemma {:induction false} Accumulate2(lead: int, a: int, b: int)
    ensures Accumulate(lead, [a, b]) == (lead * 64 + (a - 0x80)) * 64 + (b - 0x80)
  {
    hide Accumulate;
    Accumulate1(lead, a);
    AccumulateLast(lead, [a], b);
    assert [a] + [b] == [a, b];
  }

  lemma {:induction false} Accumulate3(lead: int, a: int, b: int, c: int)
    ensures Accumulate(lead, [a, b, c]) == ((lead * 64 + (a - 0x80)) * 64 + (b - 0x80)) * 64 + (c - 0x80)
  {
    hide Accumulate;
    Accumulate2(lead, a, b);
    AccumulateLast(lead, [a, b], c);
    assert [a, b] + [c] == [a, b, c];
  }

  /** The decoder's checks on one character are the grammar's. */
  lemma {:induction false} CheckedChar(s: seq<byte>)
    requires s != [] && |s| == LeadLength(s[0]) && forall i :: 1 <= i < |s| ==> Tail(s[i])
    ensures IsChar(s) <==> !Overlong(|s| - 1, ScalarOf(s)) && IsScalar(ScalarOf(s))
  {
  }

  method ReadLead(lead: byte) returns (r: Option<(int, nat)>)
    ensures r.None? <==> LeadLength(lead) == 0
    ensures r.Some? ==> r.value == (LeadBits(lead), LeadLength(lead) - 1)
  {
    Masks(lead);
    if lead <= 0x7F {
      return Some((lead, 0));
    } else if 0xC0 <= lead <= 0xDF {
      return Some((lead % 32, 1));
    } else if 0xE0 <= lead <= 0xEF {
      return Some((lead % 16, 2));
    } else if 0xF0 <= lead <= 0xF7 {
      return Some((lead % 8, 3));
    }
    return None;
  }

  /** Reads one character at `start`: its code point and where it ends. */
  method DecodeOne(text: seq<byte>, start: nat) returns (r: Option<(scalar, nat)>)
    requires start < |text|
    ensures r.Some? ==> start < r.value.1 <= |text| && IsChar(text[start..r.value.1])
    ensures r.Some? ==> ScalarOf(text[start..r.value.1]) == r.value.0
    ensures r.None? ==> !WellFormed(text[start..])
  {
    hide EncodeScalar, Accumulate, LeadBits, WellFormed, Utf8_2, Utf8_3, Utf8_4;
    ghost var rest := text[start..];
    var lead := text[start];
    var offset := start + 1;
    var first := ReadLead(lead);
    if first.None? {
      NoChar(rest);
      return None;
    }
    var (codepoint, continuation) := first.value;
    if offset + continuation > |text| {
      NoChar(rest);
      return None;
    }
    AccumulateNone(LeadBits(lead));
    assert text[start + 1..offset] == [];
    var index := 0;
    while index < continuation
      invariant 0 <= index <= continuation && offset == start + 1 + index
      invariant codepoint == Accumulate(LeadBits(lead), text[start + 1..offset])
      invariant forall i :: start < i < offset ==> Tail(text[i])
    {
      var octet := text[offset];
      if !(0x80 <= octet <= 0xBF) {
        BadTail(rest, 1 + index);
        return None;
      }
      offset := offset + 1;
      Masks(octet);
      AccumulateLast(LeadBits(lead), text[start + 1..offset - 1], octet);
      Sequences.SliceSnoc(text, start + 1, offset - 1);
      codepoint := codepoint * 64 + octet % 64;
      index := index + 1;
    }
    ghost var piece := text[start..offset];
    Sequences.SliceOfSlice(text, start, offset, 1, offset - start);
    Sequences.DropThen(text, start, 1 + continuation);
    CheckedChar(piece);
    AccumulateIsScalarOf(piece);
    if Overlong(continuation, codepoint) || codepoint > 0x10FFFF || 0xD800 <= codepoint <= 0xDFFF {
      NoChar(rest);
      return None;
    }
    return Some((codepoint, offset));
  }

  method DecodeUtf8CodePoints(text: seq<byte>) returns (r: Option<seq<scalar>>)
    ensures r == Decode(text)
  {
    hide EncodeScalar, ScalarOf, WellFormed, Utf8_2, Utf8_3, Utf8_4;
    var output: seq<scalar> := [];
    var offset := 0;
    while offset < |text|
      invariant offset <= |text|
      invariant Encode(output) == text[..offset]
      invariant WellFormed(text) <==> WellFormed(text[offset..])
    {
      var one := DecodeOne(text, offset);
      if one.None? { return None; }
      var (codepoint, next) := one.value;
      EncodeScalarOf(text[offset..next]);
      ghost var rest, n := text[offset..], next - offset;
      Sequences.DropThen(text, offset, n);
      WellFormedStep(rest, n);
      EncodeConcat(output, [codepoint]);
      Sequences.SliceJoin(text, 0, offset, next);
      output, offset := output + [codepoint], next;
    }
    Sequences.WholeSlice(text);
    EncodeInjective(output, Decode(text).value);
    return Some(output);
  }

  lemma {:induction false} BadTail(s: seq<byte>, i: nat)
    requires 0 < i < |s| && i < LeadLength(s[0]) && !Tail(s[i])
    ensures !WellFormed(s)
  {
    var n := LeadLength(s[0]);
    if n <= |s| { assert s[..n][i] == s[i]; }
    NoChar(s);
  }

  /** A text no prefix of which is a character is not well formed. */
  lemma {:induction false} NoChar(s: seq<byte>)
    requires s != []
    requires var n := LeadLength(s[0]); n == 0 || n > |s| || !IsChar(s[..n])
    ensures !WellFormed(s)
  {
    if WellFormed(s) {
      var m :| 1 <= m <= |s| && IsChar(s[..m]) && WellFormed(s[m..]);
      LeadFixesLength(s[..m]);
      assert false;
    }
  }
}
