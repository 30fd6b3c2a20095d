/**
  User word input: trimming and katakana folding done on UTF-8 bytes, and what they mean for the
  characters those bytes stand for.
 */
module UserWords {
  import opened Utf8
  import opened Sorting
  import Sequences
  import Azdic

  // ----- On characters -----

  predicate IsSpace(c: scalar) { c == 0x20 || c == 0x09 || c == 0x3000 }

  function TrimFront(t: Text): Text { if t != [] && IsSpace(t[0]) then TrimFront(t[1..]) else t }

  function TrimBack(t: Text): Text { if t != [] && IsSpace(t[|t| - 1]) then TrimBack(t[..|t| - 1]) else t }

  function Trim(t: Text): Text { TrimBack(TrimFront(t)) }

  function FoldScalar(c: scalar): scalar { if 0x30A1 <= c <= 0x30F6 then c - 0x60 else c }

  function Fold(t: Text): (r: Text)
    ensures |r| == |t| && forall i :: 0 <= i < |t| ==> r[i] == FoldScalar(t[i])
  {
    seq(|t|, i requires 0 <= i < |t| => FoldScalar(t[i]))
  }

  lemma {:induction false} TrimFrontMeans(t: Text)
    ensures TrimFront(t) == [] || !IsSpace(TrimFront(t)[0])
    ensures |TrimFront(t)| <= |t| && TrimFront(t) == t[|t| - |TrimFront(t)|..]
    ensures forall i :: 0 <= i < |t| - |TrimFront(t)| ==> IsSpace(t[i])
    decreases |t|
  {
    if t != [] && IsSpace(t[0]) {
      TrimFrontMeans(t[1..]);
      var n := |t| - |TrimFront(t)|;
      assert forall i :: 1 <= i < n ==> t[i] == t[1..][i - 1];
    }
  }

  lemma {:induction false} TrimBackMeans(t: Text)
    ensures TrimBack(t) == [] || !IsSpace(TrimBack(t)[|TrimBack(t)| - 1])
    ensures |TrimBack(t)| <= |t| && TrimBack(t) == t[..|TrimBack(t)|]
    ensures forall i :: |TrimBack(t)| <= i < |t| ==> IsSpace(t[i])
    decreases |t|
  {
    if t != [] && IsSpace(t[|t| - 1]) { TrimBackMeans(t[..|t| - 1]); }
  }

  /** What remains starts and ends with a non-space, and only spaces were taken off. */
  lemma {:induction false} TrimMeans(t: Text) returns (a: nat, b: nat)
    ensures a <= b <= |t| && Trim(t) == t[a..b]
    ensures (forall i :: 0 <= i < a ==> IsSpace(t[i])) && (forall i :: b <= i < |t| ==> IsSpace(t[i]))
    ensures a < b ==> !IsSpace(t[a]) && !IsSpace(t[b - 1])
    ensures forall c :: IsSpace(c) <==> c in {0x20, 0x09, 0x3000}
  {
    TrimFrontMeans(t);
    var front := TrimFront(t);
    TrimBackMeans(front);
    a := |t| - |front|;
    b := a + |TrimBack(front)|;
    forall i | b <= i < |t| ensures IsSpace(t[i]) { assert t[i] == front[i - a]; }
  }

  /** Folding neither makes nor removes spaces. */
  lemma {:induction false} FoldTrim(t: Text)
    ensures Trim(Fold(t)) == Fold(Trim(t)) && Fold(Fold(t)) == Fold(t)
  {
    FoldFront(t);
    FoldBack(TrimFront(t));
  }

  lemma {:induction false} FoldFront(t: Text)
    ensures TrimFront(Fold(t)) == Fold(TrimFront(t))
    decreases |t|
  {
    if t != [] && IsSpace(t[0]) {
      FoldFront(t[1..]);
      assert Fold(t)[1..] == Fold(t[1..]);
    }
  }

  lemma {:induction false} FoldBack(t: Text)
    ensures TrimBack(Fold(t)) == Fold(TrimBack(t))
    decreases |t|
  {
    if t != [] && IsSpace(t[|t| - 1]) {
      FoldBack(t[..|t| - 1]);
      assert Fold(t)[..|t| - 1] == Fold(t[..|t| - 1]);
    }
  }

  lemma {:induction false} TrimIdempotent(t: Text)
    ensures Trim(Trim(t)) == Trim(t)
  {
    var a, b := TrimMeans(t);
    var u := Trim(t);
    assert u != [] ==> u[0] == t[a] && u[|u| - 1] == t[b - 1];
  }

  /** Normalising a reading twice is normalising it once. */
  lemma {:induction false} ReadingIdempotent(t: Text)
    ensures Fold(Trim(Fold(Trim(t)))) == Fold(Trim(t))
  {
    FoldTrim(Trim(t));
    TrimIdempotent(t);
  }

  /** Katakana become the hiragana of the same place in order; every other character stays. */
  lemma {:induction false} FoldKeepsOrder(a: scalar, b: scalar)
    ensures 0x30A1 <= a < b <= 0x30F6 ==> 0x3041 <= FoldScalar(a) < FoldScalar(b) <= 0x3096
    ensures !(0x30A1 <= a <= 0x30F6) ==> FoldScalar(a) == a
  {
  }

  /** Folding a reading in the dialog never changes the dictionary key it is looked up under. */
  lemma {:induction false} FoldKeepsKey(t: Text)
    ensures Azdic.Normalize(Fold(t)) == Azdic.Normalize(t)
  {
    var a, b := Azdic.Normalize(Fold(t)), Azdic.Normalize(t);
    forall i | 0 <= i < |t| ensures a[i] == b[i] {
      assert a[i] == Azdic.NormalizeScalar(FoldScalar(t[i])) && b[i] == Azdic.NormalizeScalar(t[i]);
    }
  }

  // ----- Bytes and characters at the ends -----

  const IDEOGRAPHIC_SPACE: seq<byte> := [0xE3, 0x80, 0x80]

  lemma {:induction false} SpaceBytes()
    ensures EncodeScalar(0x20) == [0x20] && EncodeScalar(0x09) == [0x09] && EncodeScalar(0x3000) == IDEOGRAPHIC_SPACE
  {
  }

  /** A first character is a space exactly when the bytes start with one. */
  lemma {:induction false} FrontByte(t: Text)
    requires t != []
    ensures var s := Encode(t);
            s != [] && (t[0] == 0x20 <==> s[0] == 0x20) && (t[0] == 0x09 <==> s[0] == 0x09) &&
            (t[0] == 0x3000 <==> IDEOGRAPHIC_SPACE <= s)
  {
    var s, e := Encode(t), EncodeScalar(t[0]);
    SpaceBytes();
    LeadFixesLength(e);
    assert s == e + Encode(t[1..]) && s[..|e|] == e && s[0] == e[0];
    if IDEOGRAPHIC_SPACE <= s { EncodeOnce(t[0], 0x3000); }
    if s[0] == 0x20 { EncodeOnce(t[0], 0x20); }
    if s[0] == 0x09 { EncodeOnce(t[0], 0x09); }
  }

  lemma {:induction false} EncodeOnce(a: scalar, b: scalar)
    ensures EncodeScalar(a) == EncodeScalar(b) ==> a == b
  {
    assert ScalarOf(EncodeScalar(a)) == a && ScalarOf(EncodeScalar(b)) == b;
  }

  lemma {:induction false} EncodeLast(t: Text)
    requires t != []
    ensures Encode(t) == Encode(t[..|t| - 1]) + EncodeScalar(t[|t| - 1])
  {
    hide EncodeScalar;
    EncodeConcat(t[..|t| - 1], [t[|t| - 1]]);
    assert t == t[..|t| - 1] + [t[|t| - 1]];
    assert Encode([t[|t| - 1]]) == EncodeScalar(t[|t| - 1]) + [];
  }

  /** A last character is a space exactly when the bytes end with one. */
  lemma {:induction false} BackByte(t: Text)
    requires t != []
    ensures var s, c := Encode(t), t[|t| - 1];
            s != [] && (c == 0x20 <==> s[|s| - 1] == 0x20) && (c == 0x09 <==> s[|s| - 1] == 0x09) &&
            (c == 0x3000 <==> |s| >= 3 && s[|s| - 3..] == IDEOGRAPHIC_SPACE)
  {
    hide Encode;
    var s, c := Encode(t), t[|t| - 1];
    var e := EncodeScalar(c);
    EncodeLast(t);
    SpaceBytes();
    TailsOnly(e);
    assert s[|s| - |e|..] == e && s[|s| - 1] == e[|e| - 1];
    if |s| >= 3 && s[|s| - 3..] == IDEOGRAPHIC_SPACE {
      assert s[|s| - 3] == 0xE3 && s[|s| - 2] == 0x80 && s[|s| - 1] == 0x80;
      assert |e| == 3;
      EncodeOnce(c, 0x3000);
    }
    if s[|s| - 1] == 0x20 { EncodeOnce(c, 0x20); }
    if s[|s| - 1] == 0x09 { EncodeOnce(c, 0x09); }
  }

  /** After the first octet of a character only tail octets follow. */
  lemma {:induction false} TailsOnly(e: seq<byte>)
    requires IsChar(e)
    ensures !Tail(e[0]) && forall i :: 1 <= i < |e| ==> Tail(e[i])
    ensures |e| == 1 <==> e[0] < 0x80
    ensures |e| == 3 <==> 0xE0 <= e[0] <= 0xEF
  {
  }

  // ----- Trimming bytes -----

  lemma {:induction false} DropFirst(t: Text)
    requires t != []
    ensures Encode(t)[|EncodeScalar(t[0])|..] == Encode(t[1..])
  {
    hide EncodeScalar;
  }

  lemma {:induction false} DropLast(t: Text)
    requires t != []
    ensures |Encode(t)| >= |EncodeScalar(t[|t| - 1])|
    ensures Encode(t)[..|Encode(t)| - |EncodeScalar(t[|t| - 1])|] == Encode(t[..|t| - 1])
  {
    hide EncodeScalar, Encode;
    EncodeLast(t);
  }

  method TrimSpaces(input: seq<byte>) returns (text: seq<byte>)
    ensures WellFormed(input) ==> text == Encode(Trim(Decode(input).value))
    ensures |text| <= |input|
  {
    hide WellFormed, Encode, EncodeScalar;
    text := input;
    SpaceBytes();
    ghost var wf := WellFormed(input);
    ghost var all := if wf then Decode(input).value else [];
    ghost var t := all;
    while true
      invariant |text| <= |input|
      invariant wf ==> Encode(t) == text && TrimFront(t) == TrimFront(all)
      decreases |text|
    {
      ghost var before := t;
      if wf && t != [] {
        FrontByte(t);
        DropFirst(t);
        if IsSpace(t[0]) { t := t[1..]; }
      }
      if text != [] && (text[0] == 0x20 || text[0] == 0x09) {
        NotEmpty(wf, before, text);
        text := text[1..];
      } else if IDEOGRAPHIC_SPACE <= text {
        NotEmpty(wf, before, text);
        text := text[3..];
      } else {
        break;
      }
    }
    assert wf ==> t == TrimFront(all);
    while true
      invariant |text| <= |input|
      invariant wf ==> Encode(t) == text && TrimBack(t) == Trim(all)
      decreases |text|
    {
      ghost var before := t;
      if wf && t != [] {
        BackByte(t);
        DropLast(t);
        if IsSpace(t[|t| - 1]) { t := t[..|t| - 1]; }
      }
      if text != [] && (text[|text| - 1] == 0x20 || text[|text| - 1] == 0x09) {
        NotEmpty(wf, before, text);
        text := text[..|text| - 1];
      } else if |text| >= 3 && text[|text| - 3..] == IDEOGRAPHIC_SPACE {
        NotEmpty(wf, before, text);
        text := text[..|text| - 3];
      } else {
        break;
      }
    }
  }

  lemma {:induction false} NotEmpty(wf: bool, t: Text, text: seq<byte>)
    requires text != [] && (wf ==> Encode(t) == text)
    ensures wf ==> t != []
  {
  }

  // ----- Folding bytes -----

  /** The code point that two octets after an 0xE3 spell. */
  function KanaCode(b1: byte, b2: byte): int { 0x3000 + b1 % 64 * 64 + b2 % 64 }

  /** The test made at one byte position: a foldable katakana starts here. */
  predicate KanaAt(s: seq<byte>, i: nat)
  {
    i + 2 < |s| && s[i] == 0xE3 && (s[i + 1] == 0x82 || s[i + 1] == 0x83) && Tail(s[i + 2]) &&
    0x30A1 <= KanaCode(s[i + 1], s[i + 2]) <= 0x30F6
  }

  lemma {:induction false} KanaBytes(c: scalar)
    requires 0x3000 <= c < 0x4000
    ensures EncodeScalar(c) == [0xE3, 0x80 + c / 64 % 64, 0x80 + c % 64]
  {
  }

  lemma {:induction false} KanaScalar(e: seq<byte>)
    requires |e| == 3 && e[0] == 0xE3 && (e[1] == 0x82 || e[1] == 0x83) && Tail(e[2])
    ensures IsChar(e) && ScalarOf(e) == KanaCode(e[1], e[2])
  {
  }

  /** At the start of a character the byte test sees exactly the foldable katakana. */
  lemma {:induction false} KanaFirst(t: Text)
    requires t != []
    ensures KanaAt(Encode(t), 0) <==> 0x30A1 <= t[0] <= 0x30F6
    ensures KanaAt(Encode(t), 0) ==> KanaCode(Encode(t)[1], Encode(t)[2]) == t[0]
  {
    var e := EncodeScalar(t[0]);
    var s := Encode(t);
    assert s == e + Encode(t[1..]);
    TailsOnly(e);
    if 0x30A1 <= t[0] <= 0x30F6 {
      KanaBytes(t[0]);
      assert s[0] == e[0] && s[1] == e[1] && s[2] == e[2];
      KanaScalar(e);
    }
    if KanaAt(s, 0) {
      assert s[0] == e[0] && s[1] == e[1] && s[2] == e[2];
      KanaScalar(e);
    }
  }

  lemma {:induction false} FoldFirst(t: Text)
    requires t != []
    ensures Encode(Fold(t)) == EncodeScalar(FoldScalar(t[0])) + Encode(Fold(t[1..]))
    ensures |EncodeScalar(FoldScalar(t[0]))| == |EncodeScalar(t[0])|
  {
    assert Fold(t)[1..] == Fold(t[1..]);
  }

  /** Text too short to hold a katakana folds to itself. */
  lemma {:induction false} ShortFold(t: Text)
    requires |Encode(t)| <= 2
    ensures Fold(t) == t
    decreases |t|
  {
    if t != [] {
      assert Encode(t) == EncodeScalar(t[0]) + Encode(t[1..]);
      ShortFold(t[1..]);
      assert Fold(t)[1..] == Fold(t[1..]);
      assert t == [t[0]] + t[1..] && Fold(t) == [Fold(t)[0]] + Fold(t)[1..];
    }
  }

  /** Where a scan over the bytes stands: inside one character (`mid` is its rest) before `rest`. */
  datatype Cursor = Cursor(mid: seq<byte>, rest: Text)

  ghost predicate At(out: seq<byte>, i: nat, folded: seq<byte>, c: Cursor)
  {
    i <= |out| && out[i..] == c.mid + Encode(c.rest) && folded == out[..i] + c.mid + Encode(Fold(c.rest)) &&
    forall k :: 0 <= k < |c.mid| ==> Tail(c.mid[k])
  }

  lemma {:induction false} PassTail(out: seq<byte>, i: nat, folded: seq<byte>, c: Cursor)
    requires At(out, i, folded, c) && c.mid != []
    ensures i < |out| && !KanaAt(out, i) && At(out, i + 1, folded, Cursor(c.mid[1..], c.rest))
  {
    hide Encode, Fold;
    assert out[i] == out[i..][0] == c.mid[0];
    MoveOn(out, i, c.mid, Encode(c.rest));
  }

  /** Moving one byte on within a piece. */
  lemma {:induction false} MoveOn(out: seq<byte>, i: nat, piece: seq<byte>, later: seq<byte>)
    requires i <= |out| && out[i..] == piece + later && piece != []
    ensures i < |out| && out[i] == piece[0] && out[i + 1..] == piece[1..] + later
    ensures out[..i + 1] + piece[1..] == out[..i] + piece
  {
    assert out[i] == out[i..][0];
    Sequences.DropThen(out, i, 1);
    Sequences.ConcatDrop(piece, later, 1);
    Sequences.SliceSnoc(out, 0, i);
    Sequences.HeadAndTail(piece);
    Sequences.ConcatAssociates(out[..i], [piece[0]], piece[1..]);
  }

  lemma {:induction false} PassOther(out: seq<byte>, i: nat, folded: seq<byte>, c: Cursor)
    requires At(out, i, folded, c) && c.mid == [] && c.rest != [] && !KanaAt(out, i)
    ensures At(out, i + 1, folded, Cursor(EncodeScalar(c.rest[0])[1..], c.rest[1..]))
  {
    var t := c.rest;
    var e, later := EncodeScalar(t[0]), Encode(t[1..]);
    assert Encode(t) == e + later;
    KanaFirst(t);
    FoldFirst(t);
    TailsOnly(e);
    PassOtherBytes(out, i, folded, e, later, t);
  }

  lemma {:induction false} PassOtherBytes(out: seq<byte>, i: nat, folded: seq<byte>, e: seq<byte>, later: seq<byte>,
                                          t: Text)
    requires At(out, i, folded, Cursor([], t)) && t != [] && !KanaAt(out, i) && e != []
    requires Encode(t) == e + later && later == Encode(t[1..])
    requires KanaAt(e + later, 0) <==> FoldScalar(t[0]) != t[0]
    requires Encode(Fold(t)) == EncodeScalar(FoldScalar(t[0])) + Encode(Fold(t[1..])) && e == EncodeScalar(t[0])
    requires forall k :: 1 <= k < |e| ==> Tail(e[k])
    ensures At(out, i + 1, folded, Cursor(e[1..], t[1..]))
  {
    hide Encode, EncodeScalar, Fold, FoldScalar, KanaAt;
    assert out[i..] == e + later;
    Shifted(out, i, e + later);
    MoveOn(out, i, e, later);
    Sequences.ConcatAssociates(out[..i], e, Encode(Fold(t[1..])));
  }

  lemma {:induction false} KanaPair(c: scalar, b1: byte, b2: byte)
    requires 0x30A1 <= c <= 0x30F6 && b1 == 0x80 + (c - 0x60) / 64 % 64 && b2 == 0x80 + (c - 0x60) % 64
    ensures |EncodeScalar(c)| == 3 && EncodeScalar(FoldScalar(c)) == [0xE3, b1, b2]
  {
    KanaBytes(c);
    KanaBytes(c - 0x60);
  }

  lemma {:induction false} Shifted(out: seq<byte>, i: nat, s: seq<byte>)
    requires i <= |out| && out[i..] == s
    ensures KanaAt(out, i) <==> KanaAt(s, 0)
    ensures KanaAt(out, i) ==> out[i + 1] == s[1] && out[i + 2] == s[2]
  {
    assert forall k :: 0 <= k < |s| ==> s[k] == out[i + k];
  }

  /** The bytes written over a katakana are the ones of its hiragana. */
  lemma {:induction false} Rewritten(out: seq<byte>, i: nat, folded: seq<byte>, c: Cursor, b1: byte, b2: byte)
    requires At(out, i, folded, c) && c.mid == [] && c.rest != [] && KanaAt(out, i)
    requires var code := KanaCode(out[i + 1], out[i + 2]) - 0x60; b1 == 0x80 + code / 64 % 64 && b2 == 0x80 + code % 64
    ensures At(out[i + 1 := b1][i + 2 := b2], i + 3, folded, Cursor([], c.rest[1..]))
  {
    hide EncodeScalar, Encode, Fold, FoldScalar, KanaCode;
    var t := c.rest;
    assert out[i..] == Encode(t);
    Shifted(out, i, Encode(t));
    KanaFirst(t);
    FoldFirst(t);
    DropFirst(t);
    KanaPair(t[0], b1, b2);
    assert out[i + 3..] == Encode(t)[3..];
    RewrittenBytes(out, i, b1, b2);
    assert folded == out[..i] + [0xE3, b1, b2] + Encode(Fold(t[1..]));
  }

  lemma {:induction false} RewrittenBytes(out: seq<byte>, i: nat, b1: byte, b2: byte)
    requires i + 2 < |out| && out[i] == 0xE3
    ensures var now := out[i + 1 := b1][i + 2 := b2];
            now[i + 3..] == out[i + 3..] && now[..i + 3] == out[..i] + [0xE3, b1, b2]
  {
  }

  method FoldKatakanaToHiragana(text: seq<byte>) returns (out: seq<byte>)
    ensures |out| == |text|
    ensures WellFormed(text) ==> out == Encode(Fold(Decode(text).value))
  {
    hide WellFormed, Encode, EncodeScalar, Fold, At, KanaAt;
    out := text;
    ghost var wf := WellFormed(text);
    ghost var c := Cursor([], if wf then Decode(text).value else []);
    ghost var folded := Encode(Fold(c.rest));
    if wf { ScanStarts(text, c.rest); }
    var i := 0;
    while i + 2 < |out|
      invariant |out| == |text|
      invariant wf ==> At(out, i, folded, c)
    {
      ghost var found := KanaAt(out, i);
      if wf && c.mid == [] { ScanInside(out, i, folded, c); }
      if wf && c.mid != [] { PassTail(out, i, folded, c); }
      if wf && !found && c.mid == [] { PassOther(out, i, folded, c); }
      KanaTest(out, i);
      var b0, b1, b2 := out[i], out[i + 1], out[i + 2];
      var code := KanaCode(b1, b2);
      if b0 != 0xE3 || (b1 != 0x82 && b1 != 0x83) || !(0x80 <= b2 <= 0xBF) || code < 0x30A1 || code > 0x30F6 {
        if wf {
          c := if c.mid != [] then Cursor(c.mid[1..], c.rest) else Cursor(EncodeScalar(c.rest[0])[1..], c.rest[1..]);
        }
        i := i + 1;
      } else {
        var lower := code - 0x60;
        var n1: byte, n2: byte := 0x80 + lower / 64 % 64, 0x80 + lower % 64;
        if wf {
          Rewritten(out, i, folded, c, n1, n2);
          c := Cursor([], c.rest[1..]);
        }
        out := out[i + 1 := n1][i + 2 := n2];
        i := i + 3;
      }
    }
    if wf { ScanEnds(out, i, folded, c); }
  }

  lemma {:induction false} ScanStarts(text: seq<byte>, t: Text)
    requires Encode(t) == text
    ensures At(text, 0, Encode(Fold(t)), Cursor([], t))
  {
    hide Encode, Fold;
    assert text[0..] == [] + Encode(t);
    assert Encode(Fold(t)) == text[..0] + [] + Encode(Fold(t));
  }

  lemma {:induction false} ScanInside(out: seq<byte>, i: nat, folded: seq<byte>, c: Cursor)
    requires At(out, i, folded, c) && i < |out| && c.mid == []
    ensures c.rest != []
  {
    assert out[i..] != [];
  }

  lemma {:induction false} KanaTest(out: seq<byte>, i: nat)
    requires i + 2 < |out|
    ensures var b1, b2 := out[i + 1], out[i + 2];
            KanaAt(out, i) <==> !(out[i] != 0xE3 || (b1 != 0x82 && b1 != 0x83) || !(0x80 <= b2 <= 0xBF) ||
                                  KanaCode(b1, b2) < 0x30A1 || KanaCode(b1, b2) > 0x30F6)
  {
  }

  lemma {:induction false} ScanEnds(out: seq<byte>, i: nat, folded: seq<byte>, c: Cursor)
    requires At(out, i, folded, c) && |out| <= i + 2
    ensures out == folded
  {
    hide EncodeScalar;
    assert |out[i..]| <= 2;
    ShortFold(c.rest);
    assert out == out[..i] + out[i..];
  }

  // ----- The dialog's input -----

  datatype InputError = NoError | EmptyReading | EmptyWord

  datatype UserWordInput = UserWordInput(reading: seq<byte>, word: seq<byte>, error: InputError)

  predicate OnlySpaces(t: Text) { forall i :: 0 <= i < |t| ==> IsSpace(t[i]) }

  /**
    The input the dialog sends, on well-formed fields: the reading trimmed and folded, the word
    trimmed, both well formed, and an error exactly when a field holds nothing but spaces.
   */
  method NormalizeUserWordInput(reading: seq<byte>, word: seq<byte>) returns (input: UserWordInput)
    ensures WellFormed(reading) ==> input.reading == Encode(Fold(Trim(Decode(reading).value)))
    ensures WellFormed(word) ==> input.word == Encode(Trim(Decode(word).value))
    ensures input.error == EmptyReading <==> input.reading == []
    ensures input.error == EmptyWord <==> input.reading != [] && input.word == []
    ensures WellFormed(reading) ==> (input.error == EmptyReading <==> OnlySpaces(Decode(reading).value))
    ensures WellFormed(reading) && WellFormed(word) && input.error != EmptyReading ==>
              (input.error == EmptyWord <==> OnlySpaces(Decode(word).value))
  {
    hide WellFormed, Encode, Fold;
    var trimmed := TrimSpaces(reading);
    var folded := FoldKatakanaToHiragana(trimmed);
    var other := TrimSpaces(word);
    if WellFormed(reading) {
      var t := Decode(reading).value;
      DecodeEncode(Trim(t));
      NothingLeft(t);
    }
    if WellFormed(word) { NothingLeft(Decode(word).value); }
    var error := if folded == [] then EmptyReading else if other == [] then EmptyWord else NoError;
    input := UserWordInput(folded, other, error);
  }

  /** Trimming empties a text exactly when it is all spaces. */
  lemma {:induction false} NothingLeft(t: Text)
    ensures Encode(Trim(t)) == [] <==> OnlySpaces(t)
    ensures Encode(Fold(Trim(t))) == [] <==> OnlySpaces(t)
  {
    hide EncodeScalar;
    var a, b := TrimMeans(t);
  }

  /** Sending a normalised reading through the dialog again changes nothing. */
  method NormalizeTwice(reading: seq<byte>, word: seq<byte>) returns (once: UserWordInput, twice: UserWordInput)
    requires WellFormed(reading) && WellFormed(word)
    ensures once == twice
  {
    hide WellFormed, Encode, Fold;
    once := NormalizeUserWordInput(reading, word);
    twice := NormalizeUserWordInput(once.reading, once.word);
    var t, u := Decode(reading).value, Decode(word).value;
    DecodeEncode(Fold(Trim(t)));
    DecodeEncode(Trim(u));
    ReadingIdempotent(t);
    TrimIdempotent(u);
  }
}
