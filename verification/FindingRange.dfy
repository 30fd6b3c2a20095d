/**
  Ranges of a proofread text in UTF-16 code units (section 2 of RFC 2781): a local look at the two
  units around each end decides whether the range is made of whole characters.
 */
module FindingRange {
  import opened Utf8

  type unit16 = u: int | 0 <= u < 0x10000

  predicate High(u: unit16) { 0xD800 <= u <= 0xDBFF }

  predicate Low(u: unit16) { 0xDC00 <= u <= 0xDFFF }

  // ----- The encoding -----

  function Units(c: scalar): (r: seq<unit16>)
    ensures |r| == 1 ==> !High(r[0]) && !Low(r[0])
    ensures |r| == 2 ==> High(r[0]) && Low(r[1])
    ensures |r| == 1 || |r| == 2
  {
    if c < 0x10000 then
      var u: unit16 := c;
      [u]
    else
      var high: unit16, low: unit16 := 0xD800 + (c - 0x10000) / 1024, 0xDC00 + (c - 0x10000) % 1024;
      [high, low]
  }

  function Encode16(text: seq<scalar>): seq<unit16>
  {
    if text == [] then [] else Units(text[0]) + Encode16(text[1..])
  }

  /** Where character `k` starts. */
  function Start(text: seq<scalar>, k: nat): nat
    requires k <= |text|
  {
    |Encode16(text[..k])|
  }

  // ----- Boundaries -----

  /** The position does not part the two halves of a pair. */
  predicate Whole(units: seq<unit16>, i: nat)
    requires i <= |units|
  {
    !(0 < i < |units| && High(units[i - 1]) && Low(units[i]))
  }

  lemma {:induction false} EncodeConcat16(a: seq<scalar>, b: seq<scalar>)
    ensures Encode16(a + b) == Encode16(a) + Encode16(b)
    decreases |a|
  {
    hide Units;
    if a == [] {
      assert a + b == b;
    } else {
      EncodeConcat16(a[1..], b);
      assert (a + b)[0] == a[0] && (a + b)[1..] == a[1..] + b;
      assert Encode16(a + b) == Units(a[0]) + (Encode16(a[1..]) + Encode16(b));
    }
  }

  ghost predicate IsBoundary(text: seq<scalar>, i: nat) { exists k :: 0 <= k <= |text| && Start(text, k) == i }

  lemma {:induction false} StartShift(text: seq<scalar>, k: nat)
    requires text != [] && k < |text|
    ensures Start(text, k + 1) == |Units(text[0])| + Start(text[1..], k)
  {
    hide Units;
    assert text[..k + 1][1..] == text[1..][..k] && text[..k + 1][0] == text[0];
  }

  lemma {:induction false} BoundaryShift(text: seq<scalar>, i: nat)
    requires text != []
    ensures IsBoundary(text, i) <==> i == 0 || (i >= |Units(text[0])| && IsBoundary(text[1..], i - |Units(text[0])|))
  {
    hide Units;
    assert text[..0] == [] && Start(text, 0) == 0;
    if k :| 0 < k <= |text| && Start(text, k) == i { StartShift(text, k - 1); }
    var n := |Units(text[0])|;
    if i >= n {
      if k :| 0 <= k <= |text[1..]| && Start(text[1..], k) == i - n {
        StartShift(text, k);
        assert Start(text, k + 1) == i;
      }
    }
  }

  /** In well-formed text the local test finds exactly the character boundaries. */
  lemma {:induction false} WholeIsBoundary(text: seq<scalar>, i: nat)
    requires i <= |Encode16(text)|
    ensures Whole(Encode16(text), i) <==> IsBoundary(text, i)
    decreases |text|
  {
    var units := Encode16(text);
    if text == [] {
      assert text[..0] == [] && Start(text, 0) == 0;
    } else {
      var first, rest := Units(text[0]), Encode16(text[1..]);
      BoundaryShift(text, i);
      assert units == first + rest;
      if i > |first| {
        assert units[i - 1] == rest[i - |first| - 1] && (i < |units| ==> units[i] == rest[i - |first|]);
      }
      if i >= |first| { WholeIsBoundary(text[1..], i - |first|); }
    }
  }

  // ----- Ranges -----

  predicate IsValidFindingRange(units: seq<unit16>, start: nat, length: nat)
  {
    if length == 0 then false
    else if start + length > |units| then false
    else if start > 0 && High(units[start - 1]) && Low(units[start]) then false
    else if start + length < |units| && High(units[start + length - 1]) && Low(units[start + length]) then false
    else true
  }

  /** The accepted ranges are the nonempty ranges of whole characters. */
  lemma {:induction false} ValidIsCharacterRange(text: seq<scalar>, start: nat, length: nat)
    ensures IsValidFindingRange(Encode16(text), start, length) <==>
            length > 0 && IsBoundary(text, start) && IsBoundary(text, start + length)
  {
    hide Encode16;
    var n := |Encode16(text)|;
    if start + length <= n {
      WholeIsBoundary(text, start);
      WholeIsBoundary(text, start + length);
    } else {
      BoundaryInside(text, start + length);
    }
  }

  lemma {:induction false} BoundaryInside(text: seq<scalar>, i: nat)
    ensures IsBoundary(text, i) ==> i <= |Encode16(text)|
  {
    if k :| 0 <= k <= |text| && Start(text, k) == i {
      EncodeConcat16(text[..k], text[k..]);
      assert text == text[..k] + text[k..];
    }
  }

  // ----- Excerpts -----

  const DOTS: seq<unit16> := [0x2E, 0x2E, 0x2E]

  /** The units kept of a range that is longer than the limit. */
  method Cut(units: seq<unit16>, start: nat, length: nat, maxUnits: nat) returns (cut: nat)
    requires start + length <= |units| && maxUnits < length
    ensures cut == if maxUnits > 0 && High(units[start + maxUnits - 1]) then maxUnits - 1 else maxUnits
  {
    cut := maxUnits;
    if cut > 0 && High(units[start + cut - 1]) { cut := cut - 1; }
  }

  method FindingExcerpt(units: seq<unit16>, start: nat, length: nat, maxUnits: nat) returns (r: Option<seq<unit16>>)
    ensures r.Some? <==> IsValidFindingRange(units, start, length)
    ensures r.Some? && length <= maxUnits ==> r.value == units[start..start + length]
    ensures r.Some? && length > maxUnits ==>
      r.value == units[start..start + Kept(units, start, maxUnits)] + [0x2E, 0x2E, 0x2E]
  {
    if !IsValidFindingRange(units, start, length) { return None; }
    if length <= maxUnits { return Some(units[start..start + length]); }
    var cut := Cut(units, start, length, maxUnits);
    return Some(units[start..start + cut] + DOTS);
  }

  function Kept(units: seq<unit16>, start: nat, maxUnits: nat): (cut: nat)
    requires start + maxUnits <= |units|
    ensures cut <= maxUnits
  {
    if maxUnits > 0 && High(units[start + maxUnits - 1]) then maxUnits - 1 else maxUnits
  }

  /** In encoded text a high half is always followed by its low half. */
  lemma {:induction false} HighThenLow(text: seq<scalar>, i: nat)
    requires i < |Encode16(text)| && High(Encode16(text)[i])
    ensures i + 1 < |Encode16(text)| && Low(Encode16(text)[i + 1])
    decreases |text|
  {
    var units := Encode16(text);
    var first, rest := Units(text[0]), Encode16(text[1..]);
    assert units == first + rest;
    if i >= |first| {
      assert units[i] == rest[i - |first|];
      HighThenLow(text[1..], i - |first|);
      assert units[i + 1] == rest[i - |first| + 1];
    }
  }

  /** The kept text is made of whole characters, within the limit, and no longer one would be. */
  lemma {:induction false} KeptIsLongestWhole(text: seq<scalar>, start: nat, length: nat, maxUnits: nat)
    requires IsValidFindingRange(Encode16(text), start, length) && maxUnits < length
    ensures var cut := Kept(Encode16(text), start, maxUnits);
            cut <= maxUnits && IsBoundary(text, start + cut) &&
            forall j :: start + cut < j <= start + maxUnits ==> !IsBoundary(text, j)
  {
    hide Encode16, Units;
    var units := Encode16(text);
    var cut := Kept(units, start, maxUnits);
    if maxUnits > 0 && High(units[start + maxUnits - 1]) {
      HighThenLow(text, start + maxUnits - 1);
      WholeIsBoundary(text, start + maxUnits);
    }
    ValidIsCharacterRange(text, start, length);
    WholeIsBoundary(text, start + cut);
    if cut == 0 { assert start + cut == start; }
  }

  /** Between two boundaries lie whole characters. */
  lemma {:induction false} BoundariesEncode(text: seq<scalar>, a: nat, b: nat)
    requires a <= b <= |text|
    ensures Start(text, a) <= Start(text, b) <= |Encode16(text)|
    ensures Encode16(text)[Start(text, a)..Start(text, b)] == Encode16(text[a..b])
  {
    hide Units;
    EncodeConcat16(text[..a], text[a..b]);
    EncodeConcat16(text[..b], text[b..]);
    assert text[..b] == text[..a] + text[a..b] && text == text[..b] + text[b..];
  }
}
