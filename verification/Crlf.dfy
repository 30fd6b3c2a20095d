/**
  The line-ending normalisation in front of the dataset hash: the file arrives in chunks of any
  size, and a carriage return at the edge of a chunk is held back until the next byte is known.
 */
module Crlf {
  import opened Utf8
  import Sequences

  const CR: byte := 0x0D
  const LF: byte := 0x0A

  /** The whole file with each CR LF pair replaced by LF. */
  function Normalized(s: seq<byte>): seq<byte>
  {
    if s == [] then []
    else if |s| >= 2 && s[0] == CR && s[1] == LF then [LF] + Normalized(s[2..])
    else [s[0]] + Normalized(s[1..])
  }

  function Flatten(chunks: seq<seq<byte>>): seq<byte>
  {
    if chunks == [] then [] else Flatten(chunks[..|chunks| - 1]) + chunks[|chunks| - 1]
  }

  predicate EndsInCr(s: seq<byte>) { s != [] && s[|s| - 1] == CR }

  /** The normalised text without a final carriage return that may yet pair with a line feed. */
  function Settled(s: seq<byte>): seq<byte>
  {
    var n := Normalized(s);
    if EndsInCr(s) && n != [] then n[..|n| - 1] else n
  }

  lemma {:induction false} Unfold(s: seq<byte>)
    ensures Normalized(s) ==
            if s == [] then []
            else if |s| >= 2 && s[0] == CR && s[1] == LF then [LF] + Normalized(s[2..])
            else [s[0]] + Normalized(s[1..])
  {
  }

  /** A cut that does not part a pair can be normalised on both sides. */
  lemma {:induction false} NormalizedConcat(x: seq<byte>, y: seq<byte>)
    requires y == [] || y[0] != LF || !EndsInCr(x)
    ensures Normalized(x + y) == Normalized(x) + Normalized(y)
    decreases |x|
  {
    hide Normalized;
    var z := x + y;
    Unfold(x);
    Unfold(z);
    if x == [] {
      assert z == y;
    } else if |x| >= 2 && x[0] == CR && x[1] == LF {
      NormalizedConcat(x[2..], y);
      Sequences.ConcatDrop(x, y, 2);
      Sequences.ConcatAssociates([LF], Normalized(x[2..]), Normalized(y));
    } else {
      NormalizedConcat(x[1..], y);
      Sequences.ConcatDrop(x, y, 1);
      assert |z| >= 2 ==> z[1] == if |x| >= 2 then x[1] else y[0];
      Sequences.ConcatAssociates([x[0]], Normalized(x[1..]), Normalized(y));
    }
  }

  lemma {:induction false} SmallCases()
    ensures Normalized([CR, LF]) == [LF]
    ensures forall b: byte :: Normalized([b]) == [b]
  {
    assert Normalized([CR, LF]) == [LF] + Normalized([CR, LF][2..]) && [CR, LF][2..] == [];
    forall b: byte ensures Normalized([b]) == [b] { assert [b][1..] == []; }
  }

  /** One more byte either completes a pair or is appended. */
  lemma {:induction false} NextByte(s: seq<byte>, b: byte)
    ensures Normalized(s + [b]) == if EndsInCr(s) && b == LF then Settled(s) + [LF] else Normalized(s) + [b]
    ensures EndsInCr(s) ==> Normalized(s) == Settled(s) + [CR]
  {
    hide Normalized;
    SmallCases();
    if EndsInCr(s) {
      var x := s[..|s| - 1];
      assert s == x + [CR] && s + [LF] == x + [CR, LF];
      NormalizedConcat(x, [CR]);
      NormalizedConcat(x, [CR, LF]);
    }
    if !EndsInCr(s) || b != LF { NormalizedConcat(s, [b]); }
  }

  /** What is settled by one more byte. */
  lemma {:induction false} NextSettled(s: seq<byte>, b: byte)
    ensures EndsInCr(s + [b]) == (b == CR)
    ensures Settled(s + [b]) ==
            if b == CR then (if EndsInCr(s) then Settled(s) + [CR] else Settled(s))
            else if EndsInCr(s) && b != LF then Settled(s) + [CR] + [b] else Settled(s) + [b]
  {
    hide Normalized;
    NextByte(s, b);
  }

  /** What one buffer contributes: the bytes to hash, and whether a carriage return is pending. */
  method NormalizeChunk(chunk: seq<byte>, pending0: bool,
                        ghost earlier: seq<byte>) returns (out: seq<byte>, pending: bool)
    requires pending0 == EndsInCr(earlier)
    ensures pending == EndsInCr(earlier + chunk)
    ensures Settled(earlier) + out == Settled(earlier + chunk)
  {
    hide Settled;
    out, pending := [], pending0;
    ghost var seen := earlier;
    assert earlier + chunk[..0] == earlier;
    for index := 0 to |chunk|
      invariant seen == earlier + chunk[..index]
      invariant pending == EndsInCr(seen) && Settled(earlier) + out == Settled(seen)
    {
      var octet := chunk[index];
      NextSettled(seen, octet);
      assert earlier + chunk[..index + 1] == seen + [octet];
      seen := seen + [octet];
      if pending {
        if octet == LF {
          out, pending := out + [LF], false;
          continue;
        }
        out, pending := out + [CR], false;
      }
      if octet == CR { pending := true; } else { out := out + [octet]; }
    }
    assert chunk[..|chunk|] == chunk;
  }

  /** Everything handed to the hash after the prefix, for any way of cutting the file into chunks. */
  method HashInput(chunks: seq<seq<byte>>, normalize: bool) returns (out: seq<byte>)
    ensures out == if normalize then Normalized(Flatten(chunks)) else Flatten(chunks)
  {
    out := [];
    var pending := false;
    assert chunks[..0] == [];
    for i := 0 to |chunks|
      invariant normalize ==> pending == EndsInCr(Flatten(chunks[..i])) && out == Settled(Flatten(chunks[..i]))
      invariant !normalize ==> !pending && out == Flatten(chunks[..i])
    {
      assert chunks[..i + 1][..i] == chunks[..i];
      if chunks[i] == [] {
        assert Flatten(chunks[..i]) + [] == Flatten(chunks[..i]);
        continue;
      }
      if !normalize {
        out := out + chunks[i];
        continue;
      }
      var part;
      part, pending := NormalizeChunk(chunks[i], pending, Flatten(chunks[..i]));
      out := out + part;
    }
    assert chunks[..|chunks|] == chunks;
    NextByte(Flatten(chunks), 0);
    if pending { out := out + [CR]; }
  }

  // ----- When normalising once is enough -----

  predicate PairAt(s: seq<byte>, i: nat) { i + 1 < |s| && s[i] == CR && s[i + 1] == LF }

  predicate TripleAt(s: seq<byte>, i: nat) { i + 2 < |s| && s[i] == CR && s[i + 1] == CR && s[i + 2] == LF }

  ghost predicate HasPair(s: seq<byte>) { exists i: nat :: PairAt(s, i) }

  /** A carriage return right before a pair. */
  ghost predicate HasTriple(s: seq<byte>) { exists i: nat :: TripleAt(s, i) }

  lemma {:induction false} PairStep(s: seq<byte>)
    requires s != []
    ensures HasPair(s) <==> PairAt(s, 0) || HasPair(s[1..])
  {
    if i: nat :| PairAt(s, i) { assert i > 0 ==> PairAt(s[1..], i - 1); }
    if i: nat :| PairAt(s[1..], i) { assert PairAt(s, i + 1); }
  }

  lemma {:induction false} TripleStep(s: seq<byte>)
    requires s != []
    ensures HasTriple(s) <==> TripleAt(s, 0) || HasTriple(s[1..])
  {
    if i: nat :| TripleAt(s, i) { assert i > 0 ==> TripleAt(s[1..], i - 1); }
    if i: nat :| TripleAt(s[1..], i) { assert TripleAt(s, i + 1); }
  }

  /** Text without a pair is left as it is; text with one gets shorter. */
  lemma {:induction false} PairsShorten(s: seq<byte>)
    ensures |Normalized(s)| <= |s|
    ensures if HasPair(s) then |Normalized(s)| < |s| else Normalized(s) == s
    decreases |s|
  {
    hide HasPair, Normalized;
    Unfold(s);
    if s == [] {
      assert !HasPair(s) by { NoPair(s); }
    } else {
      PairStep(s);
      if PairAt(s, 0) {
        PairsShorten(s[2..]);
      } else {
        PairsShorten(s[1..]);
        assert s == [s[0]] + s[1..];
      }
    }
  }

  lemma {:induction false} NoPair(s: seq<byte>)
    requires |s| < 2
    ensures !HasPair(s) && !HasTriple(s)
  {
  }

  lemma {:induction false} FirstByte(t: seq<byte>)
    ensures Normalized(t) != [] && Normalized(t)[0] == LF <==> t != [] && (t[0] == LF || PairAt(t, 0))
  {
  }

  /** Normalising leaves a pair exactly where a carriage return stood right before one. */
  lemma {:induction false} PairsLeft(s: seq<byte>)
    ensures HasPair(Normalized(s)) <==> HasTriple(s)
    decreases |s|
  {
    hide HasPair, HasTriple, Normalized;
    var n := Normalized(s);
    Unfold(s);
    if s == [] {
      NoPair(s);
    } else {
      PairStep(n);
      TripleStep(s);
      if PairAt(s, 0) {
        assert n[1..] == Normalized(s[2..]) && s[1..][1..] == s[2..];
        TripleStep(s[1..]);
        PairsLeft(s[2..]);
      } else {
        assert n[1..] == Normalized(s[1..]);
        FirstByte(s[1..]);
        PairsLeft(s[1..]);
      }
    }
  }

  /** Normalising again changes nothing if and only if no carriage return stands right before a pair. */
  lemma {:induction false} IdempotentExactly(s: seq<byte>)
    ensures Normalized(Normalized(s)) == Normalized(s) <==>
            !(exists i :: 0 <= i && i + 2 < |s| && s[i] == CR && s[i + 1] == CR && s[i + 2] == LF)
  {
    hide Normalized;
    PairsShorten(Normalized(s));
    PairsLeft(s);
    if i :| 0 <= i && i + 2 < |s| && s[i] == CR && s[i + 1] == CR && s[i + 2] == LF { assert TripleAt(s, i); }
    if i: nat :| TripleAt(s, i) { assert s[i] == CR && s[i + 1] == CR && s[i + 2] == LF; }
  }

  /** A witness: a doubled carriage return leaves a pair behind. */
  lemma {:induction false} DoubledCr()
    ensures Normalized([0x0D, 0x0D, 0x0A]) == [0x0D, 0x0A] && Normalized([0x0D, 0x0A]) == [0x0A]
  {
    SmallCases();
    NormalizedConcat([CR], [CR, LF]);
    assert [CR] + [CR, LF] == [CR, CR, LF];
  }
}
