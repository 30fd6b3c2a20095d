/**
  `build`: turns accepted lexicon entries into the tables of an `.azdic` image and packs them.
  The central result is that whatever it packs, `verify` accepts, and that every key of the image
  lists exactly the entries that spell it.
 */
module AzdicBuild {
  import opened Utf8
  import opened Sorting
  import opened Struct
  import opened DoubleArray
  import opened TrieBuilder
  import opened TrieCheck
  import opened Azdic
  import Frame
  import Aliases

  /** One merged lexicon entry. `category` holds positions in the category list. */
  datatype Item = Item(surface: Text, reading: Text, key: Text, pos: Text, cost: int, frequency: real,
                       category: set<nat>)

  /** What loading guarantees of an entry. */
  ghost predicate ItemOk(x: Item)
  {
    && HasText(x.surface) && HasText(x.reading) && x.key == Normalize(x.reading)
    && -32768 <= x.cost <= 32767 && 0.0 <= x.frequency <= 1.0 && forall c :: c in x.category ==> c < 10
  }

  // ----- Packing one field at a time -----

  function Mask(category: set<nat>, n: nat): (m: nat)
    ensures m < Aliases.Pow2(n)
  {
    if n == 0 then 0 else Mask(category, n - 1) + if n - 1 in category then Aliases.Pow2(n - 1) else 0
  }

  lemma {:induction false} TenBits()
    ensures Aliases.Pow2(10) == 1024
  {
    assert Aliases.Pow2(4) == 16 && Aliases.Pow2(7) == 128;
  }

  /** A 16-bit two's complement field. */
  function Signed16(cost: int): nat
    requires -32768 <= cost <= 32767
  {
    if cost >= 0 then cost else cost + 65536
  }

  function Rounded(frequency: real): (n: nat)
    requires 0.0 <= frequency <= 1.0
    ensures n <= 65535
  {
    (frequency * 65535.0 + 0.5).Floor
  }

  const PRIORITY: seq<nat> := [51, 77, 89, 115, 128]

  // ----- The string pool -----

  datatype Pool = Pool(bytes: seq<byte>, ids: map<Text, (nat, nat)>)

  ghost predicate Interned(bytes: seq<byte>, text: Text, at: nat, length: nat)
  {
    at + length <= |bytes| && length == |Encode(text)| && bytes[at..at + length] == Encode(text)
  }

  /** The texts one after another. */
  function Spelled(texts: seq<Text>): seq<byte>
  {
    if texts == [] then [] else Spelled(texts[..|texts| - 1]) + Encode(texts[|texts| - 1])
  }

  function Use(texts: seq<Text>, text: Text): seq<Text> { if text in texts then texts else texts + [text] }

  /** The surfaces and readings of the first `n` entries, each once, in order of first use. */
  function FirstUses(items: seq<Item>, n: nat): seq<Text>
    requires n <= |items|
  {
    if n == 0 then [] else Use(Use(FirstUses(items, n - 1), items[n - 1].surface), items[n - 1].reading)
  }

  /** The pool after the texts were interned: each stands there once, where its number says. */
  ghost predicate PoolOk(p: Pool, texts: seq<Text>)
  {
    p.bytes == Spelled(texts) && (forall t :: t in p.ids <==> t in texts) &&
    forall t :: t in p.ids ==> Interned(p.bytes, t, p.ids[t].0, p.ids[t].1)
  }

  lemma {:induction false} SpelledMore(texts: seq<Text>, text: Text)
    ensures Spelled(texts + [text]) == Spelled(texts) + Encode(text)
  {
    hide Encode;
    assert (texts + [text])[..|texts|] == texts;
  }

  predicate NoneTwice(texts: seq<Text>) { forall i, j :: 0 <= i < j < |texts| ==> texts[i] != texts[j] }

  ghost predicate Occurs(items: seq<Item>, n: nat, t: Text)
    requires n <= |items|
  {
    exists i :: 0 <= i < n && (t == items[i].surface || t == items[i].reading)
  }

  lemma {:induction false} UseMeans(texts: seq<Text>, text: Text)
    requires NoneTwice(texts)
    ensures NoneTwice(Use(texts, text)) && forall t :: t in Use(texts, text) <==> t in texts || t == text
  {
    if text !in texts { assert forall i :: 0 <= i < |texts| ==> texts[i] in texts; }
  }

  /** No text stands in the pool twice, and the texts there are the surfaces and the readings. */
  lemma {:induction false} UsedOnce(items: seq<Item>, n: nat)
    requires n <= |items|
    ensures NoneTwice(FirstUses(items, n)) && forall t :: t in FirstUses(items, n) <==> Occurs(items, n, t)
  {
    hide Use, NoneTwice;
    if n == 0 {
      assert NoneTwice([]) by { NothingTwice(); }
    } else {
      var before, x := FirstUses(items, n - 1), items[n - 1];
      UsedOnce(items, n - 1);
      UseMeans(before, x.surface);
      UseMeans(Use(before, x.surface), x.reading);
      forall t ensures t in FirstUses(items, n) <==> Occurs(items, n, t) {
        assert Occurs(items, n, t) <==> Occurs(items, n - 1, t) || t == x.surface || t == x.reading;
      }
    }
  }

  lemma {:induction false} NothingTwice()
    ensures NoneTwice([])
  {
  }

  lemma {:induction false} InternedKept(a: seq<byte>, b: seq<byte>, text: Text, at: nat, length: nat)
    requires Interned(a, text, at, length) && a <= b
    ensures Interned(b, text, at, length)
  {
    assert b[at..at + length] == a[at..at + length];
  }

  method Intern(p: Pool, text: Text, ghost texts: seq<Text>) returns (q: Pool, at: nat, length: nat)
    requires PoolOk(p, texts)
    ensures PoolOk(q, Use(texts, text)) && p.bytes <= q.bytes && Interned(q.bytes, text, at, length)
  {
    hide Encode, Spelled;
    q := p;
    if text !in p.ids {
      var raw := Encode(text);
      SpelledMore(texts, text);
      q := Pool(p.bytes + raw, p.ids[text := (|p.bytes|, |raw|)]);
      forall t | t in q.ids ensures Interned(q.bytes, t, q.ids[t].0, q.ids[t].1) {
        if t != text { InternedKept(p.bytes, q.bytes, t, p.ids[t].0, p.ids[t].1); }
      }
    }
    at, length := q.ids[text].0, q.ids[text].1;
  }

  /** An interned text passes the string checks. */
  lemma {:induction false} InternedOk(bytes: seq<byte>, text: Text, at: nat, length: nat)
    requires Interned(bytes, text, at, length) && HasText(text)
    ensures StringOk(bytes, at, length) && Decode(bytes[at..at + length]) == Some(text)
  {
    DecodeEncode(text);
    assert Encode(text) != [];
  }

  // ----- Entry records -----

  function PositionOf(positions: seq<Text>, pos: Text): (i: nat)
    requires pos in positions
    ensures i < |positions| && positions[i] == pos
  {
    if positions[0] == pos then 0 else 1 + PositionOf(positions[1..], pos)
  }

  /** The record says what the item says. */
  ghost predicate Records(bytes: seq<byte>, e: Entry, x: Item, layer: nat, positions: seq<Text>)
  {
    && Interned(bytes, x.surface, e.surfaceAt, e.surfaceLength)
    && Interned(bytes, x.reading, e.readingAt, e.readingLength)
    && e.pos < |positions| && positions[e.pos] == x.pos && e.category == Mask(x.category, 10)
    && -32768 <= x.cost <= 32767 && e.cost == Signed16(x.cost)
    && 0.0 <= x.frequency <= 1.0 && e.frequency == Rounded(x.frequency)
    && e.source == layer && layer < 5 && e.priority == PRIORITY[layer] && e.reserved == 0
  }

  // ----- What a record's numbers mean -----

  /** A 16-bit field read as two's complement. */
  function TwosComplement(n: nat): int { if n < 32768 then n else n - 65536 }

  /** `n` is the integer nearest to `x`, the upper one at a tie. */
  predicate Nearest(n: nat, x: real) { n as real <= x + 0.5 < n as real + 1.0 }

  /** The weight of a layer. */
  function LayerWeight(layer: nat): real
  {
    if layer == 0 then 0.20 else if layer == 1 then 0.30 else if layer == 2 then 0.35
    else if layer == 3 then 0.45 else 0.50
  }

  predicate BitSet(mask: nat, c: nat) { (mask / PowerOf2(c)) % 2 == 1 }

  function PowerOf2(n: nat): (p: nat)
    ensures p > 0
  {
    if n == 0 then 1 else 2 * PowerOf2(n - 1)
  }

  /** The record read back: the cost as a signed number, one bit per category, the rounded frequency and weight. */
  ghost predicate Says(e: Entry, x: Item, layer: nat)
  {
    e.cost < 65536 && TwosComplement(e.cost) == x.cost && e.category < 1024 &&
    (forall c :: 0 <= c < 10 ==> (BitSet(e.category, c) <==> c in x.category)) &&
    Nearest(e.frequency, x.frequency * 65535.0) && Nearest(e.priority, 255.0 * LayerWeight(layer))
  }

  lemma {:induction false} SamePower(n: nat)
    ensures PowerOf2(n) == Aliases.Pow2(n)
  {
    if n > 0 { SamePower(n - 1); }
  }

  lemma {:induction false} DivMod(m: nat, p: nat)
    requires p > 0
    ensures m == p * (m / p) + m % p && 0 <= m % p < p
  {
  }

  lemma {:induction false} AtLeastOnce(p: int, x: int)
    requires p > 0 && x >= 1
    ensures p * x >= p
  {
  }

  lemma {:induction false} Distribute(p: int, q: int, s: int)
    ensures p * (q - s) == p * q - p * s && p * (q + s) == p * q + p * s
  {
  }

  /** The quotient is the one that leaves a remainder below the divisor. */
  lemma {:induction false} DivUnique(m: nat, p: nat, q: nat, r: nat)
    requires p > 0 && m == p * q + r && r < p
    ensures m / p == q
  {
    var s := m / p;
    DivMod(m, p);
    Distribute(p, q, s);
    Distribute(p, s, q);
    if q > s { AtLeastOnce(p, q - s); }
    if s > q { AtLeastOnce(p, s - q); }
  }

  lemma {:induction false} DivideSum(m: nat, p: nat, z: nat)
    requires p > 0
    ensures (m + p * z) / p == m / p + z
  {
    DivMod(m, p);
    Distribute(p, m / p, z);
    DivUnique(m + p * z, p, m / p + z, m % p);
  }

  lemma {:induction false} PowerSplit(c: nat, n: nat)
    requires c < n
    ensures PowerOf2(n) == PowerOf2(c) * (2 * PowerOf2(n - 1 - c))
    decreases n
  {
    if c < n - 1 {
      PowerSplit(c, n - 1);
      Regroup(PowerOf2(c), 2 * PowerOf2(n - 2 - c));
    }
  }

  lemma {:induction false} Regroup(p: int, q: int)
    ensures 2 * (p * q) == p * (2 * q)
  {
  }

  /** Adding a higher power of two leaves the lower bits alone. */
  lemma {:induction false} LowerBits(m: nat, n: nat, c: nat)
    requires c < n
    ensures BitSet(m + PowerOf2(n), c) <==> BitSet(m, c)
  {
    hide PowerOf2;
    PowerSplit(c, n);
    var p, q := PowerOf2(c), PowerOf2(n - 1 - c);
    DivideSum(m, p, 2 * q);
    SameParity(m / p, q);
  }

  lemma {:induction false} SameParity(x: int, q: int)
    ensures (x + 2 * q) % 2 == x % 2
  {
  }

  lemma {:induction false} TopBit(m: nat, n: nat)
    requires m < PowerOf2(n)
    ensures !BitSet(m, n) && BitSet(m + PowerOf2(n), n)
  {
    DivUnique(m, PowerOf2(n), 0, m);
    DivUnique(m + PowerOf2(n), PowerOf2(n), 1, m);
  }

  lemma {:induction false} MaskBits(category: set<nat>, n: nat, c: nat)
    requires c < n
    ensures BitSet(Mask(category, n), c) <==> c in category
  {
    hide BitSet, PowerOf2;
    SamePower(n - 1);
    var m := Mask(category, n - 1);
    if c == n - 1 {
      TopBit(m, c);
    } else {
      MaskBits(category, n - 1, c);
      LowerBits(m, n - 1, c);
    }
  }

  lemma {:induction false} WeightsRounded(layer: nat)
    requires layer < 5
    ensures Nearest(PRIORITY[layer], 255.0 * LayerWeight(layer))
  {
  }

  lemma {:induction false} CostSigned(cost: int)
    requires -32768 <= cost <= 32767
    ensures Signed16(cost) < 65536 && TwosComplement(Signed16(cost)) == cost
  {
  }

  lemma {:induction false} FrequencyRounded(frequency: real)
    requires 0.0 <= frequency <= 1.0
    ensures Nearest(Rounded(frequency), frequency * 65535.0)
  {
  }

  /** A record that holds an item's fields says what the item says. */
  lemma {:induction false} RecordSays(bytes: seq<byte>, e: Entry, x: Item, layer: nat, positions: seq<Text>)
    requires Records(bytes, e, x, layer, positions)
    ensures Says(e, x, layer)
  {
    hide Mask, Nearest, Rounded, Signed16, TwosComplement, BitSet, LayerWeight, Interned;
    CostSigned(x.cost);
    FrequencyRounded(x.frequency);
    WeightsRounded(layer);
    TenBits();
    forall c | 0 <= c < 10 ensures BitSet(e.category, c) <==> c in x.category { MaskBits(x.category, 10, c); }
  }

  lemma {:induction false} RecordsKept(a: seq<byte>, b: seq<byte>, e: Entry, x: Item, layer: nat, positions: seq<Text>)
    requires Records(a, e, x, layer, positions) && a <= b
    ensures Records(b, e, x, layer, positions)
  {
    hide Encode;
    InternedKept(a, b, x.surface, e.surfaceAt, e.surfaceLength);
    InternedKept(a, b, x.reading, e.readingAt, e.readingLength);
  }

  method MakeRecord(p: Pool, x: Item, layer: nat, positions: seq<Text>, ghost texts: seq<Text>)
    returns (q: Pool, e: Entry)
    requires PoolOk(p, texts) && ItemOk(x) && layer <= 4 && x.pos in positions
    ensures PoolOk(q, Use(Use(texts, x.surface), x.reading))
    ensures p.bytes <= q.bytes && Records(q.bytes, e, x, layer, positions) && Says(e, x, layer)
  {
    hide Encode, Interned, PoolOk, Mask, Says, Use;
    var a, b, c, d;
    q, a, b := Intern(p, x.surface, texts);
    ghost var middle := q.bytes;
    q, c, d := Intern(q, x.reading, Use(texts, x.surface));
    InternedKept(middle, q.bytes, x.surface, a, b);
    e := Entry(a, b, c, d, PositionOf(positions, x.pos), Mask(x.category, 10), Signed16(x.cost), Rounded(x.frequency),
               layer, PRIORITY[layer], 0);
    RecordSays(q.bytes, e, x, layer, positions);
  }

  /** A record made this way passes the entry checks and reads back as the item. */
  lemma {:induction false} RecordOk(t: Tables, e: Entry, x: Item, positions: seq<Text>)
    requires Records(t.pool, e, x, t.layer, positions) && ItemOk(x) && t.posCount == Some(|positions|)
    ensures EntryOk(t, e) && SurfaceOf(t.pool, e) == Encode(x.surface) && ReadingOf(t.pool, e) == x.key
  {
    hide Encode, Decode;
    TenBits();
    InternedOk(t.pool, x.surface, e.surfaceAt, e.surfaceLength);
    InternedOk(t.pool, x.reading, e.readingAt, e.readingLength);
  }

  // ----- References: which entries a key leads to -----

  function KindOf(x: Item, key: Text): nat { if key == x.key then 0 else 1 }

  /** The entries among the first `n` that spell the key, in order. */
  ghost function RefList(items: seq<Item>, key: Text, n: nat): (r: seq<Ref>)
    requires n <= |items|
    ensures forall i :: 0 <= i < |r| ==>
      r[i].entry < n && r[i].reserved == 0 && r[i].kind == KindOf(items[r[i].entry], key)
    ensures forall i :: 0 <= i < |r| ==> key in Aliases.AliasSet(items[r[i].entry].key)
  {
    if n == 0 then []
    else RefList(items, key, n - 1) +
         if key in Aliases.AliasSet(items[n - 1].key) then [Ref(n - 1, KindOf(items[n - 1], key), 0)] else []
  }

  /** Every key with a nonempty list is in the dictionary, with that list. */
  ghost predicate References(items: seq<Item>, n: nat, refs: map<Text, seq<Ref>>)
    requires n <= |items|
  {
    && (forall key :: key in refs ==> refs[key] == RefList(items, key, n) && refs[key] != [])
    && (forall key :: key !in refs ==> RefList(items, key, n) == [])
  }

  /** The dictionary while the aliases of entry `n` are being added: those in `done` are in. */
  ghost predicate Adding(items: seq<Item>, n: nat, done: set<Text>, refs: map<Text, seq<Ref>>)
    requires n < |items|
  {
    && (forall key :: key in refs <==> RefList(items, key, n) != [] || key in done)
    && (forall key :: key in refs ==>
          refs[key] == RefList(items, key, n) + if key in done then [Ref(n, KindOf(items[n], key), 0)] else [])
  }

  lemma {:induction false} AddingOne(items: seq<Item>, n: nat, done: set<Text>, refs: map<Text, seq<Ref>>, key: Text)
    requires n < |items| && Adding(items, n, done, refs) && key !in done
    ensures Adding(items, n, done + {key},
                   refs[key := (if key in refs then refs[key] else []) + [Ref(n, KindOf(items[n], key), 0)]])
  {
    hide RefList;
    var more := refs[key := (if key in refs then refs[key] else []) + [Ref(n, KindOf(items[n], key), 0)]];
    forall k | k in more
      ensures more[k] == RefList(items, k, n) + if k in done + {key} then [Ref(n, KindOf(items[n], k), 0)] else []
    {
    }
  }

  lemma {:induction false} AddingDone(items: seq<Item>, n: nat, refs: map<Text, seq<Ref>>)
    requires n < |items| && Adding(items, n, Aliases.AliasSet(items[n].key), refs)
    ensures References(items, n + 1, refs)
  {
    forall key | key in refs ensures refs[key] == RefList(items, key, n + 1) && refs[key] != [] {
      assert RefList(items, key, n) + [] == RefList(items, key, n);
    }
  }

  /** Adds one entry under each of its aliases. */
  method AddEntry(items: seq<Item>, n: nat, refs0: map<Text, seq<Ref>>) returns (refs: map<Text, seq<Ref>>)
    requires n < |items| && References(items, n, refs0)
    ensures References(items, n + 1, refs)
  {
    hide RefList, Aliases.AliasSet;
    var spellings := Aliases.Aliases(items[n].key);
    refs := refs0;
    ghost var done: set<Text> := {};
    assert Adding(items, n, done, refs) by {
      forall key | key in refs ensures refs[key] == RefList(items, key, n) + [] {
        assert RefList(items, key, n) + [] == RefList(items, key, n);
      }
    }
    for i := 0 to |spellings|
      invariant done == set j | 0 <= j < i :: spellings[j]
      invariant Adding(items, n, done, refs)
    {
      var key := spellings[i];
      assert key !in done by { NotYet(spellings, i); }
      AddingOne(items, n, done, refs, key);
      refs := refs[key := (if key in refs then refs[key] else []) + [Ref(n, KindOf(items[n], key), 0)]];
      done := done + {key};
    }
    assert done == Aliases.AliasSet(items[n].key);
    AddingDone(items, n, refs);
  }

  /** An ascending list repeats nothing. */
  lemma {:induction false} NotYet(r: seq<Text>, i: nat)
    requires Ascending(r) && i < |r|
    ensures forall j :: 0 <= j < i ==> r[j] != r[i]
  {
    forall j | 0 <= j < i ensures r[j] != r[i] { LessAsymmetric(r[j], r[i]); }
  }

  // ----- Laying the lists out -----

  ghost predicate LaidRefs(keys: seq<Text>, records: seq<KeyRecord>, refs: seq<Ref>, lists: map<Text, seq<Ref>>, k: nat)
    requires k < |keys| && k < |records|
  {
    keys[k] in lists && records[k].length == |lists[keys[k]]| && records[k].offset + records[k].length <= |refs| &&
    refs[records[k].offset..records[k].offset + records[k].length] == lists[keys[k]]
  }

  /** The lists of the keys one after another, with nothing between them. */
  ghost predicate Contiguous(records: seq<KeyRecord>, size: nat)
  {
    (forall k :: 0 <= k < |records| ==>
      records[k].offset == if k == 0 then 0 else records[k - 1].offset + records[k - 1].length) &&
    size == if records == [] then 0 else records[|records| - 1].offset + records[|records| - 1].length
  }

  method LayRefs(keys: seq<Text>, lists: map<Text, seq<Ref>>) returns (records: seq<KeyRecord>, refs: seq<Ref>)
    requires forall k :: 0 <= k < |keys| ==> keys[k] in lists
    ensures Contiguous(records, |refs|)
    ensures |records| == |keys| && forall k :: 0 <= k < |keys| ==> LaidRefs(keys, records, refs, lists, k)
    ensures forall r :: r in refs ==> exists k :: 0 <= k < |keys| && r in lists[keys[k]]
  {
    records, refs := [], [];
    for i := 0 to |keys|
      invariant |records| == i && Contiguous(records, |refs|)
      invariant forall k :: 0 <= k < i ==> LaidRefs(keys, records, refs, lists, k)
      invariant forall r :: r in refs ==> exists k :: 0 <= k < i && r in lists[keys[k]]
    {
      var list := lists[keys[i]];
      var more, longer := records + [KeyRecord(|refs|, |list|)], refs + list;
      forall k | 0 <= k < i + 1 ensures LaidRefs(keys, more, longer, lists, k) {
        if k < i {
          assert LaidRefs(keys, records, refs, lists, k) && more[k] == records[k];
          assert longer[more[k].offset..more[k].offset + more[k].length] ==
                 refs[more[k].offset..more[k].offset + more[k].length];
        }
      }
      records, refs := more, longer;
    }
  }

  // ----- The surface index -----

  /** Indices in ascending (surface, index) order. */
  ghost predicate Ordered(surfaces: seq<seq<byte>>, order: seq<nat>)
  {
    (forall i :: 0 <= i < |order| ==> order[i] < |surfaces|) &&
    forall i, j :: 0 <= i < j < |order| ==> Before(surfaces, order[i], order[j])
  }

  lemma {:induction false} BeforeTransitive(surfaces: seq<seq<byte>>, a: nat, b: nat, c: nat)
    requires a < |surfaces| && b < |surfaces| && c < |surfaces| && Before(surfaces, a, b) && Before(surfaces, b, c)
    ensures Before(surfaces, a, c)
  {
    if Less(surfaces[a], surfaces[b]) && Less(surfaces[b], surfaces[c]) {
      LessTransitive(surfaces[a], surfaces[b], surfaces[c]);
    }
  }

  /** Places one more index: `sorted` by (surface bytes, index), one step of it. */
  method InsertIndex(surfaces: seq<seq<byte>>, order: seq<nat>, x: nat) returns (r: seq<nat>)
    requires Ordered(surfaces, order) && x < |surfaces| && x !in order
    ensures Ordered(surfaces, r) && |r| == |order| + 1 && forall y :: y in r <==> y == x || y in order
  {
    hide Less;
    var at := |order|;
    while at > 0 && Before(surfaces, x, order[at - 1])
      invariant 0 <= at <= |order|
      invariant forall j :: at <= j < |order| ==> Before(surfaces, x, order[j])
    {
      at := at - 1;
    }
    if at > 0 {
      var y := order[at - 1];
      LessTotal(surfaces[x], surfaces[y]);
      forall i | 0 <= i < at ensures Before(surfaces, order[i], x) {
        if i < at - 1 { BeforeTransitive(surfaces, order[i], y, x); }
      }
    }
    r := order[..at] + [x] + order[at..];
  }

  method SortBySurface(surfaces: seq<seq<byte>>) returns (order: seq<nat>)
    ensures IndexOk(surfaces, order)
  {
    order := [];
    for x := 0 to |surfaces|
      invariant Ordered(surfaces, order) && |order| == x && forall y :: y in order ==> y < x
    {
      order := InsertIndex(surfaces, order, x);
    }
  }

  // ----- Keys are sound texts -----

  lemma {:induction false} EncodeNulFree(t: Text)
    ensures NulFree(Encode(t)) <==> 0 !in t
  {
    if t != [] {
      EncodeNulFree(t[1..]);
      ScalarNul(t[0]);
      var a, b := EncodeScalar(t[0]), Encode(t[1..]);
      assert NulFree(a + b) <==> NulFree(a) && NulFree(b) by {
        assert forall i :: 0 <= i < |a| ==> (a + b)[i] == a[i];
        assert forall i :: 0 <= i < |b| ==> (a + b)[|a| + i] == b[i];
      }
      assert 0 in t <==> t[0] == 0 || 0 in t[1..];
    }
  }

  lemma {:induction false} ScalarNul(c: scalar)
    ensures NulFree(EncodeScalar(c)) <==> c != 0
  {
  }

  lemma {:induction false} CanonNul(t: Text)
    ensures (0 in Aliases.Canon(t) <==> 0 in t) && (Aliases.Canon(t) == [] <==> t == [])
    decreases |t|
  {
    if t != [] {
      if Aliases.StartsWithVa(t) {
        CanonNul(t[2..]);
        assert t == [t[0], t[1]] + t[2..];
      } else {
        CanonNul(t[1..]);
        assert t == [t[0]] + t[1..];
      }
    }
  }

  /** An alias of a sound text is sound. */
  lemma {:induction false} AliasHasText(a: Text, b: Text)
    requires HasText(a) && b in Aliases.AliasSet(a)
    ensures HasText(b)
  {
    if Aliases.Occurrences(a) <= 3 {
      Aliases.AliasMeaning(a, b);
      CanonNul(a);
      CanonNul(b);
    }
  }

  lemma {:induction false} GoodTexts(texts: seq<Text>)
    requires Ascending(texts) && |texts| <= NONE && forall k :: 0 <= k < |texts| ==> HasText(texts[k])
    ensures GoodKeys(EncodeAll(texts))
  {
    hide Encode, Less;
    var keys := EncodeAll(texts);
    forall i, j | 0 <= i < j < |keys| ensures Less(keys[i], keys[j]) { EncodeKeepsOrder(texts[i], texts[j]); }
    forall k | 0 <= k < |keys| ensures keys[k] != [] && NulFree(keys[k]) {
      EncodeNulFree(texts[k]);
      NonemptyEncoding(texts[k]);
    }
  }

  lemma {:induction false} NonemptyEncoding(t: Text)
    requires t != []
    ensures Encode(t) != []
  {
  }

  // ----- The built tables -----

  /** What the tables hold when `build` is done. */
  ghost predicate Built(t: Tables, texts: seq<Text>, items: seq<Item>, positions: seq<Text>)
  {
    && t.layer <= 4 && |t.entries| == |items| && t.posCount == Some(|positions|)
    && |texts| == t.keyCount && |texts| <= NONE && |t.keys| == |texts| && Ascending(texts)
    && (forall i :: 0 <= i < |items| ==> Records(t.pool, t.entries[i], items[i], t.layer, positions))
    && (forall key :: key in texts <==> RefList(items, key, |items|) != [])
    && (forall k :: 0 <= k < |texts| ==> Lists(t, items, texts[k], t.keys[k]))
    && (forall r :: r in t.refs ==> r.entry < |items| && r.kind <= 1 && r.reserved == 0)
    && Indexes(t.nodes, EncodeAll(texts))
    && t.surfaceIndex.Some? && IndexOk(Surfaces(t), t.surfaceIndex.value)
  }

  /** A key record's references are exactly the entries that spell the key. */
  ghost predicate Lists(t: Tables, items: seq<Item>, key: Text, record: KeyRecord)
  {
    record.offset + record.length <= |t.refs| &&
    t.refs[record.offset..record.offset + record.length] == RefList(items, key, |items|)
  }

  lemma {:induction false} KeyHasText(items: seq<Item>, key: Text)
    requires (forall i :: 0 <= i < |items| ==> ItemOk(items[i])) && RefList(items, key, |items|) != []
    ensures HasText(key)
  {
    var list := RefList(items, key, |items|);
    var x := items[list[0].entry];
    NormalizeMeans(x.reading);
    AliasHasText(x.key, key);
  }

  lemma {:induction false} EntryReadsBack(t: Tables, texts: seq<Text>, items: seq<Item>, positions: seq<Text>, i: nat)
    requires Built(t, texts, items, positions) && i < |items| && ItemOk(items[i])
    ensures EntryOk(t, t.entries[i]) && Readings(t)[i] == items[i].key && Surfaces(t)[i] == Encode(items[i].surface)
  {
    hide Encode, Decode, RefList, Indexes, IndexOk;
    assert Records(t.pool, t.entries[i], items[i], t.layer, positions);
    RecordOk(t, t.entries[i], items[i], positions);
  }

  lemma {:induction false} KeyListMatches(t: Tables, texts: seq<Text>, items: seq<Item>, positions: seq<Text>, k: nat)
    requires Built(t, texts, items, positions) && k < |texts| && forall i :: 0 <= i < |items| ==> ItemOk(items[i])
    ensures KeyRecordOk(t, t.keys[k])
    ensures KeyMatches(Readings(t), texts[k], t.refs[t.keys[k].offset..t.keys[k].offset + t.keys[k].length])
  {
    hide Indexes, IndexOk, Records, Aliases.AliasSet;
    var list := RefList(items, texts[k], |items|);
    assert Lists(t, items, texts[k], t.keys[k]) && texts[k] in texts;
    forall i | 0 <= i < |list|
      ensures list[i].entry < |items| && RefMatches(Readings(t)[list[i].entry], texts[k], list[i].kind)
    {
      EntryReadsBack(t, texts, items, positions, list[i].entry);
    }
  }

  /** The trie needs children below the slot numbered like "no parent", which the format cannot express. */
  ghost predicate Crowded(nodes: seq<Node>, keys: seq<seq<byte>>)
  {
    exists word :: IndexedBy(nodes, word, keys) && !Roomy(nodes, word)
  }

  lemma {:induction false} BuiltKeys(t: Tables, texts: seq<Text>, items: seq<Item>, positions: seq<Text>)
    requires Built(t, texts, items, positions) && forall i :: 0 <= i < |items| ==> ItemOk(items[i])
    ensures GoodKeys(EncodeAll(texts))
  {
    hide Records, RefList, IndexOk, Indexes, GoodKeys, Lists, HasText;
    forall k | 0 <= k < |texts| ensures HasText(texts[k]) {
      assert texts[k] in texts;
      KeyHasText(items, texts[k]);
    }
    GoodTexts(texts);
  }

  lemma {:induction false} BuiltTrie(t: Tables, texts: seq<Text>, items: seq<Item>, positions: seq<Text>)
    requires Built(t, texts, items, positions) && forall i :: 0 <= i < |items| ==> ItemOk(items[i])
    requires !Crowded(t.nodes, EncodeAll(texts))
    ensures TrieAccepted(t.nodes, texts)
  {
    BuiltKeys(t, texts, items, positions);
    hide Records, RefList, IndexOk, TrieAccepted, GoodKeys, IndexedBy, Lists, Roomy, Surfaces;
    var word :| IndexedBy(t.nodes, word, EncodeAll(texts));
    BuiltAcceptedExactly(t.nodes, word, texts);
  }

  lemma {:induction false} CrowdedTrie(nodes: seq<Node>, keys: seq<seq<byte>>, texts: seq<Text>)
    requires Crowded(nodes, keys) && |texts| == |keys|
    ensures !TrieAccepted(nodes, texts) && |nodes| > NONE
  {
    hide TrieAccepted, IsEdge, HasKey, Tight, Blank;
    var word :| IndexedBy(nodes, word, keys) && !Roomy(nodes, word);
    var c :| c in word && c != 0 && nodes[c].parent == NONE;
    CrowdedRejected(nodes, word, keys, texts, c);
    EdgeLeads(nodes, word, c);
  }

  lemma {:induction false} BuiltEntries(t: Tables, texts: seq<Text>, items: seq<Item>, positions: seq<Text>)
    requires Built(t, texts, items, positions) && forall i :: 0 <= i < |items| ==> ItemOk(items[i])
    ensures EntriesOk(t)
  {
    hide Records, RefList, IndexOk, Indexes, Lists, EntryOk;
    forall i | 0 <= i < |t.entries| ensures EntryOk(t, t.entries[i]) {
      EntryReadsBack(t, texts, items, positions, i);
    }
  }

  lemma {:induction false} BuiltRefs(t: Tables, texts: seq<Text>, items: seq<Item>, positions: seq<Text>)
    requires Built(t, texts, items, positions) && forall i :: 0 <= i < |items| ==> ItemOk(items[i])
    ensures RefsOk(t) && RefsMatch(t, Readings(t), texts)
  {
    hide Records, RefList, IndexOk, Indexes, Lists, KeyMatches, ItemOk;
    forall k | 0 <= k < |t.keys|
      ensures KeyRecordOk(t, t.keys[k]) &&
              KeyMatches(Readings(t), texts[k], t.refs[t.keys[k].offset..t.keys[k].offset + t.keys[k].length])
    {
      KeyListMatches(t, texts, items, positions, k);
    }
    forall i | 0 <= i < |t.refs| ensures RefOk(t, t.refs[i]) { assert t.refs[i] in t.refs; }
  }

  /** Verifier completeness on tables: what `build` makes passes every check. */
  lemma {:induction false} BuiltAccepted(t: Tables, texts: seq<Text>, items: seq<Item>, positions: seq<Text>)
    requires Built(t, texts, items, positions) && forall i :: 0 <= i < |items| ==> ItemOk(items[i])
    requires !Crowded(t.nodes, EncodeAll(texts))
    ensures TablesOk(t, texts)
  {
    BuiltTrie(t, texts, items, positions);
    BuiltEntries(t, texts, items, positions);
    BuiltRefs(t, texts, items, positions);
    hide Crowded, Records, RefList, IndexOk, Indexes, Lists, TrieAccepted, EntriesOk, RefsOk, RefsMatch, ItemOk;
  }

  // ----- Tables as bytes -----

  function NodeFields(x: Node): seq<nat>
  {
    [x.base, x.parent, x.key, x.depth]
  }

  function NodeRecords(xs: seq<Node>): (r: seq<seq<nat>>)
    ensures |r| == |xs| && forall i :: 0 <= i < |r| ==> r[i] == NodeFields(xs[i])
  {
    seq(|xs|, i requires 0 <= i < |xs| => NodeFields(xs[i]))
  }

  function KeyFields(x: KeyRecord): seq<nat>
  {
    [x.offset, x.length]
  }

  function KeyRecords(xs: seq<KeyRecord>): (r: seq<seq<nat>>)
    ensures |r| == |xs| && forall i :: 0 <= i < |r| ==> r[i] == KeyFields(xs[i])
  {
    seq(|xs|, i requires 0 <= i < |xs| => KeyFields(xs[i]))
  }

  function RefFields(x: Ref): seq<nat>
  {
    [x.entry, x.kind, x.reserved]
  }

  function RefRecords(xs: seq<Ref>): (r: seq<seq<nat>>)
    ensures |r| == |xs| && forall i :: 0 <= i < |r| ==> r[i] == RefFields(xs[i])
  {
    seq(|xs|, i requires 0 <= i < |xs| => RefFields(xs[i]))
  }

  function EntryFields(x: Entry): seq<nat>
  {
    [x.surfaceAt, x.surfaceLength, x.readingAt, x.readingLength, x.pos, x.category, x.cost, x.frequency, x.source,
     x.priority, x.reserved]
  }

  function EntryRecords(xs: seq<Entry>): (r: seq<seq<nat>>)
    ensures |r| == |xs| && forall i :: 0 <= i < |r| ==> r[i] == EntryFields(xs[i])
  {
    seq(|xs|, i requires 0 <= i < |xs| => EntryFields(xs[i]))
  }

  function IndexRecords(xs: seq<nat>): (r: seq<seq<nat>>)
    ensures |r| == |xs| && forall i :: 0 <= i < |r| ==> r[i] == [xs[i]]
  {
    seq(|xs|, i requires 0 <= i < |xs| => [xs[i]])
  }

  /** Every record fits its format; packing raises otherwise. */
  predicate AllFit(records: seq<seq<nat>>, widths: seq<nat>)
  {
    forall i :: 0 <= i < |records| ==> |records[i]| == |widths| && Fits(records[i], widths)
  }

  function PackFit(records: seq<seq<nat>>, widths: seq<nat>): seq<byte>
  {
    if AllFit(records, widths) then PackAll(records, widths) else []
  }

  lemma {:induction false} BackAgain(records: seq<seq<nat>>, widths: seq<nat>)
    requires AllFit(records, widths)
    ensures |PackAll(records, widths)| == |records| * Size(widths)
    ensures UnpackAll(PackAll(records, widths), widths, |records|) == records
  {
    UnpackPackAll(records, widths);
  }

  lemma {:induction false} NodesBack(xs: seq<Node>)
    requires AllFit(NodeRecords(xs), NODE)
    ensures var s := PackFit(NodeRecords(xs), NODE); |s| == 16 * |xs| && ReadNodes(s, |xs|) == xs
  {
    hide Fits, Pack, PackAll, UnpackAll, Unpack, Size;
    RecordSizes();
    BackAgain(NodeRecords(xs), NODE);
    var s := PackFit(NodeRecords(xs), NODE);
    forall i | 0 <= i < |xs| ensures ReadNodes(s, |xs|)[i] == xs[i] {
      assert NodeRecords(xs)[i] == NodeFields(xs[i]);
    }
  }

  lemma {:induction false} KeysBack(xs: seq<KeyRecord>)
    requires AllFit(KeyRecords(xs), KEY)
    ensures var s := PackFit(KeyRecords(xs), KEY); |s| == 8 * |xs| && ReadKeys(s, |xs|) == xs
  {
    hide Fits, Pack, PackAll, UnpackAll, Unpack, Size;
    RecordSizes();
    BackAgain(KeyRecords(xs), KEY);
    var s := PackFit(KeyRecords(xs), KEY);
    forall i | 0 <= i < |xs| ensures ReadKeys(s, |xs|)[i] == xs[i] {
      assert KeyRecords(xs)[i] == KeyFields(xs[i]);
    }
  }

  lemma {:induction false} RefsBack(xs: seq<Ref>)
    requires AllFit(RefRecords(xs), REF)
    ensures var s := PackFit(RefRecords(xs), REF); |s| == 8 * |xs| && ReadRefs(s, |xs|) == xs
  {
    hide Fits, Pack, PackAll, UnpackAll, Unpack, Size;
    RecordSizes();
    BackAgain(RefRecords(xs), REF);
    var s := PackFit(RefRecords(xs), REF);
    forall i | 0 <= i < |xs| ensures ReadRefs(s, |xs|)[i] == xs[i] {
      assert RefRecords(xs)[i] == RefFields(xs[i]);
    }
  }

  lemma {:induction false} EntrysBack(xs: seq<Entry>)
    requires AllFit(EntryRecords(xs), ENTRY)
    ensures var s := PackFit(EntryRecords(xs), ENTRY); |s| == 32 * |xs| && ReadEntries(s, |xs|) == xs
  {
    hide Fits, Pack, PackAll, UnpackAll, Unpack, Size;
    RecordSizes();
    BackAgain(EntryRecords(xs), ENTRY);
    var s := PackFit(EntryRecords(xs), ENTRY);
    forall i | 0 <= i < |xs| ensures ReadEntries(s, |xs|)[i] == xs[i] {
      assert EntryRecords(xs)[i] == EntryFields(xs[i]);
    }
  }

  lemma {:induction false} IndexBack(xs: seq<nat>)
    requires AllFit(IndexRecords(xs), INDEX)
    ensures var s := PackFit(IndexRecords(xs), INDEX); |s| == 4 * |xs| && ReadIndex(s, |xs|) == xs
  {
    hide Fits, Pack, PackAll, UnpackAll, Unpack, Size;
    RecordSizes();
    BackAgain(IndexRecords(xs), INDEX);
  }

  predicate TablesFit(t: Tables)
    requires t.surfaceIndex.Some?
  {
    AllFit(NodeRecords(t.nodes), NODE) && AllFit(KeyRecords(t.keys), KEY) && AllFit(RefRecords(t.refs), REF) &&
    AllFit(EntryRecords(t.entries), ENTRY) && AllFit(IndexRecords(t.surfaceIndex.value), INDEX)
  }

  function NameAt(i: nat): nat
  {
    if i == 0 then Frame.TRIE else if i == 1 then Frame.KEYS
    else if i == 2 then Frame.EIDX else if i == 3 then Frame.ENTS
    else if i == 4 then Frame.STRS else if i == 5 then Frame.SIDX else Frame.META
  }

  /** The seven sections in the order they are written. */
  function Sections(t: Tables, meta: seq<byte>): (r: seq<(nat, seq<byte>)>)
    requires t.surfaceIndex.Some?
    ensures |r| == 7
  {
    [(Frame.TRIE, PackFit(NodeRecords(t.nodes), NODE)), (Frame.KEYS, PackFit(KeyRecords(t.keys), KEY)),
     (Frame.EIDX, PackFit(RefRecords(t.refs), REF)), (Frame.ENTS, PackFit(EntryRecords(t.entries), ENTRY)),
     (Frame.STRS, t.pool), (Frame.SIDX, PackFit(IndexRecords(t.surfaceIndex.value), INDEX)), (Frame.META, meta)]
  }

  lemma {:induction false} SectionNames(t: Tables, meta: seq<byte>)
    requires t.surfaceIndex.Some?
    ensures Frame.DistinctNames(Sections(t, meta))
  {
    hide PackFit;
    var s := Sections(t, meta);
    assert s[0].0 == NameAt(0) && s[1].0 == NameAt(1) && s[2].0 == NameAt(2) && s[3].0 == NameAt(3);
    assert s[4].0 == NameAt(4) && s[5].0 == NameAt(5) && s[6].0 == NameAt(6);
    DistinctSeven(s);
  }

  /** The sections are written in this order. */
  lemma {:induction false} SectionOrder(t: Tables, meta: seq<byte>)
    requires t.surfaceIndex.Some?
    ensures var s := Sections(t, meta);
            s[0].0 == 0x45495254 && s[1].0 == 0x5359454B && s[2].0 == 0x58444945 && s[3].0 == 0x53544E45 &&
            s[4].0 == 0x53525453 && s[5].0 == 0x58444953 && s[6].0 == 0x4154454D &&
            s[4].1 == t.pool && s[6].1 == meta
  {
    hide PackFit;
  }

  lemma {:induction false} DistinctSeven(s: seq<(nat, seq<byte>)>)
    requires |s| == 7 && forall i :: 0 <= i < 7 ==> s[i].0 == NameAt(i)
    ensures Frame.DistinctNames(s)
  {
    forall i, j | 0 <= i < j < 7 ensures s[i].0 != s[j].0 { assert NameAt(i) != NameAt(j); }
  }

  /** The sections by name. */
  ghost predicate Reads(t: Tables, meta: seq<byte>, m: map<nat, seq<byte>>)
    requires t.surfaceIndex.Some?
  {
    && SectionsPresent(m) && Frame.SIDX in m
    && m[Frame.TRIE] == PackFit(NodeRecords(t.nodes), NODE) && m[Frame.KEYS] == PackFit(KeyRecords(t.keys), KEY)
    && m[Frame.EIDX] == PackFit(RefRecords(t.refs), REF) && m[Frame.ENTS] == PackFit(EntryRecords(t.entries), ENTRY)
    && m[Frame.STRS] == t.pool && m[Frame.SIDX] == PackFit(IndexRecords(t.surfaceIndex.value), INDEX)
    && m[Frame.META] == meta
  }

  lemma {:induction false} SectionsRead(t: Tables, meta: seq<byte>, m: map<nat, seq<byte>>)
    requires t.surfaceIndex.Some?
    requires forall i :: 0 <= i < 7 ==>
      Sections(t, meta)[i].0 in m && m[Sections(t, meta)[i].0] == Sections(t, meta)[i].1
    ensures Reads(t, meta, m)
  {
    hide PackFit;
    var s := Sections(t, meta);
    assert s[0].0 in m && m[s[0].0] == s[0].1;
    assert s[1].0 in m && m[s[1].0] == s[1].1;
    assert s[2].0 in m && m[s[2].0] == s[2].1;
    assert s[3].0 in m && m[s[3].0] == s[3].1;
    assert s[4].0 in m && m[s[4].0] == s[4].1;
    assert s[5].0 in m && m[s[5].0] == s[5].1;
    assert s[6].0 in m && m[s[6].0] == s[6].1;
  }

  /** The sections decode to the tables they were made from. */
  lemma {:induction false} SectionsDecode(t: Tables, meta: seq<byte>, h: Frame.Header, m: map<nat, seq<byte>>,
                                          parse: seq<byte> -> Meta)
    requires t.surfaceIndex.Some? && TablesFit(t) && parse(meta) == Json(t.posCount)
    requires |t.keys| == t.keyCount && |t.surfaceIndex.value| == |t.entries|
    requires h.layer == t.layer && h.keyCount == t.keyCount && h.count == |t.entries|
    requires Reads(t, meta, m)
    ensures TablesOf(h, m, parse) == Some(t)
  {
    hide AllFit, PackFit, ReadNodes, ReadKeys, ReadRefs, ReadEntries, ReadIndex;
    NodesBack(t.nodes);
    KeysBack(t.keys);
    RefsBack(t.refs);
    EntrysBack(t.entries);
    IndexBack(t.surfaceIndex.value);
  }

  /** A packed image reads back as the tables it was packed from. */
  lemma {:induction false} PackedDecodes(image: seq<byte>, t: Tables, meta: seq<byte>, parse: seq<byte> -> Meta,
                                         m: map<nat, seq<byte>>)
    requires t.surfaceIndex.Some? && TablesFit(t) && parse(meta) == Json(t.posCount) && t.layer <= 4
    requires |t.keys| == t.keyCount && |t.surfaceIndex.value| == |t.entries|
    requires Frame.Packed(image, Sections(t, meta), t.layer, |t.entries|, t.keyCount)
    requires Frame.Holds(image, Frame.Rows(image, Frame.HeaderOf(image).sectionCount), m)
    ensures TablesOf(Frame.HeaderOf(image), m, parse) == Some(t)
  {
    hide TablesFit, TablesOf, Frame.Holds, Frame.Rows, Frame.LaidOut;
    SectionNames(t, meta);
    Frame.PackedReadsBack(image, Sections(t, meta), t.layer, |t.entries|, t.keyCount, m);
    SectionsRead(t, meta, m);
    SectionsDecode(t, meta, Frame.HeaderOf(image), m, parse);
  }

  lemma {:induction false} PackedHolds(image: seq<byte>, t: Tables, texts: seq<Text>, items: seq<Item>,
                                       positions: seq<Text>, meta: seq<byte>, parse: seq<byte> -> Meta)
    requires Built(t, texts, items, positions) && forall i :: 0 <= i < |items| ==> ItemOk(items[i])
    requires TablesFit(t) && parse(meta) == Json(Some(|positions|))
    requires Frame.Packed(image, Sections(t, meta), t.layer, |t.entries|, t.keyCount)
    requires !Crowded(t.nodes, EncodeAll(texts))
    ensures ImageHolds(image, parse, t, texts)
  {
    BuiltAccepted(t, texts, items, positions);
    BuiltParts(t, texts, items, positions);
    hide TablesOk, TablesFit, ImageHolds, Frame.Packed, Built, ItemOk, Sections, Crowded;
    PackedTables(image, t, texts, meta, parse);
  }

  /** A packed image of sound tables holds them. */
  lemma {:induction false} PackedTables(image: seq<byte>, t: Tables, texts: seq<Text>, meta: seq<byte>,
                                        parse: seq<byte> -> Meta)
    requires TablesOk(t, texts) && t.surfaceIndex.Some? && TablesFit(t) && parse(meta) == Json(t.posCount) &&
             t.layer <= 4
    requires |t.keys| == t.keyCount && |t.surfaceIndex.value| == |t.entries|
    requires Frame.Packed(image, Sections(t, meta), t.layer, |t.entries|, t.keyCount)
    ensures ImageHolds(image, parse, t, texts)
  {
    hide TablesOk, TablesFit, TablesOf, Frame.Holds, Frame.Rows, Frame.LaidOut, Sections;
    SectionNames(t, meta);
    Frame.PackedFrameOk(image, Sections(t, meta), t.layer, |t.entries|, t.keyCount);
    PackedDecodes(image, t, meta, parse, Frame.SectionMap(image));
  }

  lemma {:induction false} PackedRefused(image: seq<byte>, t: Tables, texts: seq<Text>, items: seq<Item>,
                                         positions: seq<Text>, meta: seq<byte>, parse: seq<byte> -> Meta)
    requires Built(t, texts, items, positions) && forall i :: 0 <= i < |items| ==> ItemOk(items[i])
    requires TablesFit(t) && parse(meta) == Json(Some(|positions|))
    requires Frame.Packed(image, Sections(t, meta), t.layer, |t.entries|, t.keyCount)
    requires Crowded(t.nodes, EncodeAll(texts))
    ensures !ImageOk(image, parse)
  {
    BuiltParts(t, texts, items, positions);
    hide TablesOk, TablesFit, TablesOf, Frame.Holds, Frame.Rows, Frame.LaidOut, Built, ItemOk, Sections;
    hide Crowded, Frame.FrameOk;
    forall t2, texts2 ensures !ImageHolds(image, parse, t2, texts2) {
      if ImageHolds(image, parse, t2, texts2) {
        var m :| Frame.Holds(image, Frame.Rows(image, Frame.HeaderOf(image).sectionCount), m) &&
                 TablesOf(Frame.HeaderOf(image), m, parse) == Some(t2);
        PackedDecodes(image, t, meta, parse, m);
        CrowdedTables(t, texts, texts2);
      }
    }
  }

  /**
    Verifier completeness on bytes: a packed image of built tables is accepted if and only if the trie is not
    crowded.
   */
  lemma {:induction false} PackedAccepted(image: seq<byte>, t: Tables, texts: seq<Text>, items: seq<Item>,
                                          positions: seq<Text>, meta: seq<byte>, parse: seq<byte> -> Meta)
    requires Built(t, texts, items, positions) && forall i :: 0 <= i < |items| ==> ItemOk(items[i])
    requires TablesFit(t) && parse(meta) == Json(Some(|positions|))
    requires Frame.Packed(image, Sections(t, meta), t.layer, |t.entries|, t.keyCount)
    ensures ImageOk(image, parse) <==> !Crowded(t.nodes, EncodeAll(texts))
    ensures !Crowded(t.nodes, EncodeAll(texts)) ==> ImageHolds(image, parse, t, texts)
  {
    hide TablesFit, Frame.Packed, ImageHolds, Built, ItemOk, Sections, Crowded;
    if Crowded(t.nodes, EncodeAll(texts)) {
      PackedRefused(image, t, texts, items, positions, meta, parse);
    } else {
      PackedHolds(image, t, texts, items, positions, meta, parse);
    }
  }

  lemma {:induction false} BuiltParts(t: Tables, texts: seq<Text>, items: seq<Item>, positions: seq<Text>)
    requires Built(t, texts, items, positions)
    ensures t.layer <= 4 && |t.keys| == t.keyCount == |texts| && t.posCount == Some(|positions|)
    ensures t.surfaceIndex.Some? && |t.surfaceIndex.value| == |t.entries| == |items|
  {
    hide Records, RefList, Lists, Indexes, IndexOk, Surfaces, Ascending;
    IndexSize(t);
  }

  lemma {:induction false} IndexSize(t: Tables)
    requires t.surfaceIndex.Some? && IndexOk(Surfaces(t), t.surfaceIndex.value)
    ensures |t.surfaceIndex.value| == |t.entries|
  {
  }

  lemma {:induction false} CrowdedTables(t: Tables, texts: seq<Text>, other: seq<Text>)
    requires Crowded(t.nodes, EncodeAll(texts)) && |texts| == t.keyCount
    ensures !TablesOk(t, other)
  {
    hide Crowded, TrieAccepted, EntriesOk, RefsOk, RefsMatch, IndexOk;
    if |other| == |texts| { CrowdedTrie(t.nodes, EncodeAll(texts), other); }
  }

  // ----- The builder -----

  /** Part-of-speech names in order; one placeholder when there are no entries. */
  method Positions(items: seq<Item>) returns (positions: seq<Text>)
    ensures items == [] ==> positions == [UNKNOWN] == [[0x75, 0x6E, 0x6B, 0x6E, 0x6F, 0x77, 0x6E]]
    ensures items != [] ==> SortedList(positions, set i | 0 <= i < |items| :: items[i].pos)
  {
    var all := set i | 0 <= i < |items| :: items[i].pos;
    positions := SortTexts(all);
    assert positions != [] ==> positions[0] in positions;
    assert items != [] ==> items[0].pos in all;
    if positions == [] { positions := [UNKNOWN]; }
  }

  /** The text "unknown". */
  const UNKNOWN: Text := [0x75, 0x6E, 0x6B, 0x6E, 0x6F, 0x77, 0x6E]

  lemma {:induction false} PositionListed(items: seq<Item>, positions: seq<Text>)
    requires items != [] ==> SortedList(positions, set i | 0 <= i < |items| :: items[i].pos)
    ensures forall i :: 0 <= i < |items| ==> items[i].pos in positions
  {
    forall i | 0 <= i < |items| ensures items[i].pos in positions {
      assert items[i].pos in (set j | 0 <= j < |items| :: items[j].pos);
    }
  }

  /** The entry loop: records, string pool and references grow together. */
  method Collect(items: seq<Item>, layer: nat, positions: seq<Text>)
    returns (pool: seq<byte>, entries: seq<Entry>, lists: map<Text, seq<Ref>>)
    requires layer <= 4 && forall i :: 0 <= i < |items| ==> ItemOk(items[i]) && items[i].pos in positions
    ensures |entries| == |items| && forall i :: 0 <= i < |items| ==>
      Records(pool, entries[i], items[i], layer, positions)
    ensures References(items, |items|, lists) && pool == Spelled(FirstUses(items, |items|))
  {
    hide Records, ItemOk, RefList, Use, PoolOk, Spelled, References;
    var p := Pool([], map[]);
    entries, lists := [], map[];
    NoReferences(items);
    NothingInterned();
    for i := 0 to |items|
      invariant PoolOk(p, FirstUses(items, i)) && |entries| == i && References(items, i, lists)
      invariant forall j :: 0 <= j < i ==> Records(p.bytes, entries[j], items[j], layer, positions)
    {
      ghost var before := p.bytes;
      var e;
      p, e := MakeRecord(p, items[i], layer, positions, FirstUses(items, i));
      forall j | 0 <= j < i ensures Records(p.bytes, entries[j], items[j], layer, positions) {
        RecordsKept(before, p.bytes, entries[j], items[j], layer, positions);
      }
      entries := entries + [e];
      lists := AddEntry(items, i, lists);
    }
    pool := p.bytes;
    PoolSpelled(p, FirstUses(items, |items|));
  }

  lemma {:induction false} NothingInterned()
    ensures PoolOk(Pool([], map[]), [])
  {
  }

  lemma {:induction false} PoolSpelled(p: Pool, texts: seq<Text>)
    requires PoolOk(p, texts)
    ensures p.bytes == Spelled(texts)
  {
    hide Spelled;
  }

  lemma {:induction false} NoReferences(items: seq<Item>)
    ensures References(items, 0, map[])
  {
  }

  lemma {:induction false} ListedRefs(items: seq<Item>, key: Text, r: Ref)
    requires r in RefList(items, key, |items|)
    ensures r.entry < |items| && r.kind <= 1 && r.reserved == 0
  {
    var list := RefList(items, key, |items|);
    var i :| 0 <= i < |list| && list[i] == r;
  }

  /** The keys of the image: every spelling of every entry's reading, in order. */
  ghost predicate KeyList(texts: seq<Text>, items: seq<Item>)
  {
    Ascending(texts) && forall key :: key in texts <==> RefList(items, key, |items|) != []
  }

  /** What `build` ends with: an image, or the limit that was exceeded. */
  datatype Outcome =
    | Image(bytes: seq<byte>)
    | TooManyPositions(positions: seq<Text>)
    | TooManyKeys(texts: seq<Text>)
    | Unfit(tables: Tables, texts: seq<Text>, positions: seq<Text>)
    | Refused(tables: Tables, texts: seq<Text>, positions: seq<Text>)

  /** Nothing superfluous: each text once in the pool, no gap between references, no slot after the last one. */
  ghost predicate Compact(t: Tables, texts: seq<Text>, items: seq<Item>)
  {
    t.pool == Spelled(FirstUses(items, |items|)) && Contiguous(t.keys, |t.refs|) && Trimmed(t.nodes, EncodeAll(texts))
  }

  /** The parts of speech in order, or the one text "unknown" when there is no entry. */
  ghost predicate PositionTable(positions: seq<Text>, items: seq<Item>)
  {
    if items == [] then positions == [[0x75, 0x6E, 0x6B, 0x6E, 0x6F, 0x77, 0x6E]]
    else SortedList(positions, set i | 0 <= i < |items| :: items[i].pos)
  }

  /** The tables `build` makes of the entries for a layer. */
  ghost predicate Made(t: Tables, texts: seq<Text>, items: seq<Item>, layer: nat, positions: seq<Text>)
  {
    Built(t, texts, items, positions) && Compact(t, texts, items) && t.layer == layer &&
    PositionTable(positions, items) && t.surfaceIndex.Some?
  }

  /** Everything but the packing. */
  method MakeTables(items: seq<Item>, layer: nat, positions: seq<Text>) returns (r: Option<Tables>, texts: seq<Text>)
    requires layer <= 4 && forall i :: 0 <= i < |items| ==> ItemOk(items[i]) && items[i].pos in positions
    ensures KeyList(texts, items)
    ensures r.Some? ==> Built(r.value, texts, items, positions) && r.value.layer == layer &&
                        Compact(r.value, texts, items)
    ensures r.Some? ==> |r.value.nodes| <= 257 + 512 * Letters(EncodeAll(texts), 0, |texts|, 0)
    ensures r.None? ==> |texts| > NONE
  {
    hide Records, ItemOk, Indexes, Encode, Less, RefList, Letters, Trimmed, Contiguous, Spelled;
    var pool, entries, lists := Collect(items, layer, positions);
    texts := SortTexts(lists.Keys);
    if |texts| > NONE { return None, texts; }
    forall k | 0 <= k < |texts| ensures texts[k] in lists { assert texts[k] in texts; }
    var keys, refs := LayRefs(texts, lists);
    assert GoodKeys(EncodeAll(texts)) by {
      forall k | 0 <= k < |texts| ensures HasText(texts[k]) {
        assert texts[k] in lists;
        KeyHasText(items, texts[k]);
      }
      GoodTexts(texts);
    }
    var nodes := MakeTrie(EncodeAll(texts));
    var t := Tables(layer, |texts|, nodes, keys, refs, entries, pool, None, Some(|positions|));
    var order := SortBySurface(Surfaces(t));
    t := t.(surfaceIndex := Some(order));
    Finished(t, texts, items, positions, lists);
    return Some(t), texts;
  }

  lemma {:induction false} Finished(t: Tables, texts: seq<Text>, items: seq<Item>, positions: seq<Text>,
                                    lists: map<Text, seq<Ref>>)
    requires t.layer <= 4 && |t.entries| == |items| && t.posCount == Some(|positions|)
    requires |texts| == t.keyCount && |texts| <= NONE && |t.keys| == |texts| && SortedList(texts, lists.Keys)
    requires forall i :: 0 <= i < |items| ==> Records(t.pool, t.entries[i], items[i], t.layer, positions)
    requires References(items, |items|, lists)
    requires forall k :: 0 <= k < |texts| ==> LaidRefs(texts, t.keys, t.refs, lists, k)
    requires forall r :: r in t.refs ==> exists k :: 0 <= k < |texts| && texts[k] in lists && r in lists[texts[k]]
    requires Indexes(t.nodes, EncodeAll(texts))
    requires t.surfaceIndex.Some? && IndexOk(Surfaces(t), t.surfaceIndex.value)
    ensures Built(t, texts, items, positions)
  {
    hide Records, Indexes, IndexOk, RefList, Surfaces, LaidRefs, Lists;
    forall k | 0 <= k < |texts| ensures Lists(t, items, texts[k], t.keys[k]) {
      assert texts[k] in texts;
      LaidMeansLists(t, texts, items, lists, k);
    }
    RefsAreListed(t, texts, items, lists);
    forall key ensures key in texts <==> RefList(items, key, |items|) != [] {
      assert key in texts <==> key in lists;
    }
  }

  lemma {:induction false} LaidMeansLists(t: Tables, texts: seq<Text>, items: seq<Item>, lists: map<Text, seq<Ref>>,
                                          k: nat)
    requires k < |texts| && |t.keys| == |texts| && texts[k] in lists && References(items, |items|, lists)
    requires LaidRefs(texts, t.keys, t.refs, lists, k)
    ensures Lists(t, items, texts[k], t.keys[k])
  {
    hide RefList;
  }

  lemma {:induction false} RefsAreListed(t: Tables, texts: seq<Text>, items: seq<Item>, lists: map<Text, seq<Ref>>)
    requires References(items, |items|, lists)
    requires forall r :: r in t.refs ==> exists k :: 0 <= k < |texts| && texts[k] in lists && r in lists[texts[k]]
    ensures forall r :: r in t.refs ==> r.entry < |items| && r.kind <= 1 && r.reserved == 0
  {
    hide RefList;
    forall r | r in t.refs ensures r.entry < |items| && r.kind <= 1 && r.reserved == 0 {
      var k :| 0 <= k < |texts| && texts[k] in lists && r in lists[texts[k]];
      ListedRefs(items, texts[k], r);
    }
  }

  /** The dictionary an image is: accepted tables that answer for exactly these entries, as they were packed. */
  ghost predicate Compiles(image: seq<byte>, items: seq<Item>, layer: nat, dump: seq<Text> -> seq<byte>,
                           parse: seq<byte> -> Meta)
  {
    exists t, texts, positions :: ImageHolds(image, parse, t, texts) && Made(t, texts, items, layer, positions) &&
      Frame.Packed(image, Sections(t, dump(positions)), layer, |items|, |texts|)
  }

  /** The outcome tells the truth about the entries. */
  ghost predicate Truthful(o: Outcome, items: seq<Item>, layer: nat, dump: seq<Text> -> seq<byte>,
                           parse: seq<byte> -> Meta)
  {
    match o
    case Image(bytes) => Compiles(bytes, items, layer, dump, parse)
    case TooManyPositions(p) => |p| > 65536 && PositionTable(p, items)
    case TooManyKeys(texts) => |texts| > NONE && KeyList(texts, items)
    case Unfit(t, texts, p) =>
      Made(t, texts, items, layer, p) &&
      (!TablesFit(t) || !Frame.Packable(Sections(t, dump(p)), layer, |items|, |texts|))
    case Refused(t, texts, p) =>
      Made(t, texts, items, layer, p) && Crowded(t.nodes, EncodeAll(texts)) &&
      257 + 512 * Letters(EncodeAll(texts), 0, |texts|, 0) > NONE
  }

  /**
    `build` after loading. `dump` and `parse` are the JSON library: what is dumped parses back with
    its part-of-speech table. The closing `verify` of the image fails only for a crowded trie.
   */
  method Build(items: seq<Item>, layer: nat, dump: seq<Text> -> seq<byte>,
               parse: seq<byte> -> Meta) returns (o: Outcome)
    requires layer <= 4 && forall i :: 0 <= i < |items| ==> ItemOk(items[i])
    requires forall positions :: parse(dump(positions)) == Json(Some(|positions|))
    ensures Truthful(o, items, layer, dump, parse)
  {
    hide ItemOk, Built, KeyList, Truthful, Compact;
    var positions := Positions(items);
    if |positions| > 65536 {
      ManyPositions(items, positions, layer, dump, parse);
      return TooManyPositions(positions);
    }
    PositionListed(items, positions);
    var made, texts := MakeTables(items, layer, positions);
    if made.None? {
      assert Truthful(TooManyKeys(texts), items, layer, dump, parse) by { ManyKeys(items, texts, layer, dump, parse); }
      return TooManyKeys(texts);
    }
    BuiltParts(made.value, texts, items, positions);
    o := PackTables(items, layer, made.value, texts, positions, dump, parse);
  }

  lemma {:induction false} ManyPositions(items: seq<Item>, positions: seq<Text>, layer: nat,
                                         dump: seq<Text> -> seq<byte>, parse: seq<byte> -> Meta)
    requires |positions| > 65536 && PositionTable(positions, items)
    ensures Truthful(TooManyPositions(positions), items, layer, dump, parse)
  {
    hide PositionTable;
  }

  lemma {:induction false} ManyKeys(items: seq<Item>, texts: seq<Text>, layer: nat, dump: seq<Text> -> seq<byte>,
                                    parse: seq<byte> -> Meta)
    requires |texts| > NONE && KeyList(texts, items)
    ensures Truthful(TooManyKeys(texts), items, layer, dump, parse)
  {
    hide KeyList;
  }

  /** `pack` and the closing `verify`. */
  method PackTables(items: seq<Item>, layer: nat, t: Tables, texts: seq<Text>, positions: seq<Text>,
                    dump: seq<Text> -> seq<byte>, parse: seq<byte> -> Meta) returns (o: Outcome)
    requires Made(t, texts, items, layer, positions) && forall i :: 0 <= i < |items| ==> ItemOk(items[i])
    requires |t.nodes| <= 257 + 512 * Letters(EncodeAll(texts), 0, |texts|, 0)
    requires parse(dump(positions)) == Json(Some(|positions|))
    ensures Truthful(o, items, layer, dump, parse)
  {
    MadeParts(t, texts, items, layer, positions);
    hide ItemOk, TablesFit, Frame.Packed, Frame.Packable, ImageHolds, Letters, Built, Crowded, Sections;
    hide Truthful, EncodeAll, Made;
    if !TablesFit(t) {
      UnfitIsTruthful(items, layer, t, texts, positions, dump, parse);
      return Unfit(t, texts, positions);
    }
    var image := Frame.PackSections(Sections(t, dump(positions)), layer, |t.entries|, t.keyCount);
    if image.None? {
      UnfitIsTruthful(items, layer, t, texts, positions, dump, parse);
      return Unfit(t, texts, positions);
    }
    PackedAccepted(image.value, t, texts, items, positions, dump(positions), parse);
    var accepted := Verify(image.value, parse);
    if accepted {
      ImageIsTruthful(image.value, items, layer, t, texts, positions, dump, parse);
      return Image(image.value);
    }
    RefusedIsTruthful(items, layer, t, texts, positions, dump, parse);
    return Refused(t, texts, positions);
  }

  lemma {:induction false} MadeParts(t: Tables, texts: seq<Text>, items: seq<Item>, layer: nat, positions: seq<Text>)
    requires Made(t, texts, items, layer, positions)
    ensures Built(t, texts, items, positions) && t.layer == layer <= 4 && t.surfaceIndex.Some?
    ensures |t.keys| == t.keyCount == |texts| && |t.entries| == |items|
  {
    BuiltParts(t, texts, items, positions);
  }

  lemma {:induction false} UnfitIsTruthful(items: seq<Item>, layer: nat, t: Tables, texts: seq<Text>,
                                           positions: seq<Text>, dump: seq<Text> -> seq<byte>,
                                           parse: seq<byte> -> Meta)
    requires Made(t, texts, items, layer, positions) && t.surfaceIndex.Some?
    requires !TablesFit(t) || !Frame.Packable(Sections(t, dump(positions)), layer, |items|, |texts|)
    ensures Truthful(Unfit(t, texts, positions), items, layer, dump, parse)
  {
    hide Built, Compact, PositionTable, TablesFit, Frame.Packable, Sections;
  }

  lemma {:induction false} ImageIsTruthful(image: seq<byte>, items: seq<Item>, layer: nat, t: Tables, texts: seq<Text>,
                                           positions: seq<Text>, dump: seq<Text> -> seq<byte>,
                                           parse: seq<byte> -> Meta)
    requires ImageHolds(image, parse, t, texts) && Made(t, texts, items, layer, positions) && t.surfaceIndex.Some?
    requires Frame.Packed(image, Sections(t, dump(positions)), layer, |items|, |texts|)
    ensures Truthful(Image(image), items, layer, dump, parse)
  {
    hide ImageHolds, Built, Compact, PositionTable, Sections, Frame.Packed;
    assert Compiles(image, items, layer, dump, parse);
  }

  lemma {:induction false} RefusedIsTruthful(items: seq<Item>, layer: nat, t: Tables, texts: seq<Text>,
                                             positions: seq<Text>, dump: seq<Text> -> seq<byte>,
                                             parse: seq<byte> -> Meta)
    requires Made(t, texts, items, layer, positions) && Crowded(t.nodes, EncodeAll(texts))
    requires |t.nodes| <= 257 + 512 * Letters(EncodeAll(texts), 0, |texts|, 0)
    ensures Truthful(Refused(t, texts, positions), items, layer, dump, parse)
  {
    hide Built, Compact, PositionTable, Crowded, Letters, TrieAccepted;
    CrowdedTrie(t.nodes, EncodeAll(texts), texts);
  }

  /** End to end: a key finds exactly the entries whose reading it spells, in entry order. */
  lemma {:induction false} Answers(t: Tables, texts: seq<Text>, items: seq<Item>, positions: seq<Text>, key: Text)
    requires Built(t, texts, items, positions) && (forall i :: 0 <= i < |items| ==> ItemOk(items[i])) && 0 !in key
    ensures t.nodes != []
    ensures match Lookup(t.nodes, Encode(key))
            case None => RefList(items, key, |items|) == []
            case Some(k) => k < |t.keys| && Lists(t, items, key, t.keys[k])
  {
    hide Records, RefList, IndexOk, ItemOk, Indexes, Surfaces, Encode, Lists, Lookup;
    EncodeNulFree(key);
    var w, keys := Encode(key), EncodeAll(texts);
    TrieCorrect(t.nodes, keys, w, 0);
    match Lookup(t.nodes, w)
    case Some(k) =>
      TrieCorrect(t.nodes, keys, w, k);
      EncodeInjective(texts[k], key);
    case None =>
      if key in texts {
        var k :| 0 <= k < |texts| && texts[k] == key;
        TrieCorrect(t.nodes, keys, w, k);
      }
  }

  /** Every entry of a built image holds its item: the texts in the pool and what the numbers say. */
  lemma {:induction false} EntrySays(t: Tables, texts: seq<Text>, items: seq<Item>, positions: seq<Text>, i: nat)
    requires Built(t, texts, items, positions) && i < |items|
    ensures var e, x := t.entries[i], items[i];
            Says(e, x, t.layer) && e.pos < |positions| && positions[e.pos] == x.pos &&
            e.surfaceAt + e.surfaceLength <= |t.pool| && e.readingAt + e.readingLength <= |t.pool| &&
            t.pool[e.surfaceAt..e.surfaceAt + e.surfaceLength] == Encode(x.surface) &&
            t.pool[e.readingAt..e.readingAt + e.readingLength] == Encode(x.reading)
  {
    hide Says, Encode, RefList, Lists, Indexes, IndexOk, Surfaces;
    assert Records(t.pool, t.entries[i], items[i], t.layer, positions);
    RecordSays(t.pool, t.entries[i], items[i], t.layer, positions);
  }

  /** An entry is among the references of every alias of its key. */
  lemma {:induction false} RefListed(items: seq<Item>, key: Text, n: nat, e: nat)
    requires e < n <= |items| && key in Aliases.AliasSet(items[e].key)
    ensures Ref(e, KindOf(items[e], key), 0) in RefList(items, key, n)
  {
    hide Aliases.AliasSet;
    var list := RefList(items, key, n - 1);
    if e < n - 1 { RefListed(items, key, n - 1, e); }
  }

  /** Every entry is found under every alias of its key. */
  lemma {:induction false} EntryIsFound(t: Tables, texts: seq<Text>, items: seq<Item>, positions: seq<Text>, e: nat,
                                        key: Text)
    returns (k: nat, i: nat)
    requires Built(t, texts, items, positions) && (forall j :: 0 <= j < |items| ==> ItemOk(items[j]))
    requires e < |items| && key in Aliases.AliasSet(items[e].key)
    ensures t.nodes != [] && Lookup(t.nodes, Encode(key)) == Some(k) && k < |t.keys|
    ensures t.keys[k].offset <= i < t.keys[k].offset + t.keys[k].length && i < |t.refs|
    ensures t.refs[i] == Ref(e, KindOf(items[e], key), 0)
  {
    hide Built, RefList, Lists, ItemOk, Encode, Lookup, Aliases.AliasSet, HasText;
    RefListed(items, key, |items|, e);
    var list := RefList(items, key, |items|);
    KeyHasText(items, key);
    HasNoNul(key);
    Answers(t, texts, items, positions, key);
    k := Lookup(t.nodes, Encode(key)).value;
    var j :| 0 <= j < |list| && list[j] == Ref(e, KindOf(items[e], key), 0);
    i := t.keys[k].offset + j;
    ListedAt(t, items, key, t.keys[k], j);
  }

  lemma {:induction false} HasNoNul(key: Text)
    requires HasText(key)
    ensures 0 !in key
  {
  }

  lemma {:induction false} ListedAt(t: Tables, items: seq<Item>, key: Text, record: KeyRecord, j: nat)
    requires Lists(t, items, key, record) && j < |RefList(items, key, |items|)|
    ensures j < record.length && record.offset + j < |t.refs| &&
            t.refs[record.offset + j] == RefList(items, key, |items|)[j]
  {
    hide RefList;
    assert t.refs[record.offset..record.offset + record.length][j] == t.refs[record.offset + j];
  }
}
