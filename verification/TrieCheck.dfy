/**
  The trie part of `verify`: it checks every edge, rebuilds each key's text by walking parents
  up to the root, and compares neighbouring key texts.
 */
module TrieCheck {
  import opened Utf8
  import opened Sorting
  import opened DoubleArray
  import opened TrieBuilder

  predicate RootOk(nodes: seq<Node>)
  {
    |nodes| > 0 && nodes[0].parent == 0 && nodes[0].key == NONE && nodes[0].depth == 0
  }

  /** A used slot is one label below its used parent, and one deeper. */
  predicate EdgeOk(nodes: seq<Node>, i: nat)
    requires 0 < i < |nodes|
  {
    var p := nodes[i].parent;
    p == NONE || (p < |nodes| && nodes[p].parent != NONE && 1 <= i - nodes[p].base <= 255 &&
                  nodes[i].depth == nodes[p].depth + 1)
  }

  ghost predicate EdgesOk(nodes: seq<Node>)
  {
    RootOk(nodes) && forall i {:trigger EdgeOk(nodes, i)} :: 0 < i < |nodes| ==> EdgeOk(nodes, i)
  }

  predicate Used(nodes: seq<Node>, i: nat) { i < |nodes| && nodes[i].parent != NONE }

  predicate KeyNode(nodes: seq<Node>, i: nat) { 0 < i && Used(nodes, i) && nodes[i].key != NONE }

  /** The labels from the root down to a slot. */
  ghost function PathOf(nodes: seq<Node>, i: nat): (w: seq<byte>)
    requires EdgesOk(nodes) && Used(nodes, i)
    ensures |w| == nodes[i].depth && NulFree(w)
    decreases nodes[i].depth
  {
    if i == 0 then []
    else
      assert EdgeOk(nodes, i);
      var p := nodes[i].parent;
      assert p != 0 ==> EdgeOk(nodes, p);
      PathOf(nodes, p) + [i - nodes[p].base]
  }

  ghost predicate HasNode(nodes: seq<Node>, k: nat) { exists i: nat :: KeyNode(nodes, i) && nodes[i].key == k }

  /** The texts are those of the key slots, one slot for each, in ascending byte order. */
  ghost predicate TextsOk(nodes: seq<Node>, texts: seq<Text>)
    requires EdgesOk(nodes)
  {
    && (forall i: nat {:trigger KeyNode(nodes, i)} :: KeyNode(nodes, i) ==>
          nodes[i].key < |texts| && Encode(texts[nodes[i].key]) == PathOf(nodes, i))
    && (forall i: nat, j: nat {:trigger KeyNode(nodes, i), KeyNode(nodes, j)} ::
          KeyNode(nodes, i) && KeyNode(nodes, j) && i < j ==>
          nodes[i].key != nodes[j].key)
    && (forall k :: 0 <= k < |texts| ==> HasNode(nodes, k))
    && (forall k :: 0 < k < |texts| ==> Less(Encode(texts[k - 1]), Encode(texts[k])))
  }

  ghost predicate TrieAccepted(nodes: seq<Node>, texts: seq<Text>) { EdgesOk(nodes) && TextsOk(nodes, texts) }

  // ----- Soundness -----

  ghost function Words(nodes: seq<Node>): map<nat, seq<byte>>
    requires EdgesOk(nodes)
  {
    map i | 0 <= i < |nodes| && Used(nodes, i) :: PathOf(nodes, i)
  }

  lemma {:induction false} EdgesMakeTree(nodes: seq<Node>)
    requires EdgesOk(nodes)
    ensures IsTree(nodes, Words(nodes))
  {
    var word := Words(nodes);
    forall i | i in word && i != 0 ensures IsEdge(nodes, word, i) {
      assert EdgeOk(nodes, i);
    }
  }

  function EncodeAll(texts: seq<Text>): (r: seq<seq<byte>>)
    ensures |r| == |texts| && forall i :: 0 <= i < |r| ==> r[i] == Encode(texts[i])
  {
    seq(|texts|, i requires 0 <= i < |texts| => Encode(texts[i]))
  }

  lemma {:induction false} NeighboursSorted(keys: seq<seq<byte>>, i: nat, j: nat)
    requires forall k :: 0 < k < |keys| ==> Less(keys[k - 1], keys[k])
    requires i < j < |keys|
    ensures Less(keys[i], keys[j])
    decreases j - i
  {
    assert Less(keys[j - 1], keys[j]);
    if i < j - 1 {
      NeighboursSorted(keys, i, j - 1);
      LessTransitive(keys[i], keys[j - 1], keys[j]);
    }
  }

  lemma {:induction false} KeyHasSlot(nodes: seq<Node>, texts: seq<Text>, k: nat)
    requires TrieAccepted(nodes, texts) && k < |texts|
    ensures HasKey(nodes, Words(nodes), k, Encode(texts[k])) && Encode(texts[k]) != [] && NulFree(Encode(texts[k]))
  {
    assert HasNode(nodes, k);
    var i: nat :| KeyNode(nodes, i) && nodes[i].key == k;
    var word := Words(nodes);
    assert EdgeOk(nodes, i) && i in word && word[i] == PathOf(nodes, i);
  }

  lemma {:induction false} KeysAscend(nodes: seq<Node>, texts: seq<Text>)
    requires TrieAccepted(nodes, texts)
    ensures Sorted(EncodeAll(texts))
  {
    var keys := EncodeAll(texts);
    forall k | 0 < k < |keys| ensures Less(keys[k - 1], keys[k]) {
      assert keys[k] == Encode(texts[k]) && keys[k - 1] == Encode(texts[k - 1]);
    }
    forall i, j | 0 <= i < j < |keys| ensures Less(keys[i], keys[j]) {
      NeighboursSorted(keys, i, j);
    }
  }

  /** An accepted trie indexes its key texts: forward lookup and parent walk agree. */
  lemma {:induction false} AcceptedTrieIndexes(nodes: seq<Node>, texts: seq<Text>)
    requires TrieAccepted(nodes, texts) && |texts| <= NONE
    ensures Represents(nodes, Words(nodes), EncodeAll(texts)) && GoodKeys(EncodeAll(texts))
  {
    var keys, word := EncodeAll(texts), Words(nodes);
    EdgesMakeTree(nodes);
    KeysAscend(nodes, texts);
    forall i | i in word && nodes[i].key != NONE ensures nodes[i].key < |keys| && word[i] == keys[nodes[i].key] {
      assert KeyNode(nodes, i);
    }
    forall k | 0 <= k < |keys| ensures HasKey(nodes, word, k, keys[k]) && keys[k] != [] && NulFree(keys[k]) {
      KeyHasSlot(nodes, texts, k);
    }
  }

  // ----- Completeness -----

  lemma {:induction false} PathIsWord(nodes: seq<Node>, word: map<nat, seq<byte>>, i: nat)
    requires IsTree(nodes, word) && EdgesOk(nodes) && i in word && Used(nodes, i)
    ensures PathOf(nodes, i) == word[i]
    decreases nodes[i].depth
  {
    if i != 0 {
      assert IsEdge(nodes, word, i) && EdgeOk(nodes, i);
      var p := nodes[i].parent;
      assert p != 0 ==> IsEdge(nodes, word, p) && EdgeOk(nodes, p);
      PathIsWord(nodes, word, p);
    }
  }

  /** The slot numbered like "no parent" has no child. */
  ghost predicate Roomy(nodes: seq<Node>, word: map<nat, seq<byte>>)
    requires forall i :: i in word ==> i < |nodes|
  {
    forall i :: i in word && i != 0 ==> nodes[i].parent != NONE
  }

  lemma {:induction false} TreeHasEdges(nodes: seq<Node>, word: map<nat, seq<byte>>, keys: seq<seq<byte>>)
    requires Represents(nodes, word, keys) && GoodKeys(keys) && Roomy(nodes, word)
    ensures EdgesOk(nodes) && forall i :: i in word <==> Used(nodes, i)
  {
    forall i | i in word ensures Used(nodes, i) { assert i != 0 ==> IsEdge(nodes, word, i); }
    forall i | 0 < i < |nodes| ensures EdgeOk(nodes, i) {
      if i in word {
        assert IsEdge(nodes, word, i);
        assert nodes[i].parent != 0 ==> IsEdge(nodes, word, nodes[i].parent);
      }
    }
  }

  lemma {:induction false} SlotText(nodes: seq<Node>, word: map<nat, seq<byte>>, texts: seq<Text>, i: nat)
    requires Represents(nodes, word, EncodeAll(texts)) && GoodKeys(EncodeAll(texts)) && EdgesOk(nodes) &&
             KeyNode(nodes, i)
    requires Roomy(nodes, word)
    ensures i in word && nodes[i].key < |texts| && Encode(texts[nodes[i].key]) == PathOf(nodes, i)
  {
    TreeHasEdges(nodes, word, EncodeAll(texts));
    PathIsWord(nodes, word, i);
  }

  lemma {:induction false} SlotForKey(nodes: seq<Node>, word: map<nat, seq<byte>>, texts: seq<Text>, k: nat)
    requires Represents(nodes, word, EncodeAll(texts)) && GoodKeys(EncodeAll(texts)) && k < |texts| &&
             Roomy(nodes, word)
    ensures HasNode(nodes, k)
  {
    var keys := EncodeAll(texts);
    TreeHasEdges(nodes, word, keys);
    assert HasKey(nodes, word, k, keys[k]);
    var i :| i in word && i < |nodes| && nodes[i].key == k && word[i] == keys[k];
    assert KeyNode(nodes, i);
  }

  /** A roomy table that represents good keys passes every trie check. */
  lemma {:induction false} IndexAccepted(nodes: seq<Node>, word: map<nat, seq<byte>>, texts: seq<Text>)
    requires Represents(nodes, word, EncodeAll(texts)) && GoodKeys(EncodeAll(texts)) && Roomy(nodes, word)
    ensures TrieAccepted(nodes, texts)
  {
    var keys := EncodeAll(texts);
    TreeHasEdges(nodes, word, keys);
    forall i: nat | KeyNode(nodes, i)
      ensures nodes[i].key < |texts| && Encode(texts[nodes[i].key]) == PathOf(nodes, i)
    {
      SlotText(nodes, word, texts, i);
    }
    forall i: nat, j: nat | KeyNode(nodes, i) && KeyNode(nodes, j) && i < j ensures nodes[i].key != nodes[j].key {
      SlotText(nodes, word, texts, i);
      SlotText(nodes, word, texts, j);
      if nodes[i].key == nodes[j].key {
        PathIsWord(nodes, word, i);
        PathIsWord(nodes, word, j);
        PathsDistinct(nodes, word, i, j);
      }
    }
    forall k | 0 <= k < |texts| ensures HasNode(nodes, k) {
      SlotForKey(nodes, word, texts, k);
    }
    forall k | 0 < k < |texts| ensures Less(Encode(texts[k - 1]), Encode(texts[k])) {
      assert Less(keys[k - 1], keys[k]);
    }
  }

  // ----- When the builder's table is accepted -----

  /** Above a slot lies a slot for every shorter path. */
  lemma {:induction false} Ancestor(nodes: seq<Node>, word: map<nat, seq<byte>>, i: nat, n: nat) returns (a: nat)
    requires IsTree(nodes, word) && i in word && n <= |word[i]|
    ensures a in word && word[a] == word[i][..n]
    decreases |word[i]|
  {
    hide IsTree;
    a := i;
    if n < |word[i]| {
      RootIsEmpty(nodes, word);
      EdgeLeads(nodes, word, i);
      a := Ancestor(nodes, word, nodes[i].parent, n);
    }
  }

  /** The only slot of a key is the one its bytes name. */
  lemma {:induction false} OnlySlot(nodes: seq<Node>, word: map<nat, seq<byte>>, keys: seq<seq<byte>>, c: nat, k: nat)
    requires Represents(nodes, word, keys) && c in word && k < |keys| && word[c] == keys[k]
    ensures forall i: nat :: KeyNode(nodes, i) && nodes[i].key == k ==> i == c
  {
    hide IsEdge;
    forall i: nat | KeyNode(nodes, i) && nodes[i].key == k ensures i == c {
      assert i in word;
      PathsDistinct(nodes, word, i, c);
    }
  }

  /** A child of the slot numbered like "no parent" looks unused, so its key, or a slot below it, is refused. */
  lemma {:induction false} CrowdedRejected(nodes: seq<Node>, word: map<nat, seq<byte>>, keys: seq<seq<byte>>,
                                           texts: seq<Text>, c: nat)
    requires IndexedBy(nodes, word, keys) && c in word && c != 0 && c < |nodes| && nodes[c].parent == NONE
    requires |texts| == |keys|
    ensures !TrieAccepted(nodes, texts)
  {
    hide IsTree, TextsOk, EdgeOk;
    assert Continues(keys, word[c]);
    var k :| 0 <= k < |keys| && word[c] <= keys[k];
    if word[c] == keys[k] {
      OnlySlot(nodes, word, keys, c, k);
      assert !HasNode(nodes, k);
      NoNodeNoTexts(nodes, texts, k);
    } else {
      assert HasKey(nodes, word, k, keys[k]);
      var i :| i in word && i < |nodes| && nodes[i].key == k && word[i] == keys[k];
      var d := Ancestor(nodes, word, i, |word[c]| + 1);
      BelowCrowded(nodes, word, c, d);
    }
  }

  lemma {:induction false} NoNodeNoTexts(nodes: seq<Node>, texts: seq<Text>, k: nat)
    requires k < |texts| && !HasNode(nodes, k)
    ensures !TrieAccepted(nodes, texts)
  {
  }

  lemma {:induction false} BelowCrowded(nodes: seq<Node>, word: map<nat, seq<byte>>, c: nat, d: nat)
    requires IsTree(nodes, word) && c in word && c != 0 && c < |nodes| && nodes[c].parent == NONE
    requires d in word && |word[d]| == |word[c]| + 1 && word[c] <= word[d]
    ensures !EdgesOk(nodes)
  {
    hide IsTree;
    RootIsEmpty(nodes, word);
    EdgeLeads(nodes, word, d);
    EdgeLeads(nodes, word, c);
    var p := nodes[d].parent;
    assert word[p] == word[c];
    PathsDistinct(nodes, word, p, c);
    assert c != NONE;
    assert !EdgeOk(nodes, d);
  }

  /** The builder's table is accepted if and only if it is roomy, as it is below 2^32 slots. */
  lemma {:induction false} BuiltAcceptedExactly(nodes: seq<Node>, word: map<nat, seq<byte>>, texts: seq<Text>)
    requires IndexedBy(nodes, word, EncodeAll(texts)) && GoodKeys(EncodeAll(texts))
    ensures forall i :: i in word ==> i < |nodes|
    ensures TrieAccepted(nodes, texts) <==> Roomy(nodes, word)
    ensures |nodes| <= NONE ==> Roomy(nodes, word)
  {
    hide IsTree, GoodKeys, TrieAccepted, HasKey;
    TreeSlots(nodes, word);
    if Roomy(nodes, word) {
      IndexAccepted(nodes, word, texts);
    } else {
      var c :| c in word && c != 0 && nodes[c].parent == NONE;
      CrowdedRejected(nodes, word, EncodeAll(texts), texts, c);
      RootIsEmpty(nodes, word);
      EdgeLeads(nodes, word, c);
    }
  }

  // ----- The checks as `verify` runs them -----

  /** Walks parents from a slot up to the root, collecting labels back to front. */
  method ClimbToRoot(nodes: seq<Node>, index: nat) returns (r: Option<seq<byte>>)
    requires |nodes| > 0 && Used(nodes, index)
    ensures EdgesOk(nodes) ==> r == Some(PathOf(nodes, index))
  {
    var word: seq<byte> := [];
    var current: nat := index;
    while current != 0
      invariant current < |nodes|
      invariant EdgesOk(nodes) ==> Used(nodes, current) && PathOf(nodes, index) == PathOf(nodes, current) + word
      decreases nodes[current].depth
    {
      ghost var ok := EdgesOk(nodes);
      assert ok ==> EdgeOk(nodes, current);
      var up := nodes[current].parent;
      if up >= |nodes| || nodes[up].depth >= nodes[current].depth { return None; }
      var step := current - nodes[up].base;
      if !(0 <= step <= 255) { return None; }
      assert ok ==> PathOf(nodes, current) == PathOf(nodes, up) + [step];
      word := [step] + word;
      current := up;
    }
    assert EdgesOk(nodes) ==> PathOf(nodes, 0) + word == word;
    return Some(word);
  }

  ghost predicate SeenAt(nodes: seq<Node>, n: nat, k: nat)
  {
    exists i: nat :: i < n && KeyNode(nodes, i) && nodes[i].key == k
  }

  /** After the first `n` slots: their key ids are distinct and in range, and `texts` holds their texts. */
  ghost predicate KeysRead(nodes: seq<Node>, n: nat, keyCount: nat, texts: map<nat, Text>)
    requires EdgesOk(nodes)
  {
    && (forall i: nat {:trigger KeyNode(nodes, i)} :: i < n && KeyNode(nodes, i) ==>
          nodes[i].key < keyCount && nodes[i].key in texts && Encode(texts[nodes[i].key]) == PathOf(nodes, i))
    && (forall i: nat, j: nat {:trigger KeyNode(nodes, i), KeyNode(nodes, j)} ::
          KeyNode(nodes, i) && KeyNode(nodes, j) && i < j < n ==> nodes[i].key != nodes[j].key)
    && (forall k :: k in texts ==> SeenAt(nodes, n, k))
  }

  /** No texts make the trie acceptable. */
  ghost predicate Rejected(nodes: seq<Node>, keyCount: nat)
  {
    forall texts: seq<Text> :: |texts| == keyCount ==> !TrieAccepted(nodes, texts)
  }

  lemma {:induction false} KeysReadMore(nodes: seq<Node>, n: nat, keyCount: nat, texts: map<nat, Text>, text: Text)
    requires EdgesOk(nodes) && KeysRead(nodes, n, keyCount, texts) && KeyNode(nodes, n)
    requires nodes[n].key < keyCount && nodes[n].key !in texts && Encode(text) == PathOf(nodes, n)
    ensures KeysRead(nodes, n + 1, keyCount, texts[nodes[n].key := text])
  {
    hide PathOf, Encode, EdgeOk;
    var more := texts[nodes[n].key := text];
    assert SeenAt(nodes, n + 1, nodes[n].key);
    forall k | k in more ensures SeenAt(nodes, n + 1, k) {
      if k != nodes[n].key { SeenMore(nodes, n, k); }
    }
    forall i: nat | i < n && KeyNode(nodes, i) ensures nodes[i].key in texts && nodes[i].key != nodes[n].key {}
  }

  lemma {:induction false} SeenMore(nodes: seq<Node>, n: nat, k: nat)
    requires SeenAt(nodes, n, k)
    ensures SeenAt(nodes, n + 1, k)
  {
    var i: nat :| i < n && KeyNode(nodes, i) && nodes[i].key == k;
  }

  lemma {:induction false} KeysReadSkip(nodes: seq<Node>, n: nat, keyCount: nat, texts: map<nat, Text>)
    requires EdgesOk(nodes) && KeysRead(nodes, n, keyCount, texts) && !KeyNode(nodes, n)
    ensures KeysRead(nodes, n + 1, keyCount, texts)
  {
    assert forall i: nat {:trigger KeyNode(nodes, i)} :: i < n + 1 && KeyNode(nodes, i) ==> i < n;
    forall k | k in texts ensures SeenAt(nodes, n + 1, k) { SeenMore(nodes, n, k); }
  }

  lemma {:induction false} NothingRead(nodes: seq<Node>, keyCount: nat)
    requires EdgesOk(nodes)
    ensures KeysRead(nodes, 1, keyCount, map[])
  {
  }

  /** One key slot: its id and its text, or the reason to reject the whole trie. */
  method ReadKey(nodes: seq<Node>, index: nat, keyCount: nat, seen: map<nat, Text>) returns (r: Option<Text>)
    requires KeyNode(nodes, index)
    requires EdgesOk(nodes) ==> KeysRead(nodes, index, keyCount, seen)
    ensures r.Some? ==> nodes[index].key < keyCount && nodes[index].key !in seen
    ensures r.Some? && EdgesOk(nodes) ==> Encode(r.value) == PathOf(nodes, index)
    ensures r.None? ==> Rejected(nodes, keyCount)
  {
    var key := nodes[index].key;
    if key >= keyCount { return None; }
    if key in seen {
      if EdgesOk(nodes) {
        assert SeenAt(nodes, index, key);
      }
      return None;
    }
    var word := ClimbToRoot(nodes, index);
    if word.None? { return None; }
    var text := DecodeUtf8CodePoints(word.value);
    if text.None? {
      NotAnEncoding(word.value);
      return None;
    }
    return text;
  }

  lemma {:induction false} NotAnEncoding(w: seq<byte>)
    requires Decode(w).None?
    ensures forall t: Text :: Encode(t) != w
  {
    forall t: Text ensures Encode(t) != w { EncodeWellFormed(t); }
  }

  lemma {:induction false} FullSet(s: set<nat>, n: nat)
    requires forall k :: k in s ==> k < n
    ensures |s| <= n && (|s| == n <==> forall k :: 0 <= k < n ==> k in s)
  {
    if n > 0 {
      FullSet(s - {n - 1}, n - 1);
      if n - 1 in s { assert s == (s - {n - 1}) + {n - 1}; }
    }
  }

  /** The trie checks of `verify`: the key texts, or a rejection that no texts could avert. */
  method CheckTrie(nodes: seq<Node>, keyCount: nat) returns (r: Option<seq<Text>>)
    ensures r.Some? ==> |r.value| == keyCount && TrieAccepted(nodes, r.value)
    ensures r.None? ==> Rejected(nodes, keyCount)
  {
    hide TextsOk, KeysRead, EdgeOk;
    if !RootOk(nodes) { return None; }
    var texts: map<nat, Text> := map[];
    if EdgesOk(nodes) { NothingRead(nodes, keyCount); }
    for index := 1 to |nodes|
      invariant forall i {:trigger EdgeOk(nodes, i)} :: 0 < i < index ==> EdgeOk(nodes, i)
      invariant forall k :: k in texts ==> k < keyCount
      invariant EdgesOk(nodes) ==> KeysRead(nodes, index, keyCount, texts)
    {
      if !EdgeOk(nodes, index) { return None; }
      if KeyNode(nodes, index) {
        var text := ReadKey(nodes, index, keyCount, texts);
        if text.None? { return None; }
        if EdgesOk(nodes) { KeysReadMore(nodes, index, keyCount, texts, text.value); }
        texts := texts[nodes[index].key := text.value];
      } else if EdgesOk(nodes) {
        KeysReadSkip(nodes, index, keyCount, texts);
      }
    }
    assert EdgesOk(nodes);
    r := FinishTexts(nodes, keyCount, texts);
  }

  /** The last checks: every id was seen, and neighbouring texts ascend. */
  method FinishTexts(nodes: seq<Node>, keyCount: nat, texts: map<nat, Text>) returns (r: Option<seq<Text>>)
    requires EdgesOk(nodes) && KeysRead(nodes, |nodes|, keyCount, texts) && forall k :: k in texts ==> k < keyCount
    ensures r.Some? ==> |r.value| == keyCount && TrieAccepted(nodes, r.value)
    ensures r.None? ==> Rejected(nodes, keyCount)
  {
    hide Encode, Less, PathOf, TextsOk, KeysRead;
    FullSet(texts.Keys, keyCount);
    if |texts.Keys| != keyCount {
      MissingKey(nodes, keyCount, texts);
      return None;
    }
    var list := seq(keyCount, k requires k in texts => texts[k]);
    OnlyTexts(nodes, keyCount, texts, list);
    var k := 1;
    while k < keyCount
      invariant forall j :: 0 < j < k && j < keyCount ==> Less(Encode(list[j - 1]), Encode(list[j]))
    {
      if !Less(Encode(list[k - 1]), Encode(list[k])) {
        OutOfOrder(nodes, keyCount, list, k);
        return None;
      }
      k := k + 1;
    }
    InOrder(nodes, keyCount, texts, list);
    return Some(list);
  }

  lemma {:induction false} MissingKey(nodes: seq<Node>, keyCount: nat, texts: map<nat, Text>)
    requires EdgesOk(nodes) && KeysRead(nodes, |nodes|, keyCount, texts) && (forall k :: k in texts ==> k < keyCount)
    requires exists k :: 0 <= k < keyCount && k !in texts
    ensures Rejected(nodes, keyCount)
  {
    hide PathOf, Encode, Less;
    var k :| 0 <= k < keyCount && k !in texts;
    assert !HasNode(nodes, k);
  }

  lemma {:induction false} OutOfOrder(nodes: seq<Node>, keyCount: nat, list: seq<Text>, k: nat)
    requires EdgesOk(nodes) && |list| == keyCount && 0 < k < keyCount && !Less(Encode(list[k - 1]), Encode(list[k]))
    requires forall other: seq<Text> :: |other| == keyCount && TextsOk(nodes, other) ==> other == list
    ensures Rejected(nodes, keyCount)
  {
    hide PathOf, Encode, Less;
  }

  lemma {:induction false} InOrder(nodes: seq<Node>, keyCount: nat, texts: map<nat, Text>, list: seq<Text>)
    requires EdgesOk(nodes) && KeysRead(nodes, |nodes|, keyCount, texts)
    requires |list| == keyCount && forall k :: 0 <= k < keyCount ==> k in texts && list[k] == texts[k]
    requires forall k :: 0 <= k < keyCount ==> HasNode(nodes, k)
    requires forall j :: 0 < j < keyCount ==> Less(Encode(list[j - 1]), Encode(list[j]))
    ensures TextsOk(nodes, list)
  {
    hide PathOf, Encode, Less;
  }

  /** Acceptable texts are the ones read. */
  lemma {:induction false} OnlyTexts(nodes: seq<Node>, keyCount: nat, texts: map<nat, Text>, list: seq<Text>)
    requires EdgesOk(nodes) && KeysRead(nodes, |nodes|, keyCount, texts)
    requires |list| == keyCount && forall k :: 0 <= k < keyCount ==> k in texts && list[k] == texts[k]
    ensures forall other: seq<Text> :: |other| == keyCount && TextsOk(nodes, other) ==> other == list
    ensures forall k :: 0 <= k < keyCount ==> HasNode(nodes, k)
  {
    forall k | 0 <= k < keyCount ensures HasNode(nodes, k) {
      assert k in texts && SeenAt(nodes, |nodes|, k);
    }
    forall other: seq<Text> | |other| == keyCount && TextsOk(nodes, other) ensures other == list {
      forall k | 0 <= k < keyCount ensures other[k] == list[k] {
        assert k in texts && SeenAt(nodes, |nodes|, k);
        var i: nat :| i < |nodes| && KeyNode(nodes, i) && nodes[i].key == k;
        EncodeInjective(other[k], list[k]);
      }
    }
  }

  // ----- Exactly when an accepted trie answers as its key texts would -----

  /** An unused slot that passes for a child of the slot numbered like "no parent". */
  predicate Stray(nodes: seq<Node>, q: nat)
  {
    Used(nodes, NONE) && q < |nodes| && nodes[q].parent == NONE && 1 <= q - nodes[NONE].base <= 255
  }

  /** Such a slot carries a key. */
  ghost predicate StrayKey(nodes: seq<Node>) { exists q: nat :: Stray(nodes, q) && nodes[q].key != NONE }

  /** On the paths rebuilt from the parents, being astray is a matter of the table alone. */
  lemma {:induction false} StrayIsAstray(nodes: seq<Node>)
    requires EdgesOk(nodes)
    ensures forall q: nat :: Stray(nodes, q) <==> Astray(nodes, Words(nodes), q)
  {
    hide EdgeOk;
    forall q: nat ensures Stray(nodes, q) <==> Astray(nodes, Words(nodes), q) {
      assert NONE < |nodes| ==> (NONE in Words(nodes) <==> Used(nodes, NONE));
      assert q < |nodes| ==> (q in Words(nodes) <==> Used(nodes, q));
    }
  }

  /** The index and the key texts agree on a word. */
  ghost predicate AgreesOn(nodes: seq<Node>, texts: seq<Text>, w: seq<byte>, k: nat)
    requires nodes != []
  {
    Lookup(nodes, w) == Some(k) <==> k < |texts| && Encode(texts[k]) == w
  }

  lemma {:induction false} PathLeads(nodes: seq<Node>, i: nat)
    requires EdgesOk(nodes) && Used(nodes, i)
    ensures Walk(nodes, 0, PathOf(nodes, i)) == Some(i)
  {
    hide EdgeOk, IsTree, Walk;
    EdgesMakeTree(nodes);
    assert i in Words(nodes) && Words(nodes)[i] == PathOf(nodes, i);
    WalkComplete(nodes, Words(nodes), i);
  }

  lemma {:induction false} KeyFound(nodes: seq<Node>, texts: seq<Text>, k: nat) returns (i: nat)
    requires TrieAccepted(nodes, texts) && k < |texts|
    ensures Used(nodes, i) && Walk(nodes, 0, Encode(texts[k])) == Some(i) && nodes[i].key == k && k != NONE
  {
    assert HasNode(nodes, k);
    i :| KeyNode(nodes, i) && nodes[i].key == k;
    PathLeads(nodes, i);
  }

  lemma {:induction false} SlotSays(nodes: seq<Node>, texts: seq<Text>, i: nat)
    requires TrieAccepted(nodes, texts) && Used(nodes, i) && nodes[i].key != NONE
    ensures nodes[i].key < |texts| && Encode(texts[nodes[i].key]) == PathOf(nodes, i)
  {
    assert KeyNode(nodes, i);
  }

  lemma {:induction false} NoStrayAgrees(nodes: seq<Node>, texts: seq<Text>, w: seq<byte>, k: nat)
    requires TrieAccepted(nodes, texts) && NulFree(w) && !StrayKey(nodes)
    ensures AgreesOn(nodes, texts, w, k)
  {
    hide Encode, EdgeOk, TextsOk, IsTree, Walk, Astray;
    EdgesMakeTree(nodes);
    StrayIsAstray(nodes);
    WalkSound(nodes, Words(nodes), w);
    var r := Walk(nodes, 0, w);
    if r.Some? && nodes[r.value].key != NONE {
      assert !Stray(nodes, r.value);
      SlotSays(nodes, texts, r.value);
    }
    if k < |texts| && Encode(texts[k]) == w { var i := KeyFound(nodes, texts, k); }
  }

  lemma {:induction false} StrayDisagrees(nodes: seq<Node>, texts: seq<Text>, q: nat) returns (w: seq<byte>)
    requires TrieAccepted(nodes, texts) && Stray(nodes, q) && nodes[q].key != NONE
    ensures NulFree(w) && !AgreesOn(nodes, texts, w, nodes[q].key)
  {
    hide Encode;
    var b: byte := q - nodes[NONE].base;
    w := PathOf(nodes, NONE) + [b];
    PathLeads(nodes, NONE);
    WalkSnoc(nodes, 0, PathOf(nodes, NONE), b);
    assert Walk(nodes, 0, w) == Some(q) && Lookup(nodes, w) == Some(nodes[q].key);
    var k := nodes[q].key;
    if k < |texts| {
      var i := KeyFound(nodes, texts, k);
      assert i != q;
    }
  }

  /** An accepted trie answers every word as its key texts would, if and only if no stray slot carries a key. */
  lemma {:induction false} AgreesExactly(nodes: seq<Node>, texts: seq<Text>)
    requires TrieAccepted(nodes, texts)
    ensures (forall w: seq<byte>, k: nat :: NulFree(w) ==> AgreesOn(nodes, texts, w, k)) <==> !StrayKey(nodes)
  {
    hide AgreesOn, NulFree;
    if StrayKey(nodes) {
      var q: nat :| Stray(nodes, q) && nodes[q].key != NONE;
      var w := StrayDisagrees(nodes, texts, q);
    } else {
      forall w: seq<byte>, k: nat | NulFree(w)
        ensures AgreesOn(nodes, texts, w, k)
      {
        NoStrayAgrees(nodes, texts, w, k);
      }
    }
  }

  /** Fewer than 2^32 slots leave no room for one. */
  lemma {:induction false} SmallHasNoStray(nodes: seq<Node>)
    requires |nodes| <= NONE
    ensures !StrayKey(nodes)
  {
  }

  /** Field values of 32 bits and more than 2^32 slots: one key, and a stray slot that carries it too. */
  function Oversized(): seq<Node>
  {
    seq(NONE + 3, i =>
      if i == 0 then Node(NONE - 1, 0, NONE, 0)
      else if i == NONE then Node(NONE, 0, NONE, 1)
      else if i == NONE + 1 then Node(0, 0, 0, 1)
      else if i == NONE + 2 then Node(0, NONE, 0, 2)
      else Node(0, NONE, NONE, 0))
  }

  lemma {:induction false} OversizedEdges()
    ensures EdgesOk(Oversized())
  {
  }

  lemma {:induction false} OversizedKeys(i: nat)
    ensures KeyNode(Oversized(), i) <==> i == NONE + 1
  {
  }

  lemma {:induction false} OversizedTexts()
    requires EdgesOk(Oversized())
    ensures TextsOk(Oversized(), [[2]])
  {
    hide EdgeOk, Oversized, EncodeScalar;
    var nodes := Oversized();
    OversizedSlots();
    forall i: nat ensures KeyNode(nodes, i) <==> i == NONE + 1 { OversizedKeys(i); }
    assert Encode([2]) == [2] by { EncodeTwo(); }
    assert PathOf(nodes, NONE + 1) == PathOf(nodes, 0) + [2];
    assert HasNode(nodes, 0);
  }

  lemma {:induction false} EncodeTwo()
    ensures Encode([2]) == [2]
  {
    assert [2][1..] == [];
    assert Encode([2]) == EncodeScalar(2) + Encode([]);
  }

  lemma {:induction false} OversizedSlots()
    ensures var nodes := Oversized();
            |nodes| == NONE + 3 && nodes[0] == Node(NONE - 1, 0, NONE, 0) && nodes[NONE] == Node(NONE, 0, NONE, 1) &&
            nodes[NONE + 1] == Node(0, 0, 0, 1) && nodes[NONE + 2] == Node(0, NONE, 0, 2)
  {
  }

  /** The checks accept it, though a word other than the key finds the key. */
  lemma {:induction false} OversizedAccepted()
    ensures TrieAccepted(Oversized(), [[2]]) && Encode([2]) == [2]
    ensures Lookup(Oversized(), [1, 2]) == Some(0) && StrayKey(Oversized())
  {
    hide EdgesOk, TextsOk, Oversized, Encode, Walk;
    var nodes := Oversized();
    OversizedEdges();
    OversizedTexts();
    EncodeTwo();
    OversizedSlots();
    assert Stray(nodes, NONE + 2);
    assert Step(nodes, 0, 1) == Some(NONE) && Step(nodes, NONE, 2) == Some(NONE + 2);
    OversizedWalk();
  }

  lemma {:induction false} OversizedWalk()
    ensures |Oversized()| == NONE + 3 && Walk(Oversized(), 0, [1, 2]) == Some(NONE + 2)
  {
    hide Oversized;
    var nodes := Oversized();
    OversizedSlots();
    assert [1, 2][1..] == [2] && [2][1..] == [];
    assert Walk(nodes, NONE + 2, []) == Some(NONE + 2);
    assert Walk(nodes, NONE, [2]) == Some(NONE + 2);
  }
}
