/**
  The node table of an `.azdic` double-array trie and what it means for it to index a key list.
  A node's children sit at `base + label`, and a slot belongs to the node its `parent` names.
 */
module DoubleArray {
  import opened Utf8
  import Sequences

  /** The all-ones field value that stands for "no parent" and "no key". */
  const NONE: nat := 0xFFFFFFFF

  datatype Node = Node(base: nat, parent: nat, key: nat, depth: nat)

  // ----- Lookup -----

  /** Follows the edge labelled `b` out of node `p`. */
  function Step(nodes: seq<Node>, p: nat, b: byte): (r: Option<nat>)
    requires p < |nodes|
  {
    var next := nodes[p].base + b;
    if next < |nodes| && nodes[next].parent == p then Some(next) else None
  }

  function Walk(nodes: seq<Node>, p: nat, w: seq<byte>): (r: Option<nat>)
    requires p < |nodes|
    ensures r.Some? ==> r.value < |nodes|
    decreases |w|
  {
    if w == [] then Some(p)
    else match Step(nodes, p, w[0]) case None => None case Some(c) => Walk(nodes, c, w[1..])
  }

  /** The key id stored at the node a word leads to. */
  function Lookup(nodes: seq<Node>, w: seq<byte>): (r: Option<nat>)
    requires nodes != []
  {
    match Walk(nodes, 0, w)
    case None => None
    case Some(i) => if nodes[i].key == NONE then None else Some(nodes[i].key)
  }

  // ----- Representation -----

  predicate NulFree(w: seq<byte>) { forall i :: 0 <= i < |w| ==> w[i] != 0 }

  /** `word` names the path of every used slot; its parent's path is one label shorter. */
  ghost predicate IsEdge(nodes: seq<Node>, word: map<nat, seq<byte>>, i: nat)
    requires i in word && i < |nodes|
  {
    var p := nodes[i].parent;
    p in word && p < |nodes| && 1 <= i - nodes[p].base <= 255 &&
    word[i] == word[p] + [i - nodes[p].base] && nodes[i].depth == |word[i]|
  }

  ghost predicate IsTree(nodes: seq<Node>, word: map<nat, seq<byte>>)
  {
    && 0 < |nodes| && 0 in word && word[0] == []
    && nodes[0].parent == 0 && nodes[0].depth == 0
    && (forall i :: i in word ==> i < |nodes|)
    && (forall i :: 0 <= i < |nodes| && i !in word ==> nodes[i].parent == NONE)
    && (forall i :: i in word && i != 0 ==> IsEdge(nodes, word, i))
  }

  /** An unused slot that passes for a child of the slot numbered like "no parent". */
  ghost predicate Astray(nodes: seq<Node>, word: map<nat, seq<byte>>, i: nat)
  {
    i < |nodes| && i !in word && NONE in word && NONE < |nodes| && 1 <= i - nodes[NONE].base <= 255
  }

  ghost predicate AstrayKey(nodes: seq<Node>, word: map<nat, seq<byte>>)
  {
    exists i: nat :: Astray(nodes, word, i) && nodes[i].key != NONE
  }

  /** Some slot carries key id `k` and is reached by the key's bytes. */
  ghost predicate HasKey(nodes: seq<Node>, word: map<nat, seq<byte>>, k: nat, key: seq<byte>)
  {
    exists i :: i in word && i < |nodes| && nodes[i].key == k && word[i] == key
  }

  /** The table is a tree whose terminals are exactly the given keys, numbered by position. */
  ghost predicate Represents(nodes: seq<Node>, word: map<nat, seq<byte>>, keys: seq<seq<byte>>)
  {
    && IsTree(nodes, word)
    && |keys| <= NONE
    && (forall i :: i in word && nodes[i].key != NONE ==>
          nodes[i].key < |keys| && word[i] == keys[nodes[i].key])
    && (forall k :: 0 <= k < |keys| ==> HasKey(nodes, word, k, keys[k]))
  }

  // ----- Walking a tree -----

  lemma {:induction false} EdgeWord(nodes: seq<Node>, word: map<nat, seq<byte>>, i: nat)
    requires i in word && i < |nodes| && IsEdge(nodes, word, i)
    ensures var p := nodes[i].parent;
            p in word && p < |nodes| && 1 <= i - nodes[p].base <= 255 && word[i] == word[p] + [i - nodes[p].base]
    ensures nodes[i].depth == |word[i]|
  {
  }

  lemma {:induction false} RootIsEmpty(nodes: seq<Node>, word: map<nat, seq<byte>>)
    requires IsTree(nodes, word)
    ensures nodes != [] && 0 in word && word[0] == [] && Walk(nodes, 0, []) == Some(0)
  {
  }

  /** A used slot but the root hangs off a used parent, one label deeper. */
  lemma {:induction false} ParentOf(nodes: seq<Node>, word: map<nat, seq<byte>>, i: nat)
    requires IsTree(nodes, word) && i in word && i != 0
    ensures i < |nodes|
    ensures var p := nodes[i].parent;
            p in word && p < |nodes| && 1 <= i - nodes[p].base <= 255 && word[i] == word[p] + [i - nodes[p].base]
  {
    assert IsEdge(nodes, word, i);
  }

  /** An edge taken from a used slot lands on the slot of the longer path, or goes astray. */
  lemma {:induction false} StepSound(nodes: seq<Node>, word: map<nat, seq<byte>>, p: nat, b: byte)
    requires IsTree(nodes, word) && p in word && p < |nodes| && b != 0
    ensures var r := Step(nodes, p, b);
            r.Some? ==> (r.value in word && word[r.value] == word[p] + [b]) || Astray(nodes, word, r.value)
  {
    hide IsEdge;
    var r := Step(nodes, p, b);
    if r.Some? && r.value in word {
      assert r.value != 0;
      ParentOf(nodes, word, r.value);
    }
  }

  /** No edge leads on from a slot that is astray. */
  lemma {:induction false} AstrayEnds(nodes: seq<Node>, word: map<nat, seq<byte>>, p: nat, b: byte)
    requires IsTree(nodes, word) && p < |nodes| && Astray(nodes, word, p)
    ensures Step(nodes, p, b).None?
  {
    hide IsEdge;
    var r := Step(nodes, p, b);
    if r.Some? && r.value in word && r.value != 0 { ParentOf(nodes, word, r.value); }
  }

  lemma {:induction false} WalkSnoc(nodes: seq<Node>, p: nat, w: seq<byte>, b: byte)
    requires p < |nodes|
    ensures Walk(nodes, p, w + [b]) ==
            match Walk(nodes, p, w) case None => None case Some(q) => Step(nodes, q, b)
    decreases |w|
  {
    if w == [] {
      assert w + [b] == [b] && [b][1..] == [];
    } else {
      assert (w + [b])[0] == w[0];
      Sequences.ConcatDrop(w, [b], 1);
      var r := Step(nodes, p, w[0]);
      if r.Some? { WalkSnoc(nodes, r.value, w[1..], b); }
    }
  }

  /** Walking a word from the root can only end at the slot whose path is that word, or astray. */
  lemma {:induction false} WalkSound(nodes: seq<Node>, word: map<nat, seq<byte>>, w: seq<byte>)
    requires IsTree(nodes, word) && NulFree(w)
    ensures var r := Walk(nodes, 0, w);
            r.Some? ==> (r.value in word && word[r.value] == w) || Astray(nodes, word, r.value)
    decreases |w|
  {
    hide IsTree, Step, Walk, Astray;
    RootIsEmpty(nodes, word);
    if w != [] {
      var front, b := w[..|w| - 1], w[|w| - 1];
      Sequences.SliceSnoc(w, 0, |w| - 1);
      Sequences.WholeSlice(w);
      assert w == front + [b];
      WalkSound(nodes, word, front);
      WalkSnoc(nodes, 0, front, b);
      var q := Walk(nodes, 0, front);
      if q.Some? {
        if Astray(nodes, word, q.value) {
          AstrayEnds(nodes, word, q.value, b);
        } else {
          StepSound(nodes, word, q.value, b);
        }
      }
    }
  }

  lemma {:induction false} EdgeLeads(nodes: seq<Node>, word: map<nat, seq<byte>>, i: nat)
    requires IsTree(nodes, word) && i in word && i != 0
    ensures i < |nodes|
    ensures var p := nodes[i].parent;
            p in word && p < |nodes| && |word[p]| < |word[i]| && 1 <= i - nodes[p].base <= 255 &&
            Step(nodes, p, i - nodes[p].base) == Some(i) && word[i] == word[p] + [i - nodes[p].base]
  {
    ParentOf(nodes, word, i);
  }

  /** Every used slot is reached by its own path, and that path has no NUL. */
  lemma {:induction false} WalkComplete(nodes: seq<Node>, word: map<nat, seq<byte>>, i: nat)
    requires IsTree(nodes, word) && i in word
    ensures nodes != [] && Walk(nodes, 0, word[i]) == Some(i) && NulFree(word[i])
    decreases |word[i]|
  {
    hide IsTree, Step, Walk;
    RootIsEmpty(nodes, word);
    if i != 0 {
      EdgeLeads(nodes, word, i);
      var p := nodes[i].parent;
      WalkComplete(nodes, word, p);
      WalkSnoc(nodes, 0, word[p], i - nodes[p].base);
    }
  }

  /** Distinct slots have distinct paths. */
  lemma {:induction false} PathsDistinct(nodes: seq<Node>, word: map<nat, seq<byte>>, i: nat, j: nat)
    requires IsTree(nodes, word) && i in word && j in word && word[i] == word[j]
    ensures i == j
  {
    hide IsTree, Walk;
    WalkComplete(nodes, word, i);
    WalkComplete(nodes, word, j);
  }

  /** The index agrees with the plain key list on every NUL-free word, unless a key has gone astray. */
  lemma {:induction false} LookupIsKeyList(nodes: seq<Node>, word: map<nat, seq<byte>>, keys: seq<seq<byte>>,
                                           w: seq<byte>, k: nat)
    requires Represents(nodes, word, keys) && NulFree(w) && !AstrayKey(nodes, word)
    ensures Lookup(nodes, w) == Some(k) <==> k < |keys| && keys[k] == w
  {
    hide Walk, IsEdge, Astray;
    WalkSound(nodes, word, w);
    if k < |keys| && keys[k] == w {
      var i :| i in word && i < |nodes| && nodes[i].key == k && word[i] == keys[k];
      WalkComplete(nodes, word, i);
    }
  }

  /** A slot numbered like "no parent" needs more than that many slots. */
  lemma {:induction false} SmallTable(nodes: seq<Node>, word: map<nat, seq<byte>>)
    requires IsTree(nodes, word) && |nodes| <= NONE
    ensures !AstrayKey(nodes, word) && forall i: nat :: !Astray(nodes, word, i)
  {
  }
}
