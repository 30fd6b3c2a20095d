/**
  `make_trie`: compiles a sorted key list into a double-array trie, breadth first over
  contiguous key ranges, with a first-fit search for each node's child slots.
 */
module TrieBuilder {
  import opened Utf8
  import opened DoubleArray
  import Sequences

  /** The five growing arrays. `base` and `depth` grow by four entries for every slot. */
  datatype Table = Table(base: seq<nat>, parent: seq<nat>, key: seq<nat>, depth: seq<nat>, used: seq<bool>)

  /** A queued node: its slot, the key range it owns and its depth. */
  datatype Task = Task(index: nat, lo: nat, hi: nat, level: nat)

  // ----- Keys -----

  ghost predicate Sorted(keys: seq<seq<byte>>)
  {
    forall i, j :: 0 <= i < j < |keys| ==> Less(keys[i], keys[j])
  }

  ghost predicate GoodKeys(keys: seq<seq<byte>>)
  {
    Sorted(keys) && |keys| <= NONE && forall k :: 0 <= k < |keys| ==> keys[k] != [] && NulFree(keys[k])
  }

  /** Of two ordered keys under one prefix, only the first can end there, and labels do not fall. */
  lemma {:induction false} OrderUnderPrefix(w: seq<byte>, a: seq<byte>, b: seq<byte>)
    requires w <= a && w <= b && Less(a, b)
    ensures |w| < |b|
    ensures |w| < |a| ==> a[|w|] <= b[|w|]
  {
    LessCommonPrefix(w, a[|w|..], b[|w|..]);
    assert a == w + a[|w|..] && b == w + b[|w|..];
  }

  // ----- Growth -----

  predicate Sized(t: Table)
  {
    |t.parent| == |t.used| && |t.key| == |t.used| && |t.used| <= |t.base| && |t.used| <= |t.depth|
  }

  /** `u` is `t` with empty slots appended. */
  ghost predicate Extends(t: Table, u: Table)
  {
    && Sized(u) && t.used <= u.used && t.parent <= u.parent && t.key <= u.key
    && t.base <= u.base && t.depth <= u.depth
    && forall i :: |t.used| <= i < |u.used| ==> !u.used[i] && u.parent[i] == NONE && u.key[i] == NONE
  }

  method Grow(t: Table, size: nat) returns (u: Table)
    requires Sized(t)
    ensures Extends(t, u) && size <= |u.used|
    ensures forall i :: |t.base| <= i < |u.base| ==> u.base[i] == 0
    ensures forall i :: |t.depth| <= i < |u.depth| ==> u.depth[i] == 0
    ensures size <= |t.used| ==> u == t
    ensures |u.base| - |t.base| == |u.depth| - |t.depth| == 4 * (|u.used| - |t.used|)
    ensures size > |t.used| ==>
      |u.used| - |t.used| == if size - |t.used| >= |t.used| / 2 then size - |t.used| else |t.used| / 2
  {
    u := t;
    if size > |t.used| {
      var need := size - |t.used|;
      var extra := if need >= |t.used| / 2 then need else |t.used| / 2;
      u := Table(t.base + seq(4 * extra, _ => 0), t.parent + seq(extra, _ => NONE),
                 t.key + seq(extra, _ => NONE), t.depth + seq(4 * extra, _ => 0),
                 t.used + seq(extra, _ => false));
    }
  }

  // ----- Slot search -----

  /** The first free slot at or after `from`, or -1. */
  function FindFree(used: seq<bool>, from: nat): (r: int)
    ensures r == -1 || (from <= r < |used| && !used[r])
    ensures forall i :: from <= i < (if r == -1 then |used| else r) ==> used[i]
    decreases |used| - from
  {
    if from >= |used| then -1 else if !used[from] then from else FindFree(used, from + 1)
  }

  /** That slot, or the one just past the array when none is free. */
  function NextFree(used: seq<bool>, from: nat): (slot: nat)
    requires from <= |used|
    ensures from <= slot <= |used| && (slot < |used| ==> !used[slot])
    ensures forall i :: from <= i < slot ==> used[i]
  {
    var found := FindFree(used, from);
    if found >= 0 then found else |used|
  }

  ghost predicate Increasing(labels: seq<byte>)
  {
    labels != [] && labels[0] != 0 && forall i, j :: 0 <= i < j < |labels| ==> labels[i] < labels[j]
  }

  /** Some label's slot is already taken at this offset. */
  predicate Clash(used: seq<bool>, labels: seq<byte>, offset: nat)
  {
    exists j :: 0 <= j < |labels| && offset + labels[j] < |used| && used[offset + labels[j]]
  }

  lemma {:induction false} ClashExtends(t: Table, u: Table, labels: seq<byte>, offset: nat)
    requires Extends(t, u)
    ensures Clash(t.used, labels, offset) <==> Clash(u.used, labels, offset)
  {
    if Clash(t.used, labels, offset) {
      var j :| 0 <= j < |labels| && offset + labels[j] < |t.used| && t.used[offset + labels[j]];
      assert u.used[offset + labels[j]];
    }
    if Clash(u.used, labels, offset) {
      var j :| 0 <= j < |labels| && offset + labels[j] < |u.used| && u.used[offset + labels[j]];
      assert offset + labels[j] < |t.used|;
    }
  }

  /** First fit: the least offset from 1 up at which every label's slot is free. */
  method Allocate(t: Table, labels: seq<byte>, free: nat) returns (u: Table, offset: nat, nextFree: nat)
    requires Sized(t) && 256 <= |t.used| && Increasing(labels)
    requires free == 1 && !t.used[1]
    ensures Extends(t, u) && nextFree == 1
    ensures 1 <= offset && offset + labels[|labels| - 1] < |u.used|
    ensures !Clash(u.used, labels, offset)
    ensures forall o :: 1 <= o < offset ==> Clash(t.used, labels, o)
  {
    var slot := NextFree(t.used, free);
    nextFree := slot;
    u := t;
    while true
      invariant Extends(t, u) && 1 <= slot <= |t.used| && slot <= |u.used|
      invariant slot < |u.used| ==> !u.used[slot]
      invariant forall o :: 1 <= o && o + labels[0] < slot ==> Clash(t.used, labels, o)
      decreases |t.used| - slot
    {
      if slot > labels[0] {
        offset := slot - labels[0];
        u := GrowMore(t, u, offset + labels[|labels| - 1] + 1);
        if !Clash(u.used, labels, offset) {
          return;
        }
        ClashExtends(t, u, labels, offset);
      }
      ghost var previous := slot;
      Passed(t, u, labels, slot);
      slot := NextFree(u.used, slot + 1);
      SlotsInUse(t, u, previous, slot);
      forall o | 1 <= o && o + labels[0] < slot ensures Clash(t.used, labels, o) {
        if o + labels[0] > previous { UsedClashes(t, u, labels, o); }
      }
    }
  }

  /** The next free slot is at most the first one past the old table, and all before it are in use. */
  lemma {:induction false} SlotsInUse(t: Table, u: Table, previous: nat, slot: nat)
    requires Extends(t, u) && previous < |t.used| && slot == NextFree(u.used, previous + 1)
    ensures previous < slot <= |t.used| && slot <= |u.used| && (slot < |u.used| ==> !u.used[slot])
    ensures forall i :: previous < i < slot ==> u.used[i]
  {
    assert |t.used| < |u.used| ==> !u.used[|t.used|];
  }

  lemma {:induction false} UsedClashes(t: Table, u: Table, labels: seq<byte>, o: nat)
    requires Extends(t, u) && Increasing(labels) && o + labels[0] < |u.used| && u.used[o + labels[0]]
    ensures Clash(t.used, labels, o)
  {
    assert Clash(u.used, labels, o);
    ClashExtends(t, u, labels, o);
  }

  method GrowMore(ghost t: Table, u: Table, size: nat) returns (v: Table)
    requires Sized(u) && Extends(t, u)
    ensures Extends(t, v) && size <= |v.used| && |u.used| <= |v.used|
    ensures forall i :: 0 <= i < |u.used| ==> v.used[i] == u.used[i]
  {
    v := Grow(u, size);
  }

  /** A slot past every original one always fits, so a rejected slot is an original one. */
  lemma {:induction false} Passed(t: Table, u: Table, labels: seq<byte>, slot: nat)
    requires Extends(t, u) && 256 <= |t.used| && Increasing(labels) && slot <= |t.used|
    requires slot > labels[0] ==> Clash(u.used, labels, slot - labels[0])
    ensures slot < |t.used|
  {
    assert forall j :: 0 <= j < |labels| ==> labels[0] <= labels[j];
  }

  // ----- Splitting a key range by its next byte -----

  /** Each label owns exactly the keys of the range that continue with it. */
  ghost predicate Grouped(keys: seq<seq<byte>>, lo: nat, hi: nat, level: nat,
                          labels: seq<byte>, ranges: seq<(nat, nat)>)
    requires hi <= |keys| && forall k :: lo <= k < hi ==> level < |keys[k]|
  {
    && |labels| == |ranges|
    && (forall i, j :: 0 <= i < j < |labels| ==> labels[i] < labels[j])
    && (forall j, k {:trigger labels[j], keys[k]} :: 0 <= j < |labels| && 0 <= k < |keys| ==>
          (ranges[j].0 <= k < ranges[j].1 <==> lo <= k < hi && keys[k][level] == labels[j]))
    && (forall j :: 0 <= j < |labels| ==> lo <= ranges[j].0 < ranges[j].1 <= hi)
    && (forall k :: lo <= k < hi ==> keys[k][level] in labels)
  }

  lemma {:induction false} GroupStep(keys: seq<seq<byte>>, lo: nat, at: nat, end: nat, level: nat, labels: seq<byte>,
                                     ranges: seq<(nat, nat)>)
    requires lo <= at < end <= |keys| && forall k :: lo <= k < end ==> level < |keys[k]|
    requires Grouped(keys, lo, at, level, labels, ranges)
    requires forall k :: at <= k < end ==> keys[k][level] == keys[at][level]
    requires forall j :: 0 <= j < |labels| ==> labels[j] < keys[at][level]
    ensures Grouped(keys, lo, end, level, labels + [keys[at][level]], ranges + [(at, end)])
  {
  }

  lemma {:induction false} NoGroups(keys: seq<seq<byte>>, lo: nat, level: nat)
    requires lo <= |keys|
    ensures Grouped(keys, lo, lo, level, [], []) && RangeCost(keys, [], level + 1) == 0
  {
  }

  method Split(keys: seq<seq<byte>>, lo: nat, hi: nat, level: nat) returns (labels: seq<byte>, ranges: seq<(nat, nat)>)
    requires lo <= hi <= |keys| && forall k :: lo <= k < hi ==> level < |keys[k]|
    requires forall i, j :: lo <= i < j < hi ==> keys[i][level] <= keys[j][level]
    ensures Grouped(keys, lo, hi, level, labels, ranges)
    ensures RangeCost(keys, ranges, level + 1) <= 2 * Letters(keys, lo, hi, level)
  {
    hide Letters, Cost, Grouped, RangeCost;
    labels, ranges := [], [];
    var at := lo;
    NoGroups(keys, lo, level);
    while at < hi
      invariant lo <= at <= hi
      invariant Grouped(keys, lo, at, level, labels, ranges)
      invariant at < hi ==> forall j :: 0 <= j < |labels| ==> labels[j] < keys[at][level]
      invariant RangeCost(keys, ranges, level + 1) <= 2 * Letters(keys, lo, at, level)
    {
      var next, end := keys[at][level], at + 1;
      while end < hi && keys[end][level] == next
        invariant at < end <= hi
        invariant forall k :: at <= k < end ==> keys[k][level] == next
      {
        end := end + 1;
      }
      RangeCostStep(keys, ranges, lo, at, end, level);
      GroupStep(keys, lo, at, end, level, labels, ranges);
      labels, ranges, at := labels + [next], ranges + [(at, end)], end;
    }
  }

  // ----- The invariant of the breadth-first loop -----

  /** An unused slot is blank; a used one hangs off a used parent by one label. */
  ghost predicate SlotOk(t: Table, word: map<nat, seq<byte>>, i: nat)
    requires Sized(t) && i < |t.used|
  {
    if i !in word then !t.used[i] && t.parent[i] == NONE && t.key[i] == NONE
    else if i == 0 then t.used[0] && t.parent[0] == 0 && t.depth[0] == 0 && word[0] == []
    else
      var p := t.parent[i];
      t.used[i] && p in word && p < |t.used| && 1 <= i - t.base[p] <= 255 &&
      word[i] == word[p] + [i - t.base[p]] && t.depth[i] == |word[i]|
  }

  /** The used slots form a tree, each named by its path, and slot 1 stays empty. */
  ghost predicate Tree(t: Table, word: map<nat, seq<byte>>)
  {
    && Sized(t) && 256 <= |t.used| && 0 in word && 1 !in word
    && (forall i :: i in word ==> i < |t.used|)
    && (forall i {:trigger SlotOk(t, word, i)} :: 0 <= i < |t.used| ==> SlotOk(t, word, i))
  }

  ghost predicate HasChild(t: Table, word: map<nat, seq<byte>>, p: nat, b: byte)
    requires Sized(t) && p < |t.used|
  {
    var c := t.base[p] + b;
    c in word && c < |t.used| && c != 0 && t.parent[c] == p
  }

  /** A processed slot holds the id of the key that ends there and has a child for every longer key. */
  ghost predicate Finished(t: Table, word: map<nat, seq<byte>>, keys: seq<seq<byte>>, p: nat)
    requires Sized(t) && p in word && p < |t.used|
  {
    && (forall k :: 0 <= k < |keys| && word[p] < keys[k] ==> HasChild(t, word, p, keys[k][|word[p]|]))
    && (forall k :: 0 <= k < |keys| && keys[k] == word[p] ==> t.key[p] == k)
    && (t.key[p] != NONE ==> t.key[p] < |keys| && keys[t.key[p]] == word[p])
  }

  ghost predicate Childless(t: Table, word: map<nat, seq<byte>>, p: nat)
    requires Sized(t)
  {
    forall i :: 0 < i < |t.used| && i in word ==> t.parent[i] != p
  }

  /** A key range holds exactly the keys under a path. */
  ghost predicate Owns(keys: seq<seq<byte>>, lo: nat, hi: nat, w: seq<byte>)
  {
    lo <= hi <= |keys| && forall k :: 0 <= k < |keys| ==> (lo <= k < hi <==> w <= keys[k])
  }

  /** A queued slot has no child yet and owns exactly the keys under its path. */
  ghost predicate Waiting(t: Table, word: map<nat, seq<byte>>, keys: seq<seq<byte>>, q: Task)
    requires Sized(t)
  {
    && q.index in word && q.index < |t.used| && q.level == |word[q.index]| && t.key[q.index] == NONE
    && Owns(keys, q.lo, q.hi, word[q.index])
    && Childless(t, word, q.index)
  }

  ghost predicate Queued(queue: seq<Task>, p: nat) { exists a :: 0 <= a < |queue| && queue[a].index == p }

  ghost predicate Distinct(queue: seq<Task>)
  {
    forall a, b :: 0 <= a < b < |queue| ==> queue[a].index != queue[b].index
  }

  ghost predicate Invariant(t: Table, word: map<nat, seq<byte>>, keys: seq<seq<byte>>, queue: seq<Task>)
  {
    && Tree(t, word) && Distinct(queue)
    && (forall a :: 0 <= a < |queue| ==> Waiting(t, word, keys, queue[a]))
    && (forall p {:trigger Finished(t, word, keys, p)} {:trigger Queued(queue, p)} ::
          p in word && !Queued(queue, p) ==> Finished(t, word, keys, p))
  }

  // ----- One step of the loop -----

  /** What processing a slot amounts to: a key id, an offset and the labels of its new children. */
  datatype Change = Change(index: nat, keyId: nat, offset: nat, labels: seq<byte>, level: nat)
  {
    ghost predicate Child(i: nat) { (i - offset) in labels }
  }

  ghost predicate SlotAfter(t: Table, u: Table, c: Change, i: nat)
    requires Sized(t) && Sized(u) && |t.used| <= |u.used| && i < |u.used|
  {
    && (i < |t.used| && t.used[i] ==> !c.Child(i))
    && u.used[i] == (c.Child(i) || (i < |t.used| && t.used[i]))
    && u.parent[i] == (if c.Child(i) then c.index else if i < |t.used| then t.parent[i] else NONE)
    && u.key[i] == (if i == c.index then c.keyId else if i < |t.used| then t.key[i] else NONE)
    && (c.Child(i) ==> u.depth[i] == c.level + 1)
    && (i < |t.used| && !c.Child(i) ==> u.depth[i] == t.depth[i])
    && (i < |t.used| ==> u.base[i] == if i == c.index then c.offset else t.base[i])
  }

  /** The whole table after a change, growth included. */
  ghost predicate Changed(t: Table, u: Table, c: Change)
  {
    && Sized(t) && Sized(u) && |t.used| <= |u.used|
    && (forall b :: b in c.labels ==> b != 0 && 2 <= c.offset + b < |u.used|)
    && (forall i {:trigger SlotAfter(t, u, c, i)} :: 0 <= i < |u.used| ==> SlotAfter(t, u, c, i))
  }

  ghost predicate WordAfter(word: map<nat, seq<byte>>, next: map<nat, seq<byte>>, c: Change, i: nat)
    requires c.index in word
  {
    && (i in next <==> i in word || c.Child(i))
    && (i in next ==> next[i] == if c.Child(i) then word[c.index] + [i - c.offset] else word[i])
  }

  /** The paths after a change: the old ones and one more label for each child. */
  ghost predicate Renamed(word: map<nat, seq<byte>>, next: map<nat, seq<byte>>, c: Change)
  {
    c.index in word && forall i: nat {:trigger WordAfter(word, next, c, i)} :: WordAfter(word, next, c, i)
  }

  ghost function NewWords(word: map<nat, seq<byte>>, c: Change): (next: map<nat, seq<byte>>)
    requires c.index in word
    ensures Renamed(word, next, c)
  {
    var slots := set b | b in c.labels :: c.offset + b;
    word + map i | i in slots :: word[c.index] + [i - c.offset]
  }

  /** The situation in which a queued slot is processed. */
  ghost predicate Turn(t: Table, u: Table, word: map<nat, seq<byte>>, next: map<nat, seq<byte>>, c: Change)
  {
    && Tree(t, word) && Changed(t, u, c) && Renamed(word, next, c)
    && c.level == |word[c.index]| && Childless(t, word, c.index)
  }

  lemma {:induction false} OldSlot(t: Table, u: Table, word: map<nat, seq<byte>>, next: map<nat, seq<byte>>, c: Change,
                                   i: nat)
    requires Turn(t, u, word, next, c) && i in word
    ensures i in next && next[i] == word[i] && !c.Child(i) && u.parent[i] == t.parent[i] && u.used[i]
    ensures u.depth[i] == t.depth[i] && u.base[i] == if i == c.index then c.offset else t.base[i]
    ensures u.key[i] == if i == c.index then c.keyId else t.key[i]
  {
    assert SlotAfter(t, u, c, i);
    assert SlotOk(t, word, i);
    assert WordAfter(word, next, c, i);
  }

  lemma {:induction false} NewSlot(t: Table, u: Table, word: map<nat, seq<byte>>, next: map<nat, seq<byte>>, c: Change,
                                   i: nat)
    requires Turn(t, u, word, next, c) && c.Child(i)
    ensures 2 <= i < |u.used| && i in next && i !in word && next[i] == word[c.index] + [i - c.offset]
    ensures u.used[i] && u.parent[i] == c.index && u.depth[i] == c.level + 1 && 1 <= i - c.offset <= 255
    ensures c.index != i && u.key[i] == NONE
  {
    assert (i - c.offset) in c.labels;
    assert SlotAfter(t, u, c, i);
    assert WordAfter(word, next, c, i);
    if i < |t.used| { assert SlotOk(t, word, i); }
  }

  lemma {:induction false} SlotKept(t: Table, u: Table, word: map<nat, seq<byte>>, next: map<nat, seq<byte>>, c: Change,
                                    i: nat)
    requires Turn(t, u, word, next, c) && i < |u.used|
    ensures SlotOk(u, next, i)
  {
    OldSlot(t, u, word, next, c, c.index);
    if i in word {
      OldSlot(t, u, word, next, c, i);
      assert SlotOk(t, word, i);
      if i != 0 { OldSlot(t, u, word, next, c, t.parent[i]); }
    } else if c.Child(i) {
      NewSlot(t, u, word, next, c, i);
    } else {
      BlankSlot(t, u, word, next, c, i);
    }
  }

  lemma {:induction false} BlankSlot(t: Table, u: Table, word: map<nat, seq<byte>>, next: map<nat, seq<byte>>,
                                     c: Change, i: nat)
    requires Turn(t, u, word, next, c) && i < |u.used| && i !in word && !c.Child(i)
    ensures SlotOk(u, next, i)
  {
    assert SlotAfter(t, u, c, i);
    assert WordAfter(word, next, c, i);
    if i < |t.used| { assert SlotOk(t, word, i); }
  }

  lemma {:induction false} TreeKept(t: Table, u: Table, word: map<nat, seq<byte>>, next: map<nat, seq<byte>>, c: Change)
    requires Turn(t, u, word, next, c)
    ensures Tree(u, next)
  {
    assert WordAfter(word, next, c, 0) && WordAfter(word, next, c, 1);
    assert !c.Child(1);
    forall i | i in next ensures i < |u.used| {
      assert WordAfter(word, next, c, i);
      if c.Child(i) { NewSlot(t, u, word, next, c, i); }
    }
    forall i | 0 <= i < |u.used| ensures SlotOk(u, next, i) {
      SlotKept(t, u, word, next, c, i);
    }
  }

  lemma {:induction false} FinishedKept(t: Table, u: Table, word: map<nat, seq<byte>>, next: map<nat, seq<byte>>,
                                        c: Change,
                     keys: seq<seq<byte>>, p: nat)
    requires Turn(t, u, word, next, c) && p in word && p != c.index && Finished(t, word, keys, p)
    ensures p in next && p < |u.used| && Finished(u, next, keys, p)
  {
    OldSlot(t, u, word, next, c, p);
    forall k | 0 <= k < |keys| && next[p] < keys[k] ensures HasChild(u, next, p, keys[k][|next[p]|]) {
      var b := keys[k][|word[p]|];
      assert HasChild(t, word, p, b);
      OldSlot(t, u, word, next, c, t.base[p] + b);
    }
  }

  lemma {:induction false} WaitingKept(t: Table, u: Table, word: map<nat, seq<byte>>, next: map<nat, seq<byte>>,
                                       c: Change,
                    keys: seq<seq<byte>>, q: Task)
    requires Turn(t, u, word, next, c) && Waiting(t, word, keys, q) && q.index != c.index
    ensures Waiting(u, next, keys, q)
  {
    OldSlot(t, u, word, next, c, q.index);
    forall i | 0 < i < |u.used| && i in next ensures u.parent[i] != q.index {
      assert WordAfter(word, next, c, i);
      if c.Child(i) { NewSlot(t, u, word, next, c, i); } else { OldSlot(t, u, word, next, c, i); }
    }
  }

  /** The keys left in the range once a key that ends at the path is taken off. */
  ghost predicate Rest(keys: seq<seq<byte>>, w: seq<byte>, keyId: nat, lo: nat, hi: nat)
  {
    && lo <= hi <= |keys|
    && (keyId != NONE ==> keyId < |keys| && keys[keyId] == w)
    && (forall k :: 0 <= k < |keys| && keys[k] == w ==> keyId == k)
    && (forall k :: 0 <= k < |keys| ==> (lo <= k < hi <==> w < keys[k]))
  }

  lemma {:induction false} RestOf(keys: seq<seq<byte>>, w: seq<byte>, lo: nat, hi: nat)
    requires Sorted(keys) && |keys| <= NONE && Owns(keys, lo, hi, w)
    ensures if lo < hi && |keys[lo]| == |w| then Rest(keys, w, lo, lo + 1, hi) else Rest(keys, w, NONE, lo, hi)
  {
    forall k | lo < k < hi ensures |w| < |keys[k]| {
      OrderUnderPrefix(w, keys[lo], keys[k]);
    }
    forall k | 0 <= k < |keys| ensures keys[k] == w ==> lo <= k < hi { }
  }

  lemma {:induction false} LabelsRise(keys: seq<seq<byte>>, w: seq<byte>, keyId: nat, lo: nat, hi: nat)
    requires Sorted(keys) && Rest(keys, w, keyId, lo, hi)
    ensures forall k :: lo <= k < hi ==> |w| < |keys[k]|
    ensures forall i, j :: lo <= i < j < hi ==> keys[i][|w|] <= keys[j][|w|]
  {
    forall i, j | lo <= i < j < hi ensures keys[i][|w|] <= keys[j][|w|] {
      OrderUnderPrefix(w, keys[i], keys[j]);
    }
  }

  lemma {:induction false} SelfFinished(t: Table, u: Table, word: map<nat, seq<byte>>, next: map<nat, seq<byte>>,
                                        c: Change,
                     keys: seq<seq<byte>>, lo: nat, hi: nat, ranges: seq<(nat, nat)>)
    requires Turn(t, u, word, next, c) && Rest(keys, word[c.index], c.keyId, lo, hi)
    requires forall k :: lo <= k < hi ==> c.level < |keys[k]|
    requires Grouped(keys, lo, hi, c.level, c.labels, ranges)
    ensures c.index in next && c.index < |u.used| && Finished(u, next, keys, c.index)
  {
    OldSlot(t, u, word, next, c, c.index);
    forall k | 0 <= k < |keys| && next[c.index] < keys[k]
      ensures HasChild(u, next, c.index, keys[k][|next[c.index]|])
    {
      assert lo <= k < hi;
      var b := keys[k][c.level];
      assert c.Child(c.offset + b);
      NewSlot(t, u, word, next, c, c.offset + b);
    }
  }

  function TaskOf(offset: nat, b: byte, r: (nat, nat), level: nat): Task { Task(offset + b, r.0, r.1, level + 1) }

  lemma {:induction false} ChildWaiting(t: Table, u: Table, word: map<nat, seq<byte>>, next: map<nat, seq<byte>>,
                                        c: Change,
                     keys: seq<seq<byte>>, lo: nat, hi: nat, ranges: seq<(nat, nat)>, j: nat)
    requires Turn(t, u, word, next, c) && Rest(keys, word[c.index], c.keyId, lo, hi)
    requires forall k :: lo <= k < hi ==> c.level < |keys[k]|
    requires Grouped(keys, lo, hi, c.level, c.labels, ranges) && j < |c.labels|
    ensures Waiting(u, next, keys, TaskOf(c.offset, c.labels[j], ranges[j], c.level))
  {
    var w, b := word[c.index], c.labels[j];
    var i := c.offset + b;
    assert c.Child(i);
    NewSlot(t, u, word, next, c, i);
    forall k | 0 <= k < |keys| ensures ranges[j].0 <= k < ranges[j].1 <==> w + [b] <= keys[k] {
      assert ranges[j].0 <= k < ranges[j].1 <==> lo <= k < hi && keys[k][c.level] == c.labels[j];
      if w < keys[k] && keys[k][|w|] == b { assert keys[k][..|w| + 1] == w + [b]; }
    }
    forall x | 0 < x < |u.used| && x in next ensures u.parent[x] != i {
      assert WordAfter(word, next, c, x);
      if c.Child(x) {
        NewSlot(t, u, word, next, c, x);
      } else {
        OldSlot(t, u, word, next, c, x);
        assert SlotOk(t, word, x);
      }
    }
  }

  function Tasks(offset: nat, labels: seq<byte>, ranges: seq<(nat, nat)>, level: nat): (r: seq<Task>)
    requires |labels| == |ranges|
    ensures |r| == |labels|
    ensures forall j :: 0 <= j < |r| ==> r[j] == TaskOf(offset, labels[j], ranges[j], level)
  {
    seq(|labels|, j requires 0 <= j < |labels| => TaskOf(offset, labels[j], ranges[j], level))
  }

  lemma {:induction false} QueueKept(t: Table, u: Table, word: map<nat, seq<byte>>, next: map<nat, seq<byte>>,
                                     c: Change,
                  keys: seq<seq<byte>>, q: Task, queue: seq<Task>, lo: nat, ranges: seq<(nat, nat)>)
    requires Invariant(t, word, keys, [q] + queue) && q.index == c.index && Turn(t, u, word, next, c)
    requires Rest(keys, word[c.index], c.keyId, lo, q.hi)
    requires forall k :: lo <= k < q.hi ==> c.level < |keys[k]|
    requires Grouped(keys, lo, q.hi, c.level, c.labels, ranges)
    ensures var after := queue + Tasks(c.offset, c.labels, ranges, c.level);
            Sized(u) && Distinct(after) && forall a :: 0 <= a < |after| ==> Waiting(u, next, keys, after[a])
  {
    var tasks := Tasks(c.offset, c.labels, ranges, c.level);
    var after := queue + tasks;
    forall a | 0 <= a < |queue| ensures queue[a].index != c.index && Waiting(t, word, keys, queue[a]) {
      assert ([q] + queue)[a + 1] == queue[a] && ([q] + queue)[0] == q;
    }
    forall a | 0 <= a < |after| ensures Waiting(u, next, keys, after[a]) {
      if a < |queue| {
        WaitingKept(t, u, word, next, c, keys, queue[a]);
      } else {
        ChildWaiting(t, u, word, next, c, keys, lo, q.hi, ranges, a - |queue|);
      }
    }
    forall a, b | 0 <= a < b < |after| ensures after[a].index != after[b].index {
      if b < |queue| {
        assert ([q] + queue)[a + 1] == queue[a] && ([q] + queue)[b + 1] == queue[b];
      } else if a < |queue| {
        NewSlot(t, u, word, next, c, after[b].index);
      }
    }
  }

  lemma {:induction false} OthersFinished(t: Table, u: Table, word: map<nat, seq<byte>>, next: map<nat, seq<byte>>,
                                          c: Change,
                       keys: seq<seq<byte>>, q: Task, queue: seq<Task>, lo: nat, ranges: seq<(nat, nat)>, p: nat)
    requires Invariant(t, word, keys, [q] + queue) && q.index == c.index && Turn(t, u, word, next, c)
    requires Rest(keys, word[c.index], c.keyId, lo, q.hi)
    requires forall k :: lo <= k < q.hi ==> c.level < |keys[k]|
    requires Grouped(keys, lo, q.hi, c.level, c.labels, ranges)
    requires p in next
    ensures Queued(queue + Tasks(c.offset, c.labels, ranges, c.level), p) ||
            (Sized(u) && p < |u.used| && Finished(u, next, keys, p))
  {
    var after := queue + Tasks(c.offset, c.labels, ranges, c.level);
    assert WordAfter(word, next, c, p);
    if c.Child(p) {
      var j :| 0 <= j < |c.labels| && c.labels[j] == p - c.offset;
      assert after[|queue| + j].index == p;
    } else if p == c.index {
      SelfFinished(t, u, word, next, c, keys, lo, q.hi, ranges);
    } else if Queued([q] + queue, p) {
      var a :| 0 <= a < |queue| + 1 && ([q] + queue)[a].index == p;
      assert after[a - 1].index == p;
    } else {
      FinishedKept(t, u, word, next, c, keys, p);
    }
  }

  /** Processing one queued slot keeps the invariant. */
  lemma {:induction false} InvariantKept(t: Table, u: Table, word: map<nat, seq<byte>>, next: map<nat, seq<byte>>,
                                         c: Change,
                      keys: seq<seq<byte>>, q: Task, queue: seq<Task>, lo: nat, ranges: seq<(nat, nat)>)
    requires Invariant(t, word, keys, [q] + queue) && q.index == c.index && Turn(t, u, word, next, c)
    requires Rest(keys, word[c.index], c.keyId, lo, q.hi)
    requires forall k :: lo <= k < q.hi ==> c.level < |keys[k]|
    requires Grouped(keys, lo, q.hi, c.level, c.labels, ranges)
    ensures Invariant(u, next, keys, queue + Tasks(c.offset, c.labels, ranges, c.level))
  {
    TreeKept(t, u, word, next, c);
    QueueKept(t, u, word, next, c, keys, q, queue, lo, ranges);
    forall p | p in next
      ensures Queued(queue + Tasks(c.offset, c.labels, ranges, c.level), p) || Finished(u, next, keys, p)
    {
      OthersFinished(t, u, word, next, c, keys, q, queue, lo, ranges, p);
    }
  }

  // ----- The loop runs out of work -----

  /** Letters the keys of a range still have below a level. */
  function Letters(keys: seq<seq<byte>>, lo: nat, hi: nat, level: nat): nat
    requires lo <= hi <= |keys|
    decreases hi - lo
  {
    if lo == hi then 0
    else (if level < |keys[hi - 1]| then |keys[hi - 1]| - level else 0) + Letters(keys, lo, hi - 1, level)
  }

  lemma {:induction false} LettersSplit(keys: seq<seq<byte>>, lo: nat, mid: nat, hi: nat, level: nat)
    requires lo <= mid <= hi <= |keys|
    ensures Letters(keys, lo, hi, level) == Letters(keys, lo, mid, level) + Letters(keys, mid, hi, level)
    decreases hi - mid
  {
    if mid < hi { LettersSplit(keys, lo, mid, hi - 1, level); }
  }

  lemma {:induction false} LettersDeeper(keys: seq<seq<byte>>, lo: nat, hi: nat, level: nat)
    requires lo <= hi <= |keys| && forall k :: lo <= k < hi ==> level < |keys[k]|
    ensures Letters(keys, lo, hi, level + 1) + (hi - lo) == Letters(keys, lo, hi, level)
    decreases hi - lo
  {
    if lo < hi { LettersDeeper(keys, lo, hi - 1, level); }
  }

  function Cost(keys: seq<seq<byte>>, lo: nat, hi: nat, level: nat): nat
  {
    if lo <= hi <= |keys| then 1 + 2 * Letters(keys, lo, hi, level) else 0
  }

  function QueueCost(keys: seq<seq<byte>>, queue: seq<Task>): nat
  {
    if queue == [] then 0
    else QueueCost(keys, queue[..|queue| - 1]) +
         var q := queue[|queue| - 1]; Cost(keys, q.lo, q.hi, q.level)
  }

  function RangeCost(keys: seq<seq<byte>>, ranges: seq<(nat, nat)>, level: nat): nat
  {
    if ranges == [] then 0
    else RangeCost(keys, ranges[..|ranges| - 1], level) +
         var r := ranges[|ranges| - 1]; Cost(keys, r.0, r.1, level)
  }

  lemma {:induction false} RangeCostStep(keys: seq<seq<byte>>, ranges: seq<(nat, nat)>, lo: nat, at: nat, end: nat,
                                         level: nat)
    requires lo <= at < end <= |keys| && forall k :: at <= k < end ==> level < |keys[k]|
    requires RangeCost(keys, ranges, level + 1) <= 2 * Letters(keys, lo, at, level)
    ensures RangeCost(keys, ranges + [(at, end)], level + 1) <= 2 * Letters(keys, lo, end, level)
  {
    LettersSplit(keys, lo, at, end, level);
    LettersDeeper(keys, at, end, level);
    assert (ranges + [(at, end)])[..|ranges|] == ranges;
  }

  lemma {:induction false} TasksCost(keys: seq<seq<byte>>, offset: nat, labels: seq<byte>, ranges: seq<(nat, nat)>,
                                     level: nat)
    requires |labels| == |ranges|
    ensures QueueCost(keys, Tasks(offset, labels, ranges, level)) == RangeCost(keys, ranges, level + 1)
  {
    var n := |labels|;
    if n > 0 {
      TasksCost(keys, offset, labels[..n - 1], ranges[..n - 1], level);
      assert Tasks(offset, labels, ranges, level)[..n - 1] == Tasks(offset, labels[..n - 1], ranges[..n - 1], level);
    }
  }

  lemma {:induction false} QueueCostConcat(keys: seq<seq<byte>>, a: seq<Task>, b: seq<Task>)
    ensures QueueCost(keys, a + b) == QueueCost(keys, a) + QueueCost(keys, b)
    decreases |b|
  {
    if b == [] {
      assert a + b == a;
    } else {
      QueueCostConcat(keys, a, b[..|b| - 1]);
      assert (a + b)[..|a + b| - 1] == a + b[..|b| - 1];
    }
  }

  // ----- Writing one node and its children -----

  lemma {:induction false} Prepare(t: Table, u: Table, c: Change)
    requires Sized(t) && c.index < |t.used| && c.labels == []
    requires Extends(t.(key := t.key[c.index := c.keyId]), u)
    ensures Changed(t, u.(base := u.base[c.index := c.offset]), c)
  {
    var v := u.(base := u.base[c.index := c.offset]);
    forall i | 0 <= i < |v.used| ensures SlotAfter(t, v, c, i) {
      if i < |t.used| {
        assert u.used[i] == t.used[i] && u.parent[i] == t.parent[i] && u.depth[i] == t.depth[i] &&
               u.base[i] == t.base[i];
      }
    }
  }

  function PutChild(u: Table, slot: nat, index: nat, level: nat): Table
    requires Sized(u) && slot < |u.used|
  {
    u.(used := u.used[slot := true], parent := u.parent[slot := index], depth := u.depth[slot := level + 1])
  }

  lemma {:induction false} PutChildChanged(t: Table, u: Table, c: Change, b: byte)
    requires Changed(t, u, c) && b != 0 && 2 <= c.offset + b < |u.used|
    requires c.offset + b < |t.used| ==> !t.used[c.offset + b]
    ensures Changed(t, PutChild(u, c.offset + b, c.index, c.level), c.(labels := c.labels + [b]))
  {
    var v, d := PutChild(u, c.offset + b, c.index, c.level), c.(labels := c.labels + [b]);
    forall i | 0 <= i < |v.used| ensures SlotAfter(t, v, d, i) {
      assert SlotAfter(t, u, c, i);
      assert d.Child(i) <==> c.Child(i) || i == c.offset + b;
    }
  }

  lemma {:induction false} FreshSlot(t: Table, u: Table, c: Change, j: nat)
    requires Changed(t, u, c.(labels := [])) && Increasing(c.labels) && 1 <= c.offset && j < |c.labels|
    requires c.offset + c.labels[|c.labels| - 1] < |u.used| && !Clash(u.used, c.labels, c.offset)
    ensures var slot := c.offset + c.labels[j];
            c.labels[j] != 0 && 2 <= slot < |u.used| && (slot < |t.used| ==> !t.used[slot])
  {
    var slot := c.offset + c.labels[j];
    assert c.labels[j] <= c.labels[|c.labels| - 1];
    assert SlotAfter(t, u, c.(labels := []), slot);
  }

  lemma {:induction false} ChangedSized(t: Table, u: Table, c: Change)
    requires Changed(t, u, c)
    ensures Sized(t) && Sized(u)
  {
  }

  /** The child loop: claims each label's slot and queues it with its key range. */
  method PlaceChildren(ghost t: Table, u: Table, c: Change, ranges: seq<(nat, nat)>, queue: seq<Task>)
    returns (v: Table, after: seq<Task>)
    requires Changed(t, u, c.(labels := [])) && |ranges| == |c.labels| && Increasing(c.labels) && 1 <= c.offset
    requires c.offset + c.labels[|c.labels| - 1] < |u.used| && !Clash(u.used, c.labels, c.offset)
    ensures Changed(t, v, c)
    ensures after == queue + Tasks(c.offset, c.labels, ranges, c.level)
  {
    hide Changed, Clash, Increasing;
    ghost var tasks := Tasks(c.offset, c.labels, ranges, c.level);
    v, after := u, queue;
    assert c.labels[..0] == [];
    for j := 0 to |c.labels|
      invariant |v.used| == |u.used|
      invariant Changed(t, v, c.(labels := c.labels[..j]))
      invariant after == queue + tasks[..j]
    {
      var slot := c.offset + c.labels[j];
      FreshSlot(t, u, c, j);
      PutChildChanged(t, v, c.(labels := c.labels[..j]), c.labels[j]);
      assert c.labels[..j] + [c.labels[j]] == c.labels[..j + 1];
      ChangedSized(t, v, c.(labels := c.labels[..j]));
      v := PutChild(v, slot, c.index, c.level);
      after := after + [Task(slot, ranges[j].0, ranges[j].1, c.level + 1)];
    }
    assert c.labels[..|c.labels|] == c.labels && tasks[..|c.labels|] == tasks;
  }

  // ----- The finished table -----

  lemma {:induction false} AllFinished(t: Table, word: map<nat, seq<byte>>, keys: seq<seq<byte>>, p: nat)
    requires Invariant(t, word, keys, []) && p in word
    ensures p < |t.used| && Finished(t, word, keys, p)
  {
    assert !Queued([], p);
  }

  lemma {:induction false} ChildPath(t: Table, word: map<nat, seq<byte>>, keys: seq<seq<byte>>, k: nat,
                                     p: nat) returns (i: nat)
    requires Tree(t, word) && p in word && Finished(t, word, keys, p) && k < |keys| && word[p] < keys[k]
    ensures i in word && word[i] == word[p] + [keys[k][|word[p]|]]
  {
    var b := keys[k][|word[p]|];
    assert HasChild(t, word, p, b);
    i := t.base[p] + b;
    assert SlotOk(t, word, i);
  }

  /** Every prefix of every key has a slot. */
  lemma {:induction false} PathExists(t: Table, word: map<nat, seq<byte>>, keys: seq<seq<byte>>, k: nat,
                                      j: nat) returns (i: nat)
    requires Invariant(t, word, keys, []) && k < |keys| && j <= |keys[k]|
    ensures i in word && word[i] == keys[k][..j]
    decreases j
  {
    i := 0;
    assert SlotOk(t, word, 0);
    if j > 0 {
      var p := PathExists(t, word, keys, k, j - 1);
      AllFinished(t, word, keys, p);
      i := ChildPath(t, word, keys, k, p);
      assert keys[k][..j] == keys[k][..j - 1] + [keys[k][j - 1]];
    }
  }

  /** The number of slots up to the last used one. */
  function UsedSize(used: seq<bool>): (n: nat)
    ensures n <= |used| && (forall i :: n <= i < |used| ==> !used[i]) && (n > 0 ==> used[n - 1])
  {
    if used == [] then 0 else if used[|used| - 1] then |used| else UsedSize(used[..|used| - 1])
  }

  function Nodes(t: Table, size: nat): (r: seq<Node>)
    requires Sized(t) && size <= |t.used|
    ensures |r| == size
    ensures forall i :: 0 <= i < size ==> r[i] == Node(t.base[i], t.parent[i], t.key[i], t.depth[i])
  {
    seq(size, i requires 0 <= i < size => Node(t.base[i], t.parent[i], t.key[i], t.depth[i]))
  }

  /** Unused slots carry no key. */
  ghost predicate Blank(nodes: seq<Node>, word: map<nat, seq<byte>>)
  {
    forall i :: 0 <= i < |nodes| && i !in word ==> nodes[i].key == NONE
  }

  lemma {:induction false} TableIsTree(t: Table, word: map<nat, seq<byte>>)
    requires Tree(t, word)
    ensures var nodes := Nodes(t, UsedSize(t.used));
            IsTree(nodes, word) && Blank(nodes, word) && (|nodes| > 1 ==> nodes[1].parent == NONE)
  {
    var nodes := Nodes(t, UsedSize(t.used));
    forall i | i in word ensures i < |nodes| { assert SlotOk(t, word, i); }
    forall i | 0 <= i < |nodes| && i !in word
      ensures nodes[i].parent == NONE && nodes[i].key == NONE
    {
      assert SlotOk(t, word, i);
    }
    assert SlotOk(t, word, 0);
    if |nodes| > 1 { assert SlotOk(t, word, 1); }
    forall i | i in word && i != 0 ensures IsEdge(nodes, word, i) { assert SlotOk(t, word, i); }
  }

  lemma {:induction false} KeySlot(t: Table, word: map<nat, seq<byte>>, keys: seq<seq<byte>>, k: nat) returns (i: nat)
    requires Invariant(t, word, keys, []) && k < |keys|
    ensures i in word && i < |t.used| && word[i] == keys[k] && t.key[i] == k
  {
    i := PathExists(t, word, keys, k, |keys[k]|);
    AllFinished(t, word, keys, i);
    assert keys[k][..|keys[k]|] == keys[k];
  }

  lemma {:induction false} FinishedTable(t: Table, word: map<nat, seq<byte>>, keys: seq<seq<byte>>)
    requires Invariant(t, word, keys, []) && |keys| <= NONE
    ensures var nodes := Nodes(t, UsedSize(t.used));
            nodes != [] && Represents(nodes, word, keys) && Blank(nodes, word) &&
            (|nodes| > 1 ==> nodes[1].parent == NONE)
  {
    hide Invariant, Finished, IsTree, Blank;
    InvariantParts(t, word, keys);
    var nodes := Nodes(t, UsedSize(t.used));
    TableIsTree(t, word);
    RootIsEmpty(nodes, word);
    assert forall i :: i in word ==> i < |nodes| by { TreeSlots(nodes, word); }
    forall i | i in word && nodes[i].key != NONE
      ensures nodes[i].key < |keys| && word[i] == keys[nodes[i].key]
    {
      KeyOfSlot(t, word, keys, i);
    }
    forall k | 0 <= k < |keys| ensures HasKey(nodes, word, k, keys[k]) {
      var i := KeySlot(t, word, keys, k);
      assert nodes[i].key == k;
    }
  }

  lemma {:induction false} TreeSlots(nodes: seq<Node>, word: map<nat, seq<byte>>)
    requires IsTree(nodes, word)
    ensures forall i :: i in word ==> i < |nodes|
  {
  }

  lemma {:induction false} InvariantParts(t: Table, word: map<nat, seq<byte>>, keys: seq<seq<byte>>)
    requires Invariant(t, word, keys, [])
    ensures Tree(t, word)
  {
  }

  lemma {:induction false} LastIsUsed(t: Table, word: map<nat, seq<byte>>)
    requires Tree(t, word)
    ensures UsedSize(t.used) - 1 in word
  {
    assert SlotOk(t, word, 0);
    assert SlotOk(t, word, UsedSize(t.used) - 1);
  }

  lemma {:induction false} KeyOfSlot(t: Table, word: map<nat, seq<byte>>, keys: seq<seq<byte>>, i: nat)
    requires Invariant(t, word, keys, []) && i in word && i < |t.key| && t.key[i] != NONE
    ensures t.key[i] < |keys| && word[i] == keys[t.key[i]]
  {
    AllFinished(t, word, keys, i);
  }

  // ----- The builder -----

  /** No used slot is idle: its path leads to some key. */
  ghost predicate Tight(word: map<nat, seq<byte>>, keys: seq<seq<byte>>)
  {
    forall i :: i in word && i != 0 ==> Continues(keys, word[i])
  }

  /** Some key starts with the word. */
  ghost predicate Continues(keys: seq<seq<byte>>, w: seq<byte>) { exists k :: 0 <= k < |keys| && w <= keys[k] }

  lemma {:induction false} TightKept(word: map<nat, seq<byte>>, next: map<nat, seq<byte>>, c: Change,
                                     keys: seq<seq<byte>>,
                  lo: nat, hi: nat, ranges: seq<(nat, nat)>)
    requires Tight(word, keys) && Renamed(word, next, c) && c.level == |word[c.index]|
    requires Rest(keys, word[c.index], c.keyId, lo, hi)
    requires forall k :: lo <= k < hi ==> c.level < |keys[k]|
    requires Grouped(keys, lo, hi, c.level, c.labels, ranges)
    ensures Tight(next, keys)
  {
    forall i | i in next && i != 0 ensures Continues(keys, next[i]) {
      assert WordAfter(word, next, c, i);
      if c.Child(i) {
        var j :| 0 <= j < |c.labels| && c.labels[j] == i - c.offset;
        var k := ranges[j].0;
        assert lo <= k < hi && keys[k][c.level] == c.labels[j];
        Sequences.PrefixSnoc(word[c.index], keys[k]);
        assert next[i] <= keys[k];
      }
    }
  }

  ghost predicate IndexedBy(nodes: seq<Node>, word: map<nat, seq<byte>>, keys: seq<seq<byte>>)
  {
    Represents(nodes, word, keys) && Tight(word, keys) && Blank(nodes, word)
  }

  /** The table indexes exactly the given keys, with no idle slot and no key outside the tree. */
  ghost predicate Indexes(nodes: seq<Node>, keys: seq<seq<byte>>)
  {
    exists word :: IndexedBy(nodes, word, keys)
  }

  /** The last slot of the table is one of the tree. */
  ghost predicate Trimmed(nodes: seq<Node>, keys: seq<seq<byte>>)
  {
    exists word :: IndexedBy(nodes, word, keys) && |nodes| - 1 in word
  }

  /** One turn of the breadth-first loop: what waits stays first in line. */
  method Process(keys: seq<seq<byte>>, t: Table, ghost word: map<nat, seq<byte>>, q: Task, queue: seq<Task>, free: nat)
    returns (u: Table, ghost next: map<nat, seq<byte>>, after: seq<Task>, nextFree: nat)
    requires GoodKeys(keys) && Invariant(t, word, keys, [q] + queue) && Tight(word, keys) && free == 1
    ensures Invariant(u, next, keys, after) && Tight(next, keys) && nextFree == 1
    ensures UsedSize(u.used) <= UsedSize(t.used) + 256
    ensures QueueCost(keys, after) < QueueCost(keys, [q] + queue) && queue <= after
  {
    assert ([q] + queue)[0] == q && Waiting(t, word, keys, q);
    var t1, lo, keyId := TakeKey(keys, t, word, q);
    TurnCost(keys, q, queue, lo);
    if lo == q.hi {
      next := Leaf(keys, t, t1, word, q, queue, lo, keyId);
      u, after, nextFree := t1, queue, free;
    } else {
      LabelsRise(keys, word[q.index], keyId, lo, q.hi);
      u, next, after, nextFree := Inner(keys, t, t1, word, q, queue, lo, keyId, free);
    }
  }

  /** The key that ends at the slot, if any, gives it its id and leaves the range. */
  method TakeKey(keys: seq<seq<byte>>, t: Table, ghost word: map<nat, seq<byte>>, q: Task)
    returns (u: Table, lo: nat, keyId: nat)
    requires GoodKeys(keys) && Sized(t) && Waiting(t, word, keys, q)
    ensures u == t.(key := t.key[q.index := keyId])
    ensures q.lo <= lo <= q.hi && Rest(keys, word[q.index], keyId, lo, q.hi)
  {
    RestOf(keys, word[q.index], q.lo, q.hi);
    u, lo, keyId := t, q.lo, NONE;
    if lo < q.hi && |keys[lo]| == q.level {
      keyId := lo;
      u := u.(key := u.key[q.index := keyId]);
      lo := lo + 1;
    } else {
      assert t.key[q.index := NONE] == t.key;
    }
  }

  /** Nothing clashes past the last used slot, so first fit never starts beyond it. */
  lemma {:induction false} FirstFitBound(used: seq<bool>, labels: seq<byte>, offset: nat)
    requires used != [] && used[0] && forall o :: 1 <= o < offset ==> Clash(used, labels, o)
    ensures offset <= UsedSize(used)
  {
    assert !Clash(used, labels, UsedSize(used));
  }

  lemma {:induction false} UsedSizeAtMost(used: seq<bool>, n: nat)
    requires forall i :: n <= i < |used| ==> !used[i]
    ensures UsedSize(used) <= n
  {
  }

  /** One node's children extend the table by at most 256 slots. */
  lemma {:induction false} SmallGrowth(t: Table, u: Table, c: Change)
    requires Changed(t, u, c) && (c.labels == [] || c.offset <= UsedSize(t.used))
    ensures UsedSize(u.used) <= UsedSize(t.used) + 256
  {
    var n := UsedSize(t.used) + 256;
    forall i | n <= i < |u.used| ensures !u.used[i] {
      assert SlotAfter(t, u, c, i);
    }
    UsedSizeAtMost(u.used, n);
  }

  /** A slot whose range is exhausted gets no children. */
  lemma {:induction false} Leaf(keys: seq<seq<byte>>, t: Table, u: Table, word: map<nat, seq<byte>>, q: Task,
                                queue: seq<Task>, lo: nat, keyId: nat)
    returns (next: map<nat, seq<byte>>)
    requires Invariant(t, word, keys, [q] + queue) && Tight(word, keys) && q.index in word && q.index < |t.used|
    requires Waiting(t, word, keys, q) && u == t.(key := t.key[q.index := keyId])
    requires Rest(keys, word[q.index], keyId, lo, q.hi) && lo == q.hi
    ensures Invariant(u, next, keys, queue) && Tight(next, keys) && UsedSize(u.used) <= UsedSize(t.used) + 256
  {
    var c := Change(q.index, keyId, u.base[q.index], [], q.level);
    Prepare(t, u, c);
    assert u.base[q.index := u.base[q.index]] == u.base;
    next := NewWords(word, c);
    assert Tasks(c.offset, c.labels, [], c.level) == [] && queue + [] == queue;
    InvariantKept(t, u, word, next, c, keys, q, queue, lo, []);
    TightKept(word, next, c, keys, lo, q.hi, []);
    SmallGrowth(t, u, c);
  }

  /** A slot with keys left is given an offset and one child for each next byte. */
  method Inner(keys: seq<seq<byte>>, ghost t: Table, t1: Table, ghost word: map<nat, seq<byte>>, q: Task,
               queue: seq<Task>,
               lo: nat, keyId: nat, free: nat)
    returns (u: Table, ghost next: map<nat, seq<byte>>, after: seq<Task>, nextFree: nat)
    requires GoodKeys(keys) && Invariant(t, word, keys, [q] + queue) && Tight(word, keys) && free == 1
    requires Waiting(t, word, keys, q) && t1 == t.(key := t.key[q.index := keyId])
    requires Rest(keys, word[q.index], keyId, lo, q.hi) && lo < q.hi
    requires forall k :: lo <= k < q.hi ==> q.level < |keys[k]|
    requires forall i, j :: lo <= i < j < q.hi ==> keys[i][q.level] <= keys[j][q.level]
    ensures Invariant(u, next, keys, after) && Tight(next, keys) && nextFree == 1
    ensures UsedSize(u.used) <= UsedSize(t.used) + 256
    ensures QueueCost(keys, after) <= QueueCost(keys, queue) + 2 * Letters(keys, lo, q.hi, q.level)
    ensures queue <= after
  {
    hide Invariant, Tight, Letters, Rest, Grouped, QueueCost, Tasks;
    var labels, ranges := Split(keys, lo, q.hi, q.level);
    LabelsIncrease(keys, lo, q.hi, q.level, labels, ranges);
    InvariantTree(t, word, keys, q, queue);
    var c;
    u, c, after, nextFree := AddChildren(t, t1, word, q, keyId, labels, ranges, queue, free);
    next := NewWords(word, c);
    InvariantKept(t, u, word, next, c, keys, q, queue, lo, ranges);
    TightKept(word, next, c, keys, lo, q.hi, ranges);
    TasksCost(keys, c.offset, labels, ranges, q.level);
    QueueCostConcat(keys, queue, Tasks(c.offset, labels, ranges, q.level));
  }

  lemma {:induction false} InvariantTree(t: Table, word: map<nat, seq<byte>>, keys: seq<seq<byte>>, q: Task,
                                         queue: seq<Task>)
    requires Invariant(t, word, keys, [q] + queue)
    ensures Tree(t, word)
  {
  }

  /** Finds the offset for a slot's labels and claims their slots. */
  method AddChildren(ghost t: Table, t1: Table, ghost word: map<nat, seq<byte>>, q: Task, keyId: nat, labels: seq<byte>,
                     ranges: seq<(nat, nat)>, queue: seq<Task>, free: nat)
    returns (u: Table, c: Change, after: seq<Task>, nextFree: nat)
    requires Tree(t, word) && q.index < |t.used| && t1 == t.(key := t.key[q.index := keyId])
    requires Increasing(labels) && |ranges| == |labels| && free == 1
    ensures c.index == q.index && c.keyId == keyId && c.labels == labels && c.level == q.level
    ensures Changed(t, u, c) && UsedSize(u.used) <= UsedSize(t.used) + 256 && nextFree == 1
    ensures after == queue + Tasks(c.offset, labels, ranges, q.level)
  {
    assert SlotOk(t, word, 1) && SlotOk(t, word, 0);
    var offset;
    u, offset, nextFree := Allocate(t1, labels, free);
    c := Change(q.index, keyId, offset, labels, q.level);
    Prepare(t, u, c.(labels := []));
    FirstFitBound(t.used, labels, offset);
    u := u.(base := u.base[q.index := offset]);
    u, after := PlaceChildren(t, u, c, ranges, queue);
    SmallGrowth(t, u, c);
  }

  lemma {:induction false} LabelsIncrease(keys: seq<seq<byte>>, lo: nat, hi: nat, level: nat, labels: seq<byte>,
                                          ranges: seq<(nat, nat)>)
    requires GoodKeys(keys) && lo < hi <= |keys| && forall k :: lo <= k < hi ==> level < |keys[k]|
    requires Grouped(keys, lo, hi, level, labels, ranges)
    ensures Increasing(labels) && |ranges| == |labels|
  {
    assert keys[lo][level] in labels;
    var k := ranges[0].0;
    assert keys[k][level] == labels[0];
  }

  lemma {:induction false} TurnCost(keys: seq<seq<byte>>, q: Task, queue: seq<Task>, lo: nat)
    requires q.lo <= lo <= q.hi <= |keys|
    ensures QueueCost(keys, [q] + queue) >= QueueCost(keys, queue) + 1 + 2 * Letters(keys, lo, q.hi, q.level)
  {
    QueueCostConcat(keys, [q], queue);
    LettersSplit(keys, q.lo, lo, q.hi, q.level);
    assert [q][..0] == [];
  }

  /** The whole builder: the table it returns answers every lookup as the key list would. */
  method MakeTrie(keys: seq<seq<byte>>) returns (nodes: seq<Node>)
    requires GoodKeys(keys)
    ensures nodes != [] && (|nodes| > 1 ==> nodes[1].parent == NONE)
    ensures Indexes(nodes, keys) && Trimmed(nodes, keys)
    ensures |nodes| <= 257 + 512 * Letters(keys, 0, |keys|, 0)
  {
    hide Invariant, Tight, Letters, QueueCost, Represents, Blank;
    var t := Grow(Table([], [], [], [], []), 256);
    t := t.(parent := t.parent[0 := 0], used := t.used[0 := true]);
    ghost var word: map<nat, seq<byte>> := map[0 := []];
    var queue := [Task(0, 0, |keys|, 0)];
    var free := 1;
    Start(keys, t, word, queue);
    FirstCost(keys, queue);
    UsedSizeAtMost(t.used, 1);
    while queue != []
      invariant Invariant(t, word, keys, queue) && Tight(word, keys) && free == 1
      invariant UsedSize(t.used) + 256 * QueueCost(keys, queue) <= 257 + 512 * Letters(keys, 0, |keys|, 0)
      decreases QueueCost(keys, queue)
    {
      var q, rest := queue[0], queue[1..];
      assert queue == [q] + rest;
      t, word, queue, free := Process(keys, t, word, q, rest, free);
    }
    FinishedTable(t, word, keys);
    InvariantParts(t, word, keys);
    nodes := Nodes(t, UsedSize(t.used));
    assert IndexedBy(nodes, word, keys);
    LastIsUsed(t, word);
  }

  lemma {:induction false} FirstCost(keys: seq<seq<byte>>, queue: seq<Task>)
    requires queue == [Task(0, 0, |keys|, 0)]
    ensures QueueCost(keys, queue) == 1 + 2 * Letters(keys, 0, |keys|, 0)
  {
    hide Letters;
    assert queue[..0] == [];
  }

  lemma {:induction false} Start(keys: seq<seq<byte>>, t: Table, word: map<nat, seq<byte>>, queue: seq<Task>)
    requires Sized(t) && 256 <= |t.used| && word == map[0 := []] && queue == [Task(0, 0, |keys|, 0)]
    requires t.used[0] && t.parent[0] == 0 && t.depth[0] == 0 && t.key[0] == NONE
    requires forall i :: 0 < i < |t.used| ==> !t.used[i] && t.parent[i] == NONE && t.key[i] == NONE
    ensures Invariant(t, word, keys, queue) && Tight(word, keys)
  {
    assert queue[0].index == 0;
    assert Queued(queue, 0);
  }

  /** Trie correctness: a NUL-free word finds key `k` exactly when it is the `k`-th key. */
  lemma {:induction false} TrieCorrect(nodes: seq<Node>, keys: seq<seq<byte>>, w: seq<byte>, k: nat)
    requires Indexes(nodes, keys) && NulFree(w)
    ensures nodes != [] && (Lookup(nodes, w) == Some(k) <==> k < |keys| && keys[k] == w)
  {
    hide Represents, Tight;
    var word :| IndexedBy(nodes, word, keys);
    BlankKeepsKeys(nodes, word);
    LookupIsKeyList(nodes, word, keys, w, k);
    RootIsEmpty(nodes, word) by { RepresentsTree(nodes, word, keys); }
  }

  lemma {:induction false} BlankKeepsKeys(nodes: seq<Node>, word: map<nat, seq<byte>>)
    requires Blank(nodes, word)
    ensures !AstrayKey(nodes, word)
  {
  }

  lemma {:induction false} RepresentsTree(nodes: seq<Node>, word: map<nat, seq<byte>>, keys: seq<seq<byte>>)
    requires Represents(nodes, word, keys)
    ensures IsTree(nodes, word)
  {
  }

  /** The used slots are exactly the prefixes of the keys: a word leads somewhere iff some key continues it. */
  lemma {:induction false} WalkIsPrefix(nodes: seq<Node>, keys: seq<seq<byte>>, w: seq<byte>)
    requires Indexes(nodes, keys) && NulFree(w) && w != [] && |nodes| <= NONE
    ensures nodes != [] && (Walk(nodes, 0, w).Some? <==> Continues(keys, w))
  {
    hide Represents, IsTree, Walk;
    var word :| IndexedBy(nodes, word, keys);
    RepresentsTree(nodes, word, keys);
    RootIsEmpty(nodes, word);
    SmallTable(nodes, word);
    WalkSound(nodes, word, w);
    if k :| 0 <= k < |keys| && w <= keys[k] {
      PrefixLeads(nodes, word, keys, w, k);
    }
  }

  lemma {:induction false} PrefixLeads(nodes: seq<Node>, word: map<nat, seq<byte>>, keys: seq<seq<byte>>, w: seq<byte>,
                                       k: nat)
    requires Represents(nodes, word, keys) && k < |keys| && w <= keys[k]
    ensures nodes != [] && Walk(nodes, 0, w).Some?
  {
    assert HasKey(nodes, word, k, keys[k]);
    var i :| i in word && i < |nodes| && nodes[i].key == k && word[i] == keys[k];
    WalkComplete(nodes, word, i);
    assert keys[k] == w + keys[k][|w|..];
    WalkPrefix(nodes, 0, w, keys[k][|w|..]);
  }

  lemma {:induction false} WalkPrefix(nodes: seq<Node>, p: nat, a: seq<byte>, b: seq<byte>)
    requires p < |nodes| && Walk(nodes, p, a + b).Some?
    ensures Walk(nodes, p, a).Some?
    decreases |a|
  {
    if a != [] {
      assert (a + b)[1..] == a[1..] + b;
      WalkPrefix(nodes, Step(nodes, p, a[0]).value, a[1..], b);
    }
  }
}