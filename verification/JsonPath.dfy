/**
  JSON objects and dotted paths into them: reading a leaf, writing a leaf, and the laws that make
  the pair a lens, with every other path left as it was.
 */
module JsonPath {
  import opened Utf8

  datatype Json =
    | Null
    | Bool(flag: bool)
    | Number(number: real)
    | String(text: string)
    | Array(items: seq<Json>)
    | Object(members: Members)

  type Members = map<string, Json>

  type Keys = seq<string>

  // ----- Key lists -----

  function Child(o: Members, key: string): Members
  {
    if key in o && o[key].Object? then o[key].members else map[]
  }

  function Get(o: Members, keys: Keys): Option<Json>
    requires keys != []
    decreases |keys|
  {
    if keys[0] !in o then None
    else if |keys| == 1 then Some(o[keys[0]])
    else if o[keys[0]].Object? then Get(o[keys[0]].members, keys[1..])
    else None
  }

  function Put(o: Members, keys: Keys, value: Json): Members
    requires keys != []
    decreases |keys|
  {
    if |keys| == 1 then o[keys[0] := value]
    else o[keys[0] := Object(Put(Child(o, keys[0]), keys[1..], value))]
  }

  /** Neither path leads through the other. */
  predicate Apart(a: Keys, b: Keys) { !(a <= b) && !(b <= a) }

  lemma {:induction false} ApartTail(a: Keys, b: Keys)
    requires Apart(a, b)
    ensures a != [] && b != []
    ensures a[0] == b[0] ==> |a| > 1 && |b| > 1 && Apart(a[1..], b[1..])
  {
    if a[0] == b[0] {
      if |a| > 1 && |b| > 1 {
        assert a[1..] <= b[1..] ==> a <= b;
        assert b[1..] <= a[1..] ==> b <= a;
      }
    }
  }

  /** What was written is read back. */
  lemma {:induction false} PutGet(o: Members, keys: Keys, value: Json)
    requires keys != []
    ensures Get(Put(o, keys, value), keys) == Some(value)
    decreases |keys|
  {
    if |keys| > 1 { PutGet(Child(o, keys[0]), keys[1..], value); }
  }

  /** Writing back what was read changes nothing. */
  lemma {:induction false} GetPut(o: Members, keys: Keys)
    requires keys != [] && Get(o, keys).Some?
    ensures Put(o, keys, Get(o, keys).value) == o
    decreases |keys|
  {
    if |keys| > 1 { GetPut(o[keys[0]].members, keys[1..]); }
  }

  /** The last write wins. */
  lemma {:induction false} PutPut(o: Members, keys: Keys, first: Json, second: Json)
    requires keys != []
    ensures Put(Put(o, keys, first), keys, second) == Put(o, keys, second)
    decreases |keys|
  {
    if |keys| > 1 { PutPut(Child(o, keys[0]), keys[1..], first, second); }
  }

  /** A write leaves every path apart from its own as it was, present or absent. */
  lemma {:induction false} PutElsewhere(o: Members, keys: Keys, value: Json, other: Keys)
    requires Apart(keys, other)
    ensures keys != [] && other != [] && Get(Put(o, keys, value), other) == Get(o, other)
    decreases |keys|
  {
    ApartTail(keys, other);
    if keys[0] == other[0] { PutElsewhere(Child(o, keys[0]), keys[1..], value, other[1..]); }
  }

  /** What a write stores under its first key. */
  function Stored(o: Members, keys: Keys, value: Json): Json
    requires keys != []
  {
    if |keys| == 1 then value else Object(Put(Child(o, keys[0]), keys[1..], value))
  }

  lemma {:induction false} PutStores(o: Members, keys: Keys, value: Json)
    requires keys != []
    ensures Put(o, keys, value) == o[keys[0] := Stored(o, keys, value)]
  {
  }

  lemma {:induction false} StoredDepends(o: Members, p: Members, keys: Keys, value: Json)
    requires keys != [] && Child(o, keys[0]) == Child(p, keys[0])
    ensures Stored(o, keys, value) == Stored(p, keys, value)
  {
  }

  /** Writes to paths apart from each other can be made in either order. */
  lemma {:induction false} PutCommutes(o: Members, a: Keys, x: Json, b: Keys, y: Json)
    requires Apart(a, b)
    ensures a != [] && b != [] && Put(Put(o, a, x), b, y) == Put(Put(o, b, y), a, x)
    decreases |a|
  {
    hide Put, Apart, Stored;
    ApartTail(a, b);
    if a[0] == b[0] {
      PutCommutes(Child(o, a[0]), a[1..], x, b[1..], y);
      PutTwice(o, a, x, b, y);
      PutTwice(o, b, y, a, x);
    } else {
      PutBoth(o, a, x, b, y);
      PutBoth(o, b, y, a, x);
      var k, l, u, v := a[0], b[0], Stored(o, a, x), Stored(o, b, y);
      assert o[k := u][l := v] == o[l := v][k := u];
    }
  }

  /** Two writes under one key are two writes into its object. */
  lemma {:induction false} PutTwice(o: Members, a: Keys, x: Json, b: Keys, y: Json)
    requires |a| > 1 && |b| > 1 && a[0] == b[0]
    ensures Put(Put(o, a, x), b, y) == o[a[0] := Object(Put(Put(Child(o, a[0]), a[1..], x), b[1..], y))]
  {
    hide Put;
    var p := Put(o, a, x);
    PutStores(o, a, x);
    PutStores(p, b, y);
    assert Child(p, b[0]) == Put(Child(o, a[0]), a[1..], x);
  }

  lemma {:induction false} PutBoth(o: Members, a: Keys, x: Json, b: Keys, y: Json)
    requires a != [] && b != [] && a[0] != b[0]
    ensures Put(Put(o, a, x), b, y) == o[a[0] := Stored(o, a, x)][b[0] := Stored(o, b, y)]
  {
    hide Put, Stored;
    var p := Put(o, a, x);
    PutStores(o, a, x);
    PutStores(p, b, y);
    StoredDepends(o, p, b, y);
  }

  /** Below a written path lies what was written; above it lies an object. */
  lemma {:induction false} PutAround(o: Members, keys: Keys, value: Json, below: Keys)
    requires keys != [] && below != []
    ensures Get(Put(o, keys, value), keys + below) == (if value.Object? then Get(value.members, below) else None)
    ensures forall n :: 0 < n < |keys| ==>
      Get(Put(o, keys, value), keys[..n]).Some? && Get(Put(o, keys, value), keys[..n]).value.Object?
    decreases |keys|
  {
    var all := keys + below;
    assert all[0] == keys[0] && all[1..] == keys[1..] + below;
    if |keys| > 1 {
      PutAround(Child(o, keys[0]), keys[1..], value, below);
      forall n | 0 < n < |keys|
        ensures Get(Put(o, keys, value), keys[..n]).Some? && Get(Put(o, keys, value), keys[..n]).value.Object?
      {
        assert keys[..n][0] == keys[0] && keys[..n][1..] == keys[1..][..n - 1];
      }
    }
  }

  // ----- Dotted paths -----

  /** Where the first dot is, or the length when there is none. */
  function FirstDot(path: string): (n: nat)
    ensures n <= |path| && (n < |path| ==> path[n] == '.') && forall i :: 0 <= i < n ==> path[i] != '.'
  {
    if path == "" || path[0] == '.' then 0 else 1 + FirstDot(path[1..])
  }

  function Split(path: string): (keys: Keys)
    ensures keys != []
    decreases |path|
  {
    var dot := FirstDot(path);
    if dot == |path| then [path[..dot]] else [path[..dot]] + Split(path[dot + 1..])
  }

  function Join(keys: Keys): string
    requires keys != []
  {
    if |keys| == 1 then keys[0] else keys[0] + "." + Join(keys[1..])
  }

  predicate NoDot(key: string) { forall i :: 0 <= i < |key| ==> key[i] != '.' }

  lemma {:induction false} JoinSplit(path: string)
    ensures Join(Split(path)) == path
    decreases |path|
  {
    hide FirstDot, Split;
    var dot := FirstDot(path);
    SplitStep(path, dot);
    assert dot == |path| ==> path[..dot] == path;
    if dot < |path| {
      JoinSplit(path[dot + 1..]);
      assert path == path[..dot] + "." + path[dot + 1..];
    }
  }

  lemma {:induction false} SplitStep(path: string, dot: nat)
    requires dot == FirstDot(path)
    ensures Split(path) == if dot == |path| then [path[..dot]] else [path[..dot]] + Split(path[dot + 1..])
  {
    hide FirstDot;
  }

  lemma {:induction false} FirstDotAt(key: string, rest: string)
    requires NoDot(key)
    ensures FirstDot(key) == |key| && FirstDot(key + "." + rest) == |key|
  {
    var path := key + "." + rest;
    assert path[|key|] == '.' && forall i :: 0 <= i < |key| ==> path[i] == key[i];
  }

  lemma {:induction false} SplitJoin(keys: Keys)
    requires keys != [] && forall i :: 0 <= i < |keys| ==> NoDot(keys[i])
    ensures Split(Join(keys)) == keys
    decreases |keys|
  {
    hide Split, NoDot, FirstDot;
    var key, path := keys[0], Join(keys);
    if |keys| == 1 {
      FirstDotAt(key, "");
      SplitStep(path, |path|);
      assert path[..|path|] == key;
    } else {
      var rest := Join(keys[1..]);
      SplitJoin(keys[1..]);
      assert path == key + "." + rest;
      FirstDotAt(key, rest);
      SplitStep(path, |key|);
      assert path[|key| + 1..] == rest && path[..|key|] == key;
    }
  }

  /** The cursor loop over a dotted path. */
  method FindPath(root: Members, path: string) returns (r: Option<Json>)
    ensures r == Get(root, Split(path))
  {
    hide Split;
    var members, rest := root, path;
    while true
      invariant Get(root, Split(path)) == Get(members, Split(rest))
      decreases |rest|
    {
      var dot := FirstDot(rest);
      var key := rest[..dot];
      SplitStep(rest, dot);
      assert dot < |rest| ==> Split(rest)[1..] == Split(rest[dot + 1..]);
      if key !in members { return None; }
      if dot == |rest| { return Some(members[key]); }
      if !members[key].Object? { return None; }
      members := members[key].members;
      rest := rest[dot + 1..];
    }
  }

  /** The recursive write: the enclosing object is copied, or begun, and stored back. */
  method SetPath(root: Members, path: string, value: Json) returns (r: Members)
    ensures r == Put(root, Split(path), value)
    decreases |path|
  {
    hide Split, Put;
    var dot := FirstDot(path);
    var key := path[..dot];
    SplitStep(path, dot);
    PutStores(root, Split(path), value);
    r := root;
    if dot == |path| {
      r := r[key := value];
      return;
    }
    var child: Members := map[];
    if key in root && root[key].Object? { child := root[key].members; }
    child := SetPath(child, path[dot + 1..], value);
    assert Split(path)[1..] == Split(path[dot + 1..]);
    r := r[key := Object(child)];
  }

  // ----- What a set of writes leaves alone -----

  /** `p` is apart from every path in `written`. */
  ghost predicate Clear(p: Keys, written: set<Keys>) { p != [] && forall t :: t in written ==> Apart(p, t) }

  ghost predicate Frame(a: Members, b: Members, written: set<Keys>)
  {
    forall p: Keys {:trigger Get(b, p)} :: Clear(p, written) ==> Get(b, p) == Get(a, p)
  }

  lemma {:induction false} FrameCompose(a: Members, b: Members, c: Members, v: set<Keys>, w: set<Keys>)
    requires Frame(a, b, v) && Frame(b, c, w)
    ensures Frame(a, c, v + w)
  {
    forall p: Keys | Clear(p, v + w) ensures Get(c, p) == Get(a, p) {
      assert Clear(p, v) && Clear(p, w);
      assert Get(b, p) == Get(a, p);
    }
  }

  lemma {:induction false} FrameWiden(a: Members, b: Members, v: set<Keys>, w: set<Keys>)
    requires Frame(a, b, v) && v <= w
    ensures Frame(a, b, w)
  {
    forall p: Keys | Clear(p, w) ensures Get(b, p) == Get(a, p) { assert Clear(p, v); }
  }

  lemma {:induction false} PutFrame(o: Members, keys: Keys, value: Json)
    requires keys != []
    ensures Frame(o, Put(o, keys, value), {keys})
  {
    forall p: Keys | Clear(p, {keys}) ensures Get(Put(o, keys, value), p) == Get(o, p) {
      assert keys in {keys};
      PutElsewhere(o, keys, value, p);
    }
  }
}
