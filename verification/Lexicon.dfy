/**
  `load_entries`: checks the rows of the lexicon files and merges those that name the same reading
  key and surface. `rows` are the rows of all files in the order of the files' names.
 */
module Lexicon {
  import opened Utf8
  import opened Sorting
  import opened Azdic
  import opened AzdicBuild
  import opened DoubleArray
  import Aliases

  /** A row as read: an absent cost or frequency is `None`; a category not in the list is 10 or more. */
  datatype Row = Row(surface: Text, reading: Text, pos: Text, source: string, cost: Option<int>,
                     frequency: Option<real>, category: set<nat>)

  type Identity = (Text, Text)

  function Cost(row: Row): int
  {
    var cost := if row.cost.Some? then row.cost.value else 5000;
    if cost > 32767 then 32767 else if cost < -32768 then -32768 else cost
  }

  /** The given frequency, or one that falls with the cost. */
  function Frequency(row: Row): real
  {
    if row.frequency.Some? then row.frequency.value
    else
      var guess := (8000 - Cost(row)) as real / 10000.0;
      if guess > 1.0 then 1.0 else if guess < 0.0 then 0.0 else guess
  }

  /** Costs are kept in 16 bits; a row without one costs 5000. */
  lemma {:induction false} CostMeans(row: Row)
    ensures row.cost.None? ==> Cost(row) == 5000
    ensures row.cost.Some? && -32768 <= row.cost.value <= 32767 ==> Cost(row) == row.cost.value
    ensures row.cost.Some? && row.cost.value > 32767 ==> Cost(row) == 32767
    ensures row.cost.Some? && row.cost.value < -32768 ==> Cost(row) == -32768
  {
  }

  /** A frequency not given is 1 up to a cost of -2000 and 0 from 8000 on, and falls evenly in between. */
  lemma {:induction false} FrequencyMeans(row: Row)
    ensures row.frequency.Some? ==> Frequency(row) == row.frequency.value
    ensures row.frequency.None? && Cost(row) <= -2000 ==> Frequency(row) == 1.0
    ensures row.frequency.None? && Cost(row) >= 8000 ==> Frequency(row) == 0.0
    ensures row.frequency.None? && -2000 <= Cost(row) <= 8000 ==>
      10000.0 * (1.0 - Frequency(row)) == (Cost(row) + 2000) as real
  {
    hide Cost;
  }

  predicate RowOk(row: Row, sources: set<string>)
  {
    row.source in sources && HasText(row.reading) && HasText(row.surface) && row.pos != [] &&
    0.0 <= Frequency(row) <= 1.0 && forall c :: c in row.category ==> c < 10
  }

  function ItemOf(row: Row): Item
  {
    Item(row.surface, row.reading, Normalize(row.reading), row.pos, Cost(row), Frequency(row), row.category)
  }

  function RowIdentity(row: Row): Identity { (Normalize(row.reading), row.surface) }

  // ----- What merging means -----

  /** Row `w` names `id` and comes first among the most frequent rows that do. */
  ghost predicate Wins(rows: seq<Row>, w: nat, id: Identity)
  {
    w < |rows| && RowIdentity(rows[w]) == id &&
    forall i :: 0 <= i < |rows| && RowIdentity(rows[i]) == id ==>
      Frequency(rows[i]) <= Frequency(rows[w]) && (i < w ==> Frequency(rows[i]) < Frequency(rows[w]))
  }

  ghost predicate Cheapest(rows: seq<Row>, id: Identity, cost: int)
  {
    (forall i :: 0 <= i < |rows| && RowIdentity(rows[i]) == id ==> cost <= Cost(rows[i])) &&
    exists i :: 0 <= i < |rows| && RowIdentity(rows[i]) == id && cost == Cost(rows[i])
  }

  ghost predicate AllCategories(rows: seq<Row>, id: Identity, category: set<nat>)
  {
    (forall i :: 0 <= i < |rows| && RowIdentity(rows[i]) == id ==> rows[i].category <= category) &&
    forall c :: c in category ==> exists i :: 0 <= i < |rows| && RowIdentity(rows[i]) == id && c in rows[i].category
  }

  /** The winner's entry with the least cost and every category of the rows that name `id`. */
  ghost predicate Merges(x: Item, rows: seq<Row>, w: nat, id: Identity)
  {
    Wins(rows, w, id) && x.surface == rows[w].surface && x.reading == rows[w].reading &&
    x.key == Normalize(rows[w].reading) && x.pos == rows[w].pos && x.frequency == Frequency(rows[w]) &&
    Cheapest(rows, id, x.cost) && AllCategories(rows, id, x.category)
  }

  ghost predicate Named(rows: seq<Row>, id: Identity) { exists i :: 0 <= i < |rows| && RowIdentity(rows[i]) == id }

  ghost predicate Holds(merged: map<Identity, Item>, rows: seq<Row>)
  {
    (forall id :: id in merged <==> Named(rows, id)) &&
    forall id :: id in merged ==> exists w: nat :: Merges(merged[id], rows, w, id)
  }

  // ----- One more row -----

  lemma {:induction false} RowsBefore(rows: seq<Row>, row: Row)
    ensures forall i :: 0 <= i < |rows| ==> (rows + [row])[i] == rows[i]
    ensures (rows + [row])[|rows|] == row
  {
  }

  lemma {:induction false} OtherIdentity(x: Item, rows: seq<Row>, row: Row, w: nat, id: Identity)
    requires Merges(x, rows, w, id) && RowIdentity(row) != id
    ensures Merges(x, rows + [row], w, id)
  {
    hide RowIdentity, Frequency, Cost, ItemOf;
    var more := rows + [row];
    RowsBefore(rows, row);
    forall c | c in x.category
      ensures exists i :: 0 <= i < |more| && RowIdentity(more[i]) == id && c in more[i].category
    {
      var i :| 0 <= i < |rows| && RowIdentity(rows[i]) == id && c in rows[i].category;
      assert more[i] == rows[i];
    }
    var i :| 0 <= i < |rows| && RowIdentity(rows[i]) == id && x.cost == Cost(rows[i]);
    assert more[i] == rows[i];
  }

  lemma {:induction false} NewIdentity(rows: seq<Row>, row: Row)
    requires !Named(rows, RowIdentity(row))
    ensures Merges(ItemOf(row), rows + [row], |rows|, RowIdentity(row))
  {
    hide RowIdentity, Frequency;
    var more, id := rows + [row], RowIdentity(row);
    RowsBefore(rows, row);
    assert forall i :: 0 <= i < |rows| ==> RowIdentity(more[i]) != id by {
      forall i | 0 <= i < |rows| ensures RowIdentity(more[i]) != id { assert more[i] == rows[i]; }
    }
    assert RowIdentity(more[|rows|]) == id;
  }

  function Joined(previous: Item, row: Row): Item
  {
    var winner := if Frequency(row) > previous.frequency then ItemOf(row) else previous;
    var cost := if Cost(row) < previous.cost then Cost(row) else previous.cost;
    winner.(cost := cost, category := row.category + previous.category)
  }

  lemma {:induction false} JoinWins(rows: seq<Row>, row: Row, w: nat, id: Identity)
    requires Wins(rows, w, id) && RowIdentity(row) == id
    ensures Wins(rows + [row], if Frequency(row) > Frequency(rows[w]) then |rows| else w, id)
  {
    hide RowIdentity, Frequency;
    RowsBefore(rows, row);
  }

  lemma {:induction false} JoinCheapest(rows: seq<Row>, row: Row, id: Identity, cost: int)
    requires Cheapest(rows, id, cost) && RowIdentity(row) == id
    ensures Cheapest(rows + [row], id, if Cost(row) < cost then Cost(row) else cost)
  {
    hide RowIdentity, Cost;
    var more := rows + [row];
    RowsBefore(rows, row);
    var i :| 0 <= i < |rows| && RowIdentity(rows[i]) == id && cost == Cost(rows[i]);
    assert more[i] == rows[i] && more[|rows|] == row;
  }

  lemma {:induction false} JoinCategories(rows: seq<Row>, row: Row, id: Identity, category: set<nat>)
    requires AllCategories(rows, id, category) && RowIdentity(row) == id
    ensures AllCategories(rows + [row], id, row.category + category)
  {
    hide RowIdentity;
    var more := rows + [row];
    RowsBefore(rows, row);
    forall c | c in row.category + category
      ensures exists i :: 0 <= i < |more| && RowIdentity(more[i]) == id && c in more[i].category
    {
      if c in row.category {
        assert more[|rows|] == row;
      } else {
        var i :| 0 <= i < |rows| && RowIdentity(rows[i]) == id && c in rows[i].category;
        assert more[i] == rows[i];
      }
    }
  }

  lemma {:induction false} Join(previous: Item, rows: seq<Row>, row: Row, w: nat, id: Identity)
    requires Merges(previous, rows, w, id) && RowIdentity(row) == id
    ensures Merges(Joined(previous, row), rows + [row], if Frequency(row) > Frequency(rows[w]) then |rows| else w, id)
  {
    hide RowIdentity, Frequency, Cost, Wins, Cheapest, AllCategories;
    RowsBefore(rows, row);
    JoinWins(rows, row, w, id);
    JoinCheapest(rows, row, id, previous.cost);
    JoinCategories(rows, row, id, previous.category);
    assert w < |rows| by { WinnerIsRow(rows, w, id); }
    assert previous.frequency == Frequency(rows[w]);
  }

  lemma {:induction false} WinnerIsRow(rows: seq<Row>, w: nat, id: Identity)
    requires Wins(rows, w, id)
    ensures w < |rows|
  {
  }

  lemma {:induction false} NamedMore(rows: seq<Row>, row: Row, id: Identity)
    ensures Named(rows + [row], id) <==> Named(rows, id) || RowIdentity(row) == id
  {
    hide RowIdentity;
    var more := rows + [row];
    RowsBefore(rows, row);
    if Named(rows, id) {
      var i :| 0 <= i < |rows| && RowIdentity(rows[i]) == id;
      assert more[i] == rows[i];
    }
    if RowIdentity(row) == id { assert more[|rows|] == row; }
  }

  function Added(merged: map<Identity, Item>, row: Row): map<Identity, Item>
  {
    var id := RowIdentity(row);
    merged[id := if id in merged then Joined(merged[id], row) else ItemOf(row)]
  }

  /** Taking in one more row keeps the merge what it should be. */
  lemma {:induction false} AddedHolds(merged: map<Identity, Item>, rows: seq<Row>, row: Row)
    requires Holds(merged, rows)
    ensures Holds(Added(merged, row), rows + [row])
  {
    hide RowIdentity, Merges, Joined, ItemOf, Named;
    var now, more, mine := Added(merged, row), rows + [row], RowIdentity(row);
    forall id ensures id in now <==> Named(more, id) { NamedMore(rows, row, id); }
    forall id | id in now ensures exists w: nat :: Merges(now[id], more, w, id) {
      if id != mine {
        var w: nat :| Merges(merged[id], rows, w, id);
        OtherIdentity(merged[id], rows, row, w, id);
      } else if id in merged {
        var w: nat :| Merges(merged[id], rows, w, id);
        Join(merged[id], rows, row, w, id);
      } else {
        NewIdentity(rows, row);
      }
    }
  }

  // ----- The order of the result -----

  predicate IdentityLess(a: Identity, b: Identity) { Less(a.0, b.0) || (a.0 == b.0 && Less(a.1, b.1)) }

  lemma {:induction false} IdentityTotal(a: Identity, b: Identity)
    ensures IdentityLess(a, b) || a == b || IdentityLess(b, a)
  {
    hide Less;
    LessTotal(a.0, b.0);
    LessTotal(a.1, b.1);
  }

  lemma {:induction false} IdentityTransitive(a: Identity, b: Identity, c: Identity)
    requires IdentityLess(a, b) && IdentityLess(b, c)
    ensures IdentityLess(a, c)
  {
    hide Less;
    if Less(a.0, b.0) && Less(b.0, c.0) { LessTransitive(a.0, b.0, c.0); }
    if Less(a.1, b.1) && Less(b.1, c.1) { LessTransitive(a.1, b.1, c.1); }
  }

  lemma {:induction false} LeastIdentity(s: set<Identity>) returns (m: Identity)
    requires s != {}
    ensures m in s && forall x :: x in s ==> x == m || IdentityLess(m, x)
    decreases |s|
  {
    hide IdentityLess;
    m :| m in s;
    if s != {m} {
      var n := LeastIdentity(s - {m});
      IdentityTotal(m, n);
      if IdentityLess(n, m) {
        m := n;
      } else {
        forall x | x in s ensures x == m || IdentityLess(m, x) {
          if x != m && x != n { IdentityTransitive(m, n, x); }
        }
      }
    }
  }

  ghost predicate InOrder(ids: seq<Identity>) { forall i, j :: 0 <= i < j < |ids| ==> IdentityLess(ids[i], ids[j]) }

  method SortIdentities(s: set<Identity>) returns (r: seq<Identity>)
    ensures InOrder(r) && forall x :: x in r <==> x in s
  {
    hide IdentityLess;
    var rest := s;
    r := [];
    while rest != {}
      invariant rest <= s && InOrder(r)
      invariant forall x :: x in s <==> x in r || x in rest
      invariant forall x, y :: x in r && y in rest ==> IdentityLess(x, y)
      decreases rest
    {
      ghost var least := LeastIdentity(rest);
      var m :| m in rest && forall x :: x in rest ==> x == m || IdentityLess(m, x);
      r := r + [m];
      rest := rest - {m};
    }
  }

  // ----- Loading -----

  function ItemIdentity(x: Item): Identity { (x.key, x.surface) }

  ghost predicate Present(items: seq<Item>, id: Identity)
  {
    exists i :: 0 <= i < |items| && ItemIdentity(items[i]) == id
  }

  ghost predicate IsMerge(x: Item, rows: seq<Row>) { exists w: nat :: Merges(x, rows, w, ItemIdentity(x)) }

  /** One entry for every identity the rows name, in order, each the merge of the rows that name it. */
  ghost predicate Loaded(items: seq<Item>, rows: seq<Row>)
  {
    (forall i, j :: 0 <= i < j < |items| ==>
      Less(items[i].key, items[j].key) ||
      (items[i].key == items[j].key && Less(items[i].surface, items[j].surface))) &&
    (forall i :: 0 <= i < |items| ==> IsMerge(items[i], rows)) &&
    forall k :: 0 <= k < |rows| ==> Present(items, RowIdentity(rows[k]))
  }

  ghost predicate AllRowsOk(rows: seq<Row>, sources: set<string>)
  {
    forall i :: 0 <= i < |rows| ==> RowOk(rows[i], sources)
  }

  function Contributing(rows: seq<Row>): set<string> { set i | 0 <= i < |rows| :: rows[i].source }

  /** The merge of acceptable rows is what building an image asks of an entry. */
  lemma {:induction false} MergedIsOk(x: Item, rows: seq<Row>, w: nat, id: Identity, sources: set<string>)
    requires Merges(x, rows, w, id) && AllRowsOk(rows, sources)
    ensures ItemOk(x) && ItemIdentity(x) == id
  {
    hide Normalize, HasText, Frequency;
    assert RowOk(rows[w], sources);
    var i :| 0 <= i < |rows| && RowIdentity(rows[i]) == id && x.cost == Cost(rows[i]);
    forall c | c in x.category ensures c < 10 {
      var k :| 0 <= k < |rows| && RowIdentity(rows[k]) == id && c in rows[k].category;
      assert RowOk(rows[k], sources);
    }
  }

  method LoadEntries(rows: seq<Row>, sources: set<string>) returns (r: Option<seq<Item>>)
    ensures r.Some? <==> AllRowsOk(rows, sources) && Contributing(rows) == sources
    ensures r.Some? ==> Loaded(r.value, rows) && forall i :: 0 <= i < |r.value| ==> ItemOk(r.value[i])
  {
    hide RowOk, RowIdentity, Holds, Joined, ItemOf, IdentityLess;
    var contributed: set<string> := {};
    var merged: map<Identity, Item> := map[];
    NothingMerged();
    assert rows[..0] == [];
    for k := 0 to |rows|
      invariant contributed == Contributing(rows[..k]) && Holds(merged, rows[..k])
      invariant forall i :: 0 <= i < k ==> RowOk(rows[i], sources)
    {
      var row := rows[k];
      RowOkMeans(row, sources);
      if row.source !in sources || row.reading == [] || 0 in row.reading || row.surface == [] || 0 in row.surface ||
         row.pos == [] || Frequency(row) < 0.0 || Frequency(row) > 1.0 || exists c :: c in row.category && c >= 10 {
        return None;
      }
      assert rows[..k + 1] == rows[..k] + [row];
      ContributingMore(rows[..k], row);
      AddedHolds(merged, rows[..k], row);
      contributed := contributed + {row.source};
      var id := RowIdentity(row);
      if id in merged {
        merged := merged[id := Joined(merged[id], row)];
      } else {
        merged := merged[id := ItemOf(row)];
      }
    }
    assert rows[..|rows|] == rows;
    if contributed != sources { return None; }
    var ids := SortIdentities(merged.Keys);
    forall i | 0 <= i < |ids| ensures ids[i] in merged { assert ids[i] in ids; }
    var items := seq(|ids|, i requires 0 <= i < |ids| => merged[ids[i]]);
    LoadedInOrder(merged, ids, items, rows, sources);
    return Some(items);
  }

  lemma {:induction false} RowOkMeans(row: Row, sources: set<string>)
    ensures RowOk(row, sources) <==>
            row.source in sources && row.reading != [] && 0 !in row.reading && row.surface != [] &&
            0 !in row.surface && row.pos != [] && 0.0 <= Frequency(row) <= 1.0 &&
            forall c :: c in row.category ==> c < 10
  {
  }

  lemma {:induction false} NothingMerged()
    ensures Holds(map[], [])
  {
  }

  lemma {:induction false} ContributingMore(rows: seq<Row>, row: Row)
    ensures Contributing(rows + [row]) == Contributing(rows) + {row.source}
  {
    var more := rows + [row];
    RowsBefore(rows, row);
    forall s ensures s in Contributing(more) <==> s in Contributing(rows) + {row.source} {
      if s in Contributing(rows) {
        var i :| 0 <= i < |rows| && s == rows[i].source;
        assert more[i].source == s;
      }
      assert more[|rows|].source == row.source;
    }
  }

  lemma {:induction false} LoadedInOrder(merged: map<Identity, Item>, ids: seq<Identity>, items: seq<Item>,
                                         rows: seq<Row>, sources: set<string>)
    requires Holds(merged, rows) && InOrder(ids) && (forall x :: x in ids <==> x in merged) && AllRowsOk(rows, sources)
    requires |items| == |ids| && forall i :: 0 <= i < |ids| ==> ids[i] in merged && items[i] == merged[ids[i]]
    ensures Loaded(items, rows) && forall i :: 0 <= i < |items| ==> ItemOk(items[i])
  {
    hide Merges, RowIdentity, ItemOk, AllRowsOk, Less;
    forall i | 0 <= i < |items|
      ensures ItemOk(items[i]) && ItemIdentity(items[i]) == ids[i] && IsMerge(items[i], rows)
    {
      var w: nat :| Merges(merged[ids[i]], rows, w, ids[i]);
      MergedIsOk(merged[ids[i]], rows, w, ids[i], sources);
      assert Merges(items[i], rows, w, ItemIdentity(items[i]));
    }
    forall i, j | 0 <= i < j < |items|
      ensures Less(items[i].key, items[j].key) ||
              (items[i].key == items[j].key && Less(items[i].surface, items[j].surface))
    {
      assert IdentityLess(ids[i], ids[j]) && ItemIdentity(items[i]) == ids[i] && ItemIdentity(items[j]) == ids[j];
    }
    forall k | 0 <= k < |rows| ensures Present(items, RowIdentity(rows[k])) {
      var id := RowIdentity(rows[k]);
      assert Named(rows, id) && id in merged && id in ids;
      var i :| 0 <= i < |ids| && ids[i] == id;
      assert ItemIdentity(items[i]) == id;
    }
  }

  // ----- From rows to an image -----

  /** Loading and building in one: the outcome is about the merge of the rows. */
  method Compile(rows: seq<Row>, sources: set<string>, layer: nat, dump: seq<Text> -> seq<byte>,
                 parse: seq<byte> -> Meta)
    returns (o: Option<Outcome>)
    requires layer <= 4 && forall positions :: parse(dump(positions)) == Json(Some(|positions|))
    ensures o.Some? <==> AllRowsOk(rows, sources) && Contributing(rows) == sources
    ensures o.Some? ==> exists items :: Loaded(items, rows) && (forall i :: 0 <= i < |items| ==> ItemOk(items[i])) &&
                                        Truthful(o.value, items, layer, dump, parse)
  {
    hide AllRowsOk, Contributing, Loaded, ItemOk, Truthful;
    var items := LoadEntries(rows, sources);
    if items.None? { return None; }
    var outcome := Build(items.value, layer, dump, parse);
    return Some(outcome);
  }

  /**
    End to end: in the dictionary built from the rows, every spelling of every row's reading leads
    to a key record that refers to the row's entry: the one with its key and surface.
   */
  lemma {:induction false} EveryRowIsFound(t: Tables, texts: seq<Text>, items: seq<Item>, positions: seq<Text>,
                                           rows: seq<Row>, r: nat, key: Text) returns (k: nat, i: nat)
    requires Built(t, texts, items, positions) && (forall j :: 0 <= j < |items| ==> ItemOk(items[j]))
    requires Loaded(items, rows) && r < |rows| && key in Aliases.AliasSet(Normalize(rows[r].reading))
    ensures t.nodes != [] && Lookup(t.nodes, Encode(key)) == Some(k) && k < |t.keys|
    ensures t.keys[k].offset <= i < t.keys[k].offset + t.keys[k].length && i < |t.refs|
    ensures t.refs[i].entry < |items| && ItemIdentity(items[t.refs[i].entry]) == RowIdentity(rows[r])
    ensures t.refs[i].kind == 0 <==> key == Normalize(rows[r].reading)
  {
    hide Built, ItemOk, IsMerge, Encode, Lookup, Normalize, Aliases.AliasSet, Less;
    assert Present(items, RowIdentity(rows[r]));
    var e :| 0 <= e < |items| && ItemIdentity(items[e]) == RowIdentity(rows[r]);
    k, i := EntryIsFound(t, texts, items, positions, e, key);
  }
}
