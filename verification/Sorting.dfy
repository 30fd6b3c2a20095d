/** Python's `sorted` over a finite set of texts: the one ascending list of its elements. */
module Sorting {
  import opened Utf8

  type Text = seq<scalar>

  ghost predicate Ascending(r: seq<Text>) { forall i, j :: 0 <= i < j < |r| ==> Less(r[i], r[j]) }

  ghost predicate SortedList(r: seq<Text>, s: set<Text>)
  {
    Ascending(r) && forall x :: x in r <==> x in s
  }

  lemma {:induction false} LeastExists(s: set<Text>) returns (m: Text)
    requires s != {}
    ensures m in s && forall x :: x in s ==> x == m || Less(m, x)
    decreases |s|
  {
    m :| m in s;
    if s != {m} {
      var n := LeastExists(s - {m});
      LessTotal(m, n);
      if Less(n, m) {
        m := n;
      } else {
        forall x | x in s ensures x == m || Less(m, x) {
          if x != m && x != n { LessTransitive(m, n, x); }
        }
      }
    }
  }

  method SortTexts(s: set<Text>) returns (r: seq<Text>)
    ensures SortedList(r, s)
  {
    var rest := s;
    r := [];
    while rest != {}
      invariant rest <= s && Ascending(r)
      invariant forall x :: x in s <==> x in r || x in rest
      invariant forall x, y :: x in r && y in rest ==> Less(x, y)
      decreases rest
    {
      ghost var least := LeastExists(rest);
      var m :| m in rest && forall x :: x in rest ==> x == m || Less(m, x);
      r := r + [m];
      rest := rest - {m};
    }
  }
}
