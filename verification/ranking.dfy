/**
 * The ordering step of `parseIndicesBySystemList`: each activity's list
 * is sorted ascending by cost index with Python's stable sort and then
 * reversed in place.
 */
module Ranking {
  import opened Seqs

  /** One (system name, cost index) pair of the report. */
  datatype Metric = Metric(systemName: string, costIndex: real)

  predicate Ascending(s: seq<Metric>) {
    forall i, j :: 0 <= i < j < |s| ==> s[i].costIndex <= s[j].costIndex
  }

  predicate NonIncreasing(s: seq<Metric>) {
    forall i, j :: 0 <= i < j < |s| ==> s[i].costIndex >= s[j].costIndex
  }

  /** The entries of `s` whose cost index is `c`, in order. */
  function WithCost(s: seq<Metric>, c: real): (r: seq<Metric>)
    ensures forall m :: m in r <==> m in s && m.costIndex == c
  {
    if s == [] then []
    else (if s[0].costIndex == c then [s[0]] else []) + WithCost(s[1..], c)
  }

  lemma {:induction false} WithCostConcat(a: seq<Metric>, b: seq<Metric>, c: real)
    ensures WithCost(a + b, c) == WithCost(a, c) + WithCost(b, c)
  {
    if a == [] {
      assert a + b == b;
    } else {
      assert (a + b)[1..] == a[1..] + b;
      WithCostConcat(a[1..], b, c);
    }
  }

  lemma {:induction false} WithCostReverse(s: seq<Metric>, c: real)
    ensures WithCost(Reverse(s), c) == Reverse(WithCost(s, c))
  {
    if s != [] {
      var head := if s[0].costIndex == c then [s[0]] else [];
      WithCostReverse(s[1..], c);
      WithCostConcat(Reverse(s[1..]), [s[0]], c);
      assert WithCost([s[0]], c) == head;
      ReverseConcat(head, WithCost(s[1..], c));
      assert Reverse(head) == head;
    }
  }

  /**
   * Places `m` ahead of the first entry whose cost index is at least its
   * own: a later entry with an equal key therefore goes after `m`, which is
   * what makes the sort stable.
   */
  function Insert(m: Metric, s: seq<Metric>): seq<Metric> {
    if s == [] then [m]
    else if m.costIndex <= s[0].costIndex then [m] + s
    else [s[0]] + Insert(m, s[1..])
  }

  /** Inserting adds exactly `m`. */
  lemma {:induction false} InsertMultiset(m: Metric, s: seq<Metric>)
    ensures multiset(Insert(m, s)) == multiset(s) + multiset{m}
  {
    if s == [] {
      assert Insert(m, s) == [m];
    } else if m.costIndex <= s[0].costIndex {
      assert Insert(m, s) == [m] + s;
      assert multiset([m] + s) == multiset{m} + multiset(s);
    } else {
      var rest := Insert(m, s[1..]);
      InsertMultiset(m, s[1..]);
      assert Insert(m, s) == [s[0]] + rest;
      assert multiset([s[0]] + rest) == multiset{s[0]} + multiset(rest);
      assert multiset(s) == multiset{s[0]} + multiset(s[1..]) by {
        assert s == [s[0]] + s[1..];
      }
    }
  }

  /** Inserting into an ascending list keeps it ascending and adds exactly `m`. */
  lemma {:induction false} InsertSorted(m: Metric, s: seq<Metric>)
    requires Ascending(s)
    ensures Ascending(Insert(m, s))
    ensures multiset(Insert(m, s)) == multiset(s) + multiset{m}
  {
    InsertMultiset(m, s);
    if s != [] && m.costIndex > s[0].costIndex {
      var rest := Insert(m, s[1..]);
      assert Ascending(s[1..]) by {
        forall i, j | 0 <= i < j < |s[1..]|
          ensures s[1..][i].costIndex <= s[1..][j].costIndex
        {
          assert s[1..][i] == s[i + 1] && s[1..][j] == s[j + 1];
        }
      }
      InsertSorted(m, s[1..]);
      InsertAbove(m, s, rest);
    }
  }

  lemma InsertAbove(m: Metric, s: seq<Metric>, rest: seq<Metric>)
    requires s != [] && Ascending(s) && s[0].costIndex < m.costIndex
    requires multiset(rest) == multiset(s[1..]) + multiset{m} && Ascending(rest)
    ensures Ascending([s[0]] + rest)
  {
    var r := [s[0]] + rest;
    forall i, j | 0 <= i < j < |r|
      ensures r[i].costIndex <= r[j].costIndex
    {
      assert r[j] == rest[j - 1];
      if i == 0 {
        var x := rest[j - 1];
        assert x in multiset(rest);
        if x != m {
          assert x in multiset(s[1..]);
          var k :| 0 <= k < |s[1..]| && s[1..][k] == x;
          assert s[k + 1] == x;
        }
      } else {
        assert r[i] == rest[i - 1];
      }
    }
  }

  /**
   * Entries equal in cost index to `m` keep their order, with `m` first
   * among them. Entries ahead of `m` have a smaller cost index, so this
   * holds whether or not the list is sorted.
   */
  lemma {:induction false} InsertStable(m: Metric, s: seq<Metric>, c: real)
    ensures WithCost(Insert(m, s), c) == if m.costIndex == c then [m] + WithCost(s, c) else WithCost(s, c)
  {
    if s == [] {
      assert Insert(m, s) == [m];
      WithCostCons([m], c);
      assert [m][1..] == [];
    } else if m.costIndex <= s[0].costIndex {
      var r := [m] + s;
      assert Insert(m, s) == r;
      WithCostCons(r, c);
      assert r[1..] == s;
    } else {
      var rest := Insert(m, s[1..]);
      var r := [s[0]] + rest;
      assert Insert(m, s) == r;
      InsertStable(m, s[1..], c);
      WithCostCons(r, c);
      assert r[1..] == rest;
      WithCostCons(s, c);
    }
  }

  /** Python's `list.sort(key=cost index)`: ascending, equal keys kept in input order. */
  function SortAscending(s: seq<Metric>): (r: seq<Metric>)
    ensures Ascending(r)
    ensures multiset(r) == multiset(s)
    ensures forall c :: WithCost(r, c) == WithCost(s, c)
  {
    if s == [] then []
    else
      var rest := SortAscending(s[1..]);
      var r := Insert(s[0], rest);
      InsertSorted(s[0], rest);
      forall c
        ensures WithCost(r, c) == if s[0].costIndex == c then [s[0]] + WithCost(rest, c) else WithCost(rest, c)
      {
        InsertStable(s[0], rest, c);
      }
      SortStep(s, rest, r);
      r
  }

  /** Inserting the head into the sorted tail sorts the whole list. */
  lemma SortStep(s: seq<Metric>, rest: seq<Metric>, r: seq<Metric>)
    requires s != []
    requires multiset(rest) == multiset(s[1..]) && forall c :: WithCost(rest, c) == WithCost(s[1..], c)
    requires multiset(r) == multiset(rest) + multiset{s[0]}
    requires forall c :: WithCost(r, c) == if s[0].costIndex == c then [s[0]] + WithCost(rest, c) else WithCost(rest, c)
    ensures multiset(r) == multiset(s)
    ensures forall c :: WithCost(r, c) == WithCost(s, c)
  {
    assert multiset(r) == multiset(s) by {
      assert s == [s[0]] + s[1..];
    }
    forall c
      ensures WithCost(r, c) == WithCost(s, c)
    {
      WithCostCons(s, c);
    }
  }

  lemma WithCostCons(s: seq<Metric>, c: real)
    requires s != []
    ensures WithCost(s, c) == if s[0].costIndex == c then [s[0]] + WithCost(s[1..], c) else WithCost(s[1..], c)
  {
    var here := if s[0].costIndex == c then [s[0]] else [];
    assert WithCost(s, c) == here + WithCost(s[1..], c);
    if s[0].costIndex != c {
      assert here + WithCost(s[1..], c) == WithCost(s[1..], c);
    }
  }

  /**
   * The sort followed by `reverse()`: a permutation of the input, largest
   * cost index first, and entries with equal cost index in the reverse of
   * their insertion order.
   */
  function Rank(s: seq<Metric>): (r: seq<Metric>)
    ensures NonIncreasing(r)
    ensures multiset(r) == multiset(s)
    ensures forall c :: WithCost(r, c) == Reverse(WithCost(s, c))
  {
    var up := SortAscending(s);
    ReverseMultiset(up);
    forall c
      ensures WithCost(Reverse(up), c) == Reverse(WithCost(s, c))
    {
      WithCostReverse(up, c);
    }
    Reverse(up)
  }
}
