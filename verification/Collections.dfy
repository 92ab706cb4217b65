/** Lists and finite sets: repetition, members and sizes. */
module Collections {

  ghost predicate Distinct<T>(s: seq<T>) {
    forall i, j :: 0 <= i < j < |s| ==> s[i] != s[j]
  }

  ghost function Members<T>(s: seq<T>): set<T> {
    set x | x in s
  }

  lemma {:induction false} SubsetSize<T>(a: set<T>, b: set<T>)
    requires a <= b
    ensures |a| <= |b|
  {
    if a != {} {
      var x :| x in a;
      SubsetSize(a - {x}, b - {x});
    }
  }

  lemma {:induction false} DistinctSize<T>(s: seq<T>)
    ensures |Members(s)| <= |s|
    ensures |Members(s)| == |s| <==> Distinct(s)
  {
    if s != [] {
      var front, last := s[..|s| - 1], s[|s| - 1];
      DistinctSize(front);
      assert s == front + [last];
      assert Members(s) == Members(front) + {last};
      if last in front {
        assert Members(s) == Members(front);
        var i :| 0 <= i < |front| && front[i] == last;
        assert s[i] == s[|front|];
      }
    }
  }

  lemma {:induction false} DistinctOnce<T>(s: seq<T>, x: T)
    requires Distinct(s)
    ensures multiset(s)[x] <= 1
  {
    if s != [] {
      DistinctOnce(s[..|s| - 1], x);
      assert s == s[..|s| - 1] + [s[|s| - 1]];
      assert s[|s| - 1] !in s[..|s| - 1];
    }
  }

  lemma RepeatedTwice<T>(s: seq<T>, i: nat, j: nat)
    requires i < j < |s| && s[i] == s[j]
    ensures multiset(s)[s[i]] >= 2
  {
    assert s == s[..j] + s[j..];
    assert s[..j][i] == s[i] && s[j..][0] == s[i];
    assert s[i] in multiset(s[..j]) && s[i] in multiset(s[j..]);
  }

  // A query result: the members of a set in some order.
  ghost predicate Lists<T>(rows: seq<T>, all: set<T>) {
    && Distinct(rows)
    && (forall i :: 0 <= i < |rows| ==> rows[i] in all)
    && (forall x :: x in all ==> x in rows)
  }

  method ListOf<T(==)>(all: set<T>) returns (rows: seq<T>)
    ensures Lists(rows, all)
  {
    rows := [];
    var todo := all;
    while todo != {}
      invariant Lists(rows, all - todo) && todo <= all
    {
      var x :| x in todo;
      rows := rows + [x];
      todo := todo - {x};
    }
  }

  lemma ListSize<T>(rows: seq<T>, all: set<T>)
    requires Lists(rows, all)
    ensures |rows| == |all|
  {
    assert Members(rows) == all;
    DistinctSize(rows);
  }

  ghost predicate IsLargest<T(!new)>(x: T, all: set<T>, rank: T -> int) {
    x in all && forall y :: y in all ==> rank(y) <= rank(x)
  }

  lemma {:induction false} LargestExists<T(!new)>(all: set<T>, rank: T -> int) returns (x: T)
    requires all != {}
    ensures IsLargest(x, all, rank)
  {
    x :| x in all;
    if all == {x} {
      assert IsLargest(x, all, rank);
    } else {
      var y := LargestExists(all - {x}, rank);
      assert forall z :: z in all ==> z == x || z in all - {x};
      if rank(x) < rank(y) {
        x := y;
      }
    }
  }
}
