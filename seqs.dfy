/** Filtering a table (the WHERE of a SELECT or DELETE) and properties that hold between every two
    rows of a table in order (uniqueness constraints, timestamp order). */
module Seqs {

  /** The rows of s that keep accepts, in their order in s. */
  function Filter<T(!new)>(s: seq<T>, keep: T -> bool): (r: seq<T>)
    ensures |r| <= |s|
    ensures forall x :: x in r <==> x in s && keep(x)
  {
    if s == [] then []
    else (if keep(s[0]) then [s[0]] else []) + Filter(s[1..], keep)
  }

  /** R holds of every two rows of s, the earlier one first. */
  ghost predicate Pairwise<T(!new)>(s: seq<T>, R: (T, T) -> bool) {
    forall i, j :: 0 <= i < j < |s| ==> R(s[i], s[j])
  }

  lemma {:induction false} FilterAll<T(!new)>(s: seq<T>, keep: T -> bool)
    requires forall x :: x in s ==> keep(x)
    ensures Filter(s, keep) == s
  {
    if s != [] {
      FilterAll(s[1..], keep);
    }
  }

  lemma {:induction false} FilterNone<T(!new)>(s: seq<T>, keep: T -> bool)
    requires forall x :: x in s ==> !keep(x)
    ensures Filter(s, keep) == []
  {
    if s != [] {
      FilterNone(s[1..], keep);
    }
  }

  /** Filtering a table with a row appended = filtering the table, then the new row if it is kept. */
  lemma {:induction false} FilterAppend<T(!new)>(s: seq<T>, x: T, keep: T -> bool)
    ensures Filter(s + [x], keep) == Filter(s, keep) + (if keep(x) then [x] else [])
  {
    var last := if keep(x) then [x] else [];
    if s == [] {
      assert s + [x] == [x];
      assert Filter([x], keep) == last + Filter([], keep);
    } else {
      var head := if keep(s[0]) then [s[0]] else [];
      assert (s + [x])[0] == s[0];
      assert (s + [x])[1..] == s[1..] + [x];
      FilterAppend(s[1..], x, keep);
      calc {
        Filter(s + [x], keep);
        head + Filter(s[1..] + [x], keep);
        head + (Filter(s[1..], keep) + last);
        (head + Filter(s[1..], keep)) + last;
        Filter(s, keep) + last;
      }
    }
  }

  /** Deleting rows keeps every pairwise property of the remaining rows. */
  lemma {:induction false} FilterPairwise<T(!new)>(s: seq<T>, keep: T -> bool, R: (T, T) -> bool)
    requires Pairwise(s, R)
    ensures Pairwise(Filter(s, keep), R)
  {
    if s != [] {
      PairwiseTail(s, R);
      FilterPairwise(s[1..], keep, R);
      var t := Filter(s[1..], keep);
      if keep(s[0]) {
        PairwiseCons(s[0], t, R);
      } else {
        assert Filter(s, keep) == [] + t;
      }
    }
  }

  /** The rows after the first keep R among themselves, and the first row is in R with each of them. */
  lemma PairwiseTail<T(!new)>(s: seq<T>, R: (T, T) -> bool)
    requires Pairwise(s, R) && s != []
    ensures Pairwise(s[1..], R)
    ensures forall y :: y in s[1..] ==> R(s[0], y)
  {
    forall i, j | 0 <= i < j < |s[1..]| ensures R(s[1..][i], s[1..][j]) {
      assert s[1..][i] == s[i + 1] && s[1..][j] == s[j + 1];
    }
    forall y | y in s[1..] ensures R(s[0], y) {
      var k :| 0 <= k < |s[1..]| && s[1..][k] == y;
      assert s[k + 1] == y;
    }
  }

  /** A row in relation R with every row of t, put in front of t, keeps Pairwise(_, R). */
  lemma PairwiseCons<T(!new)>(x: T, t: seq<T>, R: (T, T) -> bool)
    requires Pairwise(t, R)
    requires forall y :: y in t ==> R(x, y)
    ensures Pairwise([x] + t, R)
  {
    var r := [x] + t;
    forall i, j | 0 <= i < j < |r| ensures R(r[i], r[j]) {
      assert r[j] == t[j - 1];
      if i == 0 {
        assert t[j - 1] in t;
      } else {
        assert r[i] == t[i - 1];
      }
    }
  }

  /** Appending a row that stands in relation R to every earlier row keeps Pairwise(_, R). */
  lemma PairwiseAppend<T(!new)>(s: seq<T>, x: T, R: (T, T) -> bool)
    requires Pairwise(s, R)
    requires forall y :: y in s ==> R(y, x)
    ensures Pairwise(s + [x], R)
  {
    var r := s + [x];
    forall i, j | 0 <= i < j < |r| ensures R(r[i], r[j]) {
      if j == |s| {
        assert r[i] in s;
      } else {
        assert r[i] == s[i] && r[j] == s[j];
      }
    }
  }

  /** Filtering by a condition that implies an earlier filter's condition: the earlier filter adds nothing. */
  lemma {:induction false} FilterSubsumed<T(!new)>(s: seq<T>, first: T -> bool, second: T -> bool)
    requires forall x :: x in s && second(x) ==> first(x)
    ensures Filter(Filter(s, first), second) == Filter(s, second)
  {
    if s != [] {
      FilterSubsumed(s[1..], first, second);
      var rest := Filter(s[1..], first);
      if first(s[0]) {
        assert Filter(s, first) == [s[0]] + rest;
        assert ([s[0]] + rest)[1..] == rest;
      } else {
        assert Filter(s, first) == rest;
      }
    }
  }
}
