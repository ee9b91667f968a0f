/**
 * `ORDER BY` as the model uses it: an insertion sort by a comparison, and the
 * elements of a finite set listed in ascending order (a keyed table read in key order).
 */
module Ordering {

  /** `le` compares every pair of values and is transitive; ties are allowed. */
  ghost predicate TotalPreorder<T(!new)>(le: (T, T) -> bool) {
    && (forall a, b :: le(a, b) || le(b, a))
    && (forall a, b, c :: le(a, b) && le(b, c) ==> le(a, c))
  }

  /** Only equal values tie under `le`. */
  ghost predicate Antisymmetric<T(!new)>(le: (T, T) -> bool) {
    forall a, b :: le(a, b) && le(b, a) ==> a == b
  }

  predicate SortedBy<T>(s: seq<T>, le: (T, T) -> bool) {
    forall i, j :: 0 <= i < j < |s| ==> le(s[i], s[j])
  }

  /** Places `x` before the first element it does not come after. */
  function Insert<T(!new)>(x: T, s: seq<T>, le: (T, T) -> bool): (r: seq<T>)
    ensures multiset(r) == multiset(s) + multiset{x}
    ensures TotalPreorder(le) && SortedBy(s, le) ==> SortedBy(r, le)
  {
    if s == [] then [x]
    else if le(x, s[0]) then
      assert TotalPreorder(le) && SortedBy(s, le) ==> SortedBy([x] + s, le) by {
        if TotalPreorder(le) && SortedBy(s, le) {
          assert forall j :: 0 <= j < |s| ==> le(x, s[j]);
          ConsSorted(x, s, le);
        }
      }
      [x] + s
    else
      var rest := Insert(x, s[1..], le);
      assert s == [s[0]] + s[1..];
      assert TotalPreorder(le) && SortedBy(s, le) ==> SortedBy([s[0]] + rest, le) by {
        if TotalPreorder(le) && SortedBy(s, le) {
          HeadPrecedesInsertion(x, s, le, rest);
          ConsSorted(s[0], rest, le);
        }
      }
      [s[0]] + rest
  }

  /** A head that comes before every element of a sorted tail keeps the sequence sorted. */
  lemma ConsSorted<T(!new)>(h: T, t: seq<T>, le: (T, T) -> bool)
    requires TotalPreorder(le) && SortedBy(t, le)
    requires forall j :: 0 <= j < |t| ==> le(h, t[j])
    ensures SortedBy([h] + t, le)
  {
    var r := [h] + t;
    forall i, j | 0 <= i < j < |r| ensures le(r[i], r[j]) {
      assert r[j] == t[j - 1];
      if i > 0 {
        assert r[i] == t[i - 1];
      }
    }
  }

  /** When `x` goes after the head of a sorted `s`, the head comes before everything it is inserted among. */
  lemma HeadPrecedesInsertion<T(!new)>(x: T, s: seq<T>, le: (T, T) -> bool, rest: seq<T>)
    requires s != [] && TotalPreorder(le) && SortedBy(s, le) && !le(x, s[0])
    requires multiset(rest) == multiset(s[1..]) + multiset{x}
    ensures forall j :: 0 <= j < |rest| ==> le(s[0], rest[j])
  {
    forall j | 0 <= j < |rest| ensures le(s[0], rest[j]) {
      assert rest[j] in multiset(rest);
      if rest[j] != x {
        assert rest[j] in multiset(s[1..]);
        var k :| 0 <= k < |s[1..]| && s[1..][k] == rest[j];
        assert s[k + 1] == rest[j];
      }
    }
  }

  /** Insertion sort by `le`. */
  function Sort<T(!new)>(s: seq<T>, le: (T, T) -> bool): (r: seq<T>)
    ensures multiset(r) == multiset(s)
    ensures TotalPreorder(le) ==> SortedBy(r, le)
  {
    if s == [] then []
    else
      assert s == [s[0]] + s[1..];
      Insert(s[0], Sort(s[1..], le), le)
  }

  lemma {:induction false} SortPreservesMembers<T(!new)>(s: seq<T>, le: (T, T) -> bool)
    ensures forall x :: x in Sort(s, le) <==> x in s
    ensures |Sort(s, le)| == |s|
  {
    var r := Sort(s, le);
    assert multiset(r) == multiset(s);
    forall x ensures x in r <==> x in s {
      assert x in r <==> x in multiset(r);
      assert x in s <==> x in multiset(s);
    }
    assert |r| == |multiset(r)| == |multiset(s)| == |s|;
  }

  /** Every non-empty finite set has a least element under a total preorder. */
  lemma {:induction false} Least<T(!new)>(s: set<T>, le: (T, T) -> bool) returns (m: T)
    requires s != {} && TotalPreorder(le)
    ensures m in s && forall y :: y in s ==> le(m, y)
    decreases |s|
  {
    var x :| x in s;
    var rest := s - {x};
    if rest == {} {
      m := x;
      forall y | y in s ensures le(m, y) {
        assert y == x by { assert y !in rest; }
        assert le(x, x) || le(x, x);
      }
    } else {
      var n := Least(rest, le);
      if le(x, n) {
        m := x;
        forall y | y in s ensures le(m, y) {
          if y != x {
            assert le(n, y);
          } else {
            assert le(x, x) || le(x, x);
          }
        }
      } else {
        m := n;
        assert le(n, x);
      }
    }
  }

  lemma LeastExists<T(!new)>(s: set<T>, le: (T, T) -> bool)
    requires s != {} && TotalPreorder(le)
    ensures exists m :: m in s && forall y :: y in s ==> le(m, y)
  {
    var m := Least(s, le);
  }

  /** The elements of `s` in ascending order; `le` must not tie distinct values. */
  function Elements<T(!new)>(s: set<T>, le: (T, T) -> bool): (r: seq<T>)
    requires TotalPreorder(le) && Antisymmetric(le)
    ensures |r| == |s|
    ensures forall x :: x in r <==> x in s
    ensures SortedBy(r, le)
    ensures forall i, j :: 0 <= i < j < |r| ==> r[i] != r[j]
    decreases |s|
  {
    if s == {} then []
    else
      LeastExists(s, le);
      var m :| m in s && forall y :: y in s ==> le(m, y);
      var rest := Elements(s - {m}, le);
      LeastFirst(s, le, m, rest);
      [m] + rest
  }

  /** Putting the least element of `s` before the ordered rest orders all of `s`. */
  lemma LeastFirst<T(!new)>(s: set<T>, le: (T, T) -> bool, m: T, rest: seq<T>)
    requires m in s && forall y :: y in s ==> le(m, y)
    requires |rest| == |s - {m}| && forall x :: x in rest <==> x in s - {m}
    requires SortedBy(rest, le) && forall i, j :: 0 <= i < j < |rest| ==> rest[i] != rest[j]
    ensures var r := [m] + rest;
      && |r| == |s| && (forall x :: x in r <==> x in s)
      && SortedBy(r, le) && forall i, j :: 0 <= i < j < |r| ==> r[i] != r[j]
  {
    var r := [m] + rest;
    forall i, j | 0 <= i < j < |r| ensures le(r[i], r[j]) && r[i] != r[j] {
      assert r[j] == rest[j - 1] && r[j] in rest;
      if i > 0 {
        assert r[i] == rest[i - 1];
      }
    }
  }

  /** The largest number of a non-empty finite set (`ORDER BY ... DESC LIMIT 1`). */
  function Max(s: set<int>): (m: int)
    requires s != {}
    ensures m in s && forall x :: x in s ==> x <= m
  {
    var desc := Elements(s, (a: int, b: int) => a >= b);
    assert desc[0] in s;
    desc[0]
  }
}
