/** Python's `list.sort()` / `sorted()` for values ordered by a rank tuple.
  * Python compares tuples lexicographically (a proper prefix first), and its
  * sort is stable: values of equal rank keep their input order. */
module StableSort {

  /** `a <= b` for Python tuples of integers. */
  predicate LexLe(a: seq<int>, b: seq<int>)
  {
    |a| == 0 || (|b| > 0 && (a[0] < b[0] || (a[0] == b[0] && LexLe(a[1..], b[1..]))))
  }

  lemma {:induction false} LexLeReflexive(a: seq<int>)
    ensures LexLe(a, a)
  {
    if |a| > 0 {
      LexLeReflexive(a[1..]);
    }
  }

  lemma {:induction false} LexLeTotal(a: seq<int>, b: seq<int>)
    ensures LexLe(a, b) || LexLe(b, a)
  {
    if |a| > 0 && |b| > 0 && a[0] == b[0] {
      LexLeTotal(a[1..], b[1..]);
    }
  }

  lemma {:induction false} LexLeTransitive(a: seq<int>, b: seq<int>, c: seq<int>)
    requires LexLe(a, b) && LexLe(b, c)
    ensures LexLe(a, c)
  {
    if |a| > 0 && a[0] == b[0] && b[0] == c[0] {
      LexLeTransitive(a[1..], b[1..], c[1..]);
    }
  }

  lemma {:induction false} LexLeAntisymmetric(a: seq<int>, b: seq<int>)
    requires LexLe(a, b) && LexLe(b, a)
    ensures a == b
  {
    if |a| > 0 {
      LexLeAntisymmetric(a[1..], b[1..]);
      assert a == [a[0]] + a[1..];
      assert b == [b[0]] + b[1..];
    }
  }

  /** Every element's rank is at most every later element's rank. */
  ghost predicate SortedBy<E>(s: seq<E>, rank: E -> seq<int>)
  {
    forall i, j :: 0 <= i < j < |s| ==> LexLe(rank(s[i]), rank(s[j]))
  }

  /** The elements of `s` whose rank is `k`, in their order in `s`. */
  function RankClass<E>(s: seq<E>, rank: E -> seq<int>, k: seq<int>): seq<E>
  {
    if |s| == 0 then []
    else RankClass(s[..|s| - 1], rank, k) + (if rank(s[|s| - 1]) == k then [s[|s| - 1]] else [])
  }

  /** Puts `x` after every element whose rank is at most its own, scanning
    * from the right: the insertion step of a stable insertion sort. */
  function InsertBy<E>(x: E, t: seq<E>, rank: E -> seq<int>): seq<E>
  {
    if |t| == 0 then [x]
    else if LexLe(rank(t[|t| - 1]), rank(x)) then t + [x]
    else InsertBy(x, t[..|t| - 1], rank) + [t[|t| - 1]]
  }

  /** The stable sort Python's `list.sort()` performs. */
  function SortBy<E>(s: seq<E>, rank: E -> seq<int>): seq<E>
  {
    if |s| == 0 then [] else InsertBy(s[|s| - 1], SortBy(s[..|s| - 1], rank), rank)
  }

  lemma {:induction false} RankClassAppend<E>(a: seq<E>, b: seq<E>, rank: E -> seq<int>, k: seq<int>)
    ensures RankClass(a + b, rank, k) == RankClass(a, rank, k) + RankClass(b, rank, k)
    decreases |b|
  {
    if |b| > 0 {
      assert (a + b)[..|a + b| - 1] == a + b[..|b| - 1];
      RankClassAppend(a, b[..|b| - 1], rank, k);
    } else {
      assert a + b == a;
    }
  }

  lemma {:induction false} InsertByPermutes<E>(x: E, t: seq<E>, rank: E -> seq<int>)
    ensures multiset(InsertBy(x, t, rank)) == multiset(t) + multiset{x}
    decreases |t|
  {
    if |t| > 0 && !LexLe(rank(t[|t| - 1]), rank(x)) {
      InsertByPermutes(x, t[..|t| - 1], rank);
      assert t == t[..|t| - 1] + [t[|t| - 1]];
    }
  }

  /** Inserting keeps every rank class in order and appends `x` to its own. */
  lemma {:induction false} InsertByStable<E>(x: E, t: seq<E>, rank: E -> seq<int>, k: seq<int>)
    ensures RankClass(InsertBy(x, t, rank), rank, k)
         == RankClass(t, rank, k) + (if rank(x) == k then [x] else [])
    decreases |t|
  {
    if |t| == 0 {
      assert [x][..0] == [];
    } else if LexLe(rank(t[|t| - 1]), rank(x)) {
      assert (t + [x])[..|t|] == t;
    } else {
      var last := t[|t| - 1];
      var init := t[..|t| - 1];
      var u := InsertBy(x, init, rank);
      var xs := if rank(x) == k then [x] else [];
      var ls := if rank(last) == k then [last] else [];
      InsertByStable(x, init, rank, k);
      LexLeReflexive(rank(x));
      assert rank(last) != rank(x);
      assert xs + ls == ls + xs;
      assert (u + [last])[..|u|] == u;
      assert RankClass(u + [last], rank, k) == RankClass(u, rank, k) + ls;
      assert RankClass(t, rank, k) == RankClass(init, rank, k) + ls;
    }
  }

  lemma {:induction false} InsertBySorted<E>(x: E, t: seq<E>, rank: E -> seq<int>)
    requires SortedBy(t, rank)
    ensures SortedBy(InsertBy(x, t, rank), rank)
    decreases |t|
  {
    if |t| > 0 {
      var last := t[|t| - 1];
      if LexLe(rank(last), rank(x)) {
        var r := t + [x];
        forall i, j | 0 <= i < j < |r| ensures LexLe(rank(r[i]), rank(r[j])) {
          if j == |t| && i < |t| - 1 {
            LexLeTransitive(rank(t[i]), rank(last), rank(x));
          }
        }
      } else {
        var init := t[..|t| - 1];
        InsertBySorted(x, init, rank);
        InsertByPermutes(x, init, rank);
        LexLeTotal(rank(last), rank(x));
        var u := InsertBy(x, init, rank);
        var r := u + [last];
        forall i, j | 0 <= i < j < |r| ensures LexLe(rank(r[i]), rank(r[j])) {
          if j == |u| {
            assert r[i] in multiset(u);
            assert r[i] in multiset(init) + multiset{x};
            if r[i] in multiset(init) {
              var m :| 0 <= m < |init| && init[m] == r[i];
              assert t[m] == r[i];
            }
          }
        }
      }
    }
  }

  /** `list.sort()` orders by rank. */
  lemma {:induction false} SortBySorted<E>(s: seq<E>, rank: E -> seq<int>)
    ensures SortedBy(SortBy(s, rank), rank)
    decreases |s|
  {
    if |s| > 0 {
      SortBySorted(s[..|s| - 1], rank);
      InsertBySorted(s[|s| - 1], SortBy(s[..|s| - 1], rank), rank);
    }
  }

  /** `list.sort()` neither loses nor invents elements. */
  lemma {:induction false} SortByPermutes<E>(s: seq<E>, rank: E -> seq<int>)
    ensures multiset(SortBy(s, rank)) == multiset(s)
    ensures |SortBy(s, rank)| == |s|
    decreases |s|
  {
    if |s| > 0 {
      SortByPermutes(s[..|s| - 1], rank);
      InsertByPermutes(s[|s| - 1], SortBy(s[..|s| - 1], rank), rank);
      assert s == s[..|s| - 1] + [s[|s| - 1]];
    }
  }

  /** `list.sort()` is stable: the elements of each rank appear in their
    * input order. */
  lemma {:induction false} SortByStable<E>(s: seq<E>, rank: E -> seq<int>, k: seq<int>)
    ensures RankClass(SortBy(s, rank), rank, k) == RankClass(s, rank, k)
    decreases |s|
  {
    if |s| > 0 {
      SortByStable(s[..|s| - 1], rank, k);
      InsertByStable(s[|s| - 1], SortBy(s[..|s| - 1], rank), rank, k);
    }
  }
}
