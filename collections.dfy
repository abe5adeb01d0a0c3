/** List comprehensions with a condition, and the "exactly one match"
  * lookup several bots build on them. */
module Collections {
  import opened Wrappers

  /** `[x for x in xs if p(x)]`. */
  function Filter<G>(xs: seq<G>, p: G -> bool): (r: seq<G>)
    ensures |r| <= |xs|
    ensures forall k :: 0 <= k < |r| ==> p(r[k])
  {
    if |xs| == 0 then [] else (if p(xs[0]) then [xs[0]] else []) + Filter(xs[1..], p)
  }

  /** The comprehension keeps exactly the matching elements. */
  lemma {:induction false} FilterMembers<G>(xs: seq<G>, p: G -> bool, x: G)
    ensures x in Filter(xs, p) <==> x in xs && p(x)
  {
    if |xs| > 0 {
      FilterMembers(xs[1..], p, x);
      assert xs == [xs[0]] + xs[1..];
    }
  }

  /** With one matching position the comprehension is that element alone;
    * with two, it has at least two elements. */
  lemma {:induction false} FilterCount<G>(xs: seq<G>, p: G -> bool, k: int)
    requires 0 <= k < |xs| && p(xs[k])
    ensures (forall j :: 0 <= j < |xs| && j != k ==> !p(xs[j])) ==> Filter(xs, p) == [xs[k]]
    ensures (exists j :: 0 <= j < |xs| && j != k && p(xs[j])) ==> |Filter(xs, p)| >= 2
  {
    if k == 0 {
      FilterNone(xs[1..], p);
      if exists j :: 0 <= j < |xs| && j != k && p(xs[j]) {
        var j :| 0 <= j < |xs| && j != k && p(xs[j]);
        assert xs[1..][j - 1] == xs[j];
        FilterNonEmpty(xs[1..], p, j - 1);
      }
    } else {
      assert xs[1..][k - 1] == xs[k];
      forall j | 0 <= j < |xs[1..]| && j != k - 1 && (forall i :: 0 <= i < |xs| && i != k ==> !p(xs[i]))
        ensures !p(xs[1..][j])
      {
        assert xs[1..][j] == xs[j + 1];
      }
      if exists j :: 0 <= j < |xs| && j != k && p(xs[j]) {
        var j :| 0 <= j < |xs| && j != k && p(xs[j]);
        if j == 0 {
          FilterNonEmpty(xs[1..], p, k - 1);
        } else {
          assert xs[1..][j - 1] == xs[j];
          FilterCount(xs[1..], p, k - 1);
        }
      }
      FilterCount(xs[1..], p, k - 1);
    }
  }

  lemma {:induction false} FilterNone<G>(xs: seq<G>, p: G -> bool)
    ensures (forall j :: 0 <= j < |xs| ==> !p(xs[j])) ==> Filter(xs, p) == []
  {
    if |xs| > 0 && forall j :: 0 <= j < |xs| ==> !p(xs[j]) {
      assert forall j :: 0 <= j < |xs[1..]| ==> xs[1..][j] == xs[j + 1];
      FilterNone(xs[1..], p);
    }
  }

  lemma {:induction false} FilterNonEmpty<G>(xs: seq<G>, p: G -> bool, k: int)
    requires 0 <= k < |xs| && p(xs[k])
    ensures |Filter(xs, p)| >= 1
  {
    if k > 0 && !p(xs[0]) {
      assert xs[1..][k - 1] == xs[k];
      FilterNonEmpty(xs[1..], p, k - 1);
    }
  }

  /** `matches = [x for x in xs if p(x)]`, RuntimeError unless there is
    * exactly one, which is returned. */
  function Single<G>(xs: seq<G>, p: G -> bool): (r: Result<G>)
    ensures r.Ok? <==> |Filter(xs, p)| == 1
    ensures r.Fail? ==> r.error == RuntimeError
    ensures r.Ok? ==> p(r.value)
    ensures r.Ok? ==> exists k :: 0 <= k < |xs| && xs[k] == r.value
  {
    var matches := Filter(xs, p);
    if |matches| != 1 then Fail(RuntimeError)
    else
      assert exists k :: 0 <= k < |xs| && xs[k] == matches[0] by {
        FilterMembers(xs, p, matches[0]);
      }
      Ok(matches[0])
  }

  /** The lookup finds the element at the one matching position, and
    * fails when no position or more than one matches. */
  lemma SingleSpec<G>(xs: seq<G>, p: G -> bool)
    ensures (forall j :: 0 <= j < |xs| ==> !p(xs[j])) ==> Single(xs, p) == Fail(RuntimeError)
    ensures forall k :: (0 <= k < |xs| && p(xs[k]) && (forall j :: 0 <= j < |xs| && j != k ==> !p(xs[j]))
                         ==> Single(xs, p) == Ok(xs[k]))
    ensures forall i, k :: 0 <= i < k < |xs| && p(xs[i]) && p(xs[k]) ==> Single(xs, p) == Fail(RuntimeError)
  {
    FilterNone(xs, p);
    forall k | 0 <= k < |xs| && p(xs[k]) && (forall j :: 0 <= j < |xs| && j != k ==> !p(xs[j]))
      ensures Single(xs, p) == Ok(xs[k])
    {
      FilterCount(xs, p, k);
    }
    forall i, k | 0 <= i < k < |xs| && p(xs[i]) && p(xs[k]) ensures Single(xs, p) == Fail(RuntimeError) {
      FilterCount(xs, p, k);
    }
  }

  /** `table.get(name, name)`: the name the table gives, or the name itself. */
  function Corrected(name: string, table: map<string, string>): (r: string)
    ensures name in table ==> r == table[name]
    ensures name !in table ==> r == name
  {
    if name in table then table[name] else name
  }

  /** Correcting twice is correcting once, when the table maps names to
    * names it leaves alone. */
  lemma CorrectedIdempotent(name: string, table: map<string, string>)
    requires forall k :: k in table ==> table[k] !in table || table[table[k]] == table[k]
    ensures Corrected(Corrected(name, table), table) == Corrected(name, table)
  {
  }

  /** `[f(x) for x in xs]` where `f` may raise: the first element that fails
    * fails the whole list. */
  function MapAll<A, B>(xs: seq<A>, f: A -> Result<B>): Result<seq<B>>
    decreases |xs|
  {
    if xs == [] then Ok([])
    else
      match MapAll(xs[..|xs| - 1], f)
      case Fail(e) => Fail(e)
      case Ok(ys) =>
        match f(xs[|xs| - 1])
        case Fail(e) => Fail(e)
        case Ok(y) => Ok(ys + [y])
  }

  /** The list is built iff every element is, and then holds each element's
    * value in order. */
  lemma {:induction false} MapAllSpec<A, B>(xs: seq<A>, f: A -> Result<B>)
    ensures MapAll(xs, f).Ok? <==> forall i :: 0 <= i < |xs| ==> f(xs[i]).Ok?
    ensures MapAll(xs, f).Ok? ==> |MapAll(xs, f).value| == |xs|
    ensures MapAll(xs, f).Ok? ==> forall i :: 0 <= i < |xs| ==> MapAll(xs, f).value[i] == f(xs[i]).value
    decreases |xs|
  {
    if xs != [] {
      var init := xs[..|xs| - 1];
      MapAllSpec(init, f);
      assert forall i :: 0 <= i < |init| ==> init[i] == xs[i];
    }
  }

  /** The first element that fails gives the error of the whole list. */
  lemma {:induction false} MapAllStops<A, B>(xs: seq<A>, f: A -> Result<B>, i: nat)
    requires i < |xs| && MapAll(xs[..i], f).Ok? && f(xs[i]).Fail?
    ensures MapAll(xs, f) == Fail(f(xs[i]).error)
    decreases |xs|
  {
    if i + 1 == |xs| {
      assert xs[..|xs| - 1] == xs[..i];
    } else {
      assert xs[..|xs| - 1][..i] == xs[..i];
      MapAllStops(xs[..|xs| - 1], f, i);
    }
  }

  /** One more element: the list so far, then that element. */
  lemma MapAllSnoc<A, B>(xs: seq<A>, x: A, f: A -> Result<B>)
    ensures MapAll(xs + [x], f) == match MapAll(xs, f)
      case Fail(e) => Fail(e)
      case Ok(ys) => (match f(x) case Fail(e) => Fail(e) case Ok(y) => Ok(ys + [y]))
  {
    assert (xs + [x])[..|xs|] == xs;
  }

  /** Once an element has failed, later elements change nothing. */
  lemma {:induction false} MapAllFailed<A, B>(xs: seq<A>, ys: seq<A>, f: A -> Result<B>)
    requires MapAll(xs, f).Fail?
    ensures MapAll(xs + ys, f) == MapAll(xs, f)
    decreases |ys|
  {
    if ys == [] {
      assert xs + ys == xs;
    } else {
      var init := ys[..|ys| - 1];
      MapAllFailed(xs, init, f);
      assert xs + ys == (xs + init) + [ys[|ys| - 1]];
      MapAllSnoc(xs + init, ys[|ys| - 1], f);
    }
  }

  /** The lists one after another (`for xs in xss: for x in xs`). */
  function Flatten<T>(xss: seq<seq<T>>): (r: seq<T>)
    decreases |xss|
  {
    if xss == [] then [] else Flatten(xss[..|xss| - 1]) + xss[|xss| - 1]
  }

  /** Each element of each list is in the flattened list, in its place. */
  lemma {:induction false} FlattenMembers<T>(xss: seq<seq<T>>, i: int, j: int)
    requires 0 <= i < |xss| && 0 <= j < |xss[i]|
    ensures |Flatten(xss[..i])| + j < |Flatten(xss)|
    ensures Flatten(xss)[|Flatten(xss[..i])| + j] == xss[i][j]
    decreases |xss|
  {
    var n := |xss| - 1;
    assert xss[..n] == xss[..|xss| - 1];
    if i < n {
      assert xss[..n][..i] == xss[..i];
      assert xss[..n][i] == xss[i];
      FlattenMembers(xss[..n], i, j);
    } else {
      assert xss[..i] == xss[..|xss| - 1];
    }
  }

  /** Flattening a prefix and the rest gives the whole. */
  lemma {:induction false} FlattenSplit<T>(xss: seq<seq<T>>, k: nat)
    requires k <= |xss|
    ensures Flatten(xss) == Flatten(xss[..k]) + Flatten(xss[k..])
    decreases |xss| - k
  {
    if k == |xss| {
      assert xss[..k] == xss;
      assert xss[k..] == [];
    } else {
      FlattenSplit(xss, k + 1);
      assert xss[..k + 1][..k] == xss[..k];
      assert Flatten(xss[..k + 1]) == Flatten(xss[..k]) + xss[k];
      FlattenCons(xss[k..]);
      assert xss[k..][1..] == xss[k + 1..];
    }
  }

  /** Flattening a list of lists from the front. */
  lemma {:induction false} FlattenCons<T>(xss: seq<seq<T>>)
    requires |xss| > 0
    ensures Flatten(xss) == xss[0] + Flatten(xss[1..])
    decreases |xss|
  {
    if |xss| > 1 {
      var n := |xss| - 1;
      FlattenCons(xss[..n]);
      assert xss[..n][1..] == xss[1..][..n - 1];
      assert xss[..n][0] == xss[0];
      assert xss[1..][n - 1] == xss[n];
    } else {
      assert xss[..0] == [];
      assert xss[1..] == [];
    }
  }

  /** The element at j of a sequence sits between what precedes it and what
    * follows it, after any prefix. */
  lemma SnocSplit<T>(done: seq<T>, table: seq<T>, j: nat)
    requires j < |table|
    ensures done + table[..j + 1] == (done + table[..j]) + [table[j]]
    ensures (done + table[..j]) + [table[j]] + table[j + 1..] == done + table
  {
    assert table[..j + 1] == table[..j] + [table[j]];
    assert table == table[..j] + [table[j]] + table[j + 1..];
  }

  /** The list of `done` and the first j elements of `table` grows by the
    * next element's value, or fails with its error for the whole of
    * `done + table`. */
  lemma MapAllStep<A, B>(done: seq<A>, table: seq<A>, j: nat, f: A -> Result<B>, ys: seq<B>)
    requires j < |table| && MapAll(done + table[..j], f) == Ok(ys)
    ensures f(table[j]).Ok? ==> MapAll(done + table[..j + 1], f) == Ok(ys + [f(table[j]).value])
    ensures f(table[j]).Fail? ==> MapAll(done + table, f) == Fail(f(table[j]).error)
  {
    var before := done + table[..j];
    SnocSplit(done, table, j);
    MapAllSnoc(before, table[j], f);
    if f(table[j]).Fail? {
      MapAllFailed(before + [table[j]], table[j + 1..], f);
    }
  }
}
