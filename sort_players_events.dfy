/** sort_players_events.py: regroup and re-sort the players-events field of a
  * football game page. Events are split into six lists (squad, cards and
  * substitutions, goals involvement; Maccabi before opponent), each list is
  * sorted by the event ordering, and the field is rewritten from the lists.
  * The event-type groups, the ordering (a rank tuple), the parser and the
  * serialiser of events are parameters. */
module SortPlayersEvents {
  import opened Wrappers
  import opened Strings
  import opened StableSort
  import opened WikiTemplate
  import opened PlayerEvents

  const PlayersEventsParam: string := "אירועי שחקנים"

  /** The event-type sets SQUAD, CARDS_AND_SUBS and GOALS_INVOLVED. */
  datatype Groups<T> = Groups(squad: set<T>, cardsAndSubs: set<T>, goalsInvolved: set<T>)

  /** The group of the k-th returned list: squad, squad, cards, cards, goals, goals. */
  function GroupAt<T>(g: Groups<T>, k: nat): set<T>
  {
    if k < 2 then g.squad else if k < 4 then g.cardsAndSubs else g.goalsInvolved
  }

  /** The side of the k-th returned list: Maccabi first in every pair. */
  function MaccabiAt(k: nat): bool
  {
    k % 2 == 0
  }

  /** `[e for e in events if e.event_type in group and e.maccabi_player == maccabi]`. */
  function Select<T(==), S(==)>(events: seq<PlayerEvent<T, S>>, group: set<T>, maccabi: bool): seq<PlayerEvent<T, S>>
    decreases |events|
  {
    if |events| == 0 then []
    else
      var e := events[|events| - 1];
      Select(events[..|events| - 1], group, maccabi)
        + (if e.eventType in group && e.maccabiPlayer == maccabi then [e] else [])
  }

  /** A filtered list holds exactly the events of the group and side. */
  lemma {:induction false} SelectMembers<T, S>(events: seq<PlayerEvent<T, S>>, group: set<T>, maccabi: bool)
    ensures forall e :: e in Select(events, group, maccabi)
                    <==> e in events && e.eventType in group && e.maccabiPlayer == maccabi
    decreases |events|
  {
    if |events| > 0 {
      var init := events[..|events| - 1];
      SelectMembers(init, group, maccabi);
      assert events == init + [events[|events| - 1]];
    }
  }

  /** The filter keeps the input order: filtering a concatenation
    * concatenates the filtered parts. */
  lemma {:induction false} SelectAppend<T, S>(a: seq<PlayerEvent<T, S>>, b: seq<PlayerEvent<T, S>>,
                                                          group: set<T>, maccabi: bool)
    ensures Select(a + b, group, maccabi) == Select(a, group, maccabi) + Select(b, group, maccabi)
    decreases |b|
  {
    if |b| == 0 {
      assert a + b == a;
    } else {
      assert (a + b)[..|a + b| - 1] == a + b[..|b| - 1];
      SelectAppend(a, b[..|b| - 1], group, maccabi);
    }
  }

  /** The six filtered lists, in the order the function returns them. */
  function Unsorted<T(==), S(==)>(events: seq<PlayerEvent<T, S>>, g: Groups<T>): (u: seq<seq<PlayerEvent<T, S>>>)
    ensures |u| == 6
    ensures forall k :: 0 <= k < 6 ==> u[k] == Select(events, GroupAt(g, k), MaccabiAt(k))
  {
    [Select(events, g.squad, true), Select(events, g.squad, false),
     Select(events, g.cardsAndSubs, true), Select(events, g.cardsAndSubs, false),
     Select(events, g.goalsInvolved, true), Select(events, g.goalsInvolved, false)]
  }

  /** The sum of the six list lengths that the count check compares. */
  function SelectedCount<T(==), S(==)>(events: seq<PlayerEvent<T, S>>, g: Groups<T>): nat
  {
    var u := Unsorted(events, g);
    |u[0]| + |u[1]| + |u[2]| + |u[3]| + |u[4]| + |u[5]|
  }

  /** `sort_players_event_by_groups`: RuntimeError when the six lists do not
    * add up to the input, else each list sorted (stably) by the ordering. */
  function SortPlayersEventByGroups<T(==), S(==)>(events: seq<PlayerEvent<T, S>>, g: Groups<T>,
                                                  rank: PlayerEvent<T, S> -> seq<int>): Result<seq<seq<PlayerEvent<T, S>>>>
  {
    var u := Unsorted(events, g);
    if SelectedCount(events, g) != |events| then Fail(RuntimeError)
    else Ok([SortBy(u[0], rank), SortBy(u[1], rank), SortBy(u[2], rank),
             SortBy(u[3], rank), SortBy(u[4], rank), SortBy(u[5], rank)])
  }

  /** In how many of the three groups an event's type lies. */
  function Memberships<T, S>(e: PlayerEvent<T, S>, g: Groups<T>): nat
  {
    (if e.eventType in g.squad then 1 else 0)
    + (if e.eventType in g.cardsAndSubs then 1 else 0)
    + (if e.eventType in g.goalsInvolved then 1 else 0)
  }

  function SumMemberships<T, S>(events: seq<PlayerEvent<T, S>>, g: Groups<T>): nat
  {
    if |events| == 0 then 0
    else SumMemberships(events[..|events| - 1], g) + Memberships(events[|events| - 1], g)
  }

  predicate Disjoint<T>(g: Groups<T>)
  {
    g.squad !! g.cardsAndSubs && g.squad !! g.goalsInvolved && g.cardsAndSubs !! g.goalsInvolved
  }

  /** The count check adds up, per event, the groups its type lies in. */
  lemma {:induction false} SelectedCountIsMemberships<T, S>(events: seq<PlayerEvent<T, S>>, g: Groups<T>)
    ensures SelectedCount(events, g) == SumMemberships(events, g)
    decreases |events|
  {
    if |events| > 0 {
      SelectedCountIsMemberships(events[..|events| - 1], g);
    }
  }

  /** When every event type lies in exactly one group the check passes. */
  lemma {:induction false} PartitionPassesCheck<T, S>(events: seq<PlayerEvent<T, S>>, g: Groups<T>,
                                                              rank: PlayerEvent<T, S> -> seq<int>)
    requires forall i :: 0 <= i < |events| ==> Memberships(events[i], g) == 1
    ensures SortPlayersEventByGroups(events, g, rank).Ok?
  {
    SumOfOnes(events, g);
    SelectedCountIsMemberships(events, g);
  }

  lemma {:induction false} SumOfOnes<T, S>(events: seq<PlayerEvent<T, S>>, g: Groups<T>)
    requires forall i :: 0 <= i < |events| ==> Memberships(events[i], g) == 1
    ensures SumMemberships(events, g) == |events|
    decreases |events|
  {
    if |events| > 0 {
      SumOfOnes(events[..|events| - 1], g);
    }
  }

  /** With disjoint groups, the count check passes exactly when every event
    * type lies in some group: an event of no group raises RuntimeError. */
  lemma {:induction false} CheckFindsUngroupedEvents<T, S>(events: seq<PlayerEvent<T, S>>, g: Groups<T>,
                                                                    rank: PlayerEvent<T, S> -> seq<int>)
    requires Disjoint(g)
    ensures SortPlayersEventByGroups(events, g, rank).Ok?
        <==> forall i :: 0 <= i < |events| ==> Memberships(events[i], g) == 1
  {
    SelectedCountIsMemberships(events, g);
    DisjointSum(events, g);
  }

  lemma {:induction false} DisjointSum<T, S>(events: seq<PlayerEvent<T, S>>, g: Groups<T>)
    requires Disjoint(g)
    ensures SumMemberships(events, g) <= |events|
    ensures SumMemberships(events, g) == |events| <==> forall i :: 0 <= i < |events| ==> Memberships(events[i], g) == 1
    decreases |events|
  {
    if |events| > 0 {
      var init := events[..|events| - 1];
      var e := events[|events| - 1];
      DisjointSum(init, g);
      assert Memberships(e, g) <= 1;
      if SumMemberships(events, g) == |events| {
        forall i | 0 <= i < |events| ensures Memberships(events[i], g) == 1 {
          if i < |init| {
            assert events[i] == init[i];
          }
        }
      }
      if forall i :: 0 <= i < |events| ==> Memberships(events[i], g) == 1 {
        forall i | 0 <= i < |init| ensures Memberships(init[i], g) == 1 {
          assert init[i] == events[i];
        }
      }
    }
  }

  /** `gs[0] + gs[1] + ...`. */
  function Concat<E>(gs: seq<seq<E>>): seq<E>
  {
    if |gs| == 0 then [] else gs[0] + Concat(gs[1..])
  }

  /** The event itself when it belongs to the k-th list, else nothing. */
  function Hit<T(==), S(==)>(e: PlayerEvent<T, S>, g: Groups<T>, k: nat): multiset<PlayerEvent<T, S>>
  {
    if e.eventType in GroupAt(g, k) && e.maccabiPlayer == MaccabiAt(k) then multiset{e} else multiset{}
  }

  lemma SelectMultiset<T, S>(events: seq<PlayerEvent<T, S>>, g: Groups<T>, k: nat)
    requires |events| > 0 && k < 6
    ensures multiset(Unsorted(events, g)[k])
         == multiset(Unsorted(events[..|events| - 1], g)[k]) + Hit(events[|events| - 1], g, k)
  {
  }

  lemma HitsOnce<T, S>(e: PlayerEvent<T, S>, g: Groups<T>)
    requires Memberships(e, g) == 1
    ensures Hit(e, g, 0) + Hit(e, g, 1) + Hit(e, g, 2) + Hit(e, g, 3) + Hit(e, g, 4) + Hit(e, g, 5) == multiset{e}
  {
  }

  lemma Regroup<X>(a0: multiset<X>, a1: multiset<X>, a2: multiset<X>, a3: multiset<X>, a4: multiset<X>, a5: multiset<X>,
                   h0: multiset<X>, h1: multiset<X>, h2: multiset<X>, h3: multiset<X>, h4: multiset<X>, h5: multiset<X>)
    ensures (a0 + h0) + (a1 + h1) + (a2 + h2) + (a3 + h3) + (a4 + h4) + (a5 + h5)
         == (a0 + a1 + a2 + a3 + a4 + a5) + (h0 + h1 + h2 + h3 + h4 + h5)
  {
  }

  /** Adding one event to the input adds it once to the six lists together. */
  lemma UnsortedStep<T, S>(events: seq<PlayerEvent<T, S>>, g: Groups<T>)
    requires |events| > 0 && Memberships(events[|events| - 1], g) == 1
    ensures multiset(Concat(Unsorted(events, g)))
         == multiset(Concat(Unsorted(events[..|events| - 1], g))) + multiset{events[|events| - 1]}
  {
    var u, v := Unsorted(events, g), Unsorted(events[..|events| - 1], g);
    var e := events[|events| - 1];
    SixConcat(u);
    SixConcat(v);
    SelectMultiset(events, g, 0);
    SelectMultiset(events, g, 1);
    SelectMultiset(events, g, 2);
    SelectMultiset(events, g, 3);
    SelectMultiset(events, g, 4);
    SelectMultiset(events, g, 5);
    Regroup(multiset(v[0]), multiset(v[1]), multiset(v[2]), multiset(v[3]), multiset(v[4]), multiset(v[5]),
            Hit(e, g, 0), Hit(e, g, 1), Hit(e, g, 2), Hit(e, g, 3), Hit(e, g, 4), Hit(e, g, 5));
    HitsOnce(e, g);
  }

  /** When every event lies in exactly one group, the six filtered lists
    * together hold each input event once. */
  lemma {:induction false} UnsortedPermutes<T, S>(events: seq<PlayerEvent<T, S>>, g: Groups<T>)
    requires forall i :: 0 <= i < |events| ==> Memberships(events[i], g) == 1
    ensures multiset(Concat(Unsorted(events, g))) == multiset(events)
    decreases |events|
  {
    if |events| == 0 {
      SixConcat(Unsorted(events, g));
    } else {
      var init := events[..|events| - 1];
      var e := events[|events| - 1];
      UnsortedStep(events, g);
      forall i | 0 <= i < |init| ensures Memberships(init[i], g) == 1 {
        assert init[i] == events[i];
      }
      UnsortedPermutes(init, g);
      LastSplit(events);
    }
  }

  lemma LastSplit<E>(xs: seq<E>)
    requires |xs| > 0
    ensures multiset(xs) == multiset(xs[..|xs| - 1]) + multiset{xs[|xs| - 1]}
  {
    assert xs == xs[..|xs| - 1] + [xs[|xs| - 1]];
  }

  lemma SixConcat<E>(u: seq<seq<E>>)
    requires |u| == 6
    ensures multiset(Concat(u)) == multiset(u[0]) + multiset(u[1]) + multiset(u[2])
                                   + multiset(u[3]) + multiset(u[4]) + multiset(u[5])
  {
    var t1 := u[1..];
    var t2 := t1[1..];
    var t3 := t2[1..];
    var t4 := t3[1..];
    var t5 := t4[1..];
    assert Concat(t5[1..]) == [];
    assert Concat(t5) == u[5];
    assert Concat(t4) == u[4] + Concat(t5);
    assert Concat(t3) == u[3] + Concat(t4);
    assert Concat(t2) == u[2] + Concat(t3);
    assert Concat(t1) == u[1] + Concat(t2);
    assert Concat(u) == u[0] + Concat(t1);
  }

  /** With disjoint groups, a successful regrouping is a permutation of the
    * input: the six returned lists together hold each event exactly once. */
  lemma GroupingPermutes<T, S>(events: seq<PlayerEvent<T, S>>, g: Groups<T>,
                                       rank: PlayerEvent<T, S> -> seq<int>)
    requires Disjoint(g)
    requires SortPlayersEventByGroups(events, g, rank).Ok?
    ensures multiset(Concat(SortPlayersEventByGroups(events, g, rank).value)) == multiset(events)
  {
    CheckFindsUngroupedEvents(events, g, rank);
    UnsortedPermutes(events, g);
    var u := Unsorted(events, g);
    var r := SortPlayersEventByGroups(events, g, rank).value;
    SortByPermutes(u[0], rank);
    SortByPermutes(u[1], rank);
    SortByPermutes(u[2], rank);
    SortByPermutes(u[3], rank);
    SortByPermutes(u[4], rank);
    SortByPermutes(u[5], rank);
    SixConcat(u);
    SixConcat(r);
  }

  /** Each returned list holds exactly the events of its group and side,
    * ordered by rank, with equal-rank events in input order. */
  lemma GroupContents<T, S>(events: seq<PlayerEvent<T, S>>, g: Groups<T>,
                                    rank: PlayerEvent<T, S> -> seq<int>, k: nat, key: seq<int>)
    requires k < 6
    requires SortPlayersEventByGroups(events, g, rank).Ok?
    ensures var list := SortPlayersEventByGroups(events, g, rank).value[k];
      && (forall e :: e in list <==> e in events && e.eventType in GroupAt(g, k) && e.maccabiPlayer == MaccabiAt(k))
      && SortedBy(list, rank)
      && RankClass(list, rank, key) == RankClass(Select(events, GroupAt(g, k), MaccabiAt(k)), rank, key)
  {
    var u := Select(events, GroupAt(g, k), MaccabiAt(k));
    SortedGroupAt(events, g, rank, k);
    SortByMembers(u, rank);
    SortBySorted(u, rank);
    SortByStable(u, rank, key);
    SelectMembers(events, GroupAt(g, k), MaccabiAt(k));
  }

  /** The k-th returned list is the k-th selection, sorted. */
  lemma SortedGroupAt<T, S>(events: seq<PlayerEvent<T, S>>, g: Groups<T>, rank: PlayerEvent<T, S> -> seq<int>, k: nat)
    requires k < 6
    requires SortPlayersEventByGroups(events, g, rank).Ok?
    ensures SortPlayersEventByGroups(events, g, rank).value[k] == SortBy(Select(events, GroupAt(g, k), MaccabiAt(k)), rank)
  {
    var u := Unsorted(events, g);
    var v := SortPlayersEventByGroups(events, g, rank).value;
    assert v == [SortBy(u[0], rank), SortBy(u[1], rank), SortBy(u[2], rank),
                 SortBy(u[3], rank), SortBy(u[4], rank), SortBy(u[5], rank)];
    if k == 0 {
    } else if k == 1 {
    } else if k == 2 {
    } else if k == 3 {
    } else if k == 4 {
    } else {
    }
  }

  /** Sorting keeps exactly the members it was given. */
  lemma SortByMembers<E>(u: seq<E>, rank: E -> seq<int>)
    ensures forall e :: e in SortBy(u, rank) <==> e in u
  {
    SortByPermutes(u, rank);
    forall e ensures e in SortBy(u, rank) <==> e in u {
      assert e in SortBy(u, rank) <==> e in multiset(SortBy(u, rank));
      assert e in u <==> e in multiset(u);
    }
  }

  // ----- Serialisation of the groups -----

  /** The groups that are not empty, in order. */
  function NonEmpty<E>(gs: seq<seq<E>>): (r: seq<seq<E>>)
    ensures forall k :: 0 <= k < |r| ==> |r[k]| > 0
  {
    if |gs| == 0 then [] else (if |gs[0]| > 0 then [gs[0]] else []) + NonEmpty(gs[1..])
  }

  /** The text of the non-empty groups: `",".join` inside a group,
    * `"\n,".join` between groups. */
  function GroupsText<E>(gs: seq<seq<E>>, ser: E -> string): string
  {
    Join(GroupTexts(NonEmpty(gs), ser), "\n,")
  }

  function GroupTexts<E>(gs: seq<seq<E>>, ser: E -> string): (r: seq<string>)
    ensures |r| == |gs|
  {
    if |gs| == 0 then [] else [Join(Serialised(gs[0], ser), ",")] + GroupTexts(gs[1..], ser)
  }

  /** The comma-separated pieces of the groups' text: one per event, the
    * event's serialisation, with a newline after the last event of every
    * group that another group follows. */
  function Pieces<E>(gs: seq<seq<E>>, ser: E -> string): seq<string>
    requires forall k :: 0 <= k < |gs| ==> |gs[k]| > 0
  {
    if |gs| == 0 then []
    else if |gs| == 1 then Serialised(gs[0], ser)
    else
      var s := Serialised(gs[0], ser);
      s[..|s| - 1] + [s[|s| - 1] + "\n"] + Pieces(gs[1..], ser)
  }

  lemma {:induction false} JoinAppend(a: seq<string>, b: seq<string>, sep: string)
    requires |a| > 0 && |b| > 0
    ensures Join(a + b, sep) == Join(a, sep) + sep + Join(b, sep)
    decreases |a|
  {
    if |a| == 1 {
      JoinCons(a[0], b, sep);
      assert a + b == [a[0]] + b;
    } else {
      var t := a[1..];
      JoinAppend(t, b, sep);
      assert a == [a[0]] + t;
      assert a + b == [a[0]] + (t + b);
      JoinCons(a[0], t + b, sep);
      JoinCons(a[0], t, sep);
      ConcatFive(a[0], sep, Join(t, sep), Join(b, sep));
    }
  }

  /** Regrouping the pieces of a joined text. */
  lemma ConcatFive(x: string, sep: string, y: string, z: string)
    ensures x + sep + (y + sep + z) == (x + sep + y) + sep + z
  {
  }

  /** A group's text followed by a newline is the join of its pieces. */
  lemma {:induction false} JoinLastNewline(s: seq<string>)
    requires |s| > 0
    ensures Join(s, ",") + "\n" == Join(s[..|s| - 1] + [s[|s| - 1] + "\n"], ",")
  {
    var a, x := s[..|s| - 1], s[|s| - 1];
    if |s| == 1 {
      assert s == [x];
      assert a + [x + "\n"] == [x + "\n"];
    } else {
      JoinAppend(a, [x], ",");
      JoinAppend(a, [x + "\n"], ",");
      assert s == a + [x];
      assert Join(s, ",") == Join(a, ",") + "," + x;
      assert Join(a + [x + "\n"], ",") == Join(a, ",") + "," + (x + "\n");
    }
  }

  /** The groups' text is the comma join of the pieces. */
  lemma {:induction false} GroupsTextIsPieces<E>(gs: seq<seq<E>>, ser: E -> string)
    requires forall k :: 0 <= k < |gs| ==> |gs[k]| > 0
    ensures Join(GroupTexts(gs, ser), "\n,") == Join(Pieces(gs, ser), ",")
    decreases |gs|
  {
    if |gs| == 1 {
      assert GroupTexts(gs, ser) == [Join(Serialised(gs[0], ser), ",")];
    } else if |gs| > 1 {
      var s := Serialised(gs[0], ser);
      var head := s[..|s| - 1] + [s[|s| - 1] + "\n"];
      GroupsTextIsPieces(gs[1..], ser);
      PiecesNonEmpty(gs[1..], ser);
      JoinCons(Join(s, ","), GroupTexts(gs[1..], ser), "\n,");
      JoinLastNewline(s);
      JoinAppend(head, Pieces(gs[1..], ser), ",");
    }
  }

  lemma {:induction false} PiecesNonEmpty<E>(gs: seq<seq<E>>, ser: E -> string)
    requires forall k :: 0 <= k < |gs| ==> |gs[k]| > 0
    ensures |Pieces(gs, ser)| == |Concat(gs)|
    decreases |gs|
  {
    if |gs| > 1 {
      PiecesNonEmpty(gs[1..], ser);
    }
  }

  /** Each piece is its event's serialisation, possibly followed by a newline. */
  lemma {:induction false} PiecesMatchEvents<E>(gs: seq<seq<E>>, ser: E -> string, i: nat)
    requires forall k :: 0 <= k < |gs| ==> |gs[k]| > 0
    requires i < |Concat(gs)|
    ensures |Pieces(gs, ser)| == |Concat(gs)|
    ensures Pieces(gs, ser)[i] == ser(Concat(gs)[i]) || Pieces(gs, ser)[i] == ser(Concat(gs)[i]) + "\n"
    decreases |gs|
  {
    PiecesNonEmpty(gs, ser);
    if |gs| > 1 && i >= |gs[0]| {
      PiecesMatchEvents(gs[1..], ser, i - |gs[0]|);
    }
  }

  lemma {:induction false} NonEmptyConcat<E>(gs: seq<seq<E>>)
    ensures Concat(NonEmpty(gs)) == Concat(gs)
    decreases |gs|
  {
    if |gs| > 0 {
      NonEmptyConcat(gs[1..]);
      if |gs[0]| > 0 {
        assert ([gs[0]] + NonEmpty(gs[1..]))[1..] == NonEmpty(gs[1..]);
      } else {
        assert NonEmpty(gs) == NonEmpty(gs[1..]);
        assert Concat(gs) == gs[0] + Concat(gs[1..]) == Concat(gs[1..]);
      }
    }
  }

  /** No piece holds a comma when no serialisation does. */
  lemma {:induction false} PiecesCommaFree<E>(gs: seq<seq<E>>, ser: E -> string, j: nat)
    requires forall k :: 0 <= k < |gs| ==> |gs[k]| > 0
    requires forall k, i :: 0 <= k < |gs| && 0 <= i < |gs[k]| ==> ',' !in ser(gs[k][i])
    requires j < |Pieces(gs, ser)|
    ensures ',' !in Pieces(gs, ser)[j]
    decreases |gs|
  {
    PiecesNonEmpty(gs, ser);
    if |gs| > 1 {
      var s := Serialised(gs[0], ser);
      if j >= |s| {
        PiecesCommaFree(gs[1..], ser, j - |s|);
      } else if j == |s| - 1 {
        assert Pieces(gs, ser)[j] == s[|s| - 1] + "\n";
      }
    }
  }

  /** Reading the rewritten field back the way the page is read (split on
    * ",") gives one piece per event of the six lists, in order, each the
    * event's serialisation (a newline closes each group that another group
    * follows); empty groups leave no trace. */
  lemma GroupsTextRoundTrip<E>(gs: seq<seq<E>>, ser: E -> string)
    requires forall k, i :: 0 <= k < |gs| && 0 <= i < |gs[k]| ==> ',' !in ser(gs[k][i])
    requires |Concat(gs)| > 0
    ensures var pieces := Split(GroupsText(gs, ser), ",");
      |pieces| == |Concat(gs)|
      && forall i :: 0 <= i < |pieces| ==> pieces[i] == ser(Concat(gs)[i]) || pieces[i] == ser(Concat(gs)[i]) + "\n"
  {
    var ne := NonEmpty(gs);
    NonEmptyConcat(gs);
    NonEmptyMembers(gs);
    GroupsTextIsPieces(ne, ser);
    PiecesNonEmpty(ne, ser);
    var pieces := Pieces(ne, ser);
    forall j | 0 <= j < |pieces| ensures ',' !in pieces[j] {
      PiecesCommaFree(ne, ser, j);
    }
    SplitJoin(pieces, ',');
    forall i | 0 <= i < |pieces|
      ensures pieces[i] == ser(Concat(gs)[i]) || pieces[i] == ser(Concat(gs)[i]) + "\n"
    {
      PiecesMatchEvents(ne, ser, i);
    }
  }

  lemma {:induction false} NonEmptyMembers<E>(gs: seq<seq<E>>)
    ensures forall k :: 0 <= k < |NonEmpty(gs)| ==> NonEmpty(gs)[k] in gs
    decreases |gs|
  {
    if |gs| > 0 {
      NonEmptyMembers(gs[1..]);
      var r := NonEmpty(gs);
      forall k | 0 <= k < |r| ensures r[k] in gs {
        if |gs[0]| > 0 && k > 0 {
          assert r[k] == NonEmpty(gs[1..])[k - 1];
          assert r[k] in gs[1..];
        } else if |gs[0]| == 0 {
          assert r[k] in gs[1..];
        }
      }
    }
  }

  // ----- The page rewrite -----

  /** `[parse(raw) for raw in raws]`: the first failing parse propagates. */
  function ParseAll<E>(raws: seq<string>, parse: string -> Result<E>): (r: Result<seq<E>>)
    ensures r.Ok? <==> forall i :: 0 <= i < |raws| ==> parse(raws[i]).Ok?
    ensures r.Ok? ==> |r.value| == |raws| && forall i :: 0 <= i < |raws| ==> r.value[i] == parse(raws[i]).value
    ensures r.Fail? ==> exists i :: 0 <= i < |raws| && parse(raws[i]) == Fail(r.error)
                                    && forall j :: 0 <= j < i ==> parse(raws[j]).Ok?
  {
    if |raws| == 0 then Ok([])
    else
      var first := parse(raws[0]);
      if first.Fail? then Fail(first.error)
      else
        var rest := ParseAll(raws[1..], parse);
        if rest.Fail? then Fail(rest.error) else Ok([first.value] + rest.value)
  }

  /** The new players-events value for an existing one: None when the field
    * is blank (left untouched), else the regrouped text framed by newlines. */
  function NewEventsValue<T(==), S(==)>(value: string, g: Groups<T>, rank: PlayerEvent<T, S> -> seq<int>,
                                        parse: string -> Result<PlayerEvent<T, S>>,
                                        ser: PlayerEvent<T, S> -> string): Result<Option<string>>
  {
    if IsBlank(value) then Ok(None)
    else
      var parsed := ParseAll(Split(value, ","), parse);
      if parsed.Fail? then Fail(parsed.error)
      else
        var grouped := SortPlayersEventByGroups(parsed.value, g, rank);
        if grouped.Fail? then Fail(grouped.error)
        else Ok(Some("\n" + GroupsText(grouped.value, ser) + "\n"))
  }

  /** The rewritten value holds every parsed event once, regrouped, and is
    * framed by exactly one newline on each side of the grouped text. */
  lemma NewEventsValueShape<T, S>(value: string, g: Groups<T>, rank: PlayerEvent<T, S> -> seq<int>,
                                          parse: string -> Result<PlayerEvent<T, S>>,
                                          ser: PlayerEvent<T, S> -> string)
    requires Disjoint(g)
    requires NewEventsValue(value, g, rank, parse, ser).Ok?
    ensures NewEventsValue(value, g, rank, parse, ser).value.None? <==> IsBlank(value)
    ensures NewEventsValue(value, g, rank, parse, ser).value.Some? ==>
      var v := NewEventsValue(value, g, rank, parse, ser).value.value;
      var events := ParseAll(Split(value, ","), parse).value;
      var grouped := SortPlayersEventByGroups(events, g, rank).value;
      && StartsWith(v, "\n") && EndsWith(v, "\n")
      && v[1..|v| - 1] == GroupsText(grouped, ser)
      && multiset(Concat(grouped)) == multiset(events)
      && |events| == |Split(value, ",")|
  {
    if !IsBlank(value) {
      var parsed := ParseAll(Split(value, ","), parse);
      var events := parsed.value;
      var grouped := SortPlayersEventByGroups(events, g, rank).value;
      var text := GroupsText(grouped, ser);
      var v := "\n" + text + "\n";
      assert NewEventsValue(value, g, rank, parse, ser) == Ok(Some(v));
      NewlineFramed(text);
      GroupingPermutes(events, g, rank);
    }
  }

  /** Text framed by newlines starts and ends with one, around the text. */
  lemma NewlineFramed(text: string)
    ensures var v := "\n" + text + "\n";
      StartsWith(v, "\n") && EndsWith(v, "\n") && v[1..|v| - 1] == text
  {
    var v := "\n" + text + "\n";
    assert v[1..|v| - 1] == text;
    assert v[..1] == "\n" && v[|v| - 1..] == "\n";
  }

  /** Index of the first parameter named `name`, or -1. */
  function FirstIndexOf(ps: seq<Param>, name: string): (r: int)
    ensures -1 <= r < |ps|
    ensures r == -1 <==> !HasParam(ps, name)
    ensures r >= 0 ==> Key(ps[r]) == name && forall j :: 0 <= j < r ==> Key(ps[j]) != name
  {
    if |ps| == 0 then -1
    else if Key(ps[0]) == name then 0
    else
      var r := FirstIndexOf(ps[1..], name);
      assert forall j :: 0 < j < |ps| ==> ps[j] == ps[1..][j - 1];
      if r < 0 then -1 else r + 1
  }

  /** `sort_player_events_in_games_page` on the page's game template: the
    * first players-events parameter (IndexError when there is none) gets the
    * regrouped value; a blank field or any error leaves the template as it was. */
  method SortPlayerEventsInGamesPage<T(==), S(==)>(t: Template, g: Groups<T>, rank: PlayerEvent<T, S> -> seq<int>,
                                                   parse: string -> Result<PlayerEvent<T, S>>,
                                                   ser: PlayerEvent<T, S> -> string)
    returns (r: Result<()>)
    modifies t
    ensures t.name == old(t.name)
    ensures !HasParam(old(t.params), PlayersEventsParam) ==> r == Fail(IndexError) && t.params == old(t.params)
    ensures HasParam(old(t.params), PlayersEventsParam) ==>
      var i := FirstIndexOf(old(t.params), PlayersEventsParam);
      var nv := NewEventsValue(old(t.params)[i].value, g, rank, parse, ser);
      && (nv.Fail? ==> r == Fail(nv.error) && t.params == old(t.params))
      && (nv == Ok(None) ==> r == Ok(()) && t.params == old(t.params))
      && (nv.Ok? && nv.value.Some? ==> r == Ok(()) && t.params == old(t.params)[i := old(t.params)[i].(value := nv.value.value)])
  {
    var i := FirstIndexOf(t.params, PlayersEventsParam);
    if i < 0 {
      return Fail(IndexError);
    }
    var nv := NewEventsValue(t.params[i].value, g, rank, parse, ser);
    if nv.Fail? {
      return Fail(nv.error);
    }
    if nv.value.Some? {
      t.SetValue(i, nv.value.value);
    }
    r := Ok(());
  }
}
