/** gamesbot.py: builds and refreshes football game pages from game records.
  * The game record (maccabistats' GameData) is a plain datatype; the event
  * types LINE_UP and BENCHED and the event serialiser are parameters. */
module GamesBot {
  import opened Wrappers
  import opened Strings
  import opened Dates
  import opened StableSort
  import opened WikiTemplate
  import opened PlayerEvents

  const FootballGamesPrefix: string := "משחק"
  const FootballGamesTemplateName: string := "קטלוג משחקים"

  const GameId: string := "תאריך המשחק"
  const GameHour: string := "שעת המשחק"
  const DayOfWeek: string := "יום המשחק בשבוע"
  const Season: string := "עונה"
  const Competition: string := "מפעל"
  const RoundInCompetition: string := "שלב במפעל"
  const OpponentName: string := "שם יריבה"
  const HomeOrAway: string := "בית חוץ"
  const Stadium: string := "אצטדיון"
  const MaccabiResult: string := "תוצאת משחק מכבי"
  const OpponentResult: string := "תוצאת משחק יריבה"
  const MaccabiCoach: string := "מאמן מכבי"
  const OpponentCoach: string := "מאמן יריבה"
  const Referee: string := "שופטים"
  const Crowd: string := "כמות קהל"
  const Broadcast: string := "גוף שידור"
  const Costume: string := "מכבי תלבושת"
  const PlayersEvents: string := "אירועי שחקנים"

  const NoRoundFound: string := "No round found"
  const CantFoundCoach: string := "Cant found coach"
  const CantFoundReferee: string := "Cant found referee"
  const CantFoundCrowd: string := "Cant found crowd"

  /** A recorded event of a player; only goals carry a goal type. */
  datatype GameEvent<T, S> = GameEvent(timeOccur: Duration, eventType: T, goalType: Option<S>)

  datatype Player<T, S> = Player(name: string, number: ShirtNumber, events: seq<GameEvent<T, S>>)

  datatype Team<T, S> = Team(name: string, players: seq<Player<T, S>>, score: nat, coach: string)

  datatype FootballGame<T, S> = FootballGame(
    date: DateTime,
    season: string,
    competition: string,
    fixture: string,
    maccabiTeam: Team<T, S>,
    notMaccabiTeam: Team<T, S>,
    isMaccabiHome: bool,
    stadium: string,
    referee: string,
    crowd: string)

  predicate WellFormed<T, S>(g: FootballGame<T, S>)
  {
    ValidDateTime(g.date) && g.date.date.year >= 1000
  }

  function HomeTeam<T, S>(g: FootballGame<T, S>): Team<T, S>
  {
    if g.isMaccabiHome then g.maccabiTeam else g.notMaccabiTeam
  }

  function AwayTeam<T, S>(g: FootballGame<T, S>): Team<T, S>
  {
    if g.isMaccabiHome then g.notMaccabiTeam else g.maccabiTeam
  }

  /** `generate_page_name_from_game`. */
  function PageName<T, S>(g: FootballGame<T, S>): string
    requires WellFormed(g)
  {
    FootballGamesPrefix + ": " + FormatDate(g.date.date, DayFirst, '-') + " "
      + HomeTeam(g).name + " נגד " + AwayTeam(g).name + " - " + g.competition
  }

  // ----- Player events -----

  type Event<T, S> = PlayerEvent<T, Option<S>>

  predicate HasEventType<T(==), S>(p: Player<T, S>, t: T)
  {
    exists i :: 0 <= i < |p.events| && p.events[i].eventType == t
  }

  /** The events of one player, in recorded order. */
  function EventsOf<T, S>(p: Player<T, S>, maccabi: bool): (r: seq<Event<T, S>>)
    ensures |r| == |p.events|
  {
    seq(|p.events|, i requires 0 <= i < |p.events| =>
      NewPlayerEvent(p.name, p.number, p.events[i].timeOccur, p.events[i].eventType, p.events[i].goalType, maccabi))
  }

  /** The comprehension over players and their events. */
  function PlayedEvents<T, S>(players: seq<Player<T, S>>, maccabi: bool): seq<Event<T, S>>
  {
    if |players| == 0 then [] else EventsOf(players[0], maccabi) + PlayedEvents(players[1..], maccabi)
  }

  /** The players without a LINE_UP event, in order. */
  function NonStarters<T(==), S>(players: seq<Player<T, S>>, lineUp: T): seq<Player<T, S>>
  {
    if |players| == 0 then []
    else (if HasEventType(players[0], lineUp) then [] else [players[0]]) + NonStarters(players[1..], lineUp)
  }

  /** A BENCHED event at minute 0 for every player without a LINE_UP event. */
  function BenchedEvents<T(==), S>(players: seq<Player<T, S>>, maccabi: bool, lineUp: T, benched: T): seq<Event<T, S>>
  {
    if |players| == 0 then []
    else
      var p := players[0];
      (if HasEventType(p, lineUp) then [] else [NewPlayerEvent(p.name, p.number, TimeDelta(0, 0, 0), benched, None, maccabi)])
        + BenchedEvents(players[1..], maccabi, lineUp, benched)
  }

  function RecordedCount<T, S>(players: seq<Player<T, S>>): nat
  {
    if |players| == 0 then 0 else |players[0].events| + RecordedCount(players[1..])
  }

  /** The unsorted list: Maccabi's events, Maccabi's bench, the opponent's
    * events, the opponent's bench. */
  function AllEvents<T(==), S>(g: FootballGame<T, S>, lineUp: T, benched: T): seq<Event<T, S>>
  {
    PlayedEvents(g.maccabiTeam.players, true) + BenchedEvents(g.maccabiTeam.players, true, lineUp, benched)
      + PlayedEvents(g.notMaccabiTeam.players, false) + BenchedEvents(g.notMaccabiTeam.players, false, lineUp, benched)
  }

  /** The sort key: the minute alone. */
  function MinuteRank<T, S>(e: Event<T, S>): seq<int>
  {
    [e.minuteOccur]
  }

  /** `get_players_events_for_template`. */
  function PlayersEventsText<T(==), S>(g: FootballGame<T, S>, lineUp: T, benched: T, ser: Event<T, S> -> string): string
  {
    RStrip(Join(Serialised(SortBy(AllEvents(g, lineUp, benched), MinuteRank), ser), ","), Whitespace)
  }

  lemma {:induction false} PlayedEventsCount<T, S>(players: seq<Player<T, S>>, maccabi: bool)
    ensures |PlayedEvents(players, maccabi)| == RecordedCount(players)
    ensures forall i :: 0 <= i < |PlayedEvents(players, maccabi)| ==> PlayedEvents(players, maccabi)[i].maccabiPlayer == maccabi
    decreases |players|
  {
    if |players| > 0 {
      PlayedEventsCount(players[1..], maccabi);
    }
  }

  /** Exactly one BENCHED event per player without a LINE_UP event, in
    * player order, at minute 0, with no sub-type. */
  lemma {:induction false} BenchedEventsShape<T, S>(players: seq<Player<T, S>>, maccabi: bool, lineUp: T, benched: T)
    ensures var b, n := BenchedEvents(players, maccabi, lineUp, benched), NonStarters(players, lineUp);
      |b| == |n|
      && forall k :: 0 <= k < |b| ==>
           b[k].name == n[k].name && b[k].minuteOccur == 0 && b[k].eventType == benched
           && b[k].subEventType == None && b[k].maccabiPlayer == maccabi
           && !HasEventType(n[k], lineUp)
    decreases |players|
  {
    if |players| > 0 {
      BenchedEventsShape(players[1..], maccabi, lineUp, benched);
    }
  }

  lemma LexLeSingle(a: int, b: int)
    ensures LexLe([a], [b]) <==> a <= b
  {
    assert [a][1..] == [];
  }

  /** The template's events: every recorded event plus one bench event per
    * non-starter on each side, ordered by minute, equal minutes in the
    * unsorted order. */
  lemma EventsForTemplate<T, S>(g: FootballGame<T, S>, lineUp: T, benched: T, k: int)
    ensures var all := AllEvents(g, lineUp, benched);
      var evs := SortBy(all, MinuteRank);
      && |evs| == RecordedCount(g.maccabiTeam.players) + |NonStarters(g.maccabiTeam.players, lineUp)|
                  + RecordedCount(g.notMaccabiTeam.players) + |NonStarters(g.notMaccabiTeam.players, lineUp)|
      && multiset(evs) == multiset(all)
      && (forall i, j :: 0 <= i < j < |evs| ==> evs[i].minuteOccur <= evs[j].minuteOccur)
      && RankClass(evs, MinuteRank, [k]) == RankClass(all, MinuteRank, [k])
  {
    var all := AllEvents(g, lineUp, benched);
    var evs := SortBy(all, MinuteRank);
    PlayedEventsCount(g.maccabiTeam.players, true);
    PlayedEventsCount(g.notMaccabiTeam.players, false);
    BenchedEventsShape(g.maccabiTeam.players, true, lineUp, benched);
    BenchedEventsShape(g.notMaccabiTeam.players, false, lineUp, benched);
    SortByPermutes(all, MinuteRank);
    SortBySorted(all, MinuteRank);
    SortByStable(all, MinuteRank, [k]);
    forall i, j | 0 <= i < j < |evs| ensures evs[i].minuteOccur <= evs[j].minuteOccur {
      LexLeSingle(evs[i].minuteOccur, evs[j].minuteOccur);
    }
  }

  /** The text is the comma join with its trailing whitespace removed, and
    * it does not itself end in whitespace. */
  lemma PlayersEventsTextShape<T, S>(g: FootballGame<T, S>, lineUp: T, benched: T, ser: Event<T, S> -> string)
    ensures var joined := Join(Serialised(SortBy(AllEvents(g, lineUp, benched), MinuteRank), ser), ",");
      var text := PlayersEventsText(g, lineUp, benched, ser);
      && StartsWith(joined, text)
      && (forall i :: |text| <= i < |joined| ==> joined[i] in Whitespace)
      && (|text| > 0 ==> text[|text| - 1] !in Whitespace)
  {
    var joined := Join(Serialised(SortBy(AllEvents(g, lineUp, benched), MinuteRank), ser), ",");
    RStripSpec(joined, Whitespace);
  }

  // ----- Template arguments -----

  /** `(weekday + 2) % 8`: Monday is 2 up to Saturday 7, and Sunday is 0. */
  function DayOfWeekNumber(weekday: int): (r: nat)
    requires 0 <= weekday < 7
    ensures weekday < 6 ==> r == weekday + 2
    ensures weekday == 6 ==> r == 0
    ensures r != 1 && r <= 7
  {
    (weekday + 2) % 8
  }

  /** A value with its "not found" sentinel replaced by "". */
  function Blanked(value: string, sentinel: string): (r: string)
    ensures r == "" <==> value == "" || value == sentinel
    ensures r != "" ==> r == value
  {
    if value == sentinel then "" else value
  }

  /** The values of the dict built by
    * `__get_football_game_template_with_maccabistats_game_value`, in its
    * order. */
  function TemplateValues<T, S>(g: FootballGame<T, S>, eventsText: string): (r: seq<string>)
    requires WellFormed(g)
    ensures |r| == 18
  {
    [ FormatDate(g.date.date, DayFirst, '-'),
      NatToString(g.date.hour),
      NatToString(DayOfWeekNumber(Weekday(g.date.date))),
      g.season,
      g.competition,
      Blanked(g.fixture, NoRoundFound),
      g.notMaccabiTeam.name,
      if g.isMaccabiHome then "בית" else "חוץ",
      g.stadium,
      NatToString(g.maccabiTeam.score),
      NatToString(g.notMaccabiTeam.score),
      Blanked(g.maccabiTeam.coach, CantFoundCoach),
      Blanked(g.notMaccabiTeam.coach, CantFoundCoach),
      Blanked(g.referee, CantFoundReferee),
      Blanked(g.crowd, CantFoundCrowd),
      "",
      "",
      eventsText ]
  }

  /** `__get_football_game_template_with_maccabistats_game_value`, as the
    * ordered (name, str(value)) pairs of the returned dict: the keys are
    * the constants of `ArgumentNames`, in that order. */
  function TemplateArguments<T, S>(g: FootballGame<T, S>, eventsText: string): seq<(string, string)>
    requires WellFormed(g)
  {
    var vs := TemplateValues(g, eventsText);
    seq(18, k requires 0 <= k < 18 => (ArgumentNames[k], vs[k]))
  }

  /** The value stored under `name` in an ordered argument list. */
  function ArgumentValue(args: seq<(string, string)>, name: string): Option<string>
  {
    if |args| == 0 then None
    else if args[|args| - 1].0 == name then Some(args[|args| - 1].1)
    else ArgumentValue(args[..|args| - 1], name)
  }

  predicate DistinctNames(args: seq<(string, string)>)
  {
    forall a, b :: 0 <= a < b < |args| ==> args[a].0 != args[b].0
  }

  predicate StrippedNames(args: seq<(string, string)>)
  {
    forall a :: 0 <= a < |args| ==> Trim(args[a].0) == args[a].0
  }

  const ArgumentNames: seq<string> := [
    GameId, GameHour, DayOfWeek, Season, Competition, RoundInCompetition, OpponentName, HomeOrAway, Stadium,
    MaccabiResult, OpponentResult, MaccabiCoach, OpponentCoach, Referee, Crowd, Broadcast, Costume, PlayersEvents]

  /** The template's argument names are pairwise different (length and
    * first two letters already tell them apart) and carry no surrounding
    * whitespace. */
  lemma ArgumentNamesFacts()
    ensures |ArgumentNames| == 18
    ensures forall a, b :: 0 <= a < b < |ArgumentNames| ==> ArgumentNames[a] != ArgumentNames[b]
    ensures forall a :: 0 <= a < |ArgumentNames| ==> Trim(ArgumentNames[a]) == ArgumentNames[a]
  {
    ArgumentNamesDistinct();
    ArgumentNamesStripped();
  }

  lemma ArgumentNamesDistinct()
    ensures forall a, b :: 0 <= a < b < |ArgumentNames| ==> ArgumentNames[a] != ArgumentNames[b]
  {
    forall a, b | 0 <= a < b < |ArgumentNames| ensures ArgumentNames[a] != ArgumentNames[b] {
      var x, y := ArgumentNames[a], ArgumentNames[b];
      assert |x| != |y| || x[0] != y[0] || x[1] != y[1];
    }
  }

  lemma ArgumentNamesStripped()
    ensures forall a :: 0 <= a < |ArgumentNames| ==> Trim(ArgumentNames[a]) == ArgumentNames[a]
  {
    forall a | 0 <= a < |ArgumentNames| ensures Trim(ArgumentNames[a]) == ArgumentNames[a] {
      VisibleEndsStripped(ArgumentNames[a]);
    }
  }

  /** The arguments come under the template's names, in order, distinct
    * and stripped. */
  lemma TemplateArgumentNames<T, S>(g: FootballGame<T, S>, eventsText: string)
    requires WellFormed(g)
    ensures var args := TemplateArguments(g, eventsText);
      && |args| == 18 && DistinctNames(args) && StrippedNames(args)
      && (forall k :: 0 <= k < 18 ==> args[k].0 == ArgumentNames[k])
  {
    var args := TemplateArguments(g, eventsText);
    ArgumentNamesFacts();
    forall a, b | 0 <= a < b < |args| ensures args[a].0 != args[b].0 {
      assert args[a].0 == ArgumentNames[a] && args[b].0 == ArgumentNames[b];
    }
    forall a | 0 <= a < |args| ensures Trim(args[a].0) == args[a].0 {
      assert args[a].0 == ArgumentNames[a];
    }
  }

  /** The day of week, home/away and the players events are as the page
    * expects them, and the broadcast and costume fields start empty. */
  lemma TemplateArgumentValues<T, S>(g: FootballGame<T, S>, eventsText: string)
    requires WellFormed(g)
    ensures var args := TemplateArguments(g, eventsText);
      && |args| == 18
      && args[2].1 == NatToString(DayOfWeekNumber(Weekday(g.date.date)))
      && (args[7].1 == "בית" <==> g.isMaccabiHome)
      && args[15].1 == "" && args[16].1 == ""
      && args[17] == (PlayersEvents, eventsText)
  {
    var vs := TemplateValues(g, eventsText);
    assert vs[7] == if g.isMaccabiHome then "בית" else "חוץ";
    assert "חוץ" != "בית" by {
      assert "חוץ"[0] != "בית"[0];
    }
  }

  /** The arguments are the template's names in order, distinct and
    * stripped; the day of week, home/away and the players events are as
    * the page expects them, and the broadcast and costume fields start
    * empty. */
  lemma TemplateArgumentsFacts<T, S>(g: FootballGame<T, S>, eventsText: string)
    requires WellFormed(g)
    ensures var args := TemplateArguments(g, eventsText);
      && |args| == 18 && DistinctNames(args) && StrippedNames(args)
      && (forall k :: 0 <= k < 18 ==> args[k].0 == ArgumentNames[k])
      && args[2].1 == NatToString(DayOfWeekNumber(Weekday(g.date.date)))
      && (args[7].1 == "בית" <==> g.isMaccabiHome)
      && args[15].1 == "" && args[16].1 == ""
      && args[17] == (PlayersEvents, eventsText)
  {
    TemplateArgumentNames(g, eventsText);
    TemplateArgumentValues(g, eventsText);
  }

  // ----- Updating a page -----

  /** The outcome of editing a template: the result and the parameters left behind. */
  datatype Outcome = Outcome(result: Result<()>, params: seq<Param>)

  /** The full-mode loop of `handle_existing_page`: every argument must
    * exist (`get` raises ValueError otherwise, leaving earlier edits in
    * place); an argument is re-added only when its text differs from the
    * existing value and diffs are shown. */
  function Merged(ps: seq<Param>, args: seq<(string, string)>, showDiff: bool): Outcome
    decreases |args|
  {
    if |args| == 0 then Outcome(Ok(()), ps)
    else
      var n, v := args[0].0, args[0].1;
      if !HasParam(ps, n) then Outcome(Fail(ValueError), ps)
      else if v != ValueOf(ps, n) && showDiff then Merged(Added(ps, n, v), args[1..], showDiff)
      else Merged(ps, args[1..], showDiff)
  }

  /** With distinct, present argument names the loop succeeds; with diffs
    * shown every argument then holds its new value, without them nothing
    * changes; parameters that are not arguments are untouched. */
  lemma MergedResult(ps: seq<Param>, args: seq<(string, string)>, showDiff: bool)
    requires DistinctNames(args) && StrippedNames(args)
    requires forall a :: 0 <= a < |args| ==> HasParam(ps, args[a].0)
    ensures Merged(ps, args, showDiff).result == Ok(())
    ensures showDiff ==> forall a :: 0 <= a < |args| ==> ValueOf(Merged(ps, args, showDiff).params, args[a].0) == args[a].1
    ensures !showDiff ==> Merged(ps, args, showDiff).params == ps
    ensures forall other :: (forall a :: 0 <= a < |args| ==> args[a].0 != other) ==>
      (HasParam(Merged(ps, args, showDiff).params, other) <==> HasParam(ps, other))
      && ValueOf(Merged(ps, args, showDiff).params, other) == ValueOf(ps, other)
  {
    MergedKeeps(ps, args, showDiff);
    if showDiff {
      MergedValues(ps, args);
    }
  }

  /** The parameters after the first argument is handled. */
  function MergedNext(ps: seq<Param>, n: string, v: string, showDiff: bool): seq<Param>
  {
    if v != ValueOf(ps, n) && showDiff then Added(ps, n, v) else ps
  }

  /** Handling the first argument keeps the later ones present. */
  lemma MergedNextHas(ps: seq<Param>, args: seq<(string, string)>, showDiff: bool)
    requires |args| > 0 && DistinctNames(args) && StrippedNames(args)
    requires forall a :: 0 <= a < |args| ==> HasParam(ps, args[a].0)
    ensures var next := MergedNext(ps, args[0].0, args[0].1, showDiff);
      && Merged(ps, args, showDiff) == Merged(next, args[1..], showDiff)
      && DistinctNames(args[1..]) && StrippedNames(args[1..])
      && forall a :: 0 <= a < |args[1..]| ==> HasParam(next, args[1..][a].0)
  {
    var n, v := args[0].0, args[0].1;
    var rest := args[1..];
    var next := MergedNext(ps, n, v, showDiff);
    forall a | 0 <= a < |rest| ensures HasParam(next, rest[a].0) {
      assert rest[a] == args[a + 1];
      if next != ps {
        AddedOthers(ps, n, v, rest[a].0);
      }
    }
  }

  lemma {:induction false} MergedKeeps(ps: seq<Param>, args: seq<(string, string)>, showDiff: bool)
    requires DistinctNames(args) && StrippedNames(args)
    requires forall a :: 0 <= a < |args| ==> HasParam(ps, args[a].0)
    ensures Merged(ps, args, showDiff).result == Ok(())
    ensures !showDiff ==> Merged(ps, args, showDiff).params == ps
    ensures forall other :: (forall a :: 0 <= a < |args| ==> args[a].0 != other) ==>
      (HasParam(Merged(ps, args, showDiff).params, other) <==> HasParam(ps, other))
      && ValueOf(Merged(ps, args, showDiff).params, other) == ValueOf(ps, other)
    decreases |args|
  {
    if |args| > 0 {
      var n, v := args[0].0, args[0].1;
      var rest := args[1..];
      var next := MergedNext(ps, n, v, showDiff);
      MergedNextHas(ps, args, showDiff);
      MergedKeeps(next, rest, showDiff);
      var final := Merged(next, rest, showDiff).params;
      forall other | (forall a :: 0 <= a < |args| ==> args[a].0 != other)
        ensures (HasParam(final, other) <==> HasParam(ps, other)) && ValueOf(final, other) == ValueOf(ps, other)
      {
        assert args[0].0 != other;
        assert forall a :: 0 <= a < |rest| ==> rest[a] == args[a + 1];
        if next != ps {
          AddedOthers(ps, n, v, other);
        }
      }
    }
  }

  lemma {:induction false} MergedValues(ps: seq<Param>, args: seq<(string, string)>)
    requires DistinctNames(args) && StrippedNames(args)
    requires forall a :: 0 <= a < |args| ==> HasParam(ps, args[a].0)
    ensures forall a :: 0 <= a < |args| ==> ValueOf(Merged(ps, args, true).params, args[a].0) == args[a].1
    decreases |args|
  {
    if |args| > 0 {
      var n, v := args[0].0, args[0].1;
      var rest := args[1..];
      var next := MergedNext(ps, n, v, true);
      MergedNextHas(ps, args, true);
      MergedValues(next, rest);
      MergedKeeps(next, rest, true);
      var final := Merged(next, rest, true).params;
      forall a | 0 <= a < |args| ensures ValueOf(final, args[a].0) == args[a].1 {
        if a == 0 {
          forall b | 0 <= b < |rest| ensures rest[b].0 != n {
            assert rest[b] == args[b + 1];
          }
          if next != ps {
            AddedHasValue(ps, n, v);
          }
        } else {
          assert args[a] == rest[a - 1];
        }
      }
    }
  }

  /** `add` of every argument in order, as on a fresh template. */
  function AddedAll(ps: seq<Param>, args: seq<(string, string)>): seq<Param>
    decreases |args|
  {
    if |args| == 0 then ps else AddedAll(Added(ps, args[0].0, args[0].1), args[1..])
  }

  /** On a template without those names, adding distinct names appends one
    * parameter per argument, in order. */
  lemma {:induction false} AddedAllAppends(ps: seq<Param>, args: seq<(string, string)>)
    requires DistinctNames(args) && StrippedNames(args)
    requires forall a :: 0 <= a < |args| ==> !HasParam(ps, args[a].0)
    ensures AddedAll(ps, args) == ps + seq(|args|, a requires 0 <= a < |args| => Param(args[a].0, args[a].1))
    decreases |args|
  {
    if |args| > 0 {
      var n, v := args[0].0, args[0].1;
      var rest := args[1..];
      var next := ps + [Param(n, v)];
      assert Added(ps, n, v) == next;
      forall a | 0 <= a < |rest| ensures !HasParam(next, rest[a].0) {
        assert rest[a] == args[a + 1];
        AddedOthers(ps, n, v, rest[a].0);
      }
      AddedAllAppends(next, rest);
      ArgParamsCons(ps, args);
    }
  }

  /** The appended parameters of `args` are its first one's, then the rest's. */
  lemma ArgParamsCons(ps: seq<Param>, args: seq<(string, string)>)
    requires |args| > 0
    ensures var rest := args[1..];
      (ps + [Param(args[0].0, args[0].1)]) + seq(|rest|, a requires 0 <= a < |rest| => Param(rest[a].0, rest[a].1))
      == ps + seq(|args|, a requires 0 <= a < |args| => Param(args[a].0, args[a].1))
  {
    var rest := args[1..];
    var tail := seq(|rest|, a requires 0 <= a < |rest| => Param(rest[a].0, rest[a].1));
    var whole := seq(|args|, a requires 0 <= a < |args| => Param(args[a].0, args[a].1));
    assert whole == [Param(args[0].0, args[0].1)] + tail;
  }

  /** The full-mode loop over the arguments. */
  method MergeArguments(t: Template, args: seq<(string, string)>, showDiff: bool) returns (r: Result<()>)
    modifies t
    ensures t.name == old(t.name)
    ensures Outcome(r, t.params) == Merged(old(t.params), args, showDiff)
  {
    var i := 0;
    while i < |args|
      invariant 0 <= i <= |args|
      invariant t.name == old(t.name)
      invariant Merged(old(t.params), args, showDiff) == Merged(t.params, args[i..], showDiff)
    {
      var n, v := args[i].0, args[i].1;
      assert args[i..][0] == args[i] && args[i..][1..] == args[i + 1..];
      if !t.Has(n) {
        return Fail(ValueError);
      }
      if v != ValueOf(t.params, n) && showDiff {
        t.Add(n, v);
      }
      i := i + 1;
    }
    r := Ok(());
  }

  /** `handle_existing_page` on the page's game template: in JUST_EVENTS
    * mode only the players events are added; otherwise the full merge. */
  method HandleExistingPage(t: Template, args: seq<(string, string)>, eventsText: string,
                            justEvents: bool, showDiff: bool) returns (r: Result<()>)
    modifies t
    ensures t.name == old(t.name)
    ensures justEvents ==> r == Ok(()) && t.params == Added(old(t.params), PlayersEvents, eventsText)
    ensures !justEvents ==> Outcome(r, t.params) == Merged(old(t.params), args, showDiff)
  {
    if justEvents {
      t.Add(PlayersEvents, eventsText);
      r := Ok(());
    } else {
      r := MergeArguments(t, args, showDiff);
    }
  }

  /** `handle_new_page`: a fresh game template with every argument added. */
  method HandleNewPage(args: seq<(string, string)>) returns (t: Template)
    ensures fresh(t)
    ensures t.name == FootballGamesTemplateName
    ensures t.params == AddedAll([], args)
  {
    t := new Template(FootballGamesTemplateName, []);
    var i := 0;
    while i < |args|
      invariant 0 <= i <= |args|
      invariant t.name == FootballGamesTemplateName
      invariant AddedAll([], args) == AddedAll(t.params, args[i..])
    {
      assert args[i..][0] == args[i] && args[i..][1..] == args[i + 1..];
      t.Add(args[i].0, args[i].1);
      i := i + 1;
    }
  }

  // ----- Existing pages -----

  /** The title's first dd-mm-yyyy, with "-" replaced by "." as the game
    * lookup expects, or None when the title has no date. */
  function DateKeyOfTitle(title: string): Option<string>
  {
    var i := FindDatePattern(title, '-', 0);
    if i < 0 then None else Some(Replace(title[i..i + 10], "-", "."))
  }

  /** The game of one existing page: none for a title without a date (the
    * page is skipped), RuntimeError for more than one game on that date,
    * IndexError for none. `playedOn` is the foreign date filter. */
  function GameForTitle<G>(title: string, playedOn: string -> seq<G>): Result<Option<G>>
  {
    var key := DateKeyOfTitle(title);
    if key.None? then Ok(None)
    else
      var games := playedOn(key.value);
      if |games| > 1 then Fail(RuntimeError)
      else if |games| == 0 then Fail(IndexError)
      else Ok(Some(games[0]))
  }

  /** `get_games_that_has_existing_pages`: the games of the titles in
    * order; the first failing title raises. */
  function ExistingGames<G>(titles: seq<string>, playedOn: string -> seq<G>): Result<seq<G>>
  {
    if |titles| == 0 then Ok([])
    else
      var first := GameForTitle(titles[0], playedOn);
      if first.Fail? then Fail(first.error)
      else
        var rest := ExistingGames(titles[1..], playedOn);
        if rest.Fail? then rest
        else Ok((if first.value.Some? then [first.value.value] else []) + rest.value)
  }

  method GamesWithExistingPages<G>(titles: seq<string>, playedOn: string -> seq<G>) returns (r: Result<seq<G>>)
    ensures r == ExistingGames(titles, playedOn)
  {
    var existing: seq<G> := [];
    var i := 0;
    assert titles[0..] == titles;
    PrependedEmpty(ExistingGames(titles, playedOn));
    while i < |titles|
      invariant 0 <= i <= |titles|
      invariant ExistingGames(titles, playedOn) == Prepended(existing, ExistingGames(titles[i..], playedOn))
    {
      assert titles[i..][0] == titles[i] && titles[i..][1..] == titles[i + 1..];
      var key := DateKeyOfTitle(titles[i]);
      if key.Some? {
        var games := playedOn(key.value);
        if |games| > 1 {
          return Fail(RuntimeError);
        }
        if |games| == 0 {
          return Fail(IndexError);
        }
        assert ExistingGames(titles[i..], playedOn) == Prepended([games[0]], ExistingGames(titles[i + 1..], playedOn));
        PrependedStep(existing, [games[0]], ExistingGames(titles[i + 1..], playedOn));
        existing := existing + [games[0]];
      } else {
        assert ExistingGames(titles[i..], playedOn) == Prepended([], ExistingGames(titles[i + 1..], playedOn));
        PrependedEmpty(ExistingGames(titles[i + 1..], playedOn));
      }
      i := i + 1;
    }
    assert titles[i..] == [];
    assert existing + [] == existing;
    r := Ok(existing);
  }

  function Prepended<G>(done: seq<G>, r: Result<seq<G>>): Result<seq<G>>
  {
    if r.Fail? then r else Ok(done + r.value)
  }

  lemma PrependedEmpty<G>(r: Result<seq<G>>)
    ensures Prepended([], r) == r
  {
    if r.Ok? {
      assert [] + r.value == r.value;
    }
  }

  lemma PrependedStep<G>(done: seq<G>, x: seq<G>, r: Result<seq<G>>)
    ensures Prepended(done, Prepended(x, r)) == Prepended(done + x, r)
  {
    if r.Ok? {
      assert done + (x + r.value) == (done + x) + r.value;
    }
  }

  /** A page named by `PageName` leads back to its game's date, so the game
    * is found again when it is the only one on that day. */
  lemma PageNameLeadsToGame<T, S, G>(g: FootballGame<T, S>, playedOn: string -> seq<G>, found: G)
    requires WellFormed(g)
    ensures DateKeyOfTitle(PageName(g)) == Some(FormatDate(g.date.date, DayFirst, '.'))
    ensures playedOn(FormatDate(g.date.date, DayFirst, '.')) == [found] ==>
      GameForTitle(PageName(g), playedOn) == Ok(Some(found))
  {
    var prefix := FootballGamesPrefix + ": ";
    var rest := " " + HomeTeam(g).name + " נגד " + AwayTeam(g).name + " - " + g.competition;
    var dashed := FormatDate(g.date.date, DayFirst, '-');
    assert PageName(g) == prefix + dashed + rest;
    FormattedDateFound(prefix, g.date.date, '-', rest);
    DashedToDotted(g.date.date);
  }

  /** Replacing the dashes of a day-first dashed date gives the dotted one. */
  lemma DashedToDotted(d: Date)
    requires ValidDate(d) && d.year >= 1000
    ensures Replace(FormatDate(d, DayFirst, '-'), "-", ".") == FormatDate(d, DayFirst, '.')
  {
    var dashed := FormatDate(d, DayFirst, '-');
    var dotted := FormatDate(d, DayFirst, '.');
    ReplaceChar(dashed, '-', '.');
    ZeroPadTwo(d.day);
    ZeroPadTwo(d.month);
    NatToStringLength(d.year, 4);
    var r := Replace(dashed, "-", ".");
    forall i | 0 <= i < |dashed| ensures r[i] == dotted[i] {
    }
  }
}
