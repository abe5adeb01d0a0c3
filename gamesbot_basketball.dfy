/** gamesbot_basketball.py: uploads basketball games to the wiki, one page
  * per game holding a "משחק כדורסל" template filled from the game record.
  * The record here is not the basketball game class: it holds every field
  * the two page builders read, including the opponent's name, home or
  * away, the stadium or arena, the total points and the half points, which
  * that class does not declare. Reading them from an instance of the class
  * raises AttributeError, so the pages these builders write are the ones
  * the code would write for a game that carried those fields. A player
  * summary is rendered by a given function, as the summary class has no
  * wiki rendering of its own. */
module BasketballGamesBot {
  import opened Wrappers
  import opened Strings
  import opened Dates
  import opened WikiTemplate
  import GamesBot
  import PrettifyGamesPages

  const TemplateName: string := "משחק כדורסל"
  const Prefix: string := "כדורסל"

  const GameDate: string := "תאריך המשחק"
  const GameHour: string := "שעת המשחק"
  const Season: string := "עונה"
  const Competition: string := "מפעל"
  const OpponentName: string := "שם יריבה"
  const HomeOrAway: string := "בית חוץ"
  const Stadium: string := "אצטדיון"
  const MaccabiTotalPoints: string := "נקודות למכבי"
  const OpponentTotalPoints: string := "נקודות ליריבה"
  const MaccabiCoach: string := "מאמן מכבי"
  const OpponentCoach: string := "מאמן יריבה"
  const Referee: string := "שופט ראשי"
  const RefereeAssisters: string := "עוזרי שופט"
  const Crowd: string := "כמות קהל"
  const IsOvertime: string := "הארכה"
  const GameUrls: string := "כתבות על המשחק"
  const MaccabiPlayers: string := "שחקנים מכבי"
  const OpponentPlayers: string := "שחקנים יריבה"

  /** The opponent's third and fourth overtime points. */
  const OpponentThirdOvertime: string := "נקודות יריבה הארכה שלישית"
  const OpponentFourthOvertime: string := "נקודות יריבה הארכה רביעית"

  /** The points of one side by period; None when unknown. */
  datatype Periods = Periods(
    firstQuarter: Option<nat>, secondQuarter: Option<nat>, thirdQuarter: Option<nat>, fourthQuarter: Option<nat>,
    firstOvertime: Option<nat>, secondOvertime: Option<nat>, thirdOvertime: Option<nat>, fourthOvertime: Option<nat>)

  /** The points of one side by half; None when unknown. */
  datatype Halves = Halves(first: Option<nat>, second: Option<nat>)

  /** The fields of a game the two bots read; several are not declared by
    * the basketball game class. */
  datatype Game<P> = Game(
    date: DateTime,
    homeTeamName: string,
    awayTeamName: string,
    competition: string,
    fixture: string,
    season: Option<string>,
    opponentName: string,
    isHomeGame: bool,
    stadium: string,
    arena: string,
    maccabiPeriods: Periods,
    opponentPeriods: Periods,
    maccabiHalves: Halves,
    opponentHalves: Halves,
    maccabiPoints: nat,
    opponentPoints: nat,
    maccabiCoach: Option<string>,
    opponentCoach: Option<string>,
    referee: Option<string>,
    refereeAssistants: seq<string>,
    crowd: Option<nat>,
    hasOvertime: bool,
    gameUrl: seq<string>,
    maccabiPlayers: seq<P>,
    opponentPlayers: seq<P>)

  // ----- The page name -----

  /** `generate_page_name_from_game`: "כדורסל:{dd-mm-yyyy} {home} נגד {away} - {competition}". */
  function PageName<P>(g: Game<P>): string
    requires ValidDateTime(g.date)
  {
    Prefix + ":" + FormatDate(g.date.date, DayFirst, '-') + (" " + g.homeTeamName + " נגד " + g.awayTeamName + " - " + g.competition)
  }

  /** The name is the prefix, then the game's date read back from its ten
    * characters, then the teams and the competition. */
  lemma PageNameSpec<P>(g: Game<P>)
    requires ValidDateTime(g.date) && g.date.date.year >= 1000
    ensures |PageName(g)| >= 17 && PageName(g)[..7] == "כדורסל:"
    ensures ParseDate(PageName(g)[7..17], DayFirst, '-') == Some(g.date.date)
    ensures PageName(g)[17..] == " " + g.homeTeamName + " נגד " + g.awayTeamName + " - " + g.competition
  {
    var d := FormatDate(g.date.date, DayFirst, '-');
    var rest := " " + g.homeTeamName + " נגד " + g.awayTeamName + " - " + g.competition;
    FormatParseRoundTrip(g.date.date, DayFirst, '-');
    DateLength(g.date.date);
    assert PageName(g) == "כדורסל:" + d + rest;
    assert PageName(g)[7..17] == d;
  }

  /** A day-first date of a four-digit year takes ten characters. */
  lemma DateLength(d: Date)
    requires ValidDate(d) && d.year >= 1000
    ensures |FormatDate(d, DayFirst, '-')| == 10
  {
    ZeroPadTwo(d.day);
    ZeroPadTwo(d.month);
    NatToStringLength(d.year, 4);
  }

  // ----- Parameter values -----

  /** A number or None as the template writes it: None becomes nothing. */
  function NumberText(n: Option<nat>): string
  {
    match n
    case None => ""
    case Some(k) => NatToString(k)
  }

  /** A text or None as the template writes it. */
  function OptionalText(s: Option<string>): string
  {
    match s
    case None => ""
    case Some(t) => t
  }

  /** A known number reads back from its text; an unknown one is empty. */
  lemma NumberTextSpec(n: Option<nat>)
    ensures n.None? <==> NumberText(n) == ""
    ensures n.Some? ==> ParseInt(NumberText(n)) == Some(n.value)
  {
    if n.Some? {
      ParseIntOfString(n.value);
    }
  }

  /** The hour, left empty at midnight (an unknown time). */
  function HourText(t: DateTime): string
    requires ValidDateTime(t)
  {
    if t.hour == 0 then "" else NatToString(t.hour)
  }

  /** The hour is empty exactly at hour 0, and otherwise reads back. */
  lemma HourTextSpec(t: DateTime)
    requires ValidDateTime(t)
    ensures HourText(t) == "" <==> t.hour == 0
    ensures t.hour != 0 ==> ParseInt(HourText(t)) == Some(t.hour)
  {
    if t.hour != 0 {
      ParseIntOfString(t.hour);
    }
  }

  function HomeOrAwayText(isHome: bool): string
  {
    if isHome then "בית" else "חוץ"
  }

  function YesNo(b: bool): string
  {
    if b then "כן" else "לא"
  }

  /** `get_players_events_for_template`: the summaries joined by ",\n",
    * trailing whitespace removed. */
  function PlayersText<P>(players: seq<P>, render: P -> string): string
  {
    RStrip(Join(Serialised(players, render), ",\n"), Whitespace)
  }

  /** The text is the joined summaries up to their trailing whitespace: what
    * is cut is whitespace and what is left does not end in any. */
  lemma PlayersTextSpec<P>(players: seq<P>, render: P -> string)
    ensures var joined, r := Join(Serialised(players, render), ",\n"), PlayersText(players, render);
      && |r| <= |joined| && r == joined[..|r|]
      && (forall i :: |r| <= i < |joined| ==> joined[i] in Whitespace)
      && (|r| > 0 ==> r[|r| - 1] !in Whitespace)
  {
    RStripSpec(Join(Serialised(players, render), ",\n"), Whitespace);
  }

  /** With the last summary ending in a visible character, nothing is cut. */
  lemma {:induction false} PlayersTextWhole<P>(players: seq<P>, render: P -> string)
    requires |players| > 0 && |render(players[|players| - 1])| > 0
    requires render(players[|players| - 1])[|render(players[|players| - 1])| - 1] !in Whitespace
    ensures PlayersText(players, render) == Join(Serialised(players, render), ",\n")
  {
    JoinLast(Serialised(players, render), ",\n");
  }

  /** A join ends with its last part. */
  lemma {:induction false} JoinLast(parts: seq<string>, sep: string)
    requires |parts| > 0
    ensures EndsWith(Join(parts, sep), parts[|parts| - 1])
    decreases |parts|
  {
    if |parts| > 1 {
      JoinLast(parts[1..], sep);
      var rest := Join(parts[1..], sep);
      var whole := parts[0] + sep + rest;
      assert whole[|whole| - |rest|..] == rest;
      assert parts[1..][|parts| - 2] == parts[|parts| - 1];
    }
  }

  // ----- The template arguments -----

  /** The names of the argument dictionary, in its order. */
  const ArgumentNames: seq<string> := [
    "תאריך המשחק", "שעת המשחק", "עונה", "מפעל", "שם יריבה", "בית חוץ", "אצטדיון",
    "נקודות מכבי רבע ראשון", "נקודות מכבי רבע שני", "נקודות מכבי רבע שלישי", "נקודות מכבי רבע רביעי",
    "נקודות מכבי הארכה ראשונה", "נקודות מכבי הארכה שניה", "נקודות מכבי הארכה שלישית", "נקודות מכבי הארכה רביעית",
    "נקודות יריבה רבע ראשון", "נקודות יריבה רבע שניה", "נקודות יריבה רבע שלישי", "נקודות יריבה רבע רביעי",
    "נקודות יריבה הארכה ראשונה", "נקודות יריבה הארכה שניה", "נקודות יריבה הארכה שלישית", "נקודות יריבה הארכה רביעית",
    "נקודות למכבי", "נקודות ליריבה", "מאמן מכבי", "מאמן יריבה", "שופט ראשי", "עוזרי שופט",
    "כמות קהל", "הארכה", "כתבות על המשחק", "שחקנים מכבי", "שחקנים יריבה"]

  /** The names as the constants are written: the opponent's third and
    * fourth overtime names are exchanged, so each period's points go under
    * the other's name. */
  const ArgumentNamesAsWritten: seq<string> := ArgumentNames[21 := ArgumentNames[22]][22 := ArgumentNames[21]]

  /** One side's points of the four quarters and the four overtimes. */
  function PeriodTexts(p: Periods): (r: seq<string>)
    ensures |r| == 8
  {
    [NumberText(p.firstQuarter), NumberText(p.secondQuarter), NumberText(p.thirdQuarter), NumberText(p.fourthQuarter),
     NumberText(p.firstOvertime), NumberText(p.secondOvertime), NumberText(p.thirdOvertime), NumberText(p.fourthOvertime)]
  }

  /** The values of the argument dictionary, in its order: the period points
    * are Maccabi's four quarters and four overtimes, then the opponent's. */
  function Values<P>(g: Game<P>, render: P -> string): (r: seq<string>)
    requires ValidDateTime(g.date)
    ensures |r| == 34
  {
    var head := [FormatDate(g.date.date, DayFirst, '-'), HourText(g.date), OptionalText(g.season), g.competition,
      g.opponentName, HomeOrAwayText(g.isHomeGame), g.stadium];
    var tail := [NatToString(g.maccabiPoints), NatToString(g.opponentPoints), OptionalText(g.maccabiCoach),
      OptionalText(g.opponentCoach), OptionalText(g.referee), Join(g.refereeAssistants, ", "), NumberText(g.crowd),
      YesNo(g.hasOvertime), Join(g.gameUrl, ", "), PlayersText(g.maccabiPlayers, render), PlayersText(g.opponentPlayers, render)];
    head + PeriodTexts(g.maccabiPeriods) + PeriodTexts(g.opponentPeriods) + tail
  }

  /** The dictionary built by `__get_football_game_template_with_maccabistats_game_value`,
    * under the given names. */
  function Dictionary<P>(names: seq<string>, g: Game<P>, render: P -> string): (r: seq<(string, string)>)
    requires ValidDateTime(g.date) && |names| == 34
    ensures |r| == 34
  {
    var vs := Values(g, render);
    seq(34, k requires 0 <= k < 34 => (names[k], vs[k]))
  }

  /** The arguments with each period under its own name. */
  function Arguments<P>(g: Game<P>, render: P -> string): (r: seq<(string, string)>)
    requires ValidDateTime(g.date)
    ensures |r| == 34
  {
    Dictionary(ArgumentNames, g, render)
  }

  /** The arguments as written. */
  function ArgumentsAsWritten<P>(g: Game<P>, render: P -> string): (r: seq<(string, string)>)
    requires ValidDateTime(g.date)
    ensures |r| == 34
  {
    Dictionary(ArgumentNamesAsWritten, g, render)
  }

  /** Two names at positions a and b differ. */
  predicate DifferAt(ns: seq<string>, a: int, b: int)
    requires 0 <= a < |ns| && 0 <= b < |ns|
  {
    ns[a] != ns[b]
  }

  lemma NamesDifferLow()
    ensures forall a, b :: 0 <= a < b < 17 ==> DifferAt(ArgumentNames, a, b)
  {
    var ns := ArgumentNames;
    forall a, b | 0 <= a < b < 17 ensures ns[a] != ns[b] {
      var x, y := ns[a], ns[b];
      assert |x| != |y| || x[|x| - 2] != y[|y| - 2] || x[|x| - 3] != y[|y| - 3];
    }
  }

  lemma NamesDifferHigh()
    ensures forall a, b :: 17 <= a < b < 34 ==> DifferAt(ArgumentNames, a, b)
  {
    var ns := ArgumentNames;
    forall a, b | 17 <= a < b < 34 ensures ns[a] != ns[b] {
      var x, y := ns[a], ns[b];
      assert |x| != |y| || x[|x| - 2] != y[|y| - 2] || x[|x| - 3] != y[|y| - 3];
    }
  }

  lemma NamesDifferAcross()
    ensures forall a, b :: 0 <= a < 17 <= b < 34 ==> DifferAt(ArgumentNames, a, b)
  {
    var ns := ArgumentNames;
    forall a, b | 0 <= a < 17 <= b < 34 ensures ns[a] != ns[b] {
      var x, y := ns[a], ns[b];
      assert |x| != |y| || x[|x| - 2] != y[|y| - 2];
    }
  }

  /** Names pairwise different and without surrounding whitespace: the
    * dictionary keeps each of them as its own parameter. */
  predicate GoodNames(ns: seq<string>)
  {
    && (forall a, b :: 0 <= a < b < |ns| ==> ns[a] != ns[b])
    && (forall a :: 0 <= a < |ns| ==> Trim(ns[a]) == ns[a])
  }

  /** No argument name is given twice. */
  lemma ArgumentNamesDistinct()
    ensures forall a, b :: 0 <= a < b < |ArgumentNames| ==> ArgumentNames[a] != ArgumentNames[b]
  {
    var ns := ArgumentNames;
    NamesDifferLow();
    NamesDifferHigh();
    NamesDifferAcross();
    forall a, b | 0 <= a < b < |ns| ensures ns[a] != ns[b] {
      assert DifferAt(ns, a, b);
    }
  }

  /** The names of the game's date, competition and place have no whitespace around them. */
  lemma GameNamesStripped()
    ensures forall a :: 0 <= a < 7 ==> Trim(ArgumentNames[a]) == ArgumentNames[a]
  {
    forall a | 0 <= a < 7 ensures Trim(ArgumentNames[a]) == ArgumentNames[a] {
      VisibleEndsStripped(ArgumentNames[a]);
    }
  }

  /** The names of Maccabi's period points have no whitespace around them. */
  lemma MaccabiPeriodNamesStripped()
    ensures forall a :: 7 <= a < 15 ==> Trim(ArgumentNames[a]) == ArgumentNames[a]
  {
    forall a | 7 <= a < 15 ensures Trim(ArgumentNames[a]) == ArgumentNames[a] {
      VisibleEndsStripped(ArgumentNames[a]);
    }
  }

  /** The names of the opponent's period points have no whitespace around them. */
  lemma OpponentPeriodNamesStripped()
    ensures forall a :: 15 <= a < 23 ==> Trim(ArgumentNames[a]) == ArgumentNames[a]
  {
    forall a | 15 <= a < 23 ensures Trim(ArgumentNames[a]) == ArgumentNames[a] {
      VisibleEndsStripped(ArgumentNames[a]);
    }
  }

  /** The names of the totals, staff, crowd, links and players have no whitespace around them. */
  lemma SummaryNamesStripped()
    ensures forall a :: 23 <= a < 34 ==> Trim(ArgumentNames[a]) == ArgumentNames[a]
  {
    forall a | 23 <= a < 34 ensures Trim(ArgumentNames[a]) == ArgumentNames[a] {
      VisibleEndsStripped(ArgumentNames[a]);
    }
  }

  /** No argument name has whitespace around it. */
  lemma ArgumentNamesStripped()
    ensures forall a :: 0 <= a < |ArgumentNames| ==> Trim(ArgumentNames[a]) == ArgumentNames[a]
  {
    GameNamesStripped();
    MaccabiPeriodNamesStripped();
    OpponentPeriodNamesStripped();
    SummaryNamesStripped();
  }

  /** The argument names are good. */
  lemma ArgumentNamesFacts()
    ensures |ArgumentNames| == 34 && GoodNames(ArgumentNames)
  {
    ArgumentNamesDistinct();
    ArgumentNamesStripped();
  }

  /** Exchanging two good names keeps them good. */
  lemma SwapGood(ns: seq<string>, i: int, j: int)
    requires GoodNames(ns) && 0 <= i < |ns| && 0 <= j < |ns|
    ensures GoodNames(ns[i := ns[j]][j := ns[i]])
  {
    var ws := ns[i := ns[j]][j := ns[i]];
    forall a, b | 0 <= a < b < |ws| ensures ws[a] != ws[b] {
      var a' := if a == i then j else if a == j then i else a;
      var b' := if b == i then j else if b == j then i else b;
      assert ws[a] == ns[a'] && ws[b] == ns[b'];
      if a' < b' {
        assert ns[a'] != ns[b'];
      } else {
        assert ns[b'] != ns[a'];
      }
    }
  }

  /** The names as written are good too, and differ from the intended ones
    * exactly at the opponent's third and fourth overtimes. */
  lemma ArgumentNamesAsWrittenFacts()
    ensures |ArgumentNamesAsWritten| == 34 && GoodNames(ArgumentNamesAsWritten)
    ensures ArgumentNamesAsWritten[21] == OpponentFourthOvertime && ArgumentNamesAsWritten[22] == OpponentThirdOvertime
    ensures forall k :: 0 <= k < 34 && k != 21 && k != 22 ==> ArgumentNamesAsWritten[k] == ArgumentNames[k]
  {
    ArgumentNamesFacts();
    SwapGood(ArgumentNames, 21, 22);
    OvertimeNames();
  }

  /** Positions 21 and 22 name the opponent's third and fourth overtimes. */
  lemma OvertimeNames()
    ensures ArgumentNames[21] == OpponentThirdOvertime && ArgumentNames[22] == OpponentFourthOvertime
  {
  }

  /** A dictionary under good names has good argument names. */
  lemma DictionaryFacts<P>(names: seq<string>, g: Game<P>, render: P -> string)
    requires ValidDateTime(g.date) && |names| == 34 && GoodNames(names)
    ensures GamesBot.DistinctNames(Dictionary(names, g, render)) && GamesBot.StrippedNames(Dictionary(names, g, render))
  {
  }

  // ----- The new page -----

  /** On a template built from distinct, stripped arguments, each name reads
    * its own argument's value. */
  lemma NewTemplateValue(args: seq<(string, string)>, k: int)
    requires GamesBot.DistinctNames(args) && GamesBot.StrippedNames(args) && 0 <= k < |args|
    ensures |GamesBot.AddedAll([], args)| == |args|
    ensures GamesBot.AddedAll([], args)[k] == Param(args[k].0, args[k].1)
    ensures ValueOf(GamesBot.AddedAll([], args), args[k].0) == args[k].1
  {
    GamesBot.AddedAllAppends([], args);
    var ps := GamesBot.AddedAll([], args);
    assert ps[k] == Param(args[k].0, args[k].1);
    KeyOfStripped(args, k);
    forall j | 0 <= j < |ps| && j != k ensures Key(ps[j]) != Key(ps[k]) {
      assert ps[j] == Param(args[j].0, args[j].1);
      KeyOfStripped(args, j);
    }
    ValueOfUnique(ps, k);
  }

  /** A stripped argument name is its own key. */
  lemma KeyOfStripped(args: seq<(string, string)>, k: int)
    requires GamesBot.StrippedNames(args) && 0 <= k < |args|
    ensures Key(Param(args[k].0, args[k].1)) == args[k].0
  {
  }

  /** A template built from a dictionary under good names holds one
    * parameter per name, in order, and each name reads its own value. */
  lemma DictionaryTemplate<P>(names: seq<string>, g: Game<P>, render: P -> string)
    requires ValidDateTime(g.date) && |names| == 34 && GoodNames(names)
    ensures var ps := GamesBot.AddedAll([], Dictionary(names, g, render));
      && |ps| == 34
      && (forall k :: 0 <= k < 34 ==> ps[k].name == names[k])
      && (forall k :: 0 <= k < 34 ==> ValueOf(ps, names[k]) == Values(g, render)[k])
  {
    var args := Dictionary(names, g, render);
    DictionaryFacts(names, g, render);
    NewTemplateValue(args, 0);
    forall k | 0 <= k < 34
      ensures GamesBot.AddedAll([], args)[k].name == names[k]
      ensures ValueOf(GamesBot.AddedAll([], args), names[k]) == Values(g, render)[k]
    {
      NewTemplateValue(args, k);
    }
  }

  /** `handle_new_page`: a fresh basketball template with every argument
    * added in order. */
  method HandleNewPage(args: seq<(string, string)>) returns (t: Template)
    ensures fresh(t)
    ensures t.name == TemplateName
    ensures t.params == GamesBot.AddedAll([], args)
  {
    t := new Template(TemplateName, []);
    var i := 0;
    while i < |args|
      invariant 0 <= i <= |args|
      invariant t.name == TemplateName
      invariant GamesBot.AddedAll([], args) == GamesBot.AddedAll(t.params, args[i..])
    {
      assert args[i..][0] == args[i] && args[i..][1..] == args[i + 1..];
      t.Add(args[i].0, args[i].1);
      i := i + 1;
    }
  }

  /** The text of a new game page. */
  function NewPageText<P>(g: Game<P>, render: P -> string): string
    requires ValidDateTime(g.date)
  {
    Render(TemplateName, GamesBot.AddedAll([], Arguments(g, render)))
  }

  /** A new page's template holds the 34 arguments in order, each under its
    * own name. */
  lemma NewPageNames<P>(g: Game<P>, render: P -> string)
    requires ValidDateTime(g.date)
    ensures var ps := GamesBot.AddedAll([], Arguments(g, render));
      && |ps| == 34
      && (forall k :: 0 <= k < 34 ==> ps[k].name == ArgumentNames[k])
      && (forall k :: 0 <= k < 34 ==> ValueOf(ps, ArgumentNames[k]) == Values(g, render)[k])
  {
    ArgumentNamesFacts();
    DictionaryTemplate(ArgumentNames, g, render);
  }

  /** The hour's value is empty exactly at midnight, and reads the hour
    * back otherwise. */
  lemma HourValueSpec<P>(g: Game<P>, render: P -> string)
    requires ValidDateTime(g.date)
    ensures Values(g, render)[1] == HourText(g.date)
    ensures Values(g, render)[1] == "" <==> g.date.hour == 0
  {
    assert Values(g, render)[1] == HourText(g.date);
    HourTextSpec(g.date);
  }

  /** Each of the opponent's last two overtimes has its own points at its
    * position, and the overtime flag reads "כן" or "לא". */
  lemma OvertimeValuesSpec<P>(g: Game<P>, render: P -> string)
    requires ValidDateTime(g.date)
    ensures var vs := Values(g, render);
      && vs[21] == NumberText(g.opponentPeriods.thirdOvertime)
      && vs[22] == NumberText(g.opponentPeriods.fourthOvertime)
      && vs[30] == YesNo(g.hasOvertime)
  {
  }

  /** The lists read back: the assistants and the URLs joined by ", ", and
    * the players' texts. */
  lemma ValuesListsSpec<P>(g: Game<P>, render: P -> string)
    requires ValidDateTime(g.date)
    ensures var vs := Values(g, render);
      && vs[28] == Join(g.refereeAssistants, ", ")
      && vs[31] == Join(g.gameUrl, ", ")
      && vs[32] == PlayersText(g.maccabiPlayers, render)
      && vs[33] == PlayersText(g.opponentPlayers, render)
  {
  }

  /** The parameter names these values go under. */
  lemma SpecNames()
    ensures var ns := ArgumentNames;
      && GameHour == ns[1] && RefereeAssisters == ns[28] && IsOvertime == ns[30]
      && GameUrls == ns[31] && MaccabiPlayers == ns[32] && OpponentPlayers == ns[33]
  {
  }

  /** A new page reads the game back under the parameters' names. */
  lemma NewPageSpec<P>(g: Game<P>, render: P -> string)
    requires ValidDateTime(g.date)
    ensures var ps := GamesBot.AddedAll([], Arguments(g, render));
      && (ValueOf(ps, GameHour) == "" <==> g.date.hour == 0)
      && ValueOf(ps, IsOvertime) == YesNo(g.hasOvertime)
      && ValueOf(ps, RefereeAssisters) == Join(g.refereeAssistants, ", ")
      && ValueOf(ps, GameUrls) == Join(g.gameUrl, ", ")
      && ValueOf(ps, MaccabiPlayers) == PlayersText(g.maccabiPlayers, render)
      && ValueOf(ps, OpponentPlayers) == PlayersText(g.opponentPlayers, render)
      && ValueOf(ps, OpponentThirdOvertime) == NumberText(g.opponentPeriods.thirdOvertime)
      && ValueOf(ps, OpponentFourthOvertime) == NumberText(g.opponentPeriods.fourthOvertime)
  {
    NewPageNames(g, render);
    HourValueSpec(g, render);
    OvertimeValuesSpec(g, render);
    ValuesListsSpec(g, render);
    SpecNames();
    OvertimeNames();
  }

  /** As written, the opponent's third overtime shows the fourth's points
    * and the fourth the third's. */
  lemma NewPageAsWrittenSwapsOvertimes<P>(g: Game<P>, render: P -> string)
    requires ValidDateTime(g.date)
    ensures var ps := GamesBot.AddedAll([], ArgumentsAsWritten(g, render));
      && ValueOf(ps, OpponentThirdOvertime) == NumberText(g.opponentPeriods.fourthOvertime)
      && ValueOf(ps, OpponentFourthOvertime) == NumberText(g.opponentPeriods.thirdOvertime)
  {
    ArgumentNamesAsWrittenFacts();
    DictionaryTemplate(ArgumentNamesAsWritten, g, render);
    OvertimeValuesSpec(g, render);
  }

  /** The prettifying pass looks for a football game template, so it leaves a
    * basketball page alone. */
  lemma PrettifySkipsBasketballPage()
    ensures FirstNamed([TemplateName], PrettifyGamesPages.GamesTemplateName) == -1
  {
    TrimUnchanged(TemplateName);
    assert TemplateName != PrettifyGamesPages.GamesTemplateName;
  }

  // ----- One game -----

  /** A game's page: its title and the text of a new page for it. */
  function PageOf<P>(g: Game<P>, render: P -> string): (string, string)
    requires ValidDateTime(g.date)
  {
    (PageName(g), NewPageText(g, render))
  }

  /** `handle_game` on the wiki, a map from title to text, for a page given
    * by its title and new text: an existing page is skipped unless
    * overwriting, and overwriting it raises NameError (`handle_existing_page`
    * reads names that are not defined); a new page is written when saving. */
  function Handled(wiki: map<string, string>, page: (string, string), overwrite: bool, save: bool): (r: Result<map<string, string>>)
    ensures r.Fail? <==> page.0 in wiki && overwrite
    ensures r.Fail? ==> r.error == NameError
    ensures r.Ok? && page.0 in wiki ==> r.value == wiki
    ensures r.Ok? && page.0 !in wiki ==> r.value == if save then wiki[page.0 := page.1] else wiki
  {
    var (name, text) := page;
    if name in wiki && !overwrite then Ok(wiki)
    else if name in wiki then Fail(NameError)
    else if save then Ok(wiki[name := text])
    else Ok(wiki)
  }

  /** The saving step of `handle_game`: the page's text, then the
    * prettifying pass, which finds nothing to do on a basketball page. */
  method SaveNewPage(t: Template) returns (text: string)
    requires t.name == TemplateName
    modifies t
    ensures text == Render(TemplateName, old(t.params))
    ensures t.name == old(t.name) && t.params == old(t.params)
  {
    text := t.Text();
    PrettifySkipsBasketballPage();
    var edited := PrettifyGamesPages.PrettifyGamePage([t]);
    assert !edited;
  }

  /** `handle_game`: the page is built, and saved when asked. */
  method HandleGame<P>(wiki: map<string, string>, g: Game<P>, render: P -> string, overwrite: bool, save: bool)
    returns (r: Result<map<string, string>>)
    requires ValidDateTime(g.date)
    ensures r == Handled(wiki, PageOf(g, render), overwrite, save)
  {
    var name := PageName(g);
    if name in wiki && !overwrite {
      return Ok(wiki);
    }
    if name in wiki {
      return Fail(NameError);
    }
    var t := HandleNewPage(Arguments(g, render));
    if !save {
      return Ok(wiki);
    }
    var text := SaveNewPage(t);
    return Ok(wiki[name := text]);
  }

  // ----- The upload -----

  predicate AllValid<P>(games: seq<Game<P>>)
  {
    forall i :: 0 <= i < |games| ==> ValidDateTime(games[i].date)
  }

  /** The page of each game, in order. */
  function Pages<P>(games: seq<Game<P>>, render: P -> string): seq<(string, string)>
    requires AllValid(games)
  {
    seq(|games|, i requires 0 <= i < |games| => PageOf(games[i], render))
  }

  /** `upload_basketball_games_to_maccabipedia` on the games' pages: every
    * page in turn, never overwriting. */
  function Uploaded(wiki: map<string, string>, pages: seq<(string, string)>, save: bool): map<string, string>
    decreases |pages|
  {
    if pages == [] then wiki
    else Handled(Uploaded(wiki, pages[..|pages| - 1], save), pages[|pages| - 1], false, save).value
  }

  /** One more page is one more step of the loop. */
  lemma UploadedStep(wiki: map<string, string>, pages: seq<(string, string)>, i: int, save: bool)
    requires 0 <= i < |pages|
    ensures Uploaded(wiki, pages[..i + 1], save) == Handled(Uploaded(wiki, pages[..i], save), pages[i], false, save).value
  {
    assert pages[..i + 1][..i] == pages[..i];
  }

  /** Pages that existed are never changed, and without saving nothing is. */
  lemma {:induction false} UploadedKeeps(wiki: map<string, string>, pages: seq<(string, string)>, save: bool)
    ensures forall n :: n in wiki ==> n in Uploaded(wiki, pages, save) && Uploaded(wiki, pages, save)[n] == wiki[n]
    ensures !save ==> Uploaded(wiki, pages, save) == wiki
    decreases |pages|
  {
    if pages != [] {
      UploadedKeeps(wiki, pages[..|pages| - 1], save);
    }
  }

  /** Some page has the title n. */
  predicate Titled(pages: seq<(string, string)>, n: string)
  {
    exists i :: 0 <= i < |pages| && pages[i].0 == n
  }

  /** When saving, the pages afterwards are the old ones and one per game. */
  lemma {:induction false} UploadedTitles(wiki: map<string, string>, pages: seq<(string, string)>, n: string)
    ensures n in Uploaded(wiki, pages, true) <==> n in wiki || Titled(pages, n)
    decreases |pages|
  {
    if pages != [] {
      var init := pages[..|pages| - 1];
      UploadedTitles(wiki, init, n);
      if Titled(pages, n) && !Titled(init, n) {
        var i :| 0 <= i < |pages| && pages[i].0 == n;
        assert i == |init|;
      }
      if Titled(init, n) {
        var i :| 0 <= i < |init| && init[i].0 == n;
        assert pages[i] == init[i];
      }
    }
  }

  /** A new title holds the text of its first page; later pages with that
    * title are skipped. */
  lemma {:induction false} UploadedFirstWins(wiki: map<string, string>, pages: seq<(string, string)>, i: int)
    requires 0 <= i < |pages|
    requires pages[i].0 !in wiki
    requires forall j :: 0 <= j < i ==> pages[j].0 != pages[i].0
    ensures pages[i].0 in Uploaded(wiki, pages, true)
    ensures Uploaded(wiki, pages, true)[pages[i].0] == pages[i].1
    decreases |pages|
  {
    var n := |pages| - 1;
    var init := pages[..n];
    if i < n {
      assert init[i] == pages[i];
      assert forall j :: 0 <= j < i ==> init[j] == pages[j];
      UploadedFirstWins(wiki, init, i);
    } else {
      UploadedTitles(wiki, init, pages[i].0);
      assert !Titled(init, pages[i].0) by {
        forall j | 0 <= j < |init| ensures init[j].0 != pages[i].0 {
          assert init[j] == pages[j];
        }
      }
    }
  }

  /** The loop over the games. */
  method UploadGames<P>(wiki: map<string, string>, games: seq<Game<P>>, render: P -> string, save: bool)
    returns (r: map<string, string>)
    requires AllValid(games)
    ensures r == Uploaded(wiki, Pages(games, render), save)
  {
    var pages := Pages(games, render);
    r := wiki;
    for i := 0 to |games|
      invariant r == Uploaded(wiki, pages[..i], save)
    {
      UploadedStep(wiki, pages, i, save);
      var next := HandleGame(r, games[i], render, false, save);
      r := next.value;
    }
    assert pages[..|pages|] == pages;
  }
}
