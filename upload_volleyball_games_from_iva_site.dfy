/** upload_volleyball_games_from_iva_site.py: the games table of the IVA
  * (the Israeli volleyball association) site read into volleyball game
  * records, whose opponent and hall names are then corrected from tables. */
module IvaUpload {
  import opened Wrappers
  import opened Strings
  import opened Dates
  import opened Collections
  import opened VolleyballGames
  import VolleyballCalendar

  /** The club as the IVA site names it. */
  const MaccabiNames: seq<string> := ["מכבי יעדים תל-אביב"]
  const LeagueText: string := "ליגת על גברים"
  const TrophyText: string := "גביע המדינה לגברים"
  const LeagueName: string := "ליגת העל"
  const TrophyName: string := "גביע המדינה"
  const CurrentSeason: string := "2025/26"

  /** One row of the table, by column: "תאריך", "מארחת", "אורחת", "אולם",
    * "תוצאה" and "מסגרת". An empty cell of the hall or result columns
    * (NaN) is None. */
  datatype Row = Row(date: string, host: string, guest: string, hall: Option<string>, result: Option<string>, frame: string)

  /** The date cell: its first word is "dd/mm/yyyy" and its fourth "HH:MM";
    * fewer than four words is an IndexError, words that do not read as a
    * date and a time a ValueError. */
  function RowDate(text: string): (r: Result<DateTime>)
    ensures r.Ok? ==> ValidDateTime(r.value)
    ensures r == Fail(IndexError) <==> |Words(text)| < 4
    ensures r.Ok? ==> var words := Words(text);
      && ParseDate(words[0], DayFirst, '/') == Some(r.value.date)
      && VolleyballCalendar.ParseClock(words[3]) == Some((r.value.hour, r.value.minute))
  {
    var words := Words(text);
    if |words| < 4 then Fail(IndexError)
    else
      match (ParseDate(words[0], DayFirst, '/'), VolleyballCalendar.ParseClock(words[3]))
      case (Some(d), Some(hm)) => Ok(DateTime(d, hm.0, hm.1))
      case _ => Fail(ValueError)
  }

  /** "HH:MM" for a time of day. */
  function ClockText(t: DateTime): string
    requires ValidDateTime(t)
  {
    ZeroPad(t.hour, 2) + ":" + ZeroPad(t.minute, 2)
  }

  lemma NoWhitespaceInDigits(s: string)
    requires AllDigits(s)
    ensures forall i :: 0 <= i < |s| ==> s[i] !in Whitespace
  {
    assert forall i :: 0 <= i < |s| ==> IsDigit(s[i]);
  }

  /** The written date and time are single words. */
  lemma DateWords(t: DateTime)
    requires ValidDateTime(t)
    ensures var day := FormatDate(t.date, DayFirst, '/');
      |day| > 0 && forall i :: 0 <= i < |day| ==> day[i] !in Whitespace
    ensures var clock := ClockText(t);
      |clock| > 0 && forall i :: 0 <= i < |clock| ==> clock[i] !in Whitespace
  {
    var dd, mm, yyyy := ZeroPad(t.date.day, 2), ZeroPad(t.date.month, 2), ZeroPad(t.date.year, 4);
    NoWhitespaceInDigits(dd);
    NoWhitespaceInDigits(mm);
    NoWhitespaceInDigits(yyyy);
    assert FormatDate(t.date, DayFirst, '/') == dd + ['/'] + mm + ['/'] + yyyy;
    NoWhitespaceInDigits(ZeroPad(t.hour, 2));
    NoWhitespaceInDigits(ZeroPad(t.minute, 2));
  }

  /** A date cell whose words are the written date, any two words, and the
    * written time reads back as that date and time. */
  lemma RowDateRoundTrip(t: DateTime, w1: string, w2: string)
    requires ValidDateTime(t) && t.date.year >= 1000
    requires |w1| > 0 && forall i :: 0 <= i < |w1| ==> w1[i] !in Whitespace
    requires |w2| > 0 && forall i :: 0 <= i < |w2| ==> w2[i] !in Whitespace
    ensures RowDate(Join([FormatDate(t.date, DayFirst, '/'), w1, w2, ClockText(t)], " ")) == Ok(t)
  {
    var ws := [FormatDate(t.date, DayFirst, '/'), w1, w2, ClockText(t)];
    DateWords(t);
    WordsJoin(ws, ' ');
    FormatParseRoundTrip(t.date, DayFirst, '/');
    VolleyballCalendar.ClockRoundTrip(t.hour, t.minute);
  }

  /** The host is the club (`in MACCABI_NAMES`). */
  predicate IsHome(row: Row)
  {
    row.host in MaccabiNames
  }

  /** The result cell as (club's result, opponent's result): a text holding
    * "-" is "host-guest" read right to left, so a home game takes the
    * second field for the club; a text with more than one "-" does not
    * unpack (ValueError); anything else is a game not played yet. */
  function RowResults(result: Option<string>, home: bool): (r: Result<(Option<string>, Option<string>)>)
    ensures result.None? || !Contains(result.value, "-") ==> r == Ok((None, None))
    ensures r.Fail? ==> r.error == ValueError
  {
    if result.Some? && Contains(result.value, "-") then
      var fields := Split(result.value, "-");
      if |fields| != 2 then Fail(ValueError)
      else if home then Ok((Some(fields[1]), Some(fields[0])))
      else Ok((Some(fields[0]), Some(fields[1])))
    else Ok((None, None))
  }

  /** "a-b" gives the club b at home and a away. */
  lemma RowResultsSpec(a: string, b: string, home: bool)
    requires '-' !in a && '-' !in b
    ensures RowResults(Some(a + "-" + b), home) == Ok(if home then (Some(b), Some(a)) else (Some(a), Some(b)))
  {
    JoinCons(a, [b], "-");
    SplitJoin([a, b], '-');
    assert OccursAt(a + "-" + b, "-", |a|);
  }

  /** The competition cell as (fixture, competition): the league's text is
    * removed from it and names the league, else the cup's text names the
    * cup; any other competition is a RuntimeError. */
  function RowCompetition(frame: string): (r: Result<(string, string)>)
    ensures r.Ok? <==> Contains(frame, LeagueText) || Contains(frame, TrophyText)
    ensures r.Fail? ==> r.error == RuntimeError
    ensures r.Ok? ==> r.value.1 == (if Contains(frame, LeagueText) then LeagueName else TrophyName)
    ensures r.Ok? && Contains(frame, LeagueText) ==> r.value.0 == Replace(frame, LeagueText, "")
    ensures r.Ok? && !Contains(frame, LeagueText) ==> r.value.0 == Replace(frame, TrophyText, "")
  {
    if Contains(frame, LeagueText) then Ok((Replace(frame, LeagueText, ""), LeagueName))
    else if Contains(frame, TrophyText) then Ok((Replace(frame, TrophyText, ""), TrophyName))
    else Fail(RuntimeError)
  }

  /** `create_volleyball_game_from_dataframe_row`, building the record of
    * volleyball_game.py (which has the hall and result fields); the first
    * error in the order date, result, competition wins. */
  function GameFromRow(row: Row): (r: Result<Game>)
  {
    match RowDate(row.date)
    case Fail(e) => Fail(e)
    case Ok(date) =>
      var home := IsHome(row);
      var opponent := if home then row.guest else row.host;
      match RowResults(row.result, home)
      case Fail(e) => Fail(e)
      case Ok(results) =>
        match RowCompetition(row.frame)
        case Fail(e) => Fail(e)
        case Ok(fc) => Ok(Game(date, fc.0, opponent, home, fc.1, CurrentSeason, row.hall, results.0, results.1))
  }

  /** A row becomes a game iff its date, result and competition all read;
    * the game is at home iff the host is the club, the opponent is the
    * other side, the season is the current one, and the hall is the row's. */
  lemma GameFromRowSpec(row: Row)
    ensures GameFromRow(row).Ok? <==> RowDate(row.date).Ok? && RowResults(row.result, IsHome(row)).Ok? && RowCompetition(row.frame).Ok?
    ensures var r := GameFromRow(row); r.Ok? ==>
      && r.value.homeGame == (row.host in MaccabiNames)
      && r.value.opponent == (if row.host in MaccabiNames then row.guest else row.host)
      && r.value.date == RowDate(row.date).value
      && r.value.season == CurrentSeason
      && r.value.stadium == row.hall
      && r.value.competition in {LeagueName, TrophyName}
      && (r.value.maccabiResult, r.value.opponentResult) == RowResults(row.result, IsHome(row)).value
    ensures RowDate(row.date).Fail? ==> GameFromRow(row) == Fail(RowDate(row.date).error)
    ensures (RowDate(row.date).Ok? && RowResults(row.result, IsHome(row)).Ok? && RowCompetition(row.frame).Fail?)
              ==> GameFromRow(row) == Fail(RuntimeError)
  {
  }

  /** The script as written passes the hall and the results to the
    * six-field record of gamesbot_volleyball.py, whose constructor takes
    * no such arguments: a row that gets that far is a TypeError. */
  function GameFromRowAsWritten(row: Row): (r: Result<Game>)
    ensures r.Fail?
  {
    match RowDate(row.date)
    case Fail(e) => Fail(e)
    case Ok(_) =>
      match RowResults(row.result, IsHome(row))
      case Fail(e) => Fail(e)
      case Ok(_) =>
        match RowCompetition(row.frame)
        case Fail(e) => Fail(e)
        case Ok(_) => Fail(TypeError)
  }

  /** Every row the corrected reading turns into a game is a TypeError as
    * written; other rows fail the same way in both. */
  lemma AsWrittenNeverBuilds(row: Row)
    ensures GameFromRow(row).Ok? ==> GameFromRowAsWritten(row) == Fail(TypeError)
    ensures GameFromRow(row).Fail? ==> GameFromRowAsWritten(row) == GameFromRow(row)
  {
  }

  /** A row of a game played at home: date "dd/mm/yyyy w1 w2 HH:MM",
    * result "a-b", league fixture. */
  lemma RowRoundTrip(t: DateTime, w1: string, w2: string, guest: string, hall: Option<string>, a: string, b: string, fixture: string)
    requires ValidDateTime(t) && t.date.year >= 1000
    requires |w1| > 0 && forall i :: 0 <= i < |w1| ==> w1[i] !in Whitespace
    requires |w2| > 0 && forall i :: 0 <= i < |w2| ==> w2[i] !in Whitespace
    requires '-' !in a && '-' !in b
    ensures var row := Row(Join([FormatDate(t.date, DayFirst, '/'), w1, w2, ClockText(t)], " "), MaccabiNames[0], guest, hall, Some(a + "-" + b), LeagueText + fixture);
      GameFromRow(row) == Ok(Game(t, Replace(LeagueText + fixture, LeagueText, ""), guest, true, LeagueName, CurrentSeason, hall, Some(b), Some(a)))
  {
    RowDateRoundTrip(t, w1, w2);
    RowResultsSpec(a, b, true);
    ContainsAt(LeagueText + fixture, LeagueText, 0);
  }

  /** The hall name corrected the same way; an empty cell stays empty. */
  function CorrectedHall(hall: Option<string>, table: map<string, string>): (r: Option<string>)
    ensures r.Some? <==> hall.Some?
    ensures hall.Some? ==> r.value == Corrected(hall.value, table)
  {
    if hall.Some? then Some(Corrected(hall.value, table)) else None
  }

  /** A game after both corrections. */
  function CorrectedGame(g: Game, teams: map<string, string>, halls: map<string, string>): Game
  {
    g.(opponent := Corrected(g.opponent, teams), stadium := CorrectedHall(g.stadium, halls))
  }

  /** `_correct_team_name`: only an opponent the table knows changes. */
  method CorrectTeamName(game: VolleyballGame, teams: map<string, string>)
    modifies game
    ensures game.Value() == old(game.Value()).(opponent := Corrected(old(game.opponent), teams))
  {
    var corrected := Corrected(game.opponent, teams);
    if corrected == game.opponent {
      return;
    }
    game.opponent := corrected;
  }

  /** `_correct_stadium_name`: only a hall the table knows changes. */
  method CorrectStadiumName(game: VolleyballGame, halls: map<string, string>)
    modifies game
    ensures game.Value() == old(game.Value()).(stadium := CorrectedHall(old(game.stadium), halls))
  {
    var corrected := CorrectedHall(game.stadium, halls);
    if corrected == game.stadium {
      return;
    }
    game.stadium := corrected;
  }

  /** `correct_volleyball_namings`. */
  method CorrectNamings(game: VolleyballGame, teams: map<string, string>, halls: map<string, string>)
    modifies game
    ensures game.Value() == CorrectedGame(old(game.Value()), teams, halls)
  {
    CorrectTeamName(game, teams);
    CorrectStadiumName(game, halls);
  }

  /** The rows read: every row with include_future_games, else only the rows
    * with a result (`notna`). */
  function Selected(rows: seq<Row>, includeFuture: bool): (r: seq<Row>)
  {
    Filter(rows, (row: Row) => includeFuture || row.result.Some?)
  }

  /** What each row reads as. */
  function Built(rows: seq<Row>): (r: seq<Result<Game>>)
    ensures |r| == |rows| && forall i :: 0 <= i < |rows| ==> r[i] == GameFromRow(rows[i])
  {
    seq(|rows|, i requires 0 <= i < |rows| => GameFromRow(rows[i]))
  }

  /** The corrected games of the rows read, in order; the first row that
    * fails fails the whole reading. */
  function Collected(built: seq<Result<Game>>, teams: map<string, string>, halls: map<string, string>): Result<seq<Game>>
    decreases |built|
  {
    if built == [] then Ok([])
    else
      match Collected(built[..|built| - 1], teams, halls)
      case Fail(e) => Fail(e)
      case Ok(games) =>
        match built[|built| - 1]
        case Fail(e) => Fail(e)
        case Ok(g) => Ok(games + [CorrectedGame(g, teams, halls)])
  }

  /** The reading succeeds iff every row becomes a game, and then holds
    * one corrected game per row, in the rows' order. */
  lemma {:induction false} CollectedSpec(built: seq<Result<Game>>, teams: map<string, string>, halls: map<string, string>)
    ensures Collected(built, teams, halls).Ok? <==> forall i :: 0 <= i < |built| ==> built[i].Ok?
    ensures var r := Collected(built, teams, halls); r.Ok? ==>
      |r.value| == |built| && forall i :: 0 <= i < |built| ==> r.value[i] == CorrectedGame(built[i].value, teams, halls)
    decreases |built|
  {
    if built != [] {
      var init := built[..|built| - 1];
      CollectedSpec(init, teams, halls);
      assert forall i :: 0 <= i < |init| ==> init[i] == built[i];
    }
  }

  /** A row that fails fails the reading with its error when every row
    * before it read. */
  lemma {:induction false} CollectedStops(built: seq<Result<Game>>, i: nat, teams: map<string, string>, halls: map<string, string>)
    requires i < |built| && Collected(built[..i], teams, halls).Ok? && built[i].Fail?
    ensures Collected(built, teams, halls) == Fail(built[i].error)
    decreases |built|
  {
    if i + 1 == |built| {
      assert built[..|built| - 1] == built[..i];
    } else {
      assert built[..|built| - 1][..i] == built[..i];
      CollectedStops(built[..|built| - 1], i, teams, halls);
    }
  }

  /** A row that reads, after rows that all read, adds its corrected game. */
  lemma CollectedNext(built: seq<Result<Game>>, i: nat, teams: map<string, string>, halls: map<string, string>)
    requires i < |built| && Collected(built[..i], teams, halls).Ok? && built[i].Ok?
    ensures Collected(built[..i + 1], teams, halls)
      == Ok(Collected(built[..i], teams, halls).value + [CorrectedGame(built[i].value, teams, halls)])
  {
    assert built[..i + 1][..i] == built[..i];
  }

  /** One step of the loop of `extract_games_metadata`, given what the row
    * reads as: a new record, whose names are then corrected. */
  method ReadRow(game: Result<Game>, teams: map<string, string>, halls: map<string, string>) returns (r: Result<VolleyballGame>)
    ensures r.Fail? ==> game == Fail(r.error)
    ensures r.Ok? ==> game.Ok? && fresh(r.value)
    ensures r.Ok? ==> r.value.Value() == CorrectedGame(game.value, teams, halls)
  {
    if game.Fail? {
      return Fail(game.error);
    }
    var record := new VolleyballGame.FromValue(game.value);
    CorrectNamings(record, teams, halls);
    return Ok(record);
  }

  /** The current fields of records. */
  function Values(records: seq<VolleyballGame>): (r: seq<Game>)
    reads set g | g in records
    ensures |r| == |records| && forall i :: 0 <= i < |records| ==> r[i] == records[i].Value()
  {
    seq(|records|, i reads set g | g in records requires 0 <= i < |records| => records[i].Value())
  }

  lemma ValuesAppend(records: seq<VolleyballGame>, record: VolleyballGame)
    ensures Values(records + [record]) == Values(records) + [record.Value()]
  {
    var l, r := Values(records + [record]), Values(records) + [record.Value()];
    assert |l| == |r|;
    forall i | 0 <= i < |l|
      ensures l[i] == r[i]
    {
      if i < |records| {
        assert (records + [record])[i] == records[i];
      }
    }
  }

  /** The loop of `extract_games_metadata` over the rows selected. */
  method ReadRows(rows: seq<Row>, teams: map<string, string>, halls: map<string, string>) returns (r: Result<seq<VolleyballGame>>)
    ensures r.Ok? ==> Collected(Built(rows), teams, halls) == Ok(Values(r.value))
    ensures r.Fail? ==> Collected(Built(rows), teams, halls) == Fail(r.error)
  {
    var built := Built(rows);
    var games: seq<VolleyballGame> := [];
    for i := 0 to |rows|
      invariant Collected(built[..i], teams, halls) == Ok(Values(games))
    {
      ghost var before := Values(games);
      var read := ReadRow(built[i], teams, halls);
      if read.Fail? {
        CollectedStops(built, i, teams, halls);
        return Fail(read.error);
      }
      assert Values(games) == before;
      CollectedNext(built, i, teams, halls);
      ValuesAppend(games, read.value);
      games := games + [read.value];
    }
    assert built[..|rows|] == built;
    return Ok(games);
  }

  /** `extract_games_metadata` on the tables of the page: more than one table
    * is a RuntimeError, none an IndexError; the games come back as records
    * whose names have been corrected. */
  method ExtractGamesMetadata(tables: seq<seq<Row>>, includeFuture: bool, teams: map<string, string>, halls: map<string, string>)
    returns (r: Result<seq<VolleyballGame>>)
    ensures |tables| > 1 ==> r == Fail(RuntimeError)
    ensures |tables| == 0 ==> r == Fail(IndexError)
    ensures |tables| == 1 && r.Ok? ==> Collected(Built(Selected(tables[0], includeFuture)), teams, halls) == Ok(Values(r.value))
    ensures |tables| == 1 && r.Fail? ==> Collected(Built(Selected(tables[0], includeFuture)), teams, halls) == Fail(r.error)
  {
    if |tables| > 1 {
      return Fail(RuntimeError);
    }
    if |tables| == 0 {
      return Fail(IndexError);
    }
    r := ReadRows(Selected(tables[0], includeFuture), teams, halls);
  }

  /** Without future games, every row read has a result. */
  lemma SelectedHaveResults(rows: seq<Row>)
    ensures forall row :: row in Selected(rows, false) <==> row in rows && row.result.Some?
  {
    forall row
      ensures row in Selected(rows, false) <==> row in rows && row.result.Some?
    {
      FilterMembers(rows, (row: Row) => false || row.result.Some?, row);
    }
  }
}
