/** basketball/basketball_game.py: the basketball game and player-summary
  * records and `BasketballGame.from_raw`. */
module BasketballGames {
  import opened Wrappers
  import opened Dates

  const MaccabiTelAviv: string := "מכבי תל אביב"
  const AwayText: string := "חוץ"

  /** A player's box score; the statistics after the free throws are optional. */
  datatype PlayerSummary = PlayerSummary(
    name: string,
    number: int,
    isStartingFive: bool,
    minutesPlayed: Option<int>,
    totalPoints: int,
    fieldGoalsAttempts: int,
    fieldGoalsScored: int,
    threeScoresAttempts: int,
    threeScoresScored: int,
    freeThrowsAttempts: int,
    freeThrowsScored: int,
    defensiveRebounds: Option<int>,
    offensiveRebounds: Option<int>,
    personalTotalFouls: Option<int>,
    personalTechnicalFouls: Option<int>,
    steals: Option<int>,
    turnovers: Option<int>,
    assists: Option<int>,
    blocks: Option<int>)

  /** A summary built from the required fields only: every optional
    * statistic is None and every required one is kept. */
  function NewPlayerSummary(name: string, number: int, isStartingFive: bool, totalPoints: int,
                            fga: int, fgs: int, tpa: int, tps: int, fta: int, fts: int): (p: PlayerSummary)
    ensures p.name == name && p.number == number && p.isStartingFive == isStartingFive
    ensures p.totalPoints == totalPoints && p.fieldGoalsAttempts == fga && p.fieldGoalsScored == fgs
    ensures p.threeScoresAttempts == tpa && p.threeScoresScored == tps
    ensures p.freeThrowsAttempts == fta && p.freeThrowsScored == fts
    ensures p.minutesPlayed.None? && p.defensiveRebounds.None? && p.offensiveRebounds.None?
    ensures p.personalTotalFouls.None? && p.personalTechnicalFouls.None? && p.steals.None?
    ensures p.turnovers.None? && p.assists.None? && p.blocks.None?
  {
    PlayerSummary(name, number, isStartingFive, None, totalPoints, fga, fgs, tpa, tps, fta, fts,
                  None, None, None, None, None, None, None, None)
  }

  /** The fields of a game that the merging and the result checks read. */
  datatype BasketballGame = BasketballGame(
    homeTeamName: string,
    awayTeamName: string,
    competition: string,
    fixture: string,
    gameDate: DateTime,
    homeTeamScore: int,
    awayTeamScore: int,
    gameUrl: seq<string>,
    hasOvertime: bool)

  /** One game of a raw results file. */
  datatype RawGame = RawGame(
    homeAway: string,
    opponent: string,
    competition: string,
    date: string,
    totalPointsMaccabi: int,
    totalPointsOpponent: int,
    gameUrl: seq<string>)

  /** `strptime(date, "%d-%m-%Y")`, at midnight. */
  function ParseRawDate(date: string): Option<DateTime>
  {
    var d := ParseDate(date, DayFirst, '-');
    if d.None? then None else Some(DateTime(d.value, 0, 0))
  }

  /** `from_raw` as written: a bad date raises ValueError, and otherwise the
    * model rejects the record because `has_overtime` has no default and is
    * not supplied. */
  function FromRawAsWritten(data: RawGame): (r: Result<BasketballGame>)
  {
    if ParseRawDate(data.date).None? then Fail(ValueError) else Fail(ValidationError)
  }

  /** No raw game ever becomes a record through `from_raw` as written. */
  lemma FromRawAsWrittenAlwaysFails(data: RawGame)
    ensures FromRawAsWritten(data).Fail?
    ensures ParseRawDate(data.date).Some? ==> FromRawAsWritten(data) == Fail(ValidationError)
  {
  }

  /** `from_raw` with the overtime flag supplied. */
  function FromRaw(data: RawGame, hasOvertime: bool): Result<BasketballGame>
  {
    var date := ParseRawDate(data.date);
    if date.None? then Fail(ValueError)
    else
      var isHome := data.homeAway != AwayText;
      Ok(BasketballGame(
        if isHome then MaccabiTelAviv else data.opponent,
        if isHome then data.opponent else MaccabiTelAviv,
        data.competition,
        "",
        date.value,
        if isHome then data.totalPointsMaccabi else data.totalPointsOpponent,
        if isHome then data.totalPointsOpponent else data.totalPointsMaccabi,
        data.gameUrl,
        hasOvertime))
  }

  /** A raw game is a home game unless marked "חוץ"; Maccabi and the
    * opponent take the home and away places accordingly and each score
    * follows its team; the fixture is empty and the date is the parsed
    * dd-mm-yyyy, a calendar date. */
  lemma FromRawSides(data: RawGame, hasOvertime: bool)
    ensures FromRaw(data, hasOvertime).Fail? <==> ParseDate(data.date, DayFirst, '-').None?
    ensures FromRaw(data, hasOvertime).Fail? ==> FromRaw(data, hasOvertime).error == ValueError
    ensures FromRaw(data, hasOvertime).Ok? ==>
      var g := FromRaw(data, hasOvertime).value;
      var isHome := data.homeAway != AwayText;
      && ValidDateTime(g.gameDate)
      && g.gameDate.date == ParseDate(data.date, DayFirst, '-').value
      && g.fixture == "" && g.competition == data.competition && g.hasOvertime == hasOvertime
      && (isHome ==> g.homeTeamName == MaccabiTelAviv && g.awayTeamName == data.opponent
                     && g.homeTeamScore == data.totalPointsMaccabi && g.awayTeamScore == data.totalPointsOpponent)
      && (!isHome ==> g.homeTeamName == data.opponent && g.awayTeamName == MaccabiTelAviv
                      && g.homeTeamScore == data.totalPointsOpponent && g.awayTeamScore == data.totalPointsMaccabi)
  {
  }

  /** Formatting a game date and reading it back as a raw game gives the
    * same game date. */
  lemma FromRawReadsFormattedDate(data: RawGame, d: Date, hasOvertime: bool)
    requires ValidDate(d) && d.year >= 1000
    requires data.date == FormatDate(d, DayFirst, '-')
    ensures FromRaw(data, hasOvertime).Ok?
    ensures FromRaw(data, hasOvertime).value.gameDate == DateTime(d, 0, 0)
  {
    FormatParseRoundTrip(d, DayFirst, '-');
  }
}

/** src/maccabipediabot/basketball/teams_names_changer.py: better names for
  * a team name, each valid over an inclusive range of years. */
module TeamsNamesChanger {
  import opened Wrappers
  import opened Dates
  import opened BasketballGames

  const MinDefaultYear: int := 1900
  const MaxDefaultYear: int := 2100

  datatype NameByYears = NameByYears(betterName: string, fromYear: int, toYear: int)

  predicate Covers(e: NameByYears, year: int)
  {
    e.fromYear <= year <= e.toYear
  }

  /** The first entry, in insertion order, whose range contains `year`, or -1. */
  function FirstCovering(names: seq<NameByYears>, year: int): (i: int)
    ensures i == -1 || (0 <= i < |names| && Covers(names[i], year))
    ensures i == -1 ==> forall j :: 0 <= j < |names| ==> !Covers(names[j], year)
    ensures i >= 0 ==> forall j :: 0 <= j < i ==> !Covers(names[j], year)
  {
    if |names| == 0 then -1
    else if Covers(names[0], year) then 0
    else
      var k := FirstCovering(names[1..], year);
      if k == -1 then -1 else k + 1
  }

  /** `change_name` as intended: the first matching entry's name, or
    * ValueError when no range contains the year. */
  function NameForYear(names: seq<NameByYears>, year: int): Result<string>
  {
    var i := FirstCovering(names, year);
    if i < 0 then Fail(ValueError) else Ok(names[i].betterName)
  }

  /** `change_name` as written: the error message reads the loop variable
    * (unbound for an empty list) and `game.date`, which a game does not
    * have, so the ValueError is never raised. */
  function NameForYearAsWritten(names: seq<NameByYears>, year: int): Result<string>
  {
    var i := FirstCovering(names, year);
    if i >= 0 then Ok(names[i].betterName)
    else if |names| == 0 then Fail(UnboundLocalError)
    else Fail(AttributeError)
  }

  /** The written code agrees with the intended one on every year some
    * range contains, and raises something other than ValueError on every
    * other year. */
  lemma NameForYearAsWrittenError(names: seq<NameByYears>, year: int)
    ensures NameForYear(names, year).Ok? ==> NameForYearAsWritten(names, year) == NameForYear(names, year)
    ensures NameForYear(names, year).Fail? ==>
      NameForYear(names, year) == Fail(ValueError)
      && NameForYearAsWritten(names, year).Fail? && NameForYearAsWritten(names, year).error != ValueError
  {
  }

  /** The intended result: Ok exactly when some range contains the year,
    * and then the name of the first such entry. */
  lemma NameForYearSpec(names: seq<NameByYears>, year: int, i: int)
    requires 0 <= i < |names| && Covers(names[i], year)
    requires forall j :: 0 <= j < i ==> !Covers(names[j], year)
    ensures NameForYear(names, year) == Ok(names[i].betterName)
  {
  }

  /** `max(better_names, key=from_year)`: the first entry with the largest start year. */
  function LatestIndex(names: seq<NameByYears>): (i: nat)
    requires |names| > 0
    ensures i < |names|
    ensures forall j :: 0 <= j < |names| ==> names[j].fromYear <= names[i].fromYear
    ensures forall j :: 0 <= j < i ==> names[j].fromYear < names[i].fromYear
  {
    if |names| == 1 then 0
    else
      var k := LatestIndex(names[..|names| - 1]);
      if names[|names| - 1].fromYear > names[k].fromYear then |names| - 1 else k
  }

  /** `current_name`. */
  function CurrentNameOf(oldName: string, names: seq<NameByYears>): (r: string)
    ensures |names| == 0 ==> r == oldName
    ensures |names| > 0 ==> r == names[LatestIndex(names)].betterName
  {
    if |names| == 0 then oldName else names[LatestIndex(names)].betterName
  }

  class TeamNameChanger {
    var betterNames: seq<NameByYears>
    var oldName: string

    constructor (oldName: string)
      ensures this.oldName == oldName && betterNames == []
    {
      this.oldName := oldName;
      betterNames := [];
    }

    /** `add_better_name`: one entry appended; the changer itself is returned. */
    method AddBetterName(betterName: string, fromYear: int, toYear: int) returns (self: TeamNameChanger)
      modifies this
      ensures self == this
      ensures betterNames == old(betterNames) + [NameByYears(betterName, fromYear, toYear)]
      ensures oldName == old(oldName)
    {
      betterNames := betterNames + [NameByYears(betterName, fromYear, toYear)];
      self := this;
    }

    /** `change_name`: the first entry whose range contains the game's year;
      * when none does, building the error message fails before the
      * ValueError is raised. */
    method ChangeName(game: BasketballGame) returns (r: Result<string>)
      ensures r == NameForYearAsWritten(betterNames, game.gameDate.date.year)
    {
      var year := game.gameDate.date.year;
      var i := 0;
      while i < |betterNames|
        invariant 0 <= i <= |betterNames|
        invariant forall j :: 0 <= j < i ==> !Covers(betterNames[j], year)
      {
        if Covers(betterNames[i], year) {
          return Ok(betterNames[i].betterName);
        }
        i := i + 1;
      }
      r := if |betterNames| == 0 then Fail(UnboundLocalError) else Fail(AttributeError);
    }

    function CurrentName(): string
      reads this
    {
      CurrentNameOf(oldName, betterNames)
    }
  }

  /** Building the year-ranged changer by chained `add_better_name` calls
    * leaves exactly the two entries the table holds for it. */
  method BuildRamatAmidar() returns (c: TeamNameChanger)
    ensures fresh(c)
    ensures c.oldName == RamatAmidarOld && c.betterNames == RamatAmidar
  {
    c := new TeamNameChanger(RamatAmidarOld);
    var same := c.AddBetterName(RamatAmidarOld, 1957, 2005);
    same := same.AddBetterName(RamatAmidarNew, 2005, MaxDefaultYear);
  }

  const RamatAmidarOld: string := "מכבי רמת עמידר"
  const RamatAmidarNew: string := "הכח עמידר רמת גן"

  const RamatAmidar: seq<NameByYears> :=
    [NameByYears(RamatAmidarOld, 1957, 2005), NameByYears(RamatAmidarNew, 2005, MaxDefaultYear)]

  /** The changers with a single all-time better name: (old name, better name). */
  const SimpleRenames: seq<(string, string)> := [
    ("מכבי ת\"א", "מכבי תל אביב"),
    ("מכבי אלקטרה", "מכבי תל אביב"),
    ("ראשל\"צ", "מכבי ראשון לציון"),
    ("ראשון לציון", "מכבי ראשון לציון"),
    ("פנדור ראשל\"צ", "מכבי ראשון לציון"),
    ("אופיצי ראשל\"צ", "מכבי ראשון לציון"),
    ("מכבי ר\"ג", "מכבי רמת גן"),
    ("מכבי צפון ת\"א", "מכבי צפון תל אביב"),
    ("מכבי דרום ת\"א", "מכבי דרום תל אביב"),
    ("מכבי פ\"ת", "מכבי פתח תקווה"),
    ("מכבי פ``ת", "מכבי פתח תקווה"),
    ("מכבי פתח-תקווה", "מכבי פתח תקווה"),
    ("מכבי בזן חיפה", "מכבי חיפה"),
    ("מ.כ חיפה", "מכבי חיפה"),
    ("מכבי חיפה היט", "מכבי חיפה"),
    ("Hunter חיפה", "מכבי חיפה"),
    ("מגדל י-ם", "הפועל ירושלים"),
    ("הפועל י-ם", "הפועל ירושלים"),
    ("הפועל  י-ם", "הפועל ירושלים"),
    ("יונט חולון", "הפועל חולון"),
    ("UNET חולון", "הפועל חולון"),
    ("הפועל ת\"א", "הפועל תל אביב"),
    ("הפועל SP ת\"א", "הפועל תל אביב"),
    ("SCE אשדוד", "מכבי אשדוד"),
    ("ביתר י\"ם", "ביתר ירושלים"),
    ("אוניקאחה מלאגה", "אוניקאחה מאלגה"),
    ("פנאתנייקוס", "פנאתינאיקוס"),
    ("פנאתינייקוס", "פנאתינאיקוס"),
    ("Aris BC", "אריס סלוניקי"),
    ("חובנטוד באדלונה", "חובנטוד בדאלונה"),
    ("ז'אלגריס קובנה", "ז'לגיריס קובנה"),
    ("אפס פילזן איסטנבול", "אפס פילזן")]

  /** The dict comprehension over single-name changers: later old names win. */
  function RenamesTable(pairs: seq<(string, string)>): map<string, seq<NameByYears>>
  {
    if |pairs| == 0 then map[]
    else
      var last := pairs[|pairs| - 1];
      RenamesTable(pairs[..|pairs| - 1])[last.0 := [NameByYears(last.1, MinDefaultYear, MaxDefaultYear)]]
  }

  /** `teams_names_changer`, as the entries each changer holds. */
  function TeamsNamesTable(): map<string, seq<NameByYears>>
  {
    RenamesTable(SimpleRenames)[RamatAmidarOld := RamatAmidar]
  }

  /** Every single-name changer holds exactly one all-time entry, the
    * better name of the last pair with that old name. */
  lemma RenamesTableEntries(pairs: seq<(string, string)>, k: string)
    ensures k in RenamesTable(pairs) <==> exists i :: 0 <= i < |pairs| && pairs[i].0 == k
    ensures k in RenamesTable(pairs) ==>
      exists i :: (0 <= i < |pairs| && pairs[i].0 == k
        && RenamesTable(pairs)[k] == [NameByYears(pairs[i].1, MinDefaultYear, MaxDefaultYear)]
        && forall j :: i < j < |pairs| ==> pairs[j].0 != k)
  {
    RenamesTableKeys(pairs, k);
    RenamesTableLast(pairs, k);
  }

  lemma {:induction false} RenamesTableKeys(pairs: seq<(string, string)>, k: string)
    ensures k in RenamesTable(pairs) <==> exists i :: 0 <= i < |pairs| && pairs[i].0 == k
  {
    if |pairs| > 0 {
      var init := pairs[..|pairs| - 1];
      RenamesTableKeys(init, k);
      if k in RenamesTable(init) {
        var i :| 0 <= i < |init| && init[i].0 == k;
        assert pairs[i] == init[i];
      }
      if k !in RenamesTable(pairs) {
        forall i | 0 <= i < |pairs| ensures pairs[i].0 != k {
          if i < |init| {
            assert pairs[i] == init[i];
          }
        }
      }
    }
  }

  lemma {:induction false} RenamesTableLast(pairs: seq<(string, string)>, k: string)
    ensures k in RenamesTable(pairs) ==>
      exists i :: (0 <= i < |pairs| && pairs[i].0 == k
        && RenamesTable(pairs)[k] == [NameByYears(pairs[i].1, MinDefaultYear, MaxDefaultYear)]
        && forall j :: i < j < |pairs| ==> pairs[j].0 != k)
  {
    if |pairs| > 0 {
      var init := pairs[..|pairs| - 1];
      var n := |pairs| - 1;
      if pairs[n].0 == k {
        assert RenamesTable(pairs)[k] == [NameByYears(pairs[n].1, MinDefaultYear, MaxDefaultYear)];
      } else if k in RenamesTable(pairs) {
        RenamesTableLast(init, k);
        assert RenamesTable(pairs)[k] == RenamesTable(init)[k];
        var i :| 0 <= i < |init| && init[i].0 == k
          && RenamesTable(init)[k] == [NameByYears(init[i].1, MinDefaultYear, MaxDefaultYear)]
          && forall j :: i < j < |init| ==> init[j].0 != k;
        assert pairs[i] == init[i];
        assert forall j :: i < j < |pairs| ==> pairs[j].0 != k by {
          forall j | i < j < |pairs| ensures pairs[j].0 != k {
            if j < n {
              assert pairs[j] == init[j];
            }
          }
        }
      }
    }
  }

  /** Years 1957 to 2005 keep "מכבי רמת עמידר" (the first entry wins at
    * 2005), 2006 to 2100 give "הכח עמידר רמת גן", and every other year has
    * no better name; its current name is the later one. */
  lemma RamatAmidarByYear(year: int)
    ensures RamatAmidarOld in TeamsNamesTable() && TeamsNamesTable()[RamatAmidarOld] == RamatAmidar
    ensures 1957 <= year <= 2005 ==> NameForYear(RamatAmidar, year) == Ok(RamatAmidarOld)
    ensures 2005 < year <= 2100 ==> NameForYear(RamatAmidar, year) == Ok(RamatAmidarNew)
    ensures (year < 1957 || year > 2100) ==> NameForYear(RamatAmidar, year) == Fail(ValueError)
    ensures CurrentNameOf(RamatAmidarOld, RamatAmidar) == RamatAmidarNew
  {
    assert RamatAmidar[1..] == [NameByYears(RamatAmidarNew, 2005, MaxDefaultYear)];
  }
}

/** basketball/merge_all_results_files.py: team names fixed through the
  * changer table, games bucketed by date, and same-date pairs whose scores
  * disagree reported. */
module MergeResults {
  import opened Wrappers
  import opened Dates
  import opened BasketballGames
  import opened TeamsNamesChanger

  /** `_fix_team_names`: the home name first, then the away name; a name
    * outside the table is kept, and a failing lookup raises what
    * `change_name` as written raises. */
  function FixTeamNames(g: BasketballGame, table: map<string, seq<NameByYears>>): Result<BasketballGame>
  {
    var year := g.gameDate.date.year;
    var home := if g.homeTeamName in table then NameForYearAsWritten(table[g.homeTeamName], year) else Ok(g.homeTeamName);
    if home.Fail? then Fail(home.error)
    else
      var away := if g.awayTeamName in table then NameForYearAsWritten(table[g.awayTeamName], year) else Ok(g.awayTeamName);
      if away.Fail? then Fail(away.error)
      else Ok(g.(homeTeamName := home.value, awayTeamName := away.value))
  }

  /** Each side's name is replaced by its changer's choice when it is a key
    * of the table and kept otherwise, independently of the other side; no
    * other field changes. A lookup fails exactly when the intended
    * `change_name` would raise ValueError, and the exception that escapes
    * is then the one the written message build raises. */
  lemma FixTeamNamesSpec(g: BasketballGame, table: map<string, seq<NameByYears>>)
    ensures var r := FixTeamNames(g, table);
      var year := g.gameDate.date.year;
      && (r.Ok? ==>
           && r.value == g.(homeTeamName := r.value.homeTeamName, awayTeamName := r.value.awayTeamName)
           && (g.homeTeamName in table ==> NameForYear(table[g.homeTeamName], year) == Ok(r.value.homeTeamName))
           && (g.homeTeamName !in table ==> r.value.homeTeamName == g.homeTeamName)
           && (g.awayTeamName in table ==> NameForYear(table[g.awayTeamName], year) == Ok(r.value.awayTeamName))
           && (g.awayTeamName !in table ==> r.value.awayTeamName == g.awayTeamName))
      && (r.Fail? <==>
           (g.homeTeamName in table && NameForYear(table[g.homeTeamName], year).Fail?)
           || (g.awayTeamName in table && NameForYear(table[g.awayTeamName], year).Fail?))
      && (r.Fail? ==> r.error == UnboundLocalError || r.error == AttributeError)
  {
    var year := g.gameDate.date.year;
    if g.homeTeamName in table {
      NameForYearAsWrittenError(table[g.homeTeamName], year);
    }
    if g.awayTeamName in table {
      NameForYearAsWrittenError(table[g.awayTeamName], year);
    }
  }

  /** The games fixed one after the other; the first failure stops the run. */
  function FixAll(games: seq<BasketballGame>, table: map<string, seq<NameByYears>>): Result<seq<BasketballGame>>
  {
    if |games| == 0 then Ok([])
    else
      var done := FixAll(games[..|games| - 1], table);
      if done.Fail? then done
      else
        var f := FixTeamNames(games[|games| - 1], table);
        if f.Fail? then Fail(f.error) else Ok(done.value + [f.value])
  }

  lemma {:induction false} FixAllFailure(games: seq<BasketballGame>, table: map<string, seq<NameByYears>>, i: nat)
    requires i <= |games| && FixAll(games[..i], table).Fail?
    ensures FixAll(games, table) == FixAll(games[..i], table)
    decreases |games| - i
  {
    if i < |games| {
      assert games[..i + 1][..i] == games[..i];
      FixAllFailure(games, table, i + 1);
    } else {
      assert games[..i] == games;
    }
  }

  /** The games of a date, in input order. */
  function OnDate(games: seq<BasketballGame>, d: DateTime): (r: seq<BasketballGame>)
    ensures forall k :: 0 <= k < |r| ==> r[k].gameDate == d
    ensures |r| <= |games|
  {
    if |games| == 0 then []
    else OnDate(games[..|games| - 1], d) + (if games[|games| - 1].gameDate == d then [games[|games| - 1]] else [])
  }

  /** `games_by_date`: the loop appending each game to its date's list. */
  function ByDate(games: seq<BasketballGame>): map<DateTime, seq<BasketballGame>>
  {
    if |games| == 0 then map[]
    else
      var m := ByDate(games[..|games| - 1]);
      var g := games[|games| - 1];
      m[g.gameDate := (if g.gameDate in m then m[g.gameDate] else []) + [g]]
  }

  /** Every game lands in the bucket of its date, and each bucket is the
    * games of that date in input order. */
  lemma {:induction false} ByDateSpec(games: seq<BasketballGame>, d: DateTime)
    ensures d in ByDate(games) <==> exists k :: 0 <= k < |games| && games[k].gameDate == d
    ensures d in ByDate(games) ==> ByDate(games)[d] == OnDate(games, d)
    ensures d !in ByDate(games) ==> OnDate(games, d) == []
  {
    if |games| > 0 {
      var init := games[..|games| - 1];
      ByDateSpec(init, d);
      if d !in ByDate(games) {
        forall k | 0 <= k < |games| ensures games[k].gameDate != d {
          if k < |init| {
            assert games[k] == init[k];
          }
        }
      }
      if d in ByDate(init) {
        var k :| 0 <= k < |init| && init[k].gameDate == d;
        assert games[k] == init[k];
      }
    }
  }

  /** The scores of two reports of one date disagree. */
  predicate Mismatch(a: BasketballGame, b: BasketballGame)
  {
    a.homeTeamScore != b.homeTeamScore || a.awayTeamScore != b.awayTeamScore
  }

  /** The dates reported as "Bad scoring": exactly two games, differing scores. */
  function Flagged(buckets: map<DateTime, seq<BasketballGame>>): set<DateTime>
  {
    set d | d in buckets && |buckets[d]| == 2 && Mismatch(buckets[d][0], buckets[d][1])
  }

  /** A date is reported exactly when the input holds two games on it and
    * their home or away scores differ. */
  lemma FlaggedSpec(games: seq<BasketballGame>, d: DateTime)
    ensures d in Flagged(ByDate(games)) <==>
      |OnDate(games, d)| == 2 && Mismatch(OnDate(games, d)[0], OnDate(games, d)[1])
  {
    ByDateSpec(games, d);
  }

  datatype Report = Report(byDate: map<DateTime, seq<BasketballGame>>, badScoring: set<DateTime>)

  function MergeReport(games: seq<BasketballGame>, table: map<string, seq<NameByYears>>): Result<Report>
  {
    var fixed := FixAll(games, table);
    if fixed.Fail? then Fail(fixed.error)
    else Ok(Report(ByDate(fixed.value), Flagged(ByDate(fixed.value))))
  }

  /** `merge_results_files` after the loading: fix and bucket every game,
    * then report the same-date pairs whose scores disagree. */
  method MergeResultsFiles(games: seq<BasketballGame>, table: map<string, seq<NameByYears>>) returns (r: Result<Report>)
    ensures r == MergeReport(games, table)
  {
    var buckets: map<DateTime, seq<BasketballGame>> := map[];
    ghost var fixed: seq<BasketballGame> := [];
    var i := 0;
    while i < |games|
      invariant 0 <= i <= |games|
      invariant FixAll(games[..i], table) == Ok(fixed)
      invariant buckets == ByDate(fixed)
    {
      assert games[..i + 1][..i] == games[..i];
      var f := FixTeamNames(games[i], table);
      if f.Fail? {
        FixAllFailure(games, table, i + 1);
        return Fail(f.error);
      }
      var g := f.value;
      var bucket := if g.gameDate in buckets then buckets[g.gameDate] else [];
      buckets := buckets[g.gameDate := bucket + [g]];
      assert (fixed + [g])[..|fixed|] == fixed;
      fixed := fixed + [g];
      i := i + 1;
    }
    assert games[..i] == games;
    var bad: set<DateTime> := set d | d in buckets && |buckets[d]| == 2 && Mismatch(buckets[d][0], buckets[d][1]);
    r := Ok(Report(buckets, bad));
  }
}
