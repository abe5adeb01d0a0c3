/** calendar/maccabi_tlv_site.py: the fields of a football calendar event,
  * read from the club's site. The HTML is modelled by the texts the parser
  * picks out of it; the page requests are left to the caller. */
module MaccabiTlvSite {
  import opened Wrappers
  import opened Strings
  import opened Dates
  import opened FootballCalendar

  /** The broadcaster logos the game page shows, and the line each adds. */
  const Channels: map<string, string> := map[
    "https://static.maccabi-tlv.co.il/wp-content/uploads/2015/11/1949-300x62.png" := "\nספורט1",
    "https://static.maccabi-tlv.co.il/wp-content/uploads/2015/11/sport-chanel.png" := "\nערוץ הספורט"]

  /** `get_channel`: the broadcaster line of a logo, "" for any other. */
  function GetChannel(x: string): (r: string)
    ensures x in Channels ==> r == Channels[x]
    ensures x !in Channels ==> r == ""
  {
    if x in Channels then Channels[x] else ""
  }

  /** The site's month abbreviations, January first. */
  const MonthNames: seq<string> := ["ינו", "פבר", "מרץ", "אפר", "מאי", "יונ", "יול", "אוג", "ספט", "אוק", "נוב", "דצמ"]

  const Months: map<string, nat> := map[
    "ינו" := 1, "פבר" := 2, "מרץ" := 3, "אפר" := 4, "מאי" := 5, "יונ" := 6,
    "יול" := 7, "אוג" := 8, "ספט" := 9, "אוק" := 10, "נוב" := 11, "דצמ" := 12]

  /** `get_month`: the number of an abbreviated month, None for anything
    * else. */
  function GetMonth(x: string): (r: Option<nat>)
    ensures r.Some? ==> 1 <= r.value <= 12
  {
    if x in Months then Some(Months[x]) else None
  }

  /** The abbreviations name the months 1 to 12 in order, and nothing else
    * is a month. */
  lemma MonthsSpec()
    ensures forall i :: 0 <= i < 12 ==> GetMonth(MonthNames[i]) == Some(i + 1)
    ensures forall x :: GetMonth(x).Some? ==> MonthNames[GetMonth(x).value - 1] == x
  {
    MonthNumbers();
    forall x | GetMonth(x).Some?
      ensures MonthNames[GetMonth(x).value - 1] == x
    {
      MonthNamed(x);
    }
  }

  lemma MonthNumbers()
    ensures forall i :: 0 <= i < 12 ==> GetMonth(MonthNames[i]) == Some(i + 1)
  {
    forall i | 0 <= i < 12
      ensures Months[MonthNames[i]] == i + 1
    {
    }
  }

  lemma MonthNamed(x: string)
    requires x in Months
    ensures MonthNames[Months[x] - 1] == x
  {
  }

  /** The site's stadium names and the names the wiki uses for them. */
  const Stadiums: map<string, string> := map[
    "בלומפילד" := "אצטדיון בלומפילד",
    "נתניה" := "אצטדיון עירוני נתניה",
    "אצטדיון נתניה" := "אצטדיון עירוני נתניה",
    "טדי" := "אצטדיון טדי",
    "הי\"א" := "איצטדיון עירוני הי\"א",
    "היא באשדוד" := "איצטדיון עירוני הי\"א",
    "אשדוד" := "איצטדיון עירוני הי\"א",
    "סמי עופר" := "אצטדיון סמי עופר",
    "טרנר" := "אצטדיון טוטו טרנר",
    "קריית שמונה" := "אצטדיון כדורגל קרית שמונה",
    "המושבה" := "אצטדיון המושבה",
    "דוחא" := "אצטדיון דוחה",
    "רמת גן" := "אצטדיון רמת גן",
    "טוטו עכו" := "אצטדיון טוטו עכו",
    "טוטו - עכו" := "אצטדיון טוטו עכו",
    "עכו" := "אצטדיון טוטו עכו",
    "סלה" := "אצטדיון סלה"]

  /** `get_stadium`: the wiki's name of a stadium, "" for an unknown one. */
  function GetStadium(x: string): (r: string)
    ensures x in Stadiums ==> r == Stadiums[x]
    ensures x !in Stadiums ==> r == ""
  {
    if x in Stadiums then Stadiums[x] else ""
  }

  const PremierLeague: string := "ליגת העל"

  /** The league's names under its sponsors. */
  const SponsorNames: set<string> := {"ליגת הבורסה לניירות ערך", "ליגת Winner", "ליגת ג׳פניקה"}

  /** `get_competition`: a sponsor's name of the league becomes "ליגת העל";
    * any other competition keeps its name. */
  function GetCompetition(x: string): (r: string)
    ensures x in SponsorNames ==> r == PremierLeague
    ensures x !in SponsorNames ==> r == x
  {
    if x in SponsorNames then PremierLeague else x
  }

  /** `format_datetime`: the date text is "day month year", split on single
    * spaces, with the month abbreviated; the time is "HH:MM", or empty for
    * 20:00. The numbers are read with `int()`, which ignores whitespace
    * around them (the texts come raw from the page). A missing part is an
    * IndexError, a number that does not parse a ValueError, and then
    * `datetime` checks its arguments, in the order the code meets them. */
  function FormatDatetime(dateText: string, time: string): (r: Result<DateTime>)
    ensures r.Ok? ==> ValidDateTime(r.value)
    ensures r.Ok? && time == "" ==> r.value.hour == 20 && r.value.minute == 0
  {
    var arr := Split(dateText, " ");
    if |arr| < 3 then Fail(IndexError)
    else
      var year, month, day := ParseInt(arr[2]), GetMonth(arr[1]), ParseInt(arr[0]);
      if year.None? || day.None? then Fail(ValueError)
      else
        match Clock(time)
        case Fail(e) => Fail(e)
        case Ok(hm) => NewDateTime(year.value, month, day.value, hm.0, hm.1)
  }

  /** The hour and minute of a time text, each read with `int()`: 20:00
    * when the text is empty, a ValueError for a part that is not a number
    * and an IndexError when there is no ':'. */
  function Clock(time: string): (r: Result<(int, int)>)
    ensures time == "" ==> r == Ok((20, 0))
    ensures time != "" && r.Ok? ==> var parts := Split(time, ":");
      |parts| >= 2 && ParseInt(parts[0]) == Some(r.value.0) && ParseInt(parts[1]) == Some(r.value.1)
  {
    if time == "" then Ok((20, 0))
    else
      var parts := Split(time, ":");
      var hour := ParseInt(parts[0]);
      if hour.None? then Fail(ValueError)
      else if |parts| < 2 then Fail(IndexError)
      else
        var minutes := ParseInt(parts[1]);
        if minutes.None? then Fail(ValueError) else Ok((hour.value, minutes.value))
  }

  /** Whether `datetime` can read a value into the C `int` it stores each
    * argument in. */
  predicate FitsCInt(x: int)
  {
    -0x8000_0000 <= x < 0x8000_0000
  }

  /** `datetime(year, month, day, hour, minute)`: the arguments are read in
    * order, a value outside a C `int` being an OverflowError and a month of
    * None a TypeError; then an impossible date or time is a ValueError. */
  function NewDateTime(year: int, month: Option<nat>, day: int, hour: int, minute: int): (r: Result<DateTime>)
    ensures r.Ok? <==> month.Some? && ValidDateTime(DateTime(Date(day, month.value, year), hour, minute))
    ensures r.Ok? ==> r.value == DateTime(Date(day, month.value, year), hour, minute)
    ensures FitsCInt(year) && month.None? ==> r == Fail(TypeError)
    ensures r.Fail? && month.Some? && FitsCInt(year) && FitsCInt(month.value) && FitsCInt(day)
            && FitsCInt(hour) && FitsCInt(minute)
            ==> r.error == ValueError
  {
    if !FitsCInt(year) then Fail(OverflowError)
    else if month.None? then Fail(TypeError)
    else if !FitsCInt(month.value) || !FitsCInt(day) || !FitsCInt(hour) || !FitsCInt(minute) then Fail(OverflowError)
    else
      var t := DateTime(Date(day, month.value, year), hour, minute);
      if ValidDateTime(t) then Ok(t) else Fail(ValueError)
  }

  lemma RawTimeParts()
    ensures Split("20:30 ", ":") == ["20", "30 "]
  {
    assert "20:30 " == "20" + [':'] + ("30" + " ");
    SplitAtFirst("20", ':', "30" + " ");
    SplitNoSeparator("30" + " ", ':');
  }

  lemma RawTimeNumbers()
    ensures ParseInt("20") == Some(20) && ParseInt("30 ") == Some(30)
  {
    ParseIntDigits("20");
    ParseIntTrailing("30", " ");
    assert "30" + " " == "30 ";
    assert DigitsValue("20") == 20 && DigitsValue("30") == 30;
  }

  /** A raw time text with a space after the minute is read as that time. */
  lemma ClockReadsRawText()
    ensures Clock("20:30 ") == Ok((20, 30))
  {
    RawTimeParts();
    RawTimeNumbers();
  }

  lemma RawDateTail()
    ensures Split("מרץ 2021\n", " ") == ["מרץ", "2021\n"]
  {
    assert "מרץ 2021\n" == "מרץ" + [' '] + "2021\n";
    SplitAtFirst("מרץ", ' ', "2021\n");
    SplitNoSeparator("2021\n", ' ');
  }

  lemma RawDateParts()
    ensures Split("12 מרץ 2021\n", " ") == ["12", "מרץ", "2021\n"]
  {
    assert "12 מרץ 2021\n" == "12" + [' '] + "מרץ 2021\n";
    SplitAtFirst("12", ' ', "מרץ 2021\n");
    RawDateTail();
  }

  lemma YearDigits()
    ensures DigitsValue("2021") == 2021
  {
    assert "2021"[..3] == "202" && "202"[..2] == "20" && "20"[..1] == "2";
  }

  lemma RawYear()
    ensures ParseInt("2021\n") == Some(2021)
  {
    ParseIntTrailing("2021", "\n");
    assert "2021" + "\n" == "2021\n";
    YearDigits();
  }

  lemma RawDateNumbers()
    ensures ParseInt("12") == Some(12) && ParseInt("2021\n") == Some(2021) && GetMonth("מרץ") == Some(3)
  {
    ParseIntDigits("12");
    assert DigitsValue("12") == 12;
    RawYear();
  }

  /** A raw date text ending in a newline is read as that date. */
  lemma FormatDatetimeReadsRawText()
    ensures FormatDatetime("12 מרץ 2021\n", "") == Ok(DateTime(Date(12, 3, 2021), 20, 0))
  {
    RawDateParts();
    RawDateNumbers();
    FormatDatetimeFrom("12 מרץ 2021\n", "", DateTime(Date(12, 3, 2021), 20, 0));
  }

  /** How the site writes a date: "day month year". */
  function SiteDate(d: Date): string
    requires ValidDate(d)
  {
    NatToString(d.day) + " " + MonthNames[d.month - 1] + " " + NatToString(d.year)
  }

  /** How the site writes a time: "HH:MM". */
  function SiteTime(h: nat, m: nat): string
  {
    ZeroPad(h, 2) + ":" + ZeroPad(m, 2)
  }

  lemma NoCharInDigits(s: string, c: char)
    requires AllDigits(s) && !IsDigit(c)
    ensures c !in s
  {
    assert forall i :: 0 <= i < |s| ==> s[i] != c;
  }

  /** The date text splits back into its three parts. */
  lemma SiteDateParts(d: Date)
    requires ValidDate(d)
    ensures Split(SiteDate(d), " ") == [NatToString(d.day), MonthNames[d.month - 1], NatToString(d.year)]
  {
    var parts := [NatToString(d.day), MonthNames[d.month - 1], NatToString(d.year)];
    NoCharInDigits(parts[0], ' ');
    NoCharInDigits(parts[2], ' ');
    assert ' ' !in parts[1] by {
      assert forall k :: 0 <= k < 12 ==> ' ' !in MonthNames[k];
    }
    JoinCons(parts[1], parts[2..], " ");
    JoinCons(parts[0], parts[1..], " ");
    assert Join(parts, " ") == SiteDate(d);
    SplitJoin(parts, ' ');
  }

  /** `format_datetime` on a date text whose three parts read as a real
    * date and a time text that reads as a real time. */
  lemma FormatDatetimeFrom(dateText: string, time: string, t: DateTime)
    requires ValidDateTime(t)
    requires var arr := Split(dateText, " ");
      && |arr| >= 3 && ParseInt(arr[2]) == Some(t.date.year)
      && GetMonth(arr[1]) == Some(t.date.month) && ParseInt(arr[0]) == Some(t.date.day)
    requires Clock(time) == Ok((t.hour, t.minute))
    ensures FormatDatetime(dateText, time) == Ok(t)
  {
  }

  /** The three parts of a date as the site writes it read back as the
    * date. */
  lemma SiteDateNumbers(d: Date)
    requires ValidDate(d)
    ensures var arr := Split(SiteDate(d), " ");
      && |arr| == 3 && ParseInt(arr[2]) == Some(d.year)
      && GetMonth(arr[1]) == Some(d.month) && ParseInt(arr[0]) == Some(d.day)
  {
    SiteDateParts(d);
    ParseIntOfString(d.day);
    ParseIntOfString(d.year);
    MonthsSpec();
  }

  /** A time as the site writes it reads back as the time. */
  lemma SiteTimeClock(h: nat, m: nat)
    requires h < 24 && m < 60
    ensures Clock(SiteTime(h, m)) == Ok((h, m))
  {
    var hh, mm := ZeroPad(h, 2), ZeroPad(m, 2);
    ZeroPadValue(h, 2);
    ZeroPadValue(m, 2);
    ParseIntDigits(hh);
    ParseIntDigits(mm);
    NoCharInDigits(hh, ':');
    NoCharInDigits(mm, ':');
    JoinCons(hh, [mm], ":");
    SplitJoin([hh, mm], ':');
  }

  /** Reading back what the site writes gives the date and time, and 20:00
    * when the time is left empty. */
  lemma FormatDatetimeRoundTrip(t: DateTime)
    requires ValidDateTime(t)
    ensures FormatDatetime(SiteDate(t.date), SiteTime(t.hour, t.minute)) == Ok(t)
    ensures FormatDatetime(SiteDate(t.date), "") == Ok(DateTime(t.date, 20, 0))
  {
    SiteDateNumbers(t.date);
    SiteTimeClock(t.hour, t.minute);
    FormatDatetimeFrom(SiteDate(t.date), SiteTime(t.hour, t.minute), t);
    FormatDatetimeFrom(SiteDate(t.date), "", DateTime(t.date, 20, 0));
  }

  /** The start and end of the event and its stadium, from the location
    * line ("time stadium", split on single spaces) and the date text. */
  function GameSchedule(locationText: string, dateText: string): (r: Result<(DateTime, DateTime, string)>)
    ensures r.Ok? ==> ValidDateTime(r.value.0) && ValidDateTime(r.value.1)
    ensures r.Ok? ==> (Ordinal(r.value.1.date) - Ordinal(r.value.0.date)) * 24 + r.value.1.hour == r.value.0.hour + 2
    ensures r.Ok? ==> r.value.1.minute == r.value.0.minute
    ensures r.Ok? ==> var parts := Split(locationText, " ");
      |parts| >= 2 && r.value.2 == GetStadium(parts[1]) && FormatDatetime(dateText, parts[0]) == Ok(r.value.0)
  {
    var parts := Split(locationText, " ");
    if |parts| < 2 then Fail(IndexError)
    else
      var location := GetStadium(parts[1]);
      match FormatDatetime(dateText, parts[0])
      case Fail(e) => Fail(e)
      case Ok(start) =>
        match AddHoursChecked(start, 2)
        case Fail(e) => Fail(e)
        case Ok(end) => Ok((start, end, location))
  }

  /** The event's summary: the opponent and whether it is a home game. */
  function Summary(opponent: string, home: bool): (r: string)
    ensures StartsWith(r, opponent)
    ensures EndsWith(r, if home then " - בית" else " - חוץ")
    ensures |r| == |opponent| + 6
  {
    var tail := if home then " - בית" else " - חוץ";
    assert (opponent + tail)[..|opponent|] == opponent;
    assert (opponent + tail)[|opponent + tail| - |tail|..] == tail;
    opponent + tail
  }

  /** The fixture line: the competition, and ", {round}" only when the
    * game has a round. */
  function Fixture(league: string, round: Option<string>): (r: string)
    ensures round.None? ==> r == GetCompetition(league)
    ensures round.Some? ==> StartsWith(r, GetCompetition(league)) && EndsWith(r, ", " + round.value)
    ensures round.Some? ==> |r| == |GetCompetition(league)| + 2 + |round.value|
  {
    var competition := GetCompetition(league);
    if round.None? then competition
    else
      var tail := ", " + round.value;
      assert (competition + tail)[..|competition|] == competition;
      assert (competition + tail)[|competition + tail| - |tail|..] == tail;
      competition + tail
  }

  const Win: string := "ניצחון"
  const Draw: string := "תיקו"
  const Loss: string := "הפסד"

  /** A result line: "\n{kind} {maccabi} - {rival}". */
  function ResultLine(kind: string, maccabi: string, rival: string): string
  {
    "\n" + kind + " " + maccabi + " - " + rival
  }

  /** `get_result` as written: "" when either score is missing; otherwise
    * win, draw or loss by comparing the two score texts as strings. */
  function GetResult(maccabi: Option<string>, rival: Option<string>): (r: string)
    ensures maccabi.None? || rival.None? ==> r == ""
  {
    if maccabi.None? || rival.None? then ""
    else
      var m, o := maccabi.value, rival.value;
      if Less(o, m) then ResultLine(Win, m, o)
      else if m == o then ResultLine(Draw, m, o)
      else ResultLine(Loss, m, o)
  }

  /** The label is the string order of the texts: a win when the club's
    * text is the greater, a draw when they are equal, a loss otherwise. */
  lemma GetResultSpec(m: string, o: string)
    ensures GetResult(Some(m), Some(o)) == ResultLine(if Less(o, m) then Win else if m == o then Draw else Loss, m, o)
    ensures Less(o, m) || m == o || Less(m, o)
    ensures GetResult(Some(m), Some(o)) == ResultLine(Draw, m, o) <==> m == o
  {
    LessTotal(m, o);
    if m != o {
      var r := GetResult(Some(m), Some(o));
      assert r[1] == if Less(o, m) then Win[0] else Loss[0];
      assert ResultLine(Draw, m, o)[1] == Draw[0];
    }
  }

  /** Comparing the texts as strings labels a 10-2 win a loss, and a 2-10
    * loss a win. */
  lemma GetResultMislabels()
    ensures GetResult(Some("10"), Some("2")) == ResultLine(Loss, "10", "2")
    ensures GetResult(Some("2"), Some("10")) == ResultLine(Win, "2", "10")
  {
    assert Less("10", "2");
    assert !Less("2", "10");
  }

  /** `get_result` comparing the scores as numbers: "" when either score
    * is missing or is not a number. */
  function GetResultByValue(maccabi: Option<string>, rival: Option<string>): (r: string)
    ensures maccabi.None? || rival.None? ==> r == ""
  {
    if maccabi.None? || rival.None? then ""
    else
      var m, o := maccabi.value, rival.value;
      var a, b := ParseInt(m), ParseInt(o);
      if a.None? || b.None? then ""
      else if a.value > b.value then ResultLine(Win, m, o)
      else if a.value == b.value then ResultLine(Draw, m, o)
      else ResultLine(Loss, m, o)
  }

  /** Scores compared as numbers: a win exactly when the club scored more,
    * a draw when the scores are equal, a loss when it scored less. */
  lemma GetResultByValueSpec(m: string, o: string)
    requires |m| > 0 && AllDigits(m) && |o| > 0 && AllDigits(o)
    ensures DigitsValue(m) > DigitsValue(o) ==> GetResultByValue(Some(m), Some(o)) == ResultLine(Win, m, o)
    ensures DigitsValue(m) == DigitsValue(o) ==> GetResultByValue(Some(m), Some(o)) == ResultLine(Draw, m, o)
    ensures DigitsValue(m) < DigitsValue(o) ==> GetResultByValue(Some(m), Some(o)) == ResultLine(Loss, m, o)
  {
    ParseIntDigits(m);
    ParseIntDigits(o);
  }

  /** The 10-2 win is labelled a win when the scores are read as numbers. */
  lemma GetResultByValueFixes()
    ensures GetResultByValue(Some("10"), Some("2")) == ResultLine(Win, "10", "2")
  {
    assert DigitsValue("1") == 1;
    assert "10"[..1] == "1";
    assert DigitsValue("10") == 10;
    assert DigitsValue("2") == 2;
    ParseIntDigits("10");
    ParseIntDigits("2");
  }

  /** A game block of the games page, as the texts it holds. */
  datatype GameBlock = GameBlock(texts: seq<string>)

  const NotFinal: string := "מועד לא סופי"
  const Youth: string := "לנוער"

  /** The block has a fixed date and is not a youth game: it holds neither
    * text as one of its strings. */
  predicate Scheduled(b: GameBlock)
  {
    NotFinal !in b.texts && Youth !in b.texts
  }

  /** The events of the listed games, in order, leaving out the unscheduled
    * ones; `handle` stands for `handle_game`. */
  function ScheduledEvents(games: seq<GameBlock>, handle: GameBlock -> Event): seq<Event>
    decreases |games|
  {
    if games == [] then []
    else
      var last := games[|games| - 1];
      ScheduledEvents(games[..|games| - 1], handle) + (if Scheduled(last) then [handle(last)] else [])
  }

  /** Every scheduled game gives an event, and every event comes from a
    * scheduled game. */
  lemma {:induction false} ScheduledEventsSpec(games: seq<GameBlock>, handle: GameBlock -> Event)
    ensures |ScheduledEvents(games, handle)| <= |games|
    ensures forall b :: b in games && Scheduled(b) ==> handle(b) in ScheduledEvents(games, handle)
    ensures forall e :: e in ScheduledEvents(games, handle) ==> exists b :: b in games && Scheduled(b) && e == handle(b)
    decreases |games|
  {
    if games != [] {
      var init := games[..|games| - 1];
      ScheduledEventsSpec(init, handle);
      assert games == init + [games[|games| - 1]];
      forall e | e in ScheduledEvents(games, handle)
        ensures exists b :: b in games && Scheduled(b) && e == handle(b)
      {
        if e in ScheduledEvents(init, handle) {
          var b :| b in init && Scheduled(b) && e == handle(b);
          assert b in games;
        }
      }
    }
  }

  /** `fetch_games_from_maccabi_tlv_site` on the blocks of a page: for the
    * last game only the first block is handled (an AttributeError when the
    * page has none); otherwise every scheduled game, in page order. */
  method FetchGames(games: seq<GameBlock>, toUpdateLastGame: bool, handle: GameBlock -> Event)
    returns (r: Result<seq<Event>>)
    ensures toUpdateLastGame && games == [] ==> r == Fail(AttributeError)
    ensures toUpdateLastGame && games != [] ==> r == Ok([handle(games[0])])
    ensures !toUpdateLastGame ==> r == Ok(ScheduledEvents(games, handle))
  {
    var events: seq<Event> := [];
    if !toUpdateLastGame {
      for i := 0 to |games|
        invariant events == ScheduledEvents(games[..i], handle)
      {
        assert games[..i + 1][..i] == games[..i];
        var game := games[i];
        if Scheduled(game) {
          events := events + [handle(game)];
        }
      }
      assert games[..|games|] == games;
    } else {
      if games == [] {
        return Fail(AttributeError);
      }
      return Ok([handle(games[0])]);
    }
    return Ok(events);
  }
}
