/** maccabipedia_calendar/main_volleyball.py: the volleyball calendar, kept
  * in step with the games of the IVA site after hand-written overrides are
  * applied to them. Events are matched on the shared `maccabipedia_id`
  * instead of the url, and only events the script created itself may be
  * deleted. */
module VolleyballCalendar {
  import opened Wrappers
  import opened Strings
  import opened Dates
  import opened VolleyballGames
  import opened FootballCalendar

  /** One entry of the overrides file: each field is present (Some) or
    * absent (None) as a key of the entry. */
  datatype Override = Override(
    date: Option<string>,
    stadium: Option<string>,
    maccabiResult: Option<string>,
    opponentResult: Option<string>)

  const IdKey: string := "maccabipedia_id"
  const IvaSourcedKey: string := "iva_sourced"

  /** The overrides file without its metadata entries, those whose key
    * starts with "_". */
  function FilterOverrides(data: map<string, Override>): (r: map<string, Override>)
    ensures forall k :: k in r <==> k in data && !StartsWith(k, "_")
    ensures forall k :: k in r ==> r[k] == data[k]
  {
    map k | k in data && !StartsWith(k, "_") :: data[k]
  }

  /** `load_game_overrides`, given the parsed file, or None when the file
    * is missing or cannot be read: no overrides then. */
  function LoadGameOverrides(parsed: Option<map<string, Override>>): (r: map<string, Override>)
    ensures parsed.None? ==> r == map[]
    ensures parsed.Some? ==> r == FilterOverrides(parsed.value)
  {
    match parsed
    case None => map[]
    case Some(data) => FilterOverrides(data)
  }

  /** `strptime(s, '%H:%M')`: one or two digits each, a real time of day. */
  function ParseClock(s: string): (r: Option<(nat, nat)>)
    ensures r.Some? ==> r.value.0 < 24 && r.value.1 < 60
  {
    var parts := Split(s, ":");
    if |parts| != 2 then None
    else
      var h, m := parts[0], parts[1];
      if 1 <= |h| <= 2 && AllDigits(h) && 1 <= |m| <= 2 && AllDigits(m)
         && DigitsValue(h) < 24 && DigitsValue(m) < 60
      then Some((DigitsValue(h), DigitsValue(m)))
      else None
  }

  /** `strptime(s, '%Y-%m-%d %H:%M')`; None stands for the ValueError. */
  function ParseOverrideDate(s: string): (r: Option<DateTime>)
    ensures r.Some? ==> ValidDateTime(r.value)
  {
    var parts := Split(s, " ");
    if |parts| != 2 then None
    else
      match ParseDate(parts[0], YearFirst, '-')
      case None => None
      case Some(d) =>
        match ParseClock(parts[1])
        case None => None
        case Some(hm) => Some(DateTime(d, hm.0, hm.1))
  }

  /** The format the overrides file writes dates in. */
  function FormatOverrideDate(t: DateTime): string
    requires ValidDateTime(t)
  {
    FormatDate(t.date, YearFirst, '-') + " " + ZeroPad(t.hour, 2) + ":" + ZeroPad(t.minute, 2)
  }

  lemma DigitsNoChar(s: string, c: char)
    requires AllDigits(s) && !IsDigit(c)
    ensures c !in s
  {
    assert forall i :: 0 <= i < |s| ==> s[i] != c;
  }

  /** Reading "HH:MM" back gives the time of day. */
  lemma ClockRoundTrip(h: nat, m: nat)
    requires h < 24 && m < 60
    ensures ParseClock(ZeroPad(h, 2) + ":" + ZeroPad(m, 2)) == Some((h, m))
  {
    var hh, mm := ZeroPad(h, 2), ZeroPad(m, 2);
    ZeroPadTwo(h);
    ZeroPadTwo(m);
    ZeroPadValue(h, 2);
    ZeroPadValue(m, 2);
    DigitsNoChar(hh, ':');
    DigitsNoChar(mm, ':');
    JoinCons(hh, [mm], ":");
    SplitJoin([hh, mm], ':');
  }

  /** A date written in the overrides format reads back as itself (years
    * 1000 to 9999). */
  lemma OverrideDateRoundTrip(t: DateTime)
    requires ValidDateTime(t) && t.date.year >= 1000
    ensures ParseOverrideDate(FormatOverrideDate(t)) == Some(t)
  {
    var day := FormatDate(t.date, YearFirst, '-');
    var clock := ZeroPad(t.hour, 2) + ":" + ZeroPad(t.minute, 2);
    assert ' ' !in day by {
      var yyyy, mm, dd := ZeroPad(t.date.year, 4), ZeroPad(t.date.month, 2), ZeroPad(t.date.day, 2);
      DigitsNoChar(yyyy, ' ');
      DigitsNoChar(mm, ' ');
      DigitsNoChar(dd, ' ');
      assert day == yyyy + ['-'] + mm + ['-'] + dd;
    }
    assert ' ' !in clock by {
      DigitsNoChar(ZeroPad(t.hour, 2), ' ');
      DigitsNoChar(ZeroPad(t.minute, 2), ' ');
    }
    JoinCons(day, [clock], " ");
    assert FormatOverrideDate(t) == Join([day, clock], [' ']);
    SplitJoin([day, clock], ' ');
    FormatParseRoundTrip(t.date, YearFirst, '-');
    ClockRoundTrip(t.hour, t.minute);
  }

  /** The id a game's event carries: "{opponent} {fixture} {competition}". */
  function GameKey(g: Game): string
  {
    g.opponent + " " + g.fixture + " " + g.competition
  }

  /** The game after one override entry: a date that parses replaces the
    * date, and each of stadium and results present in the entry replaces
    * the game's. */
  function Overridden(g: Game, o: Override): (r: Game)
    ensures GameKey(r) == GameKey(g) && r.homeGame == g.homeGame && r.season == g.season
    ensures r.date == if o.date.Some? && ParseOverrideDate(o.date.value).Some? then ParseOverrideDate(o.date.value).value else g.date
    ensures r.stadium == if o.stadium.Some? then o.stadium else g.stadium
    ensures r.maccabiResult == if o.maccabiResult.Some? then o.maccabiResult else g.maccabiResult
    ensures r.opponentResult == if o.opponentResult.Some? then o.opponentResult else g.opponentResult
  {
    var date := if o.date.Some? then (match ParseOverrideDate(o.date.value) case Some(t) => t case None => g.date) else g.date;
    g.(date := date,
       stadium := if o.stadium.Some? then o.stadium else g.stadium,
       maccabiResult := if o.maccabiResult.Some? then o.maccabiResult else g.maccabiResult,
       opponentResult := if o.opponentResult.Some? then o.opponentResult else g.opponentResult)
  }

  /** A game after the overrides: changed only by the entry under its key. */
  function Applied(g: Game, overrides: map<string, Override>): Game
  {
    if GameKey(g) in overrides then Overridden(g, overrides[GameKey(g)]) else g
  }

  /** Applying the overrides twice is applying them once. */
  lemma AppliedIdempotent(g: Game, overrides: map<string, Override>)
    ensures Applied(Applied(g, overrides), overrides) == Applied(g, overrides)
  {
  }

  /** One game of the loop of `apply_overrides`, corrected in place. */
  method ApplyOverride(game: VolleyballGame, overrides: map<string, Override>)
    modifies game
    ensures game.Value() == Applied(old(game.Value()), overrides)
  {
    var key := game.opponent + " " + game.fixture + " " + game.competition;
    assert key == GameKey(game.Value());
    if key in overrides {
      var o := overrides[key];
      if o.date.Some? {
        var parsed := ParseOverrideDate(o.date.value);
        if parsed.Some? {
          game.date := parsed.value;
        }
      }
      if o.stadium.Some? {
        game.stadium := o.stadium;
      }
      if o.maccabiResult.Some? {
        game.maccabiResult := o.maccabiResult;
      }
      if o.opponentResult.Some? {
        game.opponentResult := o.opponentResult;
      }
    }
  }

  /** `apply_overrides`: the same list comes back, and every game in it,
    * even one listed twice, holds the overrides of its key applied once;
    * with no overrides nothing changes. */
  method ApplyOverrides(games: seq<VolleyballGame>, overrides: map<string, Override>) returns (r: seq<VolleyballGame>)
    modifies set g | g in games
    ensures r == games
    ensures forall g :: g in games ==> g.Value() == Applied(old(g.Value()), overrides)
    ensures overrides == map[] ==> forall g :: g in games ==> g.Value() == old(g.Value())
  {
    if overrides == map[] {
      return games;
    }
    for i := 0 to |games|
      invariant forall g :: g in games[..i] ==> g.Value() == Applied(old(g.Value()), overrides)
      invariant forall g :: g in games && g !in games[..i] ==> g.Value() == old(g.Value())
    {
      var game := games[i];
      assert games[..i + 1] == games[..i] + [game];
      ApplyOverride(game, overrides);
      if game in games[..i] {
        AppliedIdempotent(old(game.Value()), overrides);
      }
    }
    assert games[..|games|] == games;
    return games;
  }

  /** `format_result`: the description's result line. The results are the
    * site's texts, compared as strings; a game with one result missing
    * fails the comparison. */
  function FormatResult(g: Game): (r: Result<string>)
    ensures g.maccabiResult.None? && g.opponentResult.None? ==> r == Ok("המשחק טרם שוחק")
    ensures g.maccabiResult.None? != g.opponentResult.None? ==> r == Fail(TypeError)
  {
    match (g.maccabiResult, g.opponentResult)
    case (None, None) => Ok("המשחק טרם שוחק")
    case (Some(m), Some(o)) =>
      if Less(o, m) then Ok("נצחון " + m + " - " + o) else Ok("הפסד " + m + " - " + o)
    case _ => Fail(TypeError)
  }

  /** A played game is labelled a win exactly when the club's result is
    * the greater, and a loss otherwise, a tie included; for the one-digit
    * set counts a game has, the string order is the numeric order. */
  lemma FormatResultSpec(g: Game, m: string, o: string)
    requires g.maccabiResult == Some(m) && g.opponentResult == Some(o)
    ensures FormatResult(g) == Ok((if Less(o, m) then "נצחון " else "הפסד ") + m + " - " + o)
    ensures m == o ==> FormatResult(g) == Ok("הפסד " + m + " - " + o)
    ensures |m| == 1 && |o| == 1 && AllDigits(m) && AllDigits(o) ==>
              (Less(o, m) <==> DigitsValue(m) > DigitsValue(o))
  {
    LessTotal(m, m);
    if |m| == 1 && |o| == 1 {
      assert m[1..] == [] && o[1..] == [];
    }
  }

  /** The summary line as written reads `game.home_away`, an attribute no
    * game record has. */
  function SummaryAsWritten(g: Game): (r: Result<string>)
    ensures r.Fail?
  {
    Fail(AttributeError)
  }

  /** Every game fails to become an event. */
  lemma SummaryAlwaysFails(g: Game)
    ensures SummaryAsWritten(g) == Fail(AttributeError)
  {
  }

  /** The summary with the home/away word the game pages use: "[עף]
    * {opponent} - בית" or "... - חוץ". */
  function Summary(g: Game): (r: string)
    ensures StartsWith(r, "[עף] " + g.opponent + " - ")
    ensures EndsWith(r, if g.homeGame then "בית" else "חוץ")
    ensures |r| == |g.opponent| + 11
  {
    var prefix := "[עף] " + g.opponent + " - ";
    var word := if g.homeGame then "בית" else "חוץ";
    assert (prefix + word)[..|prefix|] == prefix;
    assert (prefix + word)[|prefix + word| - |word|..] == word;
    prefix + word
  }

  /** The search matches on the shared `maccabipedia_id`, with the same
    * first-match rule as the football calendar. */
  lemma SearchById(event: Event, events: seq<Event>)
    requires Keyed(event, IdKey) && forall k :: 0 <= k < |events| ==> Keyed(events[k], IdKey)
    ensures var k := FirstMatch(event, events, IdKey);
      Search(event, events, IdKey)
        == if k == |events| then Ok(None) else Ok(Some(if events[k].id.Some? then events[k] else event))
  {
    SearchSpec(event, events, IdKey);
  }

  /** `sync_future_games_to_calendar`, matching on `maccabipedia_id`. */
  method SyncFutureGames(events: seq<Event>, current: seq<Event>) returns (actions: seq<Action>, r: Result<()>)
    ensures Outcome(actions, r) == Synced(events, current, IdKey)
  {
    actions, r := [], Ok(());
    for i := 0 to |events|
      invariant Outcome(actions, r) == Synced(events[..i], current, IdKey) && r.Ok?
    {
      assert events[..i + 1][..i] == events[..i];
      var step := SyncAction(events[i], current, IdKey);
      match step {
        case Fail(e) =>
          SyncedStops(events, current, IdKey, i + 1);
          return actions, Fail(e);
        case Ok(None) =>
        case Ok(Some(a)) =>
          actions := actions + [a];
      }
    }
    assert events[..|events|] == events;
  }

  /** The event was created by this script: its shared properties carry
    * the `iva_sourced` mark. */
  predicate IvaSourced(e: Event)
  {
    e.extended.Some? && e.extended.value.shared.Some? && IvaSourcedKey in e.extended.value.shared.value
  }

  /** The cleanup's call for one calendar event: events entered by hand
    * are skipped; the script's own are deleted when unmatched. */
  function IvaDeleteAction(event: Event, siteEvents: seq<Event>): (r: Result<Option<Action>>)
    ensures !IvaSourced(event) ==> r == Ok(None)
  {
    if !IvaSourced(event) then Ok(None) else DeleteAction(event, siteEvents, IdKey)
  }

  /** The calls of `delete_unnecessary_events`. */
  function IvaDeleted(calendarEvents: seq<Event>, siteEvents: seq<Event>): Outcome
    decreases |calendarEvents|
  {
    if calendarEvents == [] then Outcome([], Ok(()))
    else
      Then(IvaDeleted(calendarEvents[..|calendarEvents| - 1], siteEvents),
           IvaDeleteAction(calendarEvents[|calendarEvents| - 1], siteEvents))
  }

  /** After an exception the remaining calendar events change nothing. */
  lemma {:induction false} IvaDeletedStops(calendarEvents: seq<Event>, siteEvents: seq<Event>, i: nat)
    requires i <= |calendarEvents| && IvaDeleted(calendarEvents[..i], siteEvents).result.Fail?
    ensures IvaDeleted(calendarEvents, siteEvents) == IvaDeleted(calendarEvents[..i], siteEvents)
    decreases |calendarEvents|
  {
    if i < |calendarEvents| {
      var init := calendarEvents[..|calendarEvents| - 1];
      assert init[..i] == calendarEvents[..i];
      IvaDeletedStops(init, siteEvents, i);
    } else {
      assert calendarEvents[..i] == calendarEvents;
    }
  }

  /** `delete_unnecessary_events` of the volleyball calendar. */
  method DeleteUnnecessaryEvents(siteEvents: seq<Event>, calendarEvents: seq<Event>)
    returns (actions: seq<Action>, r: Result<()>)
    ensures Outcome(actions, r) == IvaDeleted(calendarEvents, siteEvents)
  {
    actions, r := [], Ok(());
    for i := 0 to |calendarEvents|
      invariant Outcome(actions, r) == IvaDeleted(calendarEvents[..i], siteEvents) && r.Ok?
    {
      assert calendarEvents[..i + 1][..i] == calendarEvents[..i];
      var event := calendarEvents[i];
      if !IvaSourced(event) {
        continue;
      }
      var step := DeleteAction(event, siteEvents, IdKey);
      match step {
        case Fail(e) =>
          IvaDeletedStops(calendarEvents, siteEvents, i + 1);
          return actions, Fail(e);
        case Ok(None) =>
        case Ok(Some(a)) =>
          actions := actions + [a];
      }
    }
    assert calendarEvents[..|calendarEvents|] == calendarEvents;
  }

  /** With lookups that cannot fail the cleanup completes; an event
    * entered by hand is never deleted, and one the script created is
    * deleted exactly when no site event matches it. */
  lemma {:induction false} IvaDeletedSpec(calendarEvents: seq<Event>, siteEvents: seq<Event>)
    requires forall k :: 0 <= k < |calendarEvents| ==> calendarEvents[k].id.Some? && Keyed(calendarEvents[k], IdKey)
    requires forall k :: 0 <= k < |siteEvents| ==> Keyed(siteEvents[k], IdKey)
    ensures IvaDeleted(calendarEvents, siteEvents).result == Ok(())
    ensures forall i :: (0 <= i < |calendarEvents| && IvaSourced(calendarEvents[i]) && FirstMatch(calendarEvents[i], siteEvents, IdKey) == |siteEvents|) ==>
              Delete(calendarEvents[i].id.value) in IvaDeleted(calendarEvents, siteEvents).actions
    ensures forall a :: a in IvaDeleted(calendarEvents, siteEvents).actions ==>
              exists i :: 0 <= i < |calendarEvents| && a == Delete(calendarEvents[i].id.value)
                && IvaSourced(calendarEvents[i]) && FirstMatch(calendarEvents[i], siteEvents, IdKey) == |siteEvents|
  {
    IvaDeletedComplete(calendarEvents, siteEvents);
    IvaDeletedSound(calendarEvents, siteEvents);
  }

  lemma {:induction false} IvaDeletedComplete(calendarEvents: seq<Event>, siteEvents: seq<Event>)
    requires forall k :: 0 <= k < |calendarEvents| ==> calendarEvents[k].id.Some? && Keyed(calendarEvents[k], IdKey)
    requires forall k :: 0 <= k < |siteEvents| ==> Keyed(siteEvents[k], IdKey)
    ensures IvaDeleted(calendarEvents, siteEvents).result == Ok(())
    ensures forall i :: (0 <= i < |calendarEvents| && IvaSourced(calendarEvents[i]) && FirstMatch(calendarEvents[i], siteEvents, IdKey) == |siteEvents|) ==>
              Delete(calendarEvents[i].id.value) in IvaDeleted(calendarEvents, siteEvents).actions
    decreases |calendarEvents|
  {
    if calendarEvents != [] {
      var n := |calendarEvents| - 1;
      var init := calendarEvents[..n];
      IvaDeletedComplete(init, siteEvents);
      DeleteActionSpec(calendarEvents[n], siteEvents, IdKey);
      forall i | 0 <= i < n
        ensures calendarEvents[i] == init[i]
      {
      }
    }
  }

  lemma {:induction false} IvaDeletedSound(calendarEvents: seq<Event>, siteEvents: seq<Event>)
    requires forall k :: 0 <= k < |calendarEvents| ==> calendarEvents[k].id.Some? && Keyed(calendarEvents[k], IdKey)
    requires forall k :: 0 <= k < |siteEvents| ==> Keyed(siteEvents[k], IdKey)
    ensures forall a :: a in IvaDeleted(calendarEvents, siteEvents).actions ==>
              exists i :: 0 <= i < |calendarEvents| && a == Delete(calendarEvents[i].id.value)
                && IvaSourced(calendarEvents[i]) && FirstMatch(calendarEvents[i], siteEvents, IdKey) == |siteEvents|
    decreases |calendarEvents|
  {
    if calendarEvents != [] {
      var n := |calendarEvents| - 1;
      var init := calendarEvents[..n];
      IvaDeletedSound(init, siteEvents);
      DeleteActionSpec(calendarEvents[n], siteEvents, IdKey);
      forall a | a in IvaDeleted(calendarEvents, siteEvents).actions
        ensures exists i :: 0 <= i < |calendarEvents| && a == Delete(calendarEvents[i].id.value)
                  && IvaSourced(calendarEvents[i]) && FirstMatch(calendarEvents[i], siteEvents, IdKey) == |siteEvents|
      {
        if a in IvaDeleted(init, siteEvents).actions {
          var i :| 0 <= i < |init| && a == Delete(init[i].id.value)
                   && IvaSourced(init[i]) && FirstMatch(init[i], siteEvents, IdKey) == |siteEvents|;
          assert init[i] == calendarEvents[i];
        } else {
          assert a == Delete(calendarEvents[n].id.value);
        }
      }
    }
  }
}
