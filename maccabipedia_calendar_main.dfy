/** maccabipedia_calendar/main.py: the football calendar is kept in step
  * with the games the club's site lists. The calls to the calendar service
  * become the actions the script would issue, in order. */
module FootballCalendar {
  import opened Wrappers
  import opened Strings

  /** An event's `start` (or `end`): its time and time zone. */
  datatype When = When(dateTime: string, timeZone: string)

  /** The `extendedProperties` of an event; its `shared` dictionary, when
    * there is one. */
  datatype Extended = Extended(shared: Option<map<string, string>>)

  /** A calendar event: an event from the site has no id, one read from
    * the calendar has one. */
  datatype Event = Event(
    summary: string,
    description: string,
    start: When,
    location: string,
    id: Option<string>,
    extended: Option<Extended>)

  /** A call to the calendar service. */
  datatype Action = Upload(event: Event) | Update(event: Event, eventId: string) | Delete(eventId: string)

  /** What a loop of calls did: the calls made, and the exception that
    * stopped it, if one did. */
  datatype Outcome = Outcome(actions: seq<Action>, result: Result<()>)

  const UrlKey: string := "url"
  const ResultKey: string := "result"

  /** `event['extendedProperties']['shared'][key]`, for an event that has
    * extended properties; KeyError when `shared` or the key is missing. */
  function SharedValue(e: Event, key: string): (r: Result<string>)
    requires e.extended.Some?
    ensures r.Ok? <==> e.extended.value.shared.Some? && key in e.extended.value.shared.value
  {
    match e.extended.value.shared
    case None => Fail(KeyError)
    case Some(shared) => if key in shared then Ok(shared[key]) else Fail(KeyError)
  }

  /** The lookups of `key` cannot fail on `e`. */
  predicate Keyed(e: Event, key: string)
  {
    e.extended.Some? ==> e.extended.value.shared.Some? && key in e.extended.value.shared.value
  }

  /** Two events are the same game: both have extended properties and
    * equal values under `key`. */
  predicate Matches(event: Event, t: Event, key: string)
  {
    && event.extended.Some? && t.extended.Some?
    && SharedValue(event, key).Ok? && SharedValue(t, key).Ok?
    && SharedValue(event, key).value == SharedValue(t, key).value
  }

  /** The index of the first event of `events` that matches `event`, or
    * `|events|`. */
  function FirstMatch(event: Event, events: seq<Event>, key: string): (k: nat)
    ensures k <= |events|
    ensures forall j :: 0 <= j < k ==> !Matches(event, events[j], key)
    ensures k < |events| ==> Matches(event, events[k], key)
    decreases |events|
  {
    if events == [] then 0
    else if Matches(event, events[0], key) then 0
    else 1 + FirstMatch(event, events[1..], key)
  }

  /** `search_event_in_calendar`: the first event of `events` whose value
    * under `key` equals the searched event's: that event when it has an
    * id, else the searched event itself; None (`{}`) when none matches.
    * Events without extended properties are passed over. */
  function Search(event: Event, events: seq<Event>, key: string): (r: Result<Option<Event>>)
    ensures event.extended.None? ==> r == Ok(None)
    decreases |events|
  {
    if events == [] then Ok(None)
    else
      var t := events[0];
      if t.extended.Some? && event.extended.Some? then
        match SharedValue(event, key)
        case Fail(e) => Fail(e)
        case Ok(a) =>
          match SharedValue(t, key)
          case Fail(e) => Fail(e)
          case Ok(b) =>
            if a == b then Ok(Some(if t.id.Some? then t else event)) else Search(event, events[1..], key)
      else Search(event, events[1..], key)
  }

  /** When no lookup can fail, the search finds the first match: nothing
    * when there is none, else the match if it has an id and the searched
    * event if it has none. */
  lemma {:induction false} SearchSpec(event: Event, events: seq<Event>, key: string)
    requires Keyed(event, key) && forall k :: 0 <= k < |events| ==> Keyed(events[k], key)
    ensures var k := FirstMatch(event, events, key);
      Search(event, events, key)
        == if k == |events| then Ok(None) else Ok(Some(if events[k].id.Some? then events[k] else event))
    decreases |events|
  {
    if events != [] {
      SearchSpec(event, events[1..], key);
    }
  }

  /** The fields whose difference makes the sync update an event. */
  predicate Differs(a: Event, b: Event)
  {
    a.summary != b.summary || a.description != b.description || a.start != b.start || a.location != b.location
  }

  /** The call the sync makes for one site event: an upload when the
    * calendar has no match, an update of the match when one of the four
    * fields differs, nothing otherwise. */
  function SyncAction(event: Event, current: seq<Event>, key: string): Result<Option<Action>>
  {
    match Search(event, current, key)
    case Fail(e) => Fail(e)
    case Ok(None) => Ok(Some(Upload(event)))
    case Ok(Some(c)) =>
      if !Differs(event, c) then Ok(None)
      else if c.id.Some? then Ok(Some(Update(event, c.id.value)))
      else Fail(KeyError)
  }

  /** With lookups that cannot fail: an unmatched event is uploaded; a
    * matched one is updated, under the match's id, exactly when one of the
    * four fields differs; an event matched only through itself (the match
    * has no id) is left alone. */
  lemma SyncActionSpec(event: Event, current: seq<Event>, key: string)
    requires Keyed(event, key) && forall k :: 0 <= k < |current| ==> Keyed(current[k], key)
    ensures var k := FirstMatch(event, current, key);
      && (k == |current| ==> SyncAction(event, current, key) == Ok(Some(Upload(event))))
      && (k < |current| && current[k].id.Some? ==>
            SyncAction(event, current, key)
              == if Differs(event, current[k]) then Ok(Some(Update(event, current[k].id.value))) else Ok(None))
      && (k < |current| && current[k].id.None? ==> SyncAction(event, current, key) == Ok(None))
  {
    SearchSpec(event, current, key);
  }

  /** One more call of a loop: nothing changes after an exception. */
  function Then(o: Outcome, step: Result<Option<Action>>): Outcome
  {
    if o.result.Fail? then o
    else
      match step
      case Fail(e) => Outcome(o.actions, Fail(e))
      case Ok(None) => o
      case Ok(Some(a)) => Outcome(o.actions + [a], Ok(()))
  }

  /** The calls of `sync_future_games_to_calendar` for the site events. */
  function Synced(events: seq<Event>, current: seq<Event>, key: string): Outcome
    decreases |events|
  {
    if events == [] then Outcome([], Ok(()))
    else Then(Synced(events[..|events| - 1], current, key), SyncAction(events[|events| - 1], current, key))
  }

  /** With lookups that cannot fail the sync completes, with at most one
    * call per site event, and every site event that matches nothing is
    * uploaded. */
  lemma {:induction false} SyncedSpec(events: seq<Event>, current: seq<Event>, key: string)
    requires forall k :: 0 <= k < |events| ==> Keyed(events[k], key)
    requires forall k :: 0 <= k < |current| ==> Keyed(current[k], key)
    ensures Synced(events, current, key).result == Ok(())
    ensures |Synced(events, current, key).actions| <= |events|
    ensures forall i :: 0 <= i < |events| && FirstMatch(events[i], current, key) == |current| ==>
              Upload(events[i]) in Synced(events, current, key).actions
    decreases |events|
  {
    if events != [] {
      var init := events[..|events| - 1];
      var last := events[|events| - 1];
      SyncedSpec(init, current, key);
      SyncActionSpec(last, current, key);
      forall i | 0 <= i < |events| && FirstMatch(events[i], current, key) == |current|
        ensures Upload(events[i]) in Synced(events, current, key).actions
      {
        if i < |events| - 1 {
          assert events[i] == init[i];
        }
      }
    }
  }

  /** After an exception the remaining site events change nothing. */
  lemma {:induction false} SyncedStops(events: seq<Event>, current: seq<Event>, key: string, i: nat)
    requires i <= |events| && Synced(events[..i], current, key).result.Fail?
    ensures Synced(events, current, key) == Synced(events[..i], current, key)
    decreases |events|
  {
    if i < |events| {
      var init := events[..|events| - 1];
      assert init[..i] == events[..i];
      SyncedStops(init, current, key, i);
    } else {
      assert events[..i] == events;
    }
  }

  /** `sync_future_games_to_calendar`: the calls it makes for the site
    * events `events` against the calendar's `current` events. */
  method SyncFutureGames(events: seq<Event>, current: seq<Event>) returns (actions: seq<Action>, r: Result<()>)
    ensures Outcome(actions, r) == Synced(events, current, UrlKey)
  {
    actions, r := [], Ok(());
    for i := 0 to |events|
      invariant Outcome(actions, r) == Synced(events[..i], current, UrlKey) && r.Ok?
    {
      assert events[..i + 1][..i] == events[..i];
      var step := SyncAction(events[i], current, UrlKey);
      match step {
        case Fail(e) =>
          SyncedStops(events, current, UrlKey, i + 1);
          return actions, Fail(e);
        case Ok(None) =>
        case Ok(Some(a)) =>
          actions := actions + [a];
      }
    }
    assert events[..|events|] == events;
  }

  /** The call the cleanup makes for one calendar event: a delete, by the
    * event's id, when no site event matches it. */
  function DeleteAction(event: Event, siteEvents: seq<Event>, key: string): Result<Option<Action>>
  {
    match Search(event, siteEvents, key)
    case Fail(e) => Fail(e)
    case Ok(None) => if event.id.Some? then Ok(Some(Delete(event.id.value))) else Fail(KeyError)
    case Ok(Some(_)) => Ok(None)
  }

  /** With lookups that cannot fail, a calendar event with an id is
    * deleted exactly when no site event matches it. */
  lemma DeleteActionSpec(event: Event, siteEvents: seq<Event>, key: string)
    requires event.id.Some? && Keyed(event, key) && forall k :: 0 <= k < |siteEvents| ==> Keyed(siteEvents[k], key)
    ensures DeleteAction(event, siteEvents, key)
              == if FirstMatch(event, siteEvents, key) == |siteEvents| then Ok(Some(Delete(event.id.value))) else Ok(None)
  {
    SearchSpec(event, siteEvents, key);
  }

  /** The calls of `delete_unnecessary_events`. */
  function Deleted(calendarEvents: seq<Event>, siteEvents: seq<Event>): Outcome
    decreases |calendarEvents|
  {
    if calendarEvents == [] then Outcome([], Ok(()))
    else
      Then(Deleted(calendarEvents[..|calendarEvents| - 1], siteEvents),
           DeleteAction(calendarEvents[|calendarEvents| - 1], siteEvents, UrlKey))
  }

  /** After an exception the remaining calendar events change nothing. */
  lemma {:induction false} DeletedStops(calendarEvents: seq<Event>, siteEvents: seq<Event>, i: nat)
    requires i <= |calendarEvents| && Deleted(calendarEvents[..i], siteEvents).result.Fail?
    ensures Deleted(calendarEvents, siteEvents) == Deleted(calendarEvents[..i], siteEvents)
    decreases |calendarEvents|
  {
    if i < |calendarEvents| {
      var init := calendarEvents[..|calendarEvents| - 1];
      assert init[..i] == calendarEvents[..i];
      DeletedStops(init, siteEvents, i);
    } else {
      assert calendarEvents[..i] == calendarEvents;
    }
  }

  /** `delete_unnecessary_events`: every calendar event that no site event
    * matches is deleted. */
  method DeleteUnnecessaryEvents(siteEvents: seq<Event>, calendarEvents: seq<Event>)
    returns (actions: seq<Action>, r: Result<()>)
    ensures Outcome(actions, r) == Deleted(calendarEvents, siteEvents)
  {
    actions, r := [], Ok(());
    for i := 0 to |calendarEvents|
      invariant Outcome(actions, r) == Deleted(calendarEvents[..i], siteEvents) && r.Ok?
    {
      assert calendarEvents[..i + 1][..i] == calendarEvents[..i];
      var step := DeleteAction(calendarEvents[i], siteEvents, UrlKey);
      match step {
        case Fail(e) =>
          DeletedStops(calendarEvents, siteEvents, i + 1);
          return actions, Fail(e);
        case Ok(None) =>
        case Ok(Some(a)) =>
          actions := actions + [a];
      }
    }
    assert calendarEvents[..|calendarEvents|] == calendarEvents;
  }

  /** Only deletes come out of the cleanup, and with lookups that cannot
    * fail, every calendar event (with an id) that no site event matches is
    * deleted, and no matched one is. */
  lemma {:induction false} DeletedSpec(calendarEvents: seq<Event>, siteEvents: seq<Event>)
    requires forall k :: 0 <= k < |calendarEvents| ==> calendarEvents[k].id.Some? && Keyed(calendarEvents[k], UrlKey)
    requires forall k :: 0 <= k < |siteEvents| ==> Keyed(siteEvents[k], UrlKey)
    ensures Deleted(calendarEvents, siteEvents).result == Ok(())
    ensures forall i :: (0 <= i < |calendarEvents| && FirstMatch(calendarEvents[i], siteEvents, UrlKey) == |siteEvents|) ==>
              Delete(calendarEvents[i].id.value) in Deleted(calendarEvents, siteEvents).actions
    ensures forall a :: a in Deleted(calendarEvents, siteEvents).actions ==>
              exists i :: 0 <= i < |calendarEvents| && a == Delete(calendarEvents[i].id.value)
                && FirstMatch(calendarEvents[i], siteEvents, UrlKey) == |siteEvents|
  {
    DeletedComplete(calendarEvents, siteEvents);
    DeletedSound(calendarEvents, siteEvents);
  }

  lemma {:induction false} DeletedComplete(calendarEvents: seq<Event>, siteEvents: seq<Event>)
    requires forall k :: 0 <= k < |calendarEvents| ==> calendarEvents[k].id.Some? && Keyed(calendarEvents[k], UrlKey)
    requires forall k :: 0 <= k < |siteEvents| ==> Keyed(siteEvents[k], UrlKey)
    ensures Deleted(calendarEvents, siteEvents).result == Ok(())
    ensures forall i :: (0 <= i < |calendarEvents| && FirstMatch(calendarEvents[i], siteEvents, UrlKey) == |siteEvents|) ==>
              Delete(calendarEvents[i].id.value) in Deleted(calendarEvents, siteEvents).actions
    decreases |calendarEvents|
  {
    if calendarEvents != [] {
      var n := |calendarEvents| - 1;
      var init := calendarEvents[..n];
      DeletedComplete(init, siteEvents);
      DeleteActionSpec(calendarEvents[n], siteEvents, UrlKey);
      forall i | 0 <= i < n
        ensures calendarEvents[i] == init[i]
      {
      }
    }
  }

  lemma {:induction false} DeletedSound(calendarEvents: seq<Event>, siteEvents: seq<Event>)
    requires forall k :: 0 <= k < |calendarEvents| ==> calendarEvents[k].id.Some? && Keyed(calendarEvents[k], UrlKey)
    requires forall k :: 0 <= k < |siteEvents| ==> Keyed(siteEvents[k], UrlKey)
    ensures forall a :: a in Deleted(calendarEvents, siteEvents).actions ==>
              exists i :: 0 <= i < |calendarEvents| && a == Delete(calendarEvents[i].id.value)
                && FirstMatch(calendarEvents[i], siteEvents, UrlKey) == |siteEvents|
    decreases |calendarEvents|
  {
    if calendarEvents != [] {
      var n := |calendarEvents| - 1;
      var init := calendarEvents[..n];
      DeletedSound(init, siteEvents);
      DeleteActionSpec(calendarEvents[n], siteEvents, UrlKey);
      forall a | a in Deleted(calendarEvents, siteEvents).actions
        ensures exists i :: 0 <= i < |calendarEvents| && a == Delete(calendarEvents[i].id.value)
                  && FirstMatch(calendarEvents[i], siteEvents, UrlKey) == |siteEvents|
      {
        if a in Deleted(init, siteEvents).actions {
          var i :| 0 <= i < |init| && a == Delete(init[i].id.value)
                   && FirstMatch(init[i], siteEvents, UrlKey) == |siteEvents|;
          assert init[i] == calendarEvents[i];
        } else {
          assert a == Delete(calendarEvents[n].id.value);
        }
      }
    }
  }

  /** `update_last_game`: the first game of the season page and the first
    * calendar event from that game's start (IndexError when either list is
    * empty). The event is updated with the game only when both carry
    * extended properties, their urls are equal and the stored result is
    * empty. */
  function LastGameUpdate(siteGames: seq<Event>, calendarEvents: seq<Event>): (r: Result<Option<Action>>)
  {
    if |siteGames| == 0 || |calendarEvents| == 0 then Fail(IndexError)
    else
      var game, event := siteGames[0], calendarEvents[0];
      if game.extended.None? || event.extended.None? then Ok(None)
      else
        match SharedValue(game, UrlKey)
        case Fail(e) => Fail(e)
        case Ok(url) =>
          match SharedValue(event, UrlKey)
          case Fail(e) => Fail(e)
          case Ok(storedUrl) =>
            if url != storedUrl then Ok(None)
            else
              match SharedValue(event, ResultKey)
              case Fail(e) => Fail(e)
              case Ok(stored) =>
                if stored != "" then Ok(None)
                else if event.id.Some? then Ok(Some(Update(game, event.id.value)))
                else Fail(KeyError)
  }

  /** The last game is written to the calendar only over an event of the
    * same url whose result is still empty, and then under that event's
    * id. */
  lemma LastGameUpdateSpec(siteGames: seq<Event>, calendarEvents: seq<Event>)
    requires |siteGames| > 0 && |calendarEvents| > 0
    ensures var r := LastGameUpdate(siteGames, calendarEvents);
      var game, event := siteGames[0], calendarEvents[0];
      r.Ok? && r.value.Some? <==>
        && Matches(game, event, UrlKey)
        && SharedValue(event, ResultKey) == Ok("")
        && event.id.Some?
    ensures var r := LastGameUpdate(siteGames, calendarEvents);
      r.Ok? && r.value.Some? ==> r.value.value == Update(siteGames[0], calendarEvents[0].id.value)
  {
  }

  /** The season page of the club's site for season number `n`. */
  function SeasonLink(n: nat): string
  {
    SeasonLinkPrefix + NatToString(n) + "#content"
  }

  const SeasonLinkPrefix: string :=
    "https://www.maccabi-tlv.co.il/%d7%9e%d7%a9%d7%97%d7%a7%d7%99%d7%9d-%d7%95%d7%aa%d7%95%d7%a6%d7%90%d7%95%d7%aa/"
    + "%d7%94%d7%a7%d7%91%d7%95%d7%a6%d7%94-%d7%94%d7%91%d7%95%d7%92%d7%a8%d7%aa/%d7%aa%d7%95%d7%a6%d7%90%d7%95%d7%aa/"
    + "?season="

  /** The site's first season number, 2013/14. */
  const FirstSeasonNumber: nat := 74

  /** The text a season page shows while the season exists. */
  const LastGameMarker: string := "המשחק האחרון"

  /** How the log names season number `n`: "{n - 62}/{the last two digits
    * of n - 61}". */
  function SeasonLabel(n: nat): string
    requires n >= 62
  {
    NatToString(n - 62) + "/" + LastTwo(NatToString(n - 61))
  }

  /** The first season the site lists is logged as 12/13. */
  lemma FirstSeasonLabel()
    ensures SeasonLabel(FirstSeasonNumber) == "12/13"
  {
    assert NatToString(1) == "1";
    assert NatToString(12) == "1" + [DigitChar(2)] == "12";
    assert NatToString(13) == "1" + [DigitChar(3)] == "13";
  }

  /** The second part of a label is the last two digits of `n - 61`. */
  lemma SeasonLabelDigits(n: nat)
    requires n >= 71
    ensures SeasonLabel(n) == NatToString(n - 62) + "/" + [DigitChar((n - 61) / 10 % 10), DigitChar((n - 61) % 10)]
  {
    var m := n - 61;
    var s := NatToString(m);
    assert s == NatToString(m / 10) + [DigitChar(m % 10)];
    var t := NatToString(m / 10);
    assert t[|t| - 1] == DigitChar(m / 10 % 10);
    assert LastTwo(s) == [t[|t| - 1], DigitChar(m % 10)];
  }

  /** `build_maccabi_tlv_site_seasons_links`: the links of the seasons from
    * number 74 on, for as long as the page read for each (`pages[i]` for
    * season 74 + i) shows the last-game marker. */
  method SeasonsLinks(pages: seq<string>) returns (links: seq<string>)
    ensures |links| <= |pages|
    ensures forall i :: 0 <= i < |links| ==> links[i] == SeasonLink(FirstSeasonNumber + i)
    ensures forall i :: 0 <= i < |links| ==> Contains(pages[i], LastGameMarker)
    ensures |links| < |pages| ==> !Contains(pages[|links|], LastGameMarker)
  {
    links := [];
    var season := FirstSeasonNumber;
    while season - FirstSeasonNumber < |pages| && Contains(pages[season - FirstSeasonNumber], LastGameMarker)
      invariant season == FirstSeasonNumber + |links| && |links| <= |pages|
      invariant forall i :: 0 <= i < |links| ==> links[i] == SeasonLink(FirstSeasonNumber + i)
      invariant forall i :: 0 <= i < |links| ==> Contains(pages[i], LastGameMarker)
      decreases |pages| - |links|
    {
      links := links + [SeasonLink(season)];
      season := season + 1;
    }
  }
}
