/** src/maccabipediabot/volleyball_players_events.py: a volleyball game
  * template's squad list and game summary, both free text with one player
  * per line, merged into one players parameter of "name::number::score"
  * records. */
module VolleyballPlayersEvents {
  import opened Wrappers
  import opened Strings
  import opened WikiTemplate

  const GamesTemplateName: string := "משחק כדורעף"
  const SquadName: string := "סגל מכבי"
  const SummaryName: string := "סיכום משחק"
  const PlayersName: string := "שחקנים מכבי"
  const LinkPrefix: string := "[[כדורעף:"
  const NoNumber: string := "ללא-מספר"
  const NoScore: string := "ללא-נקודות"
  const LineBreak: string := "{{ש}}"
  const PointsMark: string := "נק'"
  const PointsWord: string := "נק"
  const RecordsSeparator: string := "\n,"

  /** One player of the game; a missing number or score is None. */
  datatype PlayerData = PlayerData(name: string, score: Option<string>, shirtNumber: Option<string>)

  /** `str(player)`: "name::number::score" with a placeholder for what is missing. */
  function PlayerText(p: PlayerData): string
  {
    var number := if p.shirtNumber.None? then NoNumber else p.shirtNumber.value;
    var score := if p.score.None? then NoScore else p.score.value;
    p.name + "::" + number + "::" + score
  }

  /** What one line of a list gives: nothing, a (name, value) entry, or the
    * ValueError of a two-way unpacking that found another number of parts. */
  datatype RowOutcome = Skip | Entry(name: string, value: string) | Invalid

  /** `player_row.strip('')` strips nothing; then the line-break template goes. */
  function CleanRow(row: string): string
  {
    Replace(Strip(row, {}), LineBreak, "")
  }

  /** The player name inside a volleyball player link, or `otherwise`. */
  function LinkedName(row: string, otherwise: string): string
  {
    if Contains(row, LinkPrefix) then Split(Split(row, LinkPrefix)[1], "|")[0] else otherwise
  }

  /** One line of the squad list: skipped when blank or when it is the
    * parameter's own first line; the number is what comes before the one
    * '.', and a line without '.' has no number. */
  function NumberRow(raw: string): RowOutcome
  {
    var row := CleanRow(raw);
    if IsBlank(row) || Contains(row, SquadName) then Skip
    else if Contains(row, ".") then
      var parts := Split(row, ".");
      if |parts| != 2 then Invalid
      else
        var rest := Trim(parts[1]);
        Entry(LinkedName(rest, rest), parts[0])
    else Entry(LinkedName(row, row), NoNumber)
  }

  /** One line of the game summary: only lines with "נק'" count; the score
    * is what comes after the one '-', up to "נק", stripped. */
  function ScoreRow(raw: string): RowOutcome
  {
    var row := CleanRow(raw);
    if IsBlank(row) || Contains(row, SummaryName) || !Contains(row, PointsMark) then Skip
    else if Contains(row, "-") then
      var parts := Split(row, "-");
      if |parts| != 2 then Invalid
      else
        var rest := Trim(parts[0]);
        Entry(LinkedName(rest, Trim(Replace(rest, "#", ""))), Trim(Split(parts[1], PointsWord)[0]))
    else Entry(LinkedName(row, Trim(Replace(row, "#", ""))), NoScore)
  }

  /** The dictionary the row loop fills: a later line overwrites an earlier
    * one for the same name, and an invalid line stops with ValueError. */
  function Collected(rows: seq<string>, f: string -> RowOutcome): Result<map<string, string>>
  {
    if |rows| == 0 then Ok(map[])
    else
      match Collected(rows[..|rows| - 1], f)
      case Fail(e) => Fail(e)
      case Ok(m) =>
        match f(rows[|rows| - 1])
        case Skip => Ok(m)
        case Invalid => Fail(ValueError)
        case Entry(name, value) => Ok(m[name := value])
  }

  /** The collection fails exactly when some line is invalid; otherwise
    * its names are those of the entries, each with the value of the last
    * line naming it. */
  lemma CollectedSpec(rows: seq<string>, f: string -> RowOutcome)
    ensures var r := Collected(rows, f);
      && (r.Fail? <==> exists k :: 0 <= k < |rows| && f(rows[k]).Invalid?)
      && (r.Fail? ==> r.error == ValueError)
      && (r.Ok? ==>
           && (forall k :: 0 <= k < |rows| && f(rows[k]).Entry? ==> f(rows[k]).name in r.value)
           && (forall name :: name in r.value ==>
                 exists k :: 0 <= k < |rows| && f(rows[k]) == Entry(name, r.value[name])
                   && forall j :: k < j < |rows| ==> !(f(rows[j]).Entry? && f(rows[j]).name == name)))
  {
    CollectedFails(rows, f);
    CollectedCovers(rows, f);
    CollectedLastWins(rows, f);
  }

  lemma {:induction false} CollectedFails(rows: seq<string>, f: string -> RowOutcome)
    ensures var r := Collected(rows, f);
      && (r.Fail? <==> exists k :: 0 <= k < |rows| && f(rows[k]).Invalid?)
      && (r.Fail? ==> r.error == ValueError)
  {
    if |rows| > 0 {
      var init := rows[..|rows| - 1];
      CollectedFails(init, f);
      assert forall k :: 0 <= k < |init| ==> init[k] == rows[k];
    }
  }

  lemma {:induction false} CollectedCovers(rows: seq<string>, f: string -> RowOutcome)
    ensures var r := Collected(rows, f);
      r.Ok? ==> forall k :: 0 <= k < |rows| && f(rows[k]).Entry? ==> f(rows[k]).name in r.value
  {
    if |rows| > 0 {
      var init := rows[..|rows| - 1];
      CollectedCovers(init, f);
      assert forall k :: 0 <= k < |init| ==> init[k] == rows[k];
    }
  }

  /** Line k is the last one naming `name`, and it gives `value`. */
  predicate LastEntryAt(rows: seq<string>, f: string -> RowOutcome, name: string, value: string, k: int)
  {
    && 0 <= k < |rows| && f(rows[k]) == Entry(name, value)
    && forall j :: k < j < |rows| ==> !(f(rows[j]).Entry? && f(rows[j]).name == name)
  }

  lemma {:induction false} CollectedLastWins(rows: seq<string>, f: string -> RowOutcome)
    ensures var r := Collected(rows, f);
      r.Ok? ==> forall name :: name in r.value ==> exists k :: LastEntryAt(rows, f, name, r.value[name], k)
  {
    if |rows| > 0 {
      var init, last := rows[..|rows| - 1], rows[|rows| - 1];
      CollectedLastWins(init, f);
      var r := Collected(rows, f);
      if r.Ok? {
        var m := Collected(init, f).value;
        forall name | name in r.value ensures exists k :: LastEntryAt(rows, f, name, r.value[name], k) {
          if f(last).Entry? && f(last).name == name {
            assert LastEntryAt(rows, f, name, r.value[name], |rows| - 1);
          } else {
            var k :| LastEntryAt(init, f, name, m[name], k);
            LastEntryExtends(init, last, f, name, m[name], k);
            assert init + [last] == rows;
          }
        }
      }
    }
  }

  /** A line that does not name `name` keeps the last line naming it. */
  lemma LastEntryExtends(init: seq<string>, last: string, f: string -> RowOutcome, name: string, value: string, k: int)
    requires LastEntryAt(init, f, name, value, k) && !(f(last).Entry? && f(last).name == name)
    ensures LastEntryAt(init + [last], f, name, value, k)
  {
    var rows := init + [last];
    forall j | k < j < |rows| ensures !(f(rows[j]).Entry? && f(rows[j]).name == name) {
      if j < |init| {
        assert rows[j] == init[j];
      }
    }
  }

  /** The text lines of a parameter as `str(param).split('\n')` gives
    * them: the first starts with the parameter's name and "=". */
  function ParamRows(p: Param): seq<string>
  {
    Split(p.name + "=" + p.value, "\n")
  }

  /** `extract_players_shirt_numbers` / `extract_players_scores`: an empty
    * dictionary when the parameter is missing. */
  function Extracted(ps: seq<Param>, name: string, f: string -> RowOutcome): Result<map<string, string>>
  {
    match GetParam(ps, name)
    case Fail(_) => Ok(map[])
    case Ok(p) => Collected(ParamRows(p), f)
  }

  /** The row loop of both extractors, filling the dictionary line by line. */
  method ExtractRows(t: Template, name: string, f: string -> RowOutcome) returns (r: Result<map<string, string>>)
    ensures r == Extracted(t.params, name, f)
  {
    if !t.Has(name) {
      return Ok(map[]);
    }
    var rows := ParamRows(GetParam(t.params, name).value);
    var found: map<string, string> := map[];
    var i := 0;
    while i < |rows|
      invariant 0 <= i <= |rows|
      invariant Collected(rows[..i], f) == Ok(found)
    {
      assert rows[..i + 1][..i] == rows[..i];
      match f(rows[i]) {
        case Skip =>
        case Invalid =>
          CollectedStops(rows, f, i + 1);
          return Fail(ValueError);
        case Entry(n, v) =>
          found := found[n := v];
      }
      i := i + 1;
    }
    assert rows[..i] == rows;
    r := Ok(found);
  }

  /** An invalid line ends the collection whatever follows. */
  lemma {:induction false} CollectedStops(rows: seq<string>, f: string -> RowOutcome, n: nat)
    requires n <= |rows| && Collected(rows[..n], f).Fail?
    ensures Collected(rows, f) == Fail(ValueError)
    decreases |rows| - n
  {
    CollectedSpec(rows[..n], f);
    if n < |rows| {
      assert rows[..n + 1][..n] == rows[..n];
      CollectedStops(rows, f, n + 1);
    } else {
      assert rows[..n] == rows;
    }
  }

  /** `build_players_data`: one record per name of either dictionary, in
    * the order the name set is enumerated (`order`), with None for a
    * missing number or score. */
  function PlayersData(numbers: map<string, string>, scores: map<string, string>, order: seq<string>): (r: seq<PlayerData>)
    ensures |r| == |order|
  {
    seq(|order|, k requires 0 <= k < |order| =>
      PlayerData(order[k],
                 if order[k] in scores then Some(scores[order[k]]) else None,
                 if order[k] in numbers then Some(numbers[order[k]]) else None))
  }

  /** When `order` lists the set of names once each, there is exactly one
    * record per player, carrying that player's number and score. */
  lemma PlayersDataSpec(numbers: map<string, string>, scores: map<string, string>, order: seq<string>)
    requires forall i, j :: 0 <= i < j < |order| ==> order[i] != order[j]
    requires forall n :: n in order <==> n in numbers || n in scores
    ensures var r := PlayersData(numbers, scores, order);
      && (forall n :: (n in numbers || n in scores) <==> exists k :: 0 <= k < |r| && r[k].name == n)
      && (forall i, j :: 0 <= i < j < |r| ==> r[i].name != r[j].name)
      && (forall k :: 0 <= k < |r| ==>
            && (r[k].name in numbers <==> r[k].shirtNumber.Some?)
            && (r[k].shirtNumber.Some? ==> r[k].shirtNumber.value == numbers[r[k].name])
            && (r[k].name in scores <==> r[k].score.Some?)
            && (r[k].score.Some? ==> r[k].score.value == scores[r[k].name]))
  {
    var r := PlayersData(numbers, scores, order);
    forall n | n in numbers || n in scores ensures exists k :: 0 <= k < |r| && r[k].name == n {
      var k :| 0 <= k < |order| && order[k] == n;
      assert r[k].name == n;
    }
  }

  /** The players parameter's value: the records joined by "\n,". */
  function PlayersText(records: seq<PlayerData>): string
  {
    Join(Serialised(records, PlayerText), RecordsSeparator)
  }

  /** `build_players_events` on the game template's parameters, with the
    * enumeration order of Python's name set as `order`: both lists are
    * read (either may raise), then a template without the squad list is
    * left alone; otherwise the squad list goes and the players parameter
    * gets the records. */
  function PlayersEventsEdit(ps: seq<Param>, order: set<string> -> seq<string>): Result<seq<Param>>
  {
    match Extracted(ps, SquadName, NumberRow)
    case Fail(e) => Fail(e)
    case Ok(numbers) =>
      match Extracted(ps, SummaryName, ScoreRow)
      case Fail(e) => Fail(e)
      case Ok(scores) =>
        if !HasParam(ps, SquadName) then Ok(ps)
        else
          var names := numbers.Keys + scores.Keys;
          Ok(Added(Removed(ps, SquadName), PlayersName, PlayersText(PlayersData(numbers, scores, order(names)))))
  }

  lemma NamesDiffer()
    ensures SquadName != PlayersName && SquadName != SummaryName && PlayersName != SummaryName
    ensures Trim(PlayersName) == PlayersName
  {
    assert SquadName[0] != PlayersName[0] && |SquadName| != |SummaryName|;
    assert |PlayersName| != |SummaryName|;
    TrimUnchanged(PlayersName);
  }

  /** After the edit the squad list is gone and the players parameter holds
    * the records; every other parameter is as it was. Without a squad list
    * nothing changes. */
  lemma PlayersEventsEditSpec(ps: seq<Param>, order: set<string> -> seq<string>)
    requires PlayersEventsEdit(ps, order).Ok?
    ensures var r := PlayersEventsEdit(ps, order).value;
      && (!HasParam(ps, SquadName) ==> r == ps)
      && (HasParam(ps, SquadName) ==>
           var numbers := Extracted(ps, SquadName, NumberRow).value;
           var scores := Extracted(ps, SummaryName, ScoreRow).value;
           && !HasParam(r, SquadName)
           && HasParam(r, PlayersName)
           && ValueOf(r, PlayersName) == PlayersText(PlayersData(numbers, scores, order(numbers.Keys + scores.Keys)))
           && forall other :: other != SquadName && other != PlayersName ==>
                GetParam(r, other) == GetParam(ps, other))
  {
    NamesDiffer();
    if HasParam(ps, SquadName) {
      var removed := Removed(ps, SquadName);
      RemovedLacks(ps, SquadName);
      var r := PlayersEventsEdit(ps, order).value;
      var v := ValueOf(r, PlayersName);
      var numbers := Extracted(ps, SquadName, NumberRow).value;
      var scores := Extracted(ps, SummaryName, ScoreRow).value;
      var text := PlayersText(PlayersData(numbers, scores, order(numbers.Keys + scores.Keys)));
      AddedHasValue(removed, PlayersName, text);
      forall other | other != SquadName && other != PlayersName ensures GetParam(r, other) == GetParam(ps, other) {
        GetParamRemoved(ps, SquadName, other);
        GetParamAdded(removed, PlayersName, text, other);
      }
    }
  }

  /** A second run leaves the template as the first left it. */
  lemma PlayersEventsEditOnce(ps: seq<Param>, order: set<string> -> seq<string>)
    requires PlayersEventsEdit(ps, order).Ok?
    ensures var r := PlayersEventsEdit(ps, order).value;
      PlayersEventsEdit(r, order) == Ok(r)
  {
    NamesDiffer();
    PlayersEventsEditSpec(ps, order);
    var r := PlayersEventsEdit(ps, order).value;
    if HasParam(ps, SquadName) {
      assert GetParam(r, SummaryName) == GetParam(ps, SummaryName);
      assert Extracted(r, SquadName, NumberRow) == Ok(map[]);
      assert Extracted(r, SummaryName, ScoreRow) == Extracted(ps, SummaryName, ScoreRow);
    }
  }

  /** The edit of one page: only the first volleyball game template is
    * touched; a page without one is left alone. */
  method BuildPlayersEvents(ts: seq<Template>, order: set<string> -> seq<string>) returns (r: Result<bool>)
    modifies set t | t in ts
    ensures var i := FirstNamed(old(TemplateNames(ts)), GamesTemplateName);
      && (i < 0 ==> r == Ok(false))
      && (i >= 0 ==>
           var spec := PlayersEventsEdit(old(ts[i].params), order);
           && ts[i].name == old(ts[i].name)
           && (spec.Ok? ==> r == Ok(true) && ts[i].params == spec.value)
           && (spec.Fail? ==> r == Fail(spec.error) && ts[i].params == old(ts[i].params)))
      && forall t :: t in ts && (i < 0 || t != ts[i]) ==> t.name == old(t.name) && t.params == old(t.params)
  {
    var i := FirstNamed(TemplateNames(ts), GamesTemplateName);
    if i < 0 {
      return Ok(false);
    }
    var done := EditTemplate(ts[i], order);
    r := if done.Ok? then Ok(true) else Fail(done.error);
  }

  method EditTemplate(t: Template, order: set<string> -> seq<string>) returns (r: Result<()>)
    modifies t
    ensures t.name == old(t.name)
    ensures var spec := PlayersEventsEdit(old(t.params), order);
      && (spec.Ok? ==> r == Ok(()) && t.params == spec.value)
      && (spec.Fail? ==> r == Fail(spec.error) && t.params == old(t.params))
  {
    var numbers := ExtractRows(t, SquadName, NumberRow);
    if numbers.Fail? {
      return Fail(numbers.error);
    }
    var scores := ExtractRows(t, SummaryName, ScoreRow);
    if scores.Fail? {
      return Fail(scores.error);
    }
    if !t.Has(SquadName) {
      return Ok(());
    }
    var removed := t.Remove(SquadName);
    var names := numbers.value.Keys + scores.value.Keys;
    t.Add(PlayersName, PlayersText(PlayersData(numbers.value, scores.value, order(names))));
    r := Ok(());
  }
}
