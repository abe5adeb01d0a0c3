/** add_main_walla_sport_game_review.py: Walla sport's review link and
  * kick-off hour for each league fixture, written into the football game
  * page of the game played in that fixture. */
module WallaGameReview {
  import opened Wrappers
  import opened Strings
  import opened WikiTemplate
  import opened Collections

  const GamesTemplateName: string := "קטלוג משחקים"
  const ReviewPrefix: string := "כתבה"
  const KitName: string := "מדים"
  const PlayersEventsName: string := "אירועי שחקנים"
  const GameHourName: string := "שעת המשחק"
  /** Review parameters are numbered 1 up to and including this. */
  const LastReviewNumber: nat := 99

  /** What Walla has for one fixture: a review url and a kick-off hour,
    * either of which may be empty. */
  datatype GameInformation = GameInformation(review: string, hour: string)

  /** `'כתבה{index}'`. */
  function ReviewParamName(i: nat): string
  {
    ReviewPrefix + NatToString(i)
  }

  /** The first review number from `from` on that the template lacks;
    * RuntimeError when every one up to the last is taken. */
  function NextReviewFrom(ps: seq<Param>, from: nat): Result<string>
    requires 1 <= from <= LastReviewNumber + 1
    decreases LastReviewNumber + 1 - from
  {
    if from == LastReviewNumber + 1 then Fail(RuntimeError)
    else if !HasParam(ps, ReviewParamName(from)) then Ok(ReviewParamName(from))
    else NextReviewFrom(ps, from + 1)
  }

  /** `find_next_game_review_param`. */
  function NextReviewParam(ps: seq<Param>): Result<string>
  {
    NextReviewFrom(ps, 1)
  }

  /** Review number `i` is already in the template. */
  predicate Taken(ps: seq<Param>, i: nat)
  {
    HasParam(ps, ReviewParamName(i))
  }

  /** The search finds the smallest free number, and fails exactly when all
    * of them are taken. */
  lemma NextReviewFromSpec(ps: seq<Param>, from: nat)
    requires 1 <= from <= LastReviewNumber + 1
    ensures var r := NextReviewFrom(ps, from);
      && (r.Fail? <==> forall i :: from <= i <= LastReviewNumber ==> Taken(ps, i))
      && (r.Fail? ==> r.error == RuntimeError)
      && (r.Ok? ==> exists i :: from <= i <= LastReviewNumber && r.value == ReviewParamName(i)
                      && !Taken(ps, i)
                      && forall j :: from <= j < i ==> Taken(ps, j))
  {
    NextReviewFails(ps, from);
    NextReviewFound(ps, from);
  }

  lemma {:induction false} NextReviewFails(ps: seq<Param>, from: nat)
    requires 1 <= from <= LastReviewNumber + 1
    ensures var r := NextReviewFrom(ps, from);
      && (r.Fail? <==> forall i :: from <= i <= LastReviewNumber ==> Taken(ps, i))
      && (r.Fail? ==> r.error == RuntimeError)
    decreases LastReviewNumber + 1 - from
  {
    if from <= LastReviewNumber {
      if Taken(ps, from) {
        NextReviewFails(ps, from + 1);
        assert NextReviewFrom(ps, from) == NextReviewFrom(ps, from + 1);
        assert (forall i :: from <= i <= LastReviewNumber ==> Taken(ps, i))
           <==> (forall i :: from + 1 <= i <= LastReviewNumber ==> Taken(ps, i));
      } else {
        assert NextReviewFrom(ps, from).Ok?;
      }
    }
  }

  lemma {:induction false} NextReviewFound(ps: seq<Param>, from: nat)
    requires 1 <= from <= LastReviewNumber + 1
    ensures var r := NextReviewFrom(ps, from);
      r.Ok? ==> exists i :: from <= i <= LastReviewNumber && r.value == ReviewParamName(i)
                  && !Taken(ps, i)
                  && forall j :: from <= j < i ==> Taken(ps, j)
    decreases LastReviewNumber + 1 - from
  {
    if from <= LastReviewNumber && Taken(ps, from) {
      NextReviewFound(ps, from + 1);
      var r := NextReviewFrom(ps, from + 1);
      if r.Ok? {
        var i :| from + 1 <= i <= LastReviewNumber && r.value == ReviewParamName(i)
                 && !Taken(ps, i)
                 && forall j :: from + 1 <= j < i ==> Taken(ps, j);
        assert forall j :: from <= j < i ==> Taken(ps, j);
      }
    } else if from <= LastReviewNumber {
      assert !Taken(ps, from);
    }
  }

  /** `find_next_game_review_param` as the loop over 1..99 it is. */
  method FindNextReviewParam(t: Template) returns (r: Result<string>)
    ensures r == NextReviewParam(t.params)
  {
    var index := 1;
    while index < LastReviewNumber + 1
      invariant 1 <= index <= LastReviewNumber + 1
      invariant NextReviewFrom(t.params, index) == NextReviewParam(t.params)
      decreases LastReviewNumber + 1 - index
    {
      var current := ReviewParamName(index);
      if !t.Has(current) {
        return Ok(current);
      }
      index := index + 1;
    }
    r := Fail(RuntimeError);
  }

  /** The review as a wiki external link. */
  function ReviewLink(url: string): string
  {
    "[" + url + " סיקור המשחק בWalla sport]"
  }

  /** The anchor the review goes before: the kit when present, otherwise
    * the players events. */
  function ReviewAnchor(ps: seq<Param>): string
  {
    if HasParam(ps, KitName) then KitName else PlayersEventsName
  }

  /** The review step: nothing to do for an empty review or one already in
    * the template's text; otherwise the link under the next free review
    * number, before the anchor. */
  function WithReview(name: string, ps: seq<Param>, review: string): Result<seq<Param>>
  {
    if review == "" || Contains(Render(name, ps), review) then Ok(ps)
    else
      match NextReviewParam(ps)
      case Fail(e) => Fail(e)
      case Ok(n) => AddedBefore(ps, n, ReviewLink(review), ReviewAnchor(ps))
  }

  lemma ReviewLinkContains(url: string)
    ensures Contains(ReviewLink(url), url)
  {
    assert ReviewLink(url)[1..1 + |url|] == url;
    ContainsAt(ReviewLink(url), url, 1);
  }

  /** An occurrence inside an occurrence is an occurrence. */
  lemma OccursWithin(a: string, b: string, c: string, i: int, j: int)
    requires OccursAt(b, a, i) && OccursAt(c, b, j)
    ensures OccursAt(c, a, j + i)
  {
    forall k | 0 <= k < |a| ensures c[j + i + k] == a[k] {
      assert c[j..j + |b|][i + k] == b[i + k];
      assert b[i..i + |a|][k] == a[k];
    }
    assert c[j + i..j + i + |a|] == a;
  }

  /** `a in b` and `b in c` give `a in c`. */
  lemma ContainsTrans(a: string, b: string, c: string)
    requires Contains(b, a) && Contains(c, b)
    ensures Contains(c, a)
  {
    var i := Find(b, a);
    var j := Find(c, b);
    assert OccursAt(b, a, i) && OccursAt(c, b, j);
    OccursWithin(a, b, c, i, j);
    ContainsAt(c, a, j + i);
  }

  /** A review that is added goes in as a new parameter with the next free
    * number and the link as its value, just before the kit or, without a
    * kit, the players events, every other parameter keeping its place; it
    * fails when all review numbers are taken or neither anchor exists. */
  lemma WithReviewSpec(name: string, ps: seq<Param>, review: string)
    ensures review == "" || Contains(Render(name, ps), review) ==> WithReview(name, ps, review) == Ok(ps)
    ensures review != "" && !Contains(Render(name, ps), review) ==>
      var next := NextReviewParam(ps);
      var r := WithReview(name, ps, review);
      && (next.Fail? ==> r == Fail(RuntimeError))
      && (next.Ok? ==>
           && (r.Ok? <==> HasParam(ps, KitName) || HasParam(ps, PlayersEventsName))
           && (r.Fail? ==> r.error == ValueError)
           && (r.Ok? ==>
                var j := AnchorIndex(ps, ReviewAnchor(ps));
                && |r.value| == |ps| + 1
                && r.value[j] == Param(next.value, ReviewLink(review))
                && r.value[j + 1] == ps[j]
                && r.value[..j] + r.value[j + 1..] == ps))
  {
    NextReviewFromSpec(ps, 1);
    var next := NextReviewParam(ps);
    if next.Ok? {
      AddedBeforeShape(ps, next.value, ReviewLink(review), ReviewAnchor(ps));
    }
  }

  /** Once added, the review is in the template's text, so a second run
    * leaves the template as it is. */
  lemma WithReviewOnce(name: string, ps: seq<Param>, review: string)
    requires WithReview(name, ps, review).Ok?
    ensures var ps1 := WithReview(name, ps, review).value;
      WithReview(name, ps1, review) == Ok(ps1)
  {
    var ps1 := WithReview(name, ps, review).value;
    if review != "" && !Contains(Render(name, ps), review) {
      WithReviewSpec(name, ps, review);
      var j := AnchorIndex(ps, ReviewAnchor(ps));
      RenderContainsValue(name, ps1, j);
      ReviewLinkContains(review);
      ContainsTrans(review, ReviewLink(review), Render(name, ps1));
    }
  }

  /** Positions 0..n-1, to filter parameters by position. */
  function Positions(n: nat): (r: seq<nat>)
    ensures |r| == n && forall k :: 0 <= k < n ==> r[k] == k
  {
    seq(n, k requires 0 <= k < n => k)
  }

  /** The game hour parameter, found by its name exactly as written (not
    * stripped). */
  function IsGameHourAt(ps: seq<Param>): nat -> bool
  {
    (k: nat) => k < |ps| && ps[k].name == GameHourName
  }

  /** The position of the one game hour parameter; RuntimeError when there
    * is none or more than one. */
  function HourIndex(ps: seq<Param>): Result<nat>
  {
    Single(Positions(|ps|), IsGameHourAt(ps))
  }

  /** The hour step: nothing for an empty hour; otherwise the one game hour
    * parameter gets the hour and a newline when its value is empty or
    * "0" (an unknown hour), and keeps any other value. */
  function WithHour(ps: seq<Param>, hour: string): Result<seq<Param>>
  {
    if hour == "" then Ok(ps)
    else
      match HourIndex(ps)
      case Fail(e) => Fail(e)
      case Ok(k) =>
        if k < |ps| && (ps[k].value == "" || Trim(ps[k].value) == "0")
        then Ok(ps[k := ps[k].(value := hour + "\n")])
        else Ok(ps)
  }

  /** Exactly one parameter named as the game hour is required; its value
    * changes to the new hour only when it held no known hour, and nothing
    * else changes. */
  lemma WithHourSpec(ps: seq<Param>, hour: string)
    requires hour != ""
    ensures (forall j :: 0 <= j < |ps| ==> ps[j].name != GameHourName) ==> WithHour(ps, hour) == Fail(RuntimeError)
    ensures forall i, j :: (0 <= i < j < |ps| && ps[i].name == GameHourName && ps[j].name == GameHourName
                            ==> WithHour(ps, hour) == Fail(RuntimeError))
    ensures forall k :: (0 <= k < |ps| && ps[k].name == GameHourName
                         && (forall j :: 0 <= j < |ps| && j != k ==> ps[j].name != GameHourName)
      ==> WithHour(ps, hour).Ok?
          && var r := WithHour(ps, hour).value;
          && |r| == |ps|
          && (forall j :: 0 <= j < |ps| && j != k ==> r[j] == ps[j])
          && r[k].name == ps[k].name
          && (ps[k].value == "" || Trim(ps[k].value) == "0" ==> r[k].value == hour + "\n")
          && (ps[k].value != "" && Trim(ps[k].value) != "0" ==> r[k].value == ps[k].value))
  {
    var pos := Positions(|ps|);
    var p := IsGameHourAt(ps);
    SingleSpec(pos, p);
    assert forall j :: 0 <= j < |ps| ==> (p(pos[j]) <==> ps[j].name == GameHourName);
  }

  /** `add_hour_and_game_review_to_game_page` on one game template: the
    * review step, then the hour step. */
  function ReviewAndHour(name: string, ps: seq<Param>, info: GameInformation): Result<seq<Param>>
  {
    match WithReview(name, ps, info.review)
    case Fail(e) => Fail(e)
    case Ok(ps1) => WithHour(ps1, info.hour)
  }

  /** Empty information leaves the template alone, and a page the bot has
    * completed is not changed by running it again. */
  lemma ReviewAndHourAgain(name: string, ps: seq<Param>, info: GameInformation)
    ensures ReviewAndHour(name, ps, GameInformation("", "")) == Ok(ps)
    ensures info.hour == "" && ReviewAndHour(name, ps, info).Ok? ==>
      var ps1 := ReviewAndHour(name, ps, info).value;
      ReviewAndHour(name, ps1, info) == Ok(ps1)
  {
    if info.hour == "" && ReviewAndHour(name, ps, info).Ok? {
      WithReviewOnce(name, ps, info.review);
    }
  }

  /** The edit of one game page: the first game template gets the review
    * and the hour; a page without one is left alone. */
  method AddHourAndGameReview(ts: seq<Template>, info: GameInformation) returns (r: Result<bool>)
    modifies set t | t in ts
    ensures var i := FirstNamed(old(TemplateNames(ts)), GamesTemplateName);
      && (i < 0 ==> r == Ok(false))
      && (i >= 0 ==>
           var spec := ReviewAndHour(old(ts[i].name), old(ts[i].params), info);
           && ts[i].name == old(ts[i].name)
           && (spec.Ok? ==> r == Ok(true) && ts[i].params == spec.value)
           && (spec.Fail? ==> r == Fail(spec.error)))
      && forall t :: t in ts && (i < 0 || t != ts[i]) ==> t.name == old(t.name) && t.params == old(t.params)
  {
    var i := FirstNamed(TemplateNames(ts), GamesTemplateName);
    if i < 0 {
      return Ok(false);
    }
    var done := EditGameTemplate(ts[i], info);
    r := if done.Ok? then Ok(true) else Fail(done.error);
  }

  /** The two steps in place on the game template. */
  method EditGameTemplate(t: Template, info: GameInformation) returns (r: Result<()>)
    modifies t
    ensures t.name == old(t.name)
    ensures var spec := ReviewAndHour(old(t.name), old(t.params), info);
      && (spec.Ok? ==> r == Ok(()) && t.params == spec.value)
      && (spec.Fail? ==> r == Fail(spec.error))
  {
    if info.review != "" {
      if !t.ContainsText(info.review) {
        var next := FindNextReviewParam(t);
        if next.Fail? {
          return Fail(next.error);
        }
        var anchor := if t.Has(KitName) then KitName else PlayersEventsName;
        var added := t.AddBefore(next.value, ReviewLink(info.review), anchor);
        if added.Fail? {
          return Fail(added.error);
        }
      }
    }
    if info.hour != "" {
      var k := HourIndex(t.params);
      if k.Fail? {
        return Fail(k.error);
      }
      if k.value < |t.params| && (t.params[k.value].value == "" || Trim(t.params[k.value].value) == "0") {
        t.SetValue(k.value, info.hour + "\n");
      }
    }
    r := Ok(());
  }

  /** The games whose pages are edited for a season's fixtures, in fixture
    * order, and whether the run got through them all: each fixture needs
    * exactly one game played in it, and the first that does not stops the
    * run with a RuntimeError. */
  function Handled<G>(fixtures: seq<int>, games: seq<G>, fixtureOf: G -> int): (seq<G>, bool)
  {
    if |fixtures| == 0 then ([], true)
    else
      var before := Handled(fixtures[..|fixtures| - 1], games, fixtureOf);
      if !before.1 then before
      else
        match Single(games, g => fixtureOf(g) == fixtures[|fixtures| - 1])
        case Fail(_) => (before.0, false)
        case Ok(g) => (before.0 + [g], true)
  }

  /** A completed run edits one page per fixture, that of the game played
    * in it; a stopped run has edited the pages of the fixtures before the
    * one that stopped it. */
  lemma {:induction false} HandledSpec<G>(fixtures: seq<int>, games: seq<G>, fixtureOf: G -> int)
    ensures var h := Handled(fixtures, games, fixtureOf);
      && |h.0| <= |fixtures|
      && (forall k :: 0 <= k < |h.0| ==> fixtureOf(h.0[k]) == fixtures[k]
                                           && Single(games, g => fixtureOf(g) == fixtures[k]) == Ok(h.0[k]))
      && (h.1 <==> |h.0| == |fixtures|)
      && (!h.1 ==> Single(games, g => fixtureOf(g) == fixtures[|h.0|]).Fail?)
  {
    if |fixtures| > 0 {
      var init := fixtures[..|fixtures| - 1];
      HandledSpec(init, games, fixtureOf);
      assert forall k :: 0 <= k < |init| ==> init[k] == fixtures[k];
    }
  }

  /** `add_one_season_walla_data_to_maccabipedia` without the page edits:
    * the loop that picks the game of each fixture, stopping at the first
    * fixture that does not name exactly one game. */
  method AddOneSeason<G>(fixtures: seq<int>, games: seq<G>, fixtureOf: G -> int) returns (edited: seq<G>, completed: bool)
    ensures (edited, completed) == Handled(fixtures, games, fixtureOf)
  {
    edited := [];
    var i := 0;
    while i < |fixtures|
      invariant 0 <= i <= |fixtures|
      invariant Handled(fixtures[..i], games, fixtureOf) == (edited, true)
    {
      var current := Single(games, g => fixtureOf(g) == fixtures[i]);
      assert fixtures[..i + 1][..i] == fixtures[..i];
      if current.Fail? {
        HandledStops(fixtures, games, fixtureOf, i + 1);
        return edited, false;
      }
      edited := edited + [current.value];
      i := i + 1;
    }
    assert fixtures[..i] == fixtures;
    completed := true;
  }

  /** Once the run has stopped, later fixtures change nothing. */
  lemma {:induction false} HandledStops<G>(fixtures: seq<int>, games: seq<G>, fixtureOf: G -> int, n: nat)
    requires n <= |fixtures| && !Handled(fixtures[..n], games, fixtureOf).1
    ensures Handled(fixtures, games, fixtureOf) == Handled(fixtures[..n], games, fixtureOf)
    decreases |fixtures| - n
  {
    if n < |fixtures| {
      assert fixtures[..n + 1][..n] == fixtures[..n];
      HandledStops(fixtures, games, fixtureOf, n + 1);
    } else {
      assert fixtures[..n] == fixtures;
    }
  }
}
