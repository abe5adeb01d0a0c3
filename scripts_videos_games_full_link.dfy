/** scripts/videos/games_full_link.py: links to full games and to highlights,
  * listed by season and league fixture, added as a parameter of the page of
  * the football game played in that fixture. The wiki is a map from page
  * name to page text. */
module VideoLinks {
  import opened Wrappers
  import opened Strings
  import opened Collections
  import GamesBot

  const FullGameParam: string := "משחק מלא"
  const HighlightsParam: string := "תקציר וידאו"
  /** The parameter after which the new one is written. */
  const BroadcastField: string := "גוף שידור="
  const FixturePrefix: string := "מחזור "

  /** Where the season's text is cut: after its first four characters, or at
    * its end when it is shorter. */
  function SeasonCut(unformatted: string): nat
  {
    if |unformatted| < 4 then |unformatted| else 4
  }

  /** `unformatted_season[:4] + "/" + unformatted_season[4:]`. */
  function SeasonText(unformatted: string): (r: string)
    ensures |r| == |unformatted| + 1
  {
    var k := SeasonCut(unformatted);
    unformatted[..k] + "/" + unformatted[k..]
  }

  /** The season keeps its text around the inserted "/", so dropping that
    * character gives back the key of the links file. */
  lemma SeasonTextSpec(unformatted: string)
    ensures var k := SeasonCut(unformatted); var r := SeasonText(unformatted);
      r[k] == '/' && r[..k] + r[k + 1..] == unformatted
  {
    var k := SeasonCut(unformatted);
    var r := SeasonText(unformatted);
    assert r[..k] == unformatted[..k];
    assert r[k + 1..] == unformatted[k..];
    assert unformatted[..k] + unformatted[k..] == unformatted;
  }

  /** The key "YYYYyy" of a season of four-digit years reads "YYYY/yy". */
  lemma SeasonOfYears(first: string, second: string)
    requires |first| == 4
    ensures SeasonText(first + second) == first + "/" + second
  {
    var u := first + second;
    assert u[..4] == first;
    assert u[4..] == second;
  }

  /** A game of the season and the league fixture of the links file. */
  function Candidate<T, S>(unformatted: string, fixture: string): GamesBot.FootballGame<T, S> -> bool
  {
    (g: GamesBot.FootballGame<T, S>) => g.fixture == FixturePrefix + fixture && g.season == SeasonText(unformatted)
  }

  /** `find_game_by_season_and_fixture`: the one game of that season and
    * fixture; none, or more than one, is a RuntimeError. */
  function FindGame<T, S>(games: seq<GamesBot.FootballGame<T, S>>, unformatted: string, fixture: string): (r: Result<GamesBot.FootballGame<T, S>>)
  {
    Single(games, Candidate(unformatted, fixture))
  }

  /** The game at k is the only one of that season and fixture. */
  predicate OnlyMatchAt<T, S>(games: seq<GamesBot.FootballGame<T, S>>, unformatted: string, fixture: string, k: int)
  {
    && 0 <= k < |games| && Candidate(unformatted, fixture)(games[k])
    && forall j :: 0 <= j < |games| && j != k ==> !Candidate(unformatted, fixture)(games[j])
  }

  /** The games at i and k are both of that season and fixture. */
  predicate TwoMatchesAt<T, S>(games: seq<GamesBot.FootballGame<T, S>>, unformatted: string, fixture: string, i: int, k: int)
  {
    0 <= i < k < |games| && Candidate(unformatted, fixture)(games[i]) && Candidate(unformatted, fixture)(games[k])
  }

  /** The lookup returns the game at the one position whose fixture and
    * season match, and fails when no position or several positions match. */
  lemma FindGameSpec<T, S>(games: seq<GamesBot.FootballGame<T, S>>, unformatted: string, fixture: string)
    ensures FindGame(games, unformatted, fixture).Fail? ==> FindGame(games, unformatted, fixture).error == RuntimeError
    ensures FindGame(games, unformatted, fixture).Ok? ==>
      var g := FindGame(games, unformatted, fixture).value;
      g in games && g.fixture == FixturePrefix + fixture && g.season == SeasonText(unformatted)
    ensures (forall j :: 0 <= j < |games| ==> !Candidate(unformatted, fixture)(games[j]))
      ==> FindGame(games, unformatted, fixture) == Fail(RuntimeError)
    ensures forall k :: OnlyMatchAt(games, unformatted, fixture, k) ==> FindGame(games, unformatted, fixture) == Ok(games[k])
    ensures forall i, k :: TwoMatchesAt(games, unformatted, fixture, i, k) ==> FindGame(games, unformatted, fixture) == Fail(RuntimeError)
  {
    SingleSpec(games, Candidate(unformatted, fixture));
  }

  /** `f"{replace_me} {new_line_pipe} {add_me}"`. */
  function WithParam(param: string, value: string): string
  {
    BroadcastField + " | " + param + "=" + value
  }

  /** `add_param_to_game_page` on the page's text (None when the page does
    * not exist): a missing page, or a page that already has the parameter,
    * is a RuntimeError; otherwise every broadcaster field is followed by the
    * new parameter, and the new text is saved (Some) only when it holds a
    * link, else nothing is saved (None). */
  function AddParam(page: Option<string>, param: string, value: string): (r: Result<Option<string>>)
    ensures r.Fail? <==> page.None? || Contains(page.value, param + "=")
    ensures r.Fail? ==> r.error == RuntimeError
    ensures r.Ok? && r.value.Some? ==> Contains(r.value.value, "http")
  {
    match page
    case None => Fail(RuntimeError)
    case Some(text) =>
      if Contains(text, param + "=") then Fail(RuntimeError)
      else
        var rewritten := Replace(text, BroadcastField, WithParam(param, value));
        if Contains(rewritten, "http") then Ok(Some(rewritten)) else Ok(None)
  }

  /** A text without a broadcaster field is left as it is, so it is saved
    * only when it already holds a link. */
  lemma AddParamWithoutBroadcast(text: string, param: string, value: string)
    requires !Contains(text, BroadcastField) && !Contains(text, param + "=")
    ensures AddParam(Some(text), param, value) == if Contains(text, "http") then Ok(Some(text)) else Ok(None)
  {
    ReplaceAbsent(text, BroadcastField, WithParam(param, value));
  }

  /** The one broadcaster field of a text is followed by the new parameter,
    * and nothing else of the text changes. */
  lemma BroadcastInsert(before: string, after: string, param: string, value: string)
    requires forall k :: 0 <= k < |before| ==> !OccursAt(before + BroadcastField + after, BroadcastField, k)
    requires !Contains(after, BroadcastField)
    ensures Replace(before + BroadcastField + after, BroadcastField, WithParam(param, value))
      == before + WithParam(param, value) + after
  {
    var s := before + BroadcastField + after;
    var rep := WithParam(param, value);
    ReplaceSkipsPrefix(s, |before|, BroadcastField, rep);
    assert s[..|before|] == before;
    var t := s[|before|..];
    assert t == BroadcastField + after;
    assert t[..|BroadcastField|] == BroadcastField;
    assert t[|BroadcastField|..] == after;
    ReplaceAbsent(after, BroadcastField, rep);
  }

  /** A page with one broadcaster field is saved with the parameter right
    * after that field, and adding the parameter a second time fails. */
  lemma AddParamOnce(before: string, after: string, param: string, value: string)
    requires forall k :: 0 <= k < |before| ==> !OccursAt(before + BroadcastField + after, BroadcastField, k)
    requires !Contains(after, BroadcastField)
    requires !Contains(before + BroadcastField + after, param + "=")
    requires Contains(before + WithParam(param, value) + after, "http")
    ensures AddParam(Some(before + BroadcastField + after), param, value) == Ok(Some(before + WithParam(param, value) + after))
    ensures AddParam(Some(before + WithParam(param, value) + after), param, value) == Fail(RuntimeError)
  {
    BroadcastInsert(before, after, param, value);
    var w := WithParam(param, value);
    WithParamHasParam(param, value);
    ContainsWithin(before, w, after, param + "=");
  }

  /** One entry of the links file: its season key, its fixture key and the
    * link. */
  datatype LinkEntry = LinkEntry(season: string, fixture: string, link: string)

  predicate AllWellFormed<T, S>(games: seq<GamesBot.FootballGame<T, S>>)
  {
    forall k :: 0 <= k < |games| ==> GamesBot.WellFormed(games[k])
  }

  /** The body of the `try` of `main` for one entry: the game is looked up,
    * its page named, and the parameter added; any exception leaves the wiki
    * as it was (it is printed and the loop goes on). */
  function Uploaded<T, S>(wiki: map<string, string>, games: seq<GamesBot.FootballGame<T, S>>, e: LinkEntry, param: string): map<string, string>
    requires AllWellFormed(games)
  {
    match FindGame(games, e.season, e.fixture)
    case Fail(_) => wiki
    case Ok(g) =>
      assert GamesBot.WellFormed(g) by { FindGameSpec(games, e.season, e.fixture); }
      var name := GamesBot.PageName(g);
      var page := if name in wiki then Some(wiki[name]) else None;
      match AddParam(page, param, e.link)
      case Ok(Some(text)) => wiki[name := text]
      case _ => wiki
  }

  /** The wiki after the entries in order. */
  function UploadedAll<T, S>(wiki: map<string, string>, games: seq<GamesBot.FootballGame<T, S>>, entries: seq<LinkEntry>, param: string): map<string, string>
    requires AllWellFormed(games)
    decreases |entries|
  {
    if entries == [] then wiki
    else Uploaded(UploadedAll(wiki, games, entries[..|entries| - 1], param), games, entries[|entries| - 1], param)
  }

  /** What the upload keeps: no page is created, and every page whose text
    * changed now holds a link and the parameter. */
  predicate OnlyLinked(before: map<string, string>, after: map<string, string>, param: string)
  {
    && after.Keys == before.Keys
    && forall name :: name in after && after[name] != before[name] ==>
         Contains(after[name], "http") && Contains(after[name], param + "=")
  }

  /** One entry writes only the page of its game, and only a linked text
    * holding the parameter. */
  lemma UploadedSpec<T, S>(wiki: map<string, string>, games: seq<GamesBot.FootballGame<T, S>>, e: LinkEntry, param: string)
    requires AllWellFormed(games)
    ensures OnlyLinked(wiki, Uploaded(wiki, games, e, param), param)
  {
    var after := Uploaded(wiki, games, e, param);
    var found := FindGame(games, e.season, e.fixture);
    if found.Ok? {
      FindGameSpec(games, e.season, e.fixture);
      var name := GamesBot.PageName(found.value);
      var page := if name in wiki then Some(wiki[name]) else None;
      var r := AddParam(page, param, e.link);
      if r.Ok? && r.value.Some? {
        var text := r.value.value;
        assert text == Replace(wiki[name], BroadcastField, WithParam(param, e.link));
        if text != wiki[name] {
          ReplacedHasParam(wiki[name], param, e.link);
        }
      }
    }
  }

  /** A rewrite that changed the text wrote the parameter into it. */
  lemma ReplacedHasParam(text: string, param: string, value: string)
    requires Replace(text, BroadcastField, WithParam(param, value)) != text
    ensures Contains(Replace(text, BroadcastField, WithParam(param, value)), param + "=")
  {
    var w := WithParam(param, value);
    if !Contains(text, BroadcastField) {
      ReplaceAbsent(text, BroadcastField, w);
    } else {
      var i := Find(text, BroadcastField);
      ReplaceSkipsPrefix(text, i, BroadcastField, w);
      var rest := ReplacedFromField(text[i..], w);
      WithParamHasParam(param, value);
      ContainsWithin(text[..i], w, rest, param + "=");
    }
  }

  /** A text that starts with the broadcaster field is rewritten to the new
    * field and the rest of it rewritten. */
  lemma ReplacedFromField(t: string, w: string) returns (rest: string)
    requires StartsWith(t, BroadcastField)
    ensures Replace(t, BroadcastField, w) == w + rest
  {
    assert t[..|BroadcastField|] == BroadcastField;
    rest := Replace(t[|BroadcastField|..], BroadcastField, w);
  }

  lemma WithParamHasParam(param: string, value: string)
    ensures Contains(WithParam(param, value), param + "=")
  {
    var w := WithParam(param, value);
    var n := |BroadcastField + " | "|;
    assert w == (BroadcastField + " | ") + (param + "=") + value;
    assert w[n..n + |param + "="|] == param + "=";
    ContainsAt(w, param + "=", n);
  }

  /** The property holds across any number of entries. */
  lemma {:induction false} UploadedAllSpec<T, S>(wiki: map<string, string>, games: seq<GamesBot.FootballGame<T, S>>, entries: seq<LinkEntry>, param: string)
    requires AllWellFormed(games)
    ensures OnlyLinked(wiki, UploadedAll(wiki, games, entries, param), param)
    decreases |entries|
  {
    if entries != [] {
      var mid := UploadedAll(wiki, games, entries[..|entries| - 1], param);
      UploadedAllSpec(wiki, games, entries[..|entries| - 1], param);
      UploadedSpec(mid, games, entries[|entries| - 1], param);
    }
  }

  /** One of the two loops of `main`: every entry of the links file in
    * order. */
  method UploadLinks<T, S>(wiki: map<string, string>, games: seq<GamesBot.FootballGame<T, S>>, entries: seq<LinkEntry>, param: string)
    returns (r: map<string, string>)
    requires AllWellFormed(games)
    ensures r == UploadedAll(wiki, games, entries, param)
  {
    r := wiki;
    for i := 0 to |entries|
      invariant r == UploadedAll(wiki, games, entries[..i], param)
    {
      assert entries[..i + 1][..i] == entries[..i];
      r := Uploaded(r, games, entries[i], param);
    }
    assert entries[..|entries|] == entries;
  }

  /** `main`: the full-game links, then the highlights links, both switched
    * on. */
  method UploadVideoLinks<T, S>(wiki: map<string, string>, games: seq<GamesBot.FootballGame<T, S>>, fullGames: seq<LinkEntry>, highlights: seq<LinkEntry>)
    returns (r: map<string, string>)
    requires AllWellFormed(games)
    ensures r == UploadedAll(UploadedAll(wiki, games, fullGames, FullGameParam), games, highlights, HighlightsParam)
  {
    r := UploadLinks(wiki, games, fullGames, FullGameParam);
    r := UploadLinks(r, games, highlights, HighlightsParam);
  }
}
