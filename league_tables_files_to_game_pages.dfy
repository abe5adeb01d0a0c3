/** league_tables_files_to_game_pages.py: a league-table scan whose file
  * name gives a season and a fixture is linked from the football game page
  * of the game played in that fixture. */
module LeagueTablesToGamePages {
  import opened Wrappers
  import opened Strings
  import opened WikiTemplate
  import opened Collections
  import opened GamesBot

  const LeagueTableArgumentName: string := "טבלת ליגה"
  const SeasonWord: string := "עונת"
  const FixtureWord: string := "מחזור"
  const Beitar: string := "ביתר"
  const BeitarQuoted: string := "בית\"ר"

  /** The word after the first word equal to `target`, up to its first
    * '.'; RuntimeError when no word is `target`, IndexError when it is the
    * last word. */
  function WordAfter(text: string, target: string): Result<string>
  {
    WordAfterFrom(Words(text), target, 0)
  }

  function WordAfterFrom(words: seq<string>, target: string, from: nat): Result<string>
    requires from <= |words|
    decreases |words| - from
  {
    if from == |words| then Fail(RuntimeError)
    else if words[from] == target then
      (if from + 1 < |words| then Ok(Split(words[from + 1], ".")[0]) else Fail(IndexError))
    else WordAfterFrom(words, target, from + 1)
  }

  /** `words[k]` is the first word from `from` on that is `target`. */
  predicate FirstMatch(words: seq<string>, target: string, from: nat, k: int)
  {
    from <= k < |words| && words[k] == target && forall j :: from <= j < k ==> words[j] != target
  }

  /** The search answers from the first matching word: the word after it,
    * cut at '.', or IndexError when there is none; RuntimeError when no
    * word matches. */
  lemma WordAfterFromSpec(words: seq<string>, target: string, from: nat)
    requires from <= |words|
    ensures var r := WordAfterFrom(words, target, from);
      && ((forall k :: from <= k < |words| ==> words[k] != target) <==> r == Fail(RuntimeError))
      && forall k :: FirstMatch(words, target, from, k) ==>
                      r == (if k + 1 < |words| then Ok(Split(words[k + 1], ".")[0]) else Fail(IndexError))
  {
    WordAfterFromNone(words, target, from);
    forall k | FirstMatch(words, target, from, k)
      ensures WordAfterFrom(words, target, from)
              == (if k + 1 < |words| then Ok(Split(words[k + 1], ".")[0]) else Fail(IndexError))
    {
      WordAfterFromFirst(words, target, from, k);
    }
  }

  /** RuntimeError exactly when no word from `from` on is `target`. */
  lemma {:induction false} WordAfterFromNone(words: seq<string>, target: string, from: nat)
    requires from <= |words|
    ensures (forall k :: from <= k < |words| ==> words[k] != target)
            <==> WordAfterFrom(words, target, from) == Fail(RuntimeError)
    decreases |words| - from
  {
    if from < |words| {
      WordAfterFromNone(words, target, from + 1);
    }
  }

  /** The first word equal to `target` decides the answer. */
  lemma {:induction false} WordAfterFromFirst(words: seq<string>, target: string, from: nat, k: nat)
    requires FirstMatch(words, target, from, k)
    ensures WordAfterFrom(words, target, from)
            == (if k + 1 < |words| then Ok(Split(words[k + 1], ".")[0]) else Fail(IndexError))
    decreases k - from
  {
    if from < k {
      WordAfterFromFirst(words, target, from + 1, k);
    }
  }

  /** `_get_word_after` as the enumerate loop it is. */
  method GetWordAfter(text: string, target: string) returns (r: Result<string>)
    ensures r == WordAfter(text, target)
  {
    var words := Words(text);
    var index := 0;
    while index < |words|
      invariant 0 <= index <= |words|
      invariant WordAfterFrom(words, target, index) == WordAfter(text, target)
    {
      if words[index] == target {
        if index + 1 < |words| {
          return Ok(Split(words[index + 1], ".")[0]);
        }
        return Fail(IndexError);
      }
      index := index + 1;
    }
    r := Fail(RuntimeError);
  }

  /** The page name with "ביתר" spelt "בית"ר". */
  function BeitarFixed(name: string): string
  {
    Replace(name, Beitar, BeitarQuoted)
  }

  /** `generate_page_name_from_game` of this bot. */
  function GamePageName<T, S>(g: FootballGame<T, S>): string
    requires WellFormed(g)
  {
    BeitarFixed(PageName(g))
  }

  /** The spelling fix keeps the first character, since both spellings
    * start with 'ב'. */
  lemma ReplacedHead(w: string)
    ensures |w| > 0 ==> |BeitarFixed(w)| > 0 && BeitarFixed(w)[0] == w[0]
  {
  }

  /** The fix gives a text starting with "תר" only from one that did. */
  lemma ReplacedStartsTav(w: string)
    ensures StartsWith(BeitarFixed(w), "תר") ==> StartsWith(w, "תר")
  {
    var out := BeitarFixed(w);
    if StartsWith(out, "תר") && |w| >= |Beitar| {
      ReplacedHead(w);
      assert w[..|Beitar|] != Beitar;
      assert out == [w[0]] + BeitarFixed(w[1..]);
      ReplacedHead(w[1..]);
      assert w[..2] == [w[0], w[1]];
    }
  }

  /** The fix gives a text starting with "יתר" only from one that did. */
  lemma ReplacedStartsYod(w: string)
    ensures StartsWith(BeitarFixed(w), "יתר") ==> StartsWith(w, "יתר")
  {
    var out := BeitarFixed(w);
    if StartsWith(out, "יתר") && |w| >= |Beitar| {
      ReplacedHead(w);
      assert w[..|Beitar|] != Beitar;
      assert out == [w[0]] + BeitarFixed(w[1..]);
      assert BeitarFixed(w[1..])[..2] == out[1..3];
      ReplacedStartsTav(w[1..]);
      assert w[..3] == [w[0]] + w[1..][..2];
    }
  }

  /** Putting "בית"ר" in front of a text without "ביתר" makes none. */
  lemma QuotedInFront(x: string)
    requires !Contains(x, Beitar)
    ensures !Contains(BeitarQuoted + x, Beitar)
  {
    var out := BeitarQuoted + x;
    forall p | 0 <= p < |BeitarQuoted|
      ensures !OccursAt(out, Beitar, p)
    {
      assert out[p] == BeitarQuoted[p];
      assert out[3] == '"';
      if p + |Beitar| <= |out| {
        assert out[p..p + |Beitar|][0] == out[p];
        assert out[p..p + |Beitar|][3] == out[p + 3];
      }
    }
    if Contains(out, Beitar) {
      var p := Find(out, Beitar);
      if p >= |BeitarQuoted| {
        assert out[p..p + |Beitar|] == x[p - |BeitarQuoted|..p - |BeitarQuoted| + |Beitar|];
        ContainsAt(x, Beitar, p - |BeitarQuoted|);
      }
    }
  }

  /** A character in front of a fixed text makes a "ביתר" only when the
    * unfixed text started with "יתר" after it. */
  lemma CharInFront(c: char, w: string)
    requires !Contains(BeitarFixed(w), Beitar)
    requires !StartsWith([c] + w, Beitar)
    ensures !Contains([c] + BeitarFixed(w), Beitar)
  {
    var x := BeitarFixed(w);
    var out := [c] + x;
    if Contains(out, Beitar) {
      var p := Find(out, Beitar);
      if p >= 1 {
        assert out[p..p + |Beitar|] == x[p - 1..p - 1 + |Beitar|];
        ContainsAt(x, Beitar, p - 1);
      } else {
        assert x[..3] == out[1..4];
        ReplacedStartsYod(w);
      }
    }
  }

  /** No "ביתר" is left after the replacement. */
  lemma {:induction false} BeitarGone(s: string)
    ensures !Contains(BeitarFixed(s), Beitar)
    decreases |s|
  {
    if |s| >= |Beitar| && s[..|Beitar|] == Beitar {
      BeitarGone(s[|Beitar|..]);
      QuotedInFront(BeitarFixed(s[|Beitar|..]));
    } else if |s| >= |Beitar| {
      BeitarGone(s[1..]);
      assert s == [s[0]] + s[1..];
      CharInFront(s[0], s[1..]);
    } else {
      assert BeitarFixed(s) == s;
    }
  }

  /** The spelling fix is idempotent. */
  lemma BeitarFixedIdempotent(s: string)
    ensures BeitarFixed(BeitarFixed(s)) == BeitarFixed(s)
  {
    BeitarGone(s);
    ReplaceAbsent(BeitarFixed(s), Beitar, BeitarQuoted);
  }

  /** The season and fixture a league-table file name gives: the word
    * after "עונת" with '-' as '/', and "מחזור " with the word after
    * "מחזור". */
  function SeasonAndFixture(title: string): Result<(string, string)>
  {
    match WordAfter(title, SeasonWord)
    case Fail(e) => Fail(e)
    case Ok(season) =>
      match WordAfter(title, FixtureWord)
      case Fail(e) => Fail(e)
      case Ok(fixture) => Ok((Replace(season, "-", "/"), FixtureWord + " " + fixture))
  }

  /** `extract_game_page_from_league_table_file`: the name of the page of
    * the one game of that season played in that fixture; RuntimeError
    * unless there is exactly one. The season's games come from the
    * statistics library, here `bySeason`. */
  function GamePageOfFile<T, S>(title: string, bySeason: string -> seq<FootballGame<T, S>>): Result<string>
    requires forall season, k :: 0 <= k < |bySeason(season)| ==> WellFormed(bySeason(season)[k])
  {
    match SeasonAndFixture(title)
    case Fail(e) => Fail(e)
    case Ok(sf) =>
      var games := bySeason(sf.0);
      match Single(games, (g: FootballGame<T, S>) => g.fixture == sf.1)
      case Fail(e) => Fail(e)
      case Ok(g) =>
        assert WellFormed(g);
        Ok(GamePageName(g))
  }

  /** The page found is that of the one game in the file's fixture. */
  lemma GamePageOfFileSpec<T, S>(title: string, bySeason: string -> seq<FootballGame<T, S>>, k: nat)
    requires forall season, j :: 0 <= j < |bySeason(season)| ==> WellFormed(bySeason(season)[j])
    requires SeasonAndFixture(title).Ok?
    ensures var sf := SeasonAndFixture(title).value;
      var games := bySeason(sf.0);
      k < |games| && games[k].fixture == sf.1 && (forall j :: 0 <= j < |games| && j != k ==> games[j].fixture != sf.1)
      ==> GamePageOfFile(title, bySeason) == Ok(GamePageName(games[k]))
  {
    var sf := SeasonAndFixture(title).value;
    var games := bySeason(sf.0);
    SingleSpec(games, (g: FootballGame<T, S>) => g.fixture == sf.1);
  }

  /** The table argument is written when the template text lacks its
    * name, or when the parameter is there but blank; otherwise nothing is
    * changed. When the name is in the text but is not a parameter, `get`
    * raises ValueError. */
  function WithLeagueTable(name: string, ps: seq<Param>, fileTitle: string): Result<seq<Param>>
  {
    if !Contains(Render(name, ps), LeagueTableArgumentName) then Ok(Added(ps, LeagueTableArgumentName, fileTitle))
    else if !HasParam(ps, LeagueTableArgumentName) then Fail(ValueError)
    else if IsBlank(ValueOf(ps, LeagueTableArgumentName)) then Ok(Added(ps, LeagueTableArgumentName, fileTitle))
    else Ok(ps)
  }

  /** A non-blank table argument is never overwritten, a written one holds
    * the file's title, and no other parameter changes. */
  lemma WithLeagueTableSpec(name: string, ps: seq<Param>, fileTitle: string)
    ensures var r := WithLeagueTable(name, ps, fileTitle);
      && (r.Fail? ==> r.error == ValueError && !HasParam(ps, LeagueTableArgumentName))
      && (HasParam(ps, LeagueTableArgumentName) && !IsBlank(ValueOf(ps, LeagueTableArgumentName)) ==> r == Ok(ps))
      && (r.Ok? && r.value != ps ==>
            HasParam(r.value, LeagueTableArgumentName) && ValueOf(r.value, LeagueTableArgumentName) == fileTitle)
      && (r.Ok? ==> forall other :: other != LeagueTableArgumentName ==> GetParam(r.value, other) == GetParam(ps, other))
  {
    TrimUnchanged(LeagueTableArgumentName);
    if HasParam(ps, LeagueTableArgumentName) {
      var j := LastIndexOf(ps, LeagueTableArgumentName);
      assert Key(ps[j]) == LeagueTableArgumentName;
      KeyInRender(name, ps, j);
    }
    AddedHasValue(ps, LeagueTableArgumentName, fileTitle);
    forall other | other != LeagueTableArgumentName
      ensures GetParam(Added(ps, LeagueTableArgumentName, fileTitle), other) == GetParam(ps, other)
    {
      GetParamAdded(ps, LeagueTableArgumentName, fileTitle, other);
    }
  }

  /** `make_sure_league_table_file_is_on_game_page` once the game page is
    * known: a missing page is a RuntimeError; otherwise the page's first
    * template, of whatever name, gets the table, since the template name is
    * passed positionally where the parser expects `recursive` (IndexError on
    * a page without templates). */
  method MakeSureLeagueTableOnPage(pageExists: bool, ts: seq<Template>, fileTitle: string) returns (r: Result<()>)
    modifies set t | t in ts
    ensures !pageExists ==> r == Fail(RuntimeError)
    ensures var i := FirstTemplateAsWritten(old(TemplateNames(ts)), FootballGamesTemplateName);
      pageExists ==>
      && (i.Fail? ==> r == Fail(IndexError))
      && (i.Ok? ==>
           var spec := WithLeagueTable(old(ts[i.value].name), old(ts[i.value].params), fileTitle);
           && ts[i.value].name == old(ts[i.value].name)
           && (spec.Ok? ==> r == Ok(()) && ts[i.value].params == spec.value)
           && (spec.Fail? ==> r == Fail(spec.error)))
    ensures var i := FirstTemplateAsWritten(old(TemplateNames(ts)), FootballGamesTemplateName);
      forall t :: t in ts && (!pageExists || i.Fail? || t != ts[i.value]) ==>
        t.name == old(t.name) && t.params == old(t.params)
  {
    if !pageExists {
      return Fail(RuntimeError);
    }
    var i := FirstTemplateAsWritten(TemplateNames(ts), FootballGamesTemplateName);
    if i.Fail? {
      return Fail(i.error);
    }
    r := AddLeagueTable(ts[i.value], fileTitle);
  }

  method AddLeagueTable(t: Template, fileTitle: string) returns (r: Result<()>)
    modifies t
    ensures t.name == old(t.name)
    ensures var spec := WithLeagueTable(old(t.name), old(t.params), fileTitle);
      && (spec.Ok? ==> r == Ok(()) && t.params == spec.value)
      && (spec.Fail? ==> r == Fail(spec.error))
  {
    var absent := !t.ContainsText(LeagueTableArgumentName);
    var blank := false;
    if !absent {
      if !t.Has(LeagueTableArgumentName) {
        return Fail(ValueError);
      }
      blank := IsBlank(ValueOf(t.params, LeagueTableArgumentName));
    }
    if absent || blank {
      t.Add(LeagueTableArgumentName, fileTitle);
    }
    r := Ok(());
  }
}
