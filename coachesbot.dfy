/** coachesbot.py: a profile page for every head coach maccabistats knows.
  * A new page gets a profile template with the coach's full name and the
  * role "מאמן"; an existing page is updated only when it looks created by
  * the bot. The page title is the coach's name itself. */
module CoachesBot {
  import opened Wrappers
  import opened Strings
  import opened WikiTemplate
  import opened StableSort
  import GamesBot

  const ProfileTemplateName: string := "תבנית:פרופיל"
  const FullName: string := "שם מלא"
  const SquadRole: string := "תפקיד מקצועי"
  const CoachRole: string := "מאמן"
  /** Text whose presence in a parameter marks a player's profile. */
  const PlayerMarker: string := "שחקן מכבי"

  // ----- The coach list -----

  /** The code points of a string: Python orders strings by these,
    * lexicographically. */
  function CodePoints(s: string): (r: seq<int>)
    ensures |r| == |s| && forall i :: 0 <= i < |s| ==> r[i] == s[i] as int
  {
    seq(|s|, i requires 0 <= i < |s| => s[i] as int)
  }

  /** `get_players_to_add()[1:]`: the coaches sorted by name, without the
    * first, which is the placeholder for an unknown coach. */
  function CoachesToAdd(coaches: seq<string>): seq<string>
  {
    var sorted := SortBy(coaches, CodePoints);
    if |sorted| == 0 then [] else sorted[1..]
  }

  /** Dropping the head of a sorted permutation keeps it sorted and leaves
    * every element but one smallest. */
  lemma DropSmallest(s: seq<string>, sorted: seq<string>)
    requires |s| > 0 && SortedBy(sorted, CodePoints) && multiset(sorted) == multiset(s)
    ensures |sorted| == |s|
    ensures SortedBy(sorted[1..], CodePoints)
    ensures multiset(sorted[1..]) + multiset{sorted[0]} == multiset(s)
    ensures forall c :: c in s ==> LexLe(CodePoints(sorted[0]), CodePoints(c))
  {
    assert |multiset(sorted)| == |sorted| && |multiset(s)| == |s|;
    assert sorted == [sorted[0]] + sorted[1..];
    forall c | c in s ensures LexLe(CodePoints(sorted[0]), CodePoints(c)) {
      assert c in multiset(sorted);
      var j :| 0 <= j < |sorted| && sorted[j] == c;
      if j == 0 {
        LexLeReflexive(CodePoints(c));
      }
    }
  }

  /** The list is sorted, one shorter than the coaches, and holds every
    * coach but one smallest name. */
  lemma CoachesToAddSpec(coaches: seq<string>)
    ensures var r := CoachesToAdd(coaches);
      && |r| == (if |coaches| == 0 then 0 else |coaches| - 1)
      && SortedBy(r, CodePoints)
    ensures |coaches| > 0 ==>
      var first := SortBy(coaches, CodePoints)[0];
      && multiset(CoachesToAdd(coaches)) + multiset{first} == multiset(coaches)
      && forall c :: c in coaches ==> LexLe(CodePoints(first), CodePoints(c))
  {
    var sorted := SortBy(coaches, CodePoints);
    SortBySorted(coaches, CodePoints);
    SortByPermutes(coaches, CodePoints);
    if |coaches| > 0 {
      DropSmallest(coaches, sorted);
    }
  }

  // ----- The template -----

  /** `__get_football_player_template`: the full name, then the role. */
  function Arguments(name: string): seq<(string, string)>
  {
    [(FullName, name), (SquadRole, CoachRole)]
  }

  /** The arguments are exactly the name and the coach role, under two
    * different names without surrounding whitespace. */
  lemma ArgumentsSpec(name: string)
    ensures |Arguments(name)| == 2
    ensures GamesBot.DistinctNames(Arguments(name)) && GamesBot.StrippedNames(Arguments(name))
    ensures GamesBot.ArgumentValue(Arguments(name), FullName) == Some(name)
    ensures GamesBot.ArgumentValue(Arguments(name), SquadRole) == Some(CoachRole)
    ensures forall k :: k != FullName && k != SquadRole ==> GamesBot.ArgumentValue(Arguments(name), k) == None
  {
    TrimUnchanged(FullName);
    TrimUnchanged(SquadRole);
    assert FullName[0] != SquadRole[0];
    var args := Arguments(name);
    assert args[..1] == [(FullName, name)];
    assert args[..1][..0] == [];
    forall k | k != FullName && k != SquadRole ensures GamesBot.ArgumentValue(args, k) == None {
      assert GamesBot.ArgumentValue(args, k) == GamesBot.ArgumentValue(args[..1], k);
      assert GamesBot.ArgumentValue(args[..1], k) == GamesBot.ArgumentValue(args[..1][..0], k);
    }
  }

  /** A new profile holds the name and then the role. */
  lemma NewProfileSpec(name: string)
    ensures GamesBot.AddedAll([], Arguments(name)) == [Param(FullName, name), Param(SquadRole, CoachRole)]
  {
    ArgumentsSpec(name);
    GamesBot.AddedAllAppends([], Arguments(name));
  }

  /** Some parameter's text mentions a Maccabi player. */
  function MentionsPlayer(ps: seq<Param>): (r: bool)
    ensures r <==> exists i :: 0 <= i < |ps| && Contains(ParamText(ps[i]), PlayerMarker)
  {
    if |ps| == 0 then false
    else if Contains(ParamText(ps[|ps| - 1]), PlayerMarker) then true
    else
      var r := MentionsPlayer(ps[..|ps| - 1]);
      assert forall i :: 0 <= i < |ps| - 1 ==> ps[..|ps| - 1][i] == ps[i];
      r
  }

  /** `page_was_probably_created_with_bot` on the profile's parameters:
    * never a player's profile, and then exactly the two parameters the bot
    * writes. */
  predicate ProbablyBotCreated(ps: seq<Param>)
  {
    !MentionsPlayer(ps) && |ps| == 2
  }

  /** The bot's own profile for a coach counts as created by the bot
    * unless its name text mentions a player, and a profile with other than
    * two parameters never does. */
  lemma ProbablyBotCreatedSpec(name: string, ps: seq<Param>)
    ensures ProbablyBotCreated(GamesBot.AddedAll([], Arguments(name))) <==> !Contains(FullName + "=" + name, PlayerMarker)
    ensures |ps| != 2 ==> !ProbablyBotCreated(ps)
  {
    NewProfileSpec(name);
    var ps' := GamesBot.AddedAll([], Arguments(name));
    assert ParamText(ps'[0]) == FullName + "=" + name;
    assert ParamText(ps'[1]) == SquadRole + "=" + CoachRole;
    RoleNotPlayer();
  }

  /** The role parameter's text does not mention a player. */
  lemma RoleNotPlayer()
    ensures !Contains(SquadRole + "=" + CoachRole, PlayerMarker)
  {
    var text := SquadRole + "=" + CoachRole;
    assert PlayerMarker[0] !in text by {
      assert forall i :: 0 <= i < |text| ==> text[i] != PlayerMarker[0];
    }
    AbsentByFirstChar(text, PlayerMarker);
  }

  /** The merge of `handle_existing_page` on a profile succeeds exactly
    * when it has both names; then with diffs shown it holds the coach's
    * name and role, and without them it is unchanged. */
  lemma MergeCoach(ps: seq<Param>, name: string, showDiff: bool)
    ensures var m := GamesBot.Merged(ps, Arguments(name), showDiff);
      && (m.result == Ok(()) <==> HasParam(ps, FullName) && HasParam(ps, SquadRole))
      && (m.result.Fail? ==> m.result.error == ValueError)
      && (m.result.Ok? && showDiff ==> ValueOf(m.params, FullName) == name && ValueOf(m.params, SquadRole) == CoachRole)
      && (m.result.Ok? && !showDiff ==> m.params == ps)
  {
    ArgumentsSpec(name);
    var args := Arguments(name);
    var m := GamesBot.Merged(ps, args, showDiff);
    if HasParam(ps, FullName) && HasParam(ps, SquadRole) {
      GamesBot.MergedResult(ps, args, showDiff);
    } else if HasParam(ps, FullName) {
      var next := if name != ValueOf(ps, FullName) && showDiff then Added(ps, FullName, name) else ps;
      if next != ps {
        AddedOthers(ps, FullName, name, SquadRole);
      }
      assert args[1..] == [(SquadRole, CoachRole)];
      assert m == GamesBot.Merged(next, [(SquadRole, CoachRole)], showDiff);
    }
  }

  // ----- One coach -----

  /** `handle_new_page`: a fresh profile template with the arguments added
    * in order. */
  method HandleNewPage(name: string) returns (t: Template)
    ensures fresh(t)
    ensures t.name == ProfileTemplateName
    ensures t.params == GamesBot.AddedAll([], Arguments(name))
  {
    var args := Arguments(name);
    t := new Template(ProfileTemplateName, []);
    for i := 0 to |args|
      invariant t.name == ProfileTemplateName
      invariant GamesBot.AddedAll([], args) == GamesBot.AddedAll(t.params, args[i..])
    {
      assert args[i..][0] == args[i] && args[i..][1..] == args[i + 1..];
      t.Add(args[i].0, args[i].1);
    }
  }

  /** `create_or_update_player_page` for a coach, with the page's existence
    * and its templates given. The result is whether the page is saved, or
    * the exception that stops the bot. A new page holds a fresh profile and
    * is saved when saving is on. On an existing page the page's first
    * template, of whatever name, is read: the template name is passed
    * positionally where the parser expects `recursive` (IndexError on a
    * page without templates); a page that does not look
    * created by the bot is never saved; otherwise the profile is merged
    * with the arguments (ValueError when a name is missing) and saved when
    * saving is on. */
  method CreateOrUpdatePlayerPage(pageExists: bool, ts: seq<Template>, name: string, showDiff: bool, shouldSave: bool)
    returns (r: Result<bool>, page: seq<Template>)
    modifies set t | t in ts
    ensures !pageExists ==>
      && r == Ok(shouldSave) && |page| == 1 && fresh(page[0])
      && page[0].name == ProfileTemplateName && page[0].params == GamesBot.AddedAll([], Arguments(name))
    ensures pageExists ==> page == ts
    ensures var i := FirstTemplateAsWritten(old(TemplateNames(ts)), ProfileTemplateName);
      pageExists ==>
      && (i.Fail? ==> r == Fail(IndexError))
      && (i.Ok? && !ProbablyBotCreated(old(ts[i.value].params)) ==> r == Ok(false))
      && (i.Ok? && ProbablyBotCreated(old(ts[i.value].params)) ==>
           var m := GamesBot.Merged(old(ts[i.value].params), Arguments(name), showDiff);
           && ts[i.value].name == old(ts[i.value].name)
           && ts[i.value].params == m.params
           && r == (if m.result.Ok? then Ok(shouldSave) else Fail(ValueError)))
    ensures var i := FirstTemplateAsWritten(old(TemplateNames(ts)), ProfileTemplateName);
      forall t :: t in ts && (!pageExists || i.Fail? || !ProbablyBotCreated(old(ts[i.value].params)) || t != ts[i.value]) ==>
        t.name == old(t.name) && t.params == old(t.params)
  {
    if !pageExists {
      var t := HandleNewPage(name);
      return Ok(shouldSave), [t];
    }
    page := ts;
    var i := FirstTemplateAsWritten(TemplateNames(ts), ProfileTemplateName);
    if i.Fail? {
      return Fail(IndexError), page;
    }
    var t := ts[i.value];
    if !ProbablyBotCreated(t.params) {
      return Ok(false), page;
    }
    var merged := GamesBot.MergeArguments(t, Arguments(name), showDiff);
    if merged.Fail? {
      return Fail(ValueError), page;
    }
    r := Ok(shouldSave);
  }

  // ----- Existing pages -----

  /** The category's titles, without namespace, that name a coach, in
    * category order. */
  function Existing(titles: seq<string>, names: seq<string>): (r: seq<string>)
    ensures |r| <= |titles|
    ensures forall x :: x in r <==> x in titles && x in names
  {
    if |titles| == 0 then []
    else
      var init := titles[..|titles| - 1];
      var t := titles[|titles| - 1];
      assert titles == init + [t];
      Existing(init, names) + (if t in names then [t] else [])
  }

  /** `get_players_that_has_existing_pages`: the loop over the category's
    * pages. */
  method ExistingCoaches(titles: seq<string>, names: seq<string>) returns (r: seq<string>)
    ensures r == Existing(titles, names)
  {
    r := [];
    for i := 0 to |titles|
      invariant r == Existing(titles[..i], names)
    {
      assert titles[..i + 1][..i] == titles[..i];
      if titles[i] in names {
        r := r + [titles[i]];
      }
    }
    assert titles[..|titles|] == titles;
  }
}
