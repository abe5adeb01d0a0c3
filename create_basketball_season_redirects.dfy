/** create_basketball_season_redirects.py: for every basketball season from
  * 1953/54 to 2024/25, a short page "כדורסל:{season}" that redirects to the
  * season's page "כדורסל:עונת {season}". The wiki is a map from title to
  * text; a title whose wiki access raises is given as a set. */
module SeasonRedirects {
  import opened Strings

  const StartYear: nat := 1953
  const EndYear: nat := 2024
  const Namespace: string := "כדורסל"
  /** The configured dry-run switch; the model takes it as a parameter. */
  const DryRun: bool := false

  // ----- Names -----

  /** `str.zfill(2)` on a string of digits. */
  function ZFillTwo(s: string): (r: string)
    ensures |r| == if |s| >= 2 then |s| else 2
  {
    if |s| >= 2 then s else seq(2 - |s|, _ => '0') + s
  }

  /** `generate_season_name`: the year, a slash, and the last two
    * characters of the next year, zero-padded to two. */
  function SeasonName(year: nat): string
  {
    NatToString(year) + "/" + ZFillTwo(LastTwo(NatToString(year + 1)))
  }

  /** `str(m)[-2:]`: the tens and units digits, or the one digit below ten. */
  lemma LastTwoDigits(m: nat)
    ensures LastTwo(NatToString(m)) == if m < 10 then [DigitChar(m)] else [DigitChar(m / 10 % 10), DigitChar(m % 10)]
  {
    if m >= 10 {
      var t := NatToString(m / 10);
      assert NatToString(m) == t + [DigitChar(m % 10)];
      LastDigit(m / 10);
      LastTwoAppend(t, DigitChar(m % 10));
    }
  }

  /** The two characters after the slash are the tens and units digits of
    * the next year, so 1999 gives "1999/00" and 2012 gives "2012/13". */
  lemma SeasonNameDigits(year: nat)
    ensures SeasonName(year) == NatToString(year) + "/" + [DigitChar((year + 1) / 10 % 10), DigitChar((year + 1) % 10)]
  {
    var m := year + 1;
    LastTwoDigits(m);
    var two := [DigitChar(m / 10 % 10), DigitChar(m % 10)];
    assert ZFillTwo(LastTwo(NatToString(m))) == two by {
      if m < 10 {
        assert m / 10 % 10 == 0 && m % 10 == m;
        assert DigitChar(0) == '0';
      }
    }
  }

  /** The last two decimal digits of m make up m modulo 100. */
  lemma LastTwoValue(m: nat)
    ensures (m / 10 % 10) * 10 + m % 10 == m % 100
  {
    var q := m / 10;
    assert m == 10 * q + m % 10;
    assert q == 10 * (q / 10) + q % 10;
    assert m == 100 * (q / 10) + (10 * (q % 10) + m % 10);
  }

  /** Two digits read back as the number below a hundred they spell. */
  lemma TwoDigitsValue(m: nat)
    ensures AllDigits([DigitChar(m / 10 % 10), DigitChar(m % 10)])
    ensures DigitsValue([DigitChar(m / 10 % 10), DigitChar(m % 10)]) == m % 100
  {
    var a, b := m / 10 % 10, m % 10;
    var tail := [DigitChar(a), DigitChar(b)];
    assert tail[..1] == [DigitChar(a)];
    assert [DigitChar(a)][..0] == [];
    assert DigitsValue([DigitChar(a)]) == a;
    assert DigitsValue(tail) == a * 10 + b;
    LastTwoValue(m);
  }

  /** The part after the slash reads back as the next year modulo 100. */
  lemma SeasonNameSuffix(year: nat)
    ensures var name := SeasonName(year);
      && |name| == |NatToString(year)| + 3
      && name[..|NatToString(year)|] == NatToString(year)
      && name[|NatToString(year)|] == '/'
      && AllDigits(name[|NatToString(year)| + 1..])
      && DigitsValue(name[|NatToString(year)| + 1..]) == (year + 1) % 100
  {
    SeasonNameDigits(year);
    TwoDigitsValue(year + 1);
    SlashParts(NatToString(year), [DigitChar((year + 1) / 10 % 10), DigitChar((year + 1) % 10)]);
  }

  /** The parts of `s + "/" + t`. */
  lemma SlashParts(s: string, t: string)
    ensures var name := s + "/" + t;
      |name| == |s| + 1 + |t| && name[..|s|] == s && name[|s|] == '/' && name[|s| + 1..] == t
  {
    var name := s + "/" + t;
    assert name[..|s|] == s;
    assert name[|s| + 1..] == t;
  }

  /** Different years have different season names. */
  lemma SeasonNameInjective(a: nat, b: nat)
    requires SeasonName(a) == SeasonName(b)
    ensures a == b
  {
    SeasonNameSuffix(a);
    SeasonNameSuffix(b);
    var na, nb := SeasonName(a), SeasonName(b);
    var sa, sb := NatToString(a), NatToString(b);
    assert na[..|sa|] == sa && nb[..|sb|] == sb;
    assert |sa| == |sb|;
    NatToStringRoundTrip(a);
    NatToStringRoundTrip(b);
  }

  /** The short title: "כדורסל:{season}". */
  function ShortName(year: nat): string
  {
    Namespace + ":" + SeasonName(year)
  }

  /** The season page's title: "כדורסל:עונת {season}". */
  function FullName(year: nat): string
  {
    Namespace + ":עונת " + SeasonName(year)
  }

  /** The MediaWiki redirect to `target`. */
  function RedirectText(target: string): (r: string)
    ensures |r| == |target| + 11
    ensures r[..9] == "#הפניה [[" && r[9..|r| - 2] == target && r[|r| - 2..] == "]]"
  {
    var r := "#הפניה [[" + target + "]]";
    assert r[..9] == "#הפניה [[";
    assert r[9..|r| - 2] == target;
    r
  }

  /** Different years have different short titles. */
  lemma ShortNameInjective(a: nat, b: nat)
    requires ShortName(a) == ShortName(b)
    ensures a == b
  {
    var p := Namespace + ":";
    assert ShortName(a)[|p|..] == SeasonName(a);
    assert ShortName(b)[|p|..] == SeasonName(b);
    SeasonNameInjective(a, b);
  }

  // ----- One season -----

  /** The wiki and the two counters. */
  datatype Tally = Tally(wiki: map<string, string>, created: nat, skipped: nat)

  /** `create_redirect_page`: an existing page is left alone; otherwise the
    * redirect is written unless in dry-run mode. */
  function CreateRedirect(wiki: map<string, string>, short: string, full: string, dryRun: bool): (r: map<string, string>)
    ensures short in wiki || dryRun ==> r == wiki
    ensures short !in wiki && !dryRun ==> r == wiki[short := RedirectText(full)]
  {
    if short in wiki then wiki
    else if dryRun then wiki
    else wiki[short := RedirectText(full)]
  }

  /** One pass of the loop for a (short title, season page) pair: a title
    * whose access raises counts as neither, an existing one is skipped, any
    * other is created. */
  function Step(t: Tally, names: (string, string), failing: set<string>, dryRun: bool): Tally
  {
    var (short, full) := names;
    if short in failing then t
    else if short in t.wiki then t.(skipped := t.skipped + 1)
    else Tally(CreateRedirect(t.wiki, short, full, dryRun), t.created + 1, t.skipped)
  }

  /** The loop over the title pairs, from empty counters. */
  function Run(wiki: map<string, string>, names: seq<(string, string)>, failing: set<string>, dryRun: bool): Tally
    decreases |names|
  {
    if |names| == 0 then Tally(wiki, 0, 0)
    else Step(Run(wiki, names[..|names| - 1], failing, dryRun), names[|names| - 1], failing, dryRun)
  }

  /** The title pairs of the `count` seasons from `first` on. */
  function Seasons(first: nat, count: nat): (r: seq<(string, string)>)
    ensures |r| == count
  {
    seq(count, i requires 0 <= i < count => (ShortName(first + i), FullName(first + i)))
  }

  /** One more pair is one more pass of the loop. */
  lemma RunStep(wiki: map<string, string>, names: seq<(string, string)>, i: int, failing: set<string>, dryRun: bool)
    requires 0 <= i < |names|
    ensures Run(wiki, names[..i + 1], failing, dryRun) == Step(Run(wiki, names[..i], failing, dryRun), names[i], failing, dryRun)
  {
    assert names[..i + 1][..i] == names[..i];
  }

  /** `create_all_season_redirects` over the configured years. */
  method CreateAllSeasonRedirects(wiki: map<string, string>, failing: set<string>, dryRun: bool)
    returns (result: map<string, string>, created: nat, skipped: nat)
    ensures Tally(result, created, skipped) == Run(wiki, Seasons(StartYear, EndYear + 1 - StartYear), failing, dryRun)
  {
    result, created, skipped := RedirectLoop(wiki, Seasons(StartYear, EndYear + 1 - StartYear), failing, dryRun);
  }

  /** The loop of `create_all_season_redirects` over the title pairs. */
  method RedirectLoop(wiki: map<string, string>, names: seq<(string, string)>, failing: set<string>, dryRun: bool)
    returns (result: map<string, string>, created: nat, skipped: nat)
    ensures Tally(result, created, skipped) == Run(wiki, names, failing, dryRun)
  {
    result, created, skipped := wiki, 0, 0;
    for i := 0 to |names|
      invariant Tally(result, created, skipped) == Run(wiki, names[..i], failing, dryRun)
    {
      RunStep(wiki, names, i, failing, dryRun);
      var short, full := names[i].0, names[i].1;
      if short in failing {
        continue;
      }
      if short in result {
        skipped := skipped + 1;
      } else {
        result := CreateRedirect(result, short, full, dryRun);
        created := created + 1;
      }
    }
    assert names[..|names|] == names;
  }

  // ----- What the loop does -----

  /** The number of pairs whose title raises. */
  function Failures(names: seq<(string, string)>, failing: set<string>): nat
    decreases |names|
  {
    if |names| == 0 then 0
    else Failures(names[..|names| - 1], failing) + (if names[|names| - 1].0 in failing then 1 else 0)
  }

  /** The number of pairs whose title existed before the loop and does not
    * raise. */
  function Existing(wiki: map<string, string>, names: seq<(string, string)>, failing: set<string>): nat
    decreases |names|
  {
    if |names| == 0 then 0
    else
      var s := names[|names| - 1].0;
      Existing(wiki, names[..|names| - 1], failing) + (if s !in failing && s in wiki then 1 else 0)
  }

  /** Every season is created, skipped or failed, exactly one of them. */
  lemma {:induction false} RunCounts(wiki: map<string, string>, names: seq<(string, string)>, failing: set<string>, dryRun: bool)
    ensures var t := Run(wiki, names, failing, dryRun);
      t.created + t.skipped + Failures(names, failing) == |names|
    decreases |names|
  {
    if |names| > 0 {
      RunCounts(wiki, names[..|names| - 1], failing, dryRun);
    }
  }

  /** Existing pages keep their text, and a dry run writes nothing. */
  lemma {:induction false} RunKeeps(wiki: map<string, string>, names: seq<(string, string)>, failing: set<string>, dryRun: bool)
    ensures forall n :: n in wiki ==>
      (n in Run(wiki, names, failing, dryRun).wiki && Run(wiki, names, failing, dryRun).wiki[n] == wiki[n])
    ensures dryRun ==> Run(wiki, names, failing, dryRun).wiki == wiki
    decreases |names|
  {
    if |names| > 0 {
      RunKeeps(wiki, names[..|names| - 1], failing, dryRun);
    }
  }

  /** Only the pairs' short titles can appear. */
  lemma {:induction false} RunTitles(wiki: map<string, string>, names: seq<(string, string)>, failing: set<string>, dryRun: bool, n: string)
    requires forall i :: 0 <= i < |names| ==> names[i].0 != n
    ensures n in Run(wiki, names, failing, dryRun).wiki <==> n in wiki
    decreases |names|
  {
    if |names| > 0 {
      RunTitles(wiki, names[..|names| - 1], failing, dryRun, n);
    }
  }

  /** The short titles of the pairs are pairwise different. */
  predicate DistinctShort(names: seq<(string, string)>)
  {
    forall i, j :: 0 <= i < j < |names| ==> names[i].0 != names[j].0
  }

  /** With distinct titles, the skipped counter counts the pairs whose page
    * existed before. */
  lemma {:induction false} RunSkipped(wiki: map<string, string>, names: seq<(string, string)>, failing: set<string>, dryRun: bool)
    requires DistinctShort(names)
    ensures Run(wiki, names, failing, dryRun).skipped == Existing(wiki, names, failing)
    decreases |names|
  {
    if |names| > 0 {
      var init := names[..|names| - 1];
      RunSkipped(wiki, init, failing, dryRun);
      RunTitles(wiki, init, failing, dryRun, names[|names| - 1].0);
    }
  }

  /** Outside a dry run, with distinct titles, each pair whose page was
    * missing and does not raise now redirects to its season page. */
  lemma {:induction false} RunCreates(wiki: map<string, string>, names: seq<(string, string)>, failing: set<string>, i: int)
    requires DistinctShort(names) && 0 <= i < |names|
    requires names[i].0 !in wiki && names[i].0 !in failing
    ensures names[i].0 in Run(wiki, names, failing, false).wiki
    ensures Run(wiki, names, failing, false).wiki[names[i].0] == RedirectText(names[i].1)
    decreases |names|
  {
    var init := names[..|names| - 1];
    if i < |names| - 1 {
      assert init[i] == names[i];
      RunCreates(wiki, init, failing, i);
    } else {
      RunTitles(wiki, init, failing, false, names[i].0);
    }
  }

  /** The seasons' short titles are pairwise different. */
  lemma SeasonsDistinct(first: nat, count: nat)
    ensures DistinctShort(Seasons(first, count))
  {
    var names := Seasons(first, count);
    forall i, j | 0 <= i < j < count ensures names[i].0 != names[j].0 {
      if names[i].0 == names[j].0 {
        ShortNameInjective(first + i, first + j);
      }
    }
  }

  /** The configured range is the seventy-two seasons 1953/54 to 2024/25,
    * both included. */
  lemma ConfiguredSeasons()
    ensures EndYear + 1 - StartYear == 72
    ensures SeasonName(StartYear) == "1953/54" && SeasonName(EndYear) == "2024/25"
  {
    SeasonNameDigits(StartYear);
    SeasonNameDigits(EndYear);
    assert NatToString(1953) == "1953" by {
      assert NatToString(1) == "1";
      assert NatToString(19) == "19";
      assert NatToString(195) == "195";
    }
    assert NatToString(2024) == "2024" by {
      assert NatToString(2) == "2";
      assert NatToString(20) == "20";
      assert NatToString(202) == "202";
    }
  }
}
