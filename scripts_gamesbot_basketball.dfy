/** scripts/gamesbot_basketball.py: the later basketball uploader. Its
  * template has forty-one fixed arguments (fixture, arena, quarter, overtime
  * and half points of both sides, six empty media arguments), then the
  * overtime flag only for a game with overtime, one or two article links
  * from the game's URLs, and the two player lists last. The page name, the
  * player text, the hour and the skip rule are those of `BasketballGamesBot`. */
module ScriptsBasketballGamesBot {
  import opened Wrappers
  import opened Strings
  import opened Dates
  import opened WikiTemplate
  import GamesBot
  import BasketballGamesBot

  type Game<P> = BasketballGamesBot.Game<P>

  const IsOvertime: string := "הארכה"
  const Article1: string := "כתבה1"
  const Article2: string := "כתבה2"
  const MaccabiPlayers: string := "שחקנים מכבי"
  const OpponentPlayers: string := "שחקנים יריבה"

  /** Every argument name: the forty-one of the dictionary's literal, in its
    * order, then the five added after it. */
  const Names: seq<string> := OpeningNames + ScoreNames + ClosingNames

  const OpeningNames: seq<string> := [
    "תאריך המשחק", "שעת המשחק", "עונה", "מפעל", "שלב במפעל", "שם יריבה", "בית חוץ", "אולם",
    "נקודות מכבי רבע1", "נקודות מכבי רבע2", "נקודות מכבי רבע3", "נקודות מכבי רבע4",
    "נקודות מכבי הארכה1", "נקודות מכבי הארכה2", "נקודות מכבי הארכה3", "נקודות מכבי הארכה4"]

  const ScoreNames: seq<string> := [
    "נקודות יריבה רבע1", "נקודות יריבה רבע2", "נקודות יריבה רבע3", "נקודות יריבה רבע4",
    "נקודות יריבה הארכה1", "נקודות יריבה הארכה2", "נקודות יריבה הארכה3", "נקודות יריבה הארכה4",
    "נקודות מכבי חצי1", "נקודות מכבי חצי2", "נקודות יריבה חצי1", "נקודות יריבה חצי2",
    "תוצאת משחק מכבי", "תוצאת משחק יריבה", "מאמן מכבי"]

  const ClosingNames: seq<string> := [
    "מאמן יריבה", "שופט ראשי", "עוזרי שופט",
    "כמות קהל", "תקציר וידאו", "תקציר וידאו2", "משחק מלא", "משחק מלא2", "גוף שידור", "סיכום משחק",
    "הארכה", "כתבה1", "כתבה2", "שחקנים מכבי", "שחקנים יריבה"]

  /** The number of arguments of the dictionary's literal. */
  const BaseCount: nat := 41

  lemma NamesDifferLow()
    ensures forall a, b :: 0 <= a < b < 16 ==> BasketballGamesBot.DifferAt(Names, a, b)
  {
    var ns := Names;
    forall a, b | 0 <= a < b < 16 ensures ns[a] != ns[b] {
      var x, y := ns[a], ns[b];
      assert |x| != |y| || x[|x| - 1] != y[|y| - 1];
    }
  }

  lemma NamesDifferMiddle()
    ensures forall a, b :: 16 <= a < b < 31 ==> BasketballGamesBot.DifferAt(Names, a, b)
  {
    var ns := Names;
    forall a, b | 16 <= a < b < 31 ensures ns[a] != ns[b] {
      var x, y := ns[a], ns[b];
      assert |x| != |y| || x[|x| - 1] != y[|y| - 1] || x[|x| - 2] != y[|y| - 2];
    }
  }

  lemma NamesDifferHigh()
    ensures forall a, b :: 31 <= a < b < 46 ==> BasketballGamesBot.DifferAt(Names, a, b)
  {
    NamesDifferClosingLow();
    NamesDifferClosingHigh();
    NamesDifferClosingAcross();
  }

  lemma NamesDifferClosingLow()
    ensures forall a, b :: 31 <= a < b < 38 ==> BasketballGamesBot.DifferAt(Names, a, b)
  {
    var ns := Names;
    forall a, b | 31 <= a < b < 38 ensures ns[a] != ns[b] {
      var x, y := ns[a], ns[b];
      assert |x| != |y| || x[|x| - 1] != y[|y| - 1];
    }
  }

  lemma NamesDifferClosingHigh()
    ensures forall a, b :: 38 <= a < b < 46 ==> BasketballGamesBot.DifferAt(Names, a, b)
  {
    var ns := Names;
    forall a, b | 38 <= a < b < 46 ensures ns[a] != ns[b] {
      var x, y := ns[a], ns[b];
      assert |x| != |y| || x[|x| - 1] != y[|y| - 1];
    }
  }

  lemma NamesDifferClosingAcross()
    ensures forall a, b :: 31 <= a < 38 <= b < 46 ==> BasketballGamesBot.DifferAt(Names, a, b)
  {
    var ns := Names;
    forall a, b | 31 <= a < 38 <= b < 46 ensures ns[a] != ns[b] {
      var x, y := ns[a], ns[b];
      assert |x| != |y| || x[|x| - 1] != y[|y| - 1];
    }
  }

  lemma NamesDifferLowMiddle()
    ensures forall a, b :: 0 <= a < 16 <= b < 31 ==> BasketballGamesBot.DifferAt(Names, a, b)
  {
    var ns := Names;
    forall a, b | 0 <= a < 16 <= b < 31 ensures ns[a] != ns[b] {
      var x, y := ns[a], ns[b];
      assert |x| != |y| || x[|x| - 2] != y[|y| - 2];
    }
  }

  lemma NamesDifferLowHigh()
    ensures forall a, b :: 0 <= a < 16 && 31 <= b < 46 ==> BasketballGamesBot.DifferAt(Names, a, b)
  {
    var ns := Names;
    forall a, b | 0 <= a < 16 && 31 <= b < 46 ensures ns[a] != ns[b] {
      var x, y := ns[a], ns[b];
      assert |x| != |y| || x[|x| - 1] != y[|y| - 1];
    }
  }

  lemma NamesDifferMiddleHigh()
    ensures forall a, b :: 16 <= a < 31 <= b < 46 ==> BasketballGamesBot.DifferAt(Names, a, b)
  {
    var ns := Names;
    forall a, b | 16 <= a < 31 <= b < 46 ensures ns[a] != ns[b] {
      var x, y := ns[a], ns[b];
      assert |x| != |y| || x[|x| - 2] != y[|y| - 2];
    }
  }

  /** Names from lo to hi carry no surrounding whitespace. */
  predicate StrippedFrom(ns: seq<string>, lo: int, hi: int)
    requires 0 <= lo <= hi <= |ns|
  {
    forall a :: lo <= a < hi ==> Trim(ns[a]) == ns[a]
  }

  lemma OpeningStripped()
    ensures StrippedFrom(OpeningNames, 0, |OpeningNames|)
  {
    forall a | 0 <= a < |OpeningNames| ensures Trim(OpeningNames[a]) == OpeningNames[a] {
      VisibleEndsStripped(OpeningNames[a]);
    }
  }

  lemma ScoreStripped()
    ensures StrippedFrom(ScoreNames, 0, |ScoreNames|)
  {
    forall a | 0 <= a < |ScoreNames| ensures Trim(ScoreNames[a]) == ScoreNames[a] {
      VisibleEndsStripped(ScoreNames[a]);
    }
  }

  lemma ClosingStripped()
    ensures StrippedFrom(ClosingNames, 0, |ClosingNames|)
  {
    forall a | 0 <= a < |ClosingNames| ensures Trim(ClosingNames[a]) == ClosingNames[a] {
      VisibleEndsStripped(ClosingNames[a]);
    }
  }

  lemma NamesStripped()
    ensures |Names| == 46 && StrippedFrom(Names, 0, 46)
  {
    OpeningStripped();
    ScoreStripped();
    ClosingStripped();
    var ns := Names;
    assert |OpeningNames| == 16 && |ScoreNames| == 15 && |ClosingNames| == 15;
    forall a | 0 <= a < 46 ensures Trim(ns[a]) == ns[a] {
      if a < 16 {
        assert ns[a] == OpeningNames[a];
      } else if a < 31 {
        assert ns[a] == ScoreNames[a - 16];
      } else {
        assert ns[a] == ClosingNames[a - 31];
      }
    }
  }

  /** The last five names are the ones added after the literal. */
  lemma AddedNames()
    ensures |Names| == 46
    ensures Names[41] == IsOvertime && Names[42] == Article1 && Names[43] == Article2
    ensures Names[44] == MaccabiPlayers && Names[45] == OpponentPlayers
  {
  }

  /** The forty-six names are pairwise different and carry no surrounding
    * whitespace; the last five are the ones added after the literal. */
  lemma NamesFacts()
    ensures |Names| == 46 && BasketballGamesBot.GoodNames(Names)
    ensures Names[41] == IsOvertime && Names[42] == Article1 && Names[43] == Article2
    ensures Names[44] == MaccabiPlayers && Names[45] == OpponentPlayers
  {
    var ns := Names;
    NamesDifferLow();
    NamesDifferMiddle();
    NamesDifferHigh();
    NamesDifferLowMiddle();
    NamesDifferLowHigh();
    NamesDifferMiddleHigh();
    NamesStripped();
    AddedNames();
    forall a, b | 0 <= a < b < |ns| ensures ns[a] != ns[b] {
      assert BasketballGamesBot.DifferAt(ns, a, b);
    }
  }

  // ----- The dictionary -----

  /** The position of key k in a dictionary, or -1. */
  function KeyIndex(d: seq<(string, string)>, k: string): (r: int)
    ensures -1 <= r < |d|
    ensures r >= 0 ==> d[r].0 == k && forall i :: 0 <= i < r ==> d[i].0 != k
    ensures r < 0 ==> forall i :: 0 <= i < |d| ==> d[i].0 != k
    decreases |d|
  {
    if |d| == 0 then -1
    else if d[0].0 == k then 0
    else
      var r := KeyIndex(d[1..], k);
      if r < 0 then -1 else r + 1
  }

  /** `d[k]`, or None for a missing key. */
  function Lookup(d: seq<(string, string)>, k: string): Option<string>
  {
    var i := KeyIndex(d, k);
    if i < 0 then None else Some(d[i].1)
  }

  /** The first entry with key k gives its value. */
  lemma LookupFirst(d: seq<(string, string)>, i: int, k: string)
    requires 0 <= i < |d| && d[i].0 == k
    requires forall j :: 0 <= j < i ==> d[j].0 != k
    ensures Lookup(d, k) == Some(d[i].1)
  {
  }

  /** A key missing from d is looked up in what follows it. */
  lemma LookupAfter(d: seq<(string, string)>, e: seq<(string, string)>, k: string)
    requires forall i :: 0 <= i < |d| ==> d[i].0 != k
    ensures Lookup(d + e, k) == Lookup(e, k)
  {
    var r := KeyIndex(e, k);
    var de := d + e;
    if r >= 0 {
      assert de[|d| + r] == e[r];
      forall j | 0 <= j < |d| + r ensures de[j].0 != k {
        if j >= |d| {
          assert de[j] == e[j - |d|];
        }
      }
      LookupFirst(de, |d| + r, k);
    } else {
      forall j | 0 <= j < |de| ensures de[j].0 != k {
        if j >= |d| {
          assert de[j] == e[j - |d|];
        }
      }
    }
  }

  /** `d[k] = v` on a dictionary in insertion order: an existing key keeps
    * its place and takes the new value, a new key goes last. */
  function Assign(d: seq<(string, string)>, k: string, v: string): seq<(string, string)>
  {
    var i := KeyIndex(d, k);
    if i < 0 then d + [(k, v)] else d[i := (k, v)]
  }

  /** After `d[k] = v`, k reads v and every other key reads as before; a
    * new key is appended and an existing one keeps the length. */
  lemma AssignSpec(d: seq<(string, string)>, k: string, v: string)
    ensures Lookup(Assign(d, k, v), k) == Some(v)
    ensures forall k' :: k' != k ==> Lookup(Assign(d, k, v), k') == Lookup(d, k')
    ensures Lookup(d, k).None? ==> Assign(d, k, v) == d + [(k, v)]
    ensures Lookup(d, k).Some? ==> |Assign(d, k, v)| == |d|
  {
    var i := KeyIndex(d, k);
    var r := Assign(d, k, v);
    if i < 0 {
      LookupFirst(r, |d|, k);
      forall k' | k' != k ensures Lookup(r, k') == Lookup(d, k') {
        KeyIndexPrefix(d, (k, v), k');
        var j := KeyIndex(d, k');
        if j >= 0 {
          assert r[j] == d[j];
        }
      }
    } else {
      LookupFirst(r, i, k);
      forall k' | k' != k ensures Lookup(r, k') == Lookup(d, k') {
        var j := KeyIndex(d, k');
        if j >= 0 {
          LookupFirst(r, j, k');
        } else {
          assert forall m :: 0 <= m < |r| ==> r[m].0 != k';
        }
      }
    }
  }

  /** A key of the first part keeps its position after an append, and a
    * key that is neither there nor appended stays missing. */
  lemma KeyIndexPrefix(d: seq<(string, string)>, e: (string, string), k: string)
    requires e.0 != k
    ensures KeyIndex(d + [e], k) == KeyIndex(d, k)
  {
    var r := d + [e];
    var j := KeyIndex(d, k);
    if j >= 0 {
      assert r[j] == d[j];
      assert forall i :: 0 <= i < j ==> r[i] == d[i];
    } else {
      assert forall i :: 0 <= i < |r| ==> r[i].0 != k by {
        assert forall i :: 0 <= i < |d| ==> r[i] == d[i];
      }
    }
  }

  /** All keys of d are among the first m names. */
  predicate KeysBelow(d: seq<(string, string)>, ns: seq<string>, m: nat)
    requires m <= |ns|
  {
    forall i :: 0 <= i < |d| ==> d[i].0 in ns[..m]
  }

  /** Assigning a later name to a dictionary whose keys are earlier names
    * appends it, and the keys stay distinct, stripped and earlier. */
  lemma AssignNew(d: seq<(string, string)>, ns: seq<string>, m: nat, j: nat, v: string)
    requires BasketballGamesBot.GoodNames(ns) && m <= j < |ns|
    requires GamesBot.DistinctNames(d) && GamesBot.StrippedNames(d) && KeysBelow(d, ns, m)
    ensures Assign(d, ns[j], v) == d + [(ns[j], v)]
    ensures GamesBot.DistinctNames(d + [(ns[j], v)]) && GamesBot.StrippedNames(d + [(ns[j], v)])
    ensures KeysBelow(d + [(ns[j], v)], ns, j + 1)
  {
    LaterAbsent(d, ns, m, j);
    AppendNew(d, ns, m, j, v);
  }

  /** Appending a later name keeps the keys distinct, stripped and earlier. */
  lemma AppendNew(d: seq<(string, string)>, ns: seq<string>, m: nat, j: nat, v: string)
    requires BasketballGamesBot.GoodNames(ns) && m <= j < |ns|
    requires GamesBot.DistinctNames(d) && GamesBot.StrippedNames(d) && KeysBelow(d, ns, m)
    requires forall i :: 0 <= i < |d| ==> d[i].0 != ns[j]
    ensures GamesBot.DistinctNames(d + [(ns[j], v)]) && GamesBot.StrippedNames(d + [(ns[j], v)])
    ensures KeysBelow(d + [(ns[j], v)], ns, j + 1)
  {
    var r := d + [(ns[j], v)];
    KeysBelowGrow(d, ns, m, j);
    assert ns[..j + 1][j] == ns[j];
    assert forall i :: 0 <= i < |d| ==> r[i] == d[i];
  }

  /** Keys among the first m names are among the first j + 1 for j >= m. */
  lemma KeysBelowGrow(d: seq<(string, string)>, ns: seq<string>, m: nat, j: nat)
    requires m <= j < |ns| && KeysBelow(d, ns, m)
    ensures KeysBelow(d, ns, j + 1)
  {
    forall i | 0 <= i < |d| ensures d[i].0 in ns[..j + 1] {
      var a :| 0 <= a < m && ns[..m][a] == d[i].0;
      assert ns[..j + 1][a] == ns[a];
    }
  }

  /** A later name is not a key of a dictionary of earlier names. */
  lemma LaterAbsent(d: seq<(string, string)>, ns: seq<string>, m: nat, j: nat)
    requires BasketballGamesBot.GoodNames(ns) && m <= j < |ns| && KeysBelow(d, ns, m)
    ensures forall i :: 0 <= i < |d| ==> d[i].0 != ns[j]
    ensures KeyIndex(d, ns[j]) < 0
  {
    forall i | 0 <= i < |d| ensures d[i].0 != ns[j] {
      var a :| 0 <= a < m && ns[..m][a] == d[i].0;
      assert ns[a] != ns[j];
    }
  }

  // ----- The arguments -----

  /** `format_url`: a wiki link to the game's page, captioned with the site's
    * domain, which `tldextract` finds and is given here. */
  function FormatUrl(url: string, domainOf: string -> string): (r: string)
    ensures |r| >= |url| + 2 && r[0] == '[' && r[|r| - 1] == ']'
    ensures r[1..|url| + 1] == url
  {
    var r := "[" + url + " עמוד המשחק באתר " + domainOf(url) + "]";
    assert r[1..|url| + 1] == url;
    r
  }

  /** The values of the dictionary's literal, in its order: the opening
    * eight, each side's period points, the halves, the totals, the coaches
    * and officials and the crowd, then six empty media arguments. */
  function BaseValues<P>(g: Game<P>, render: P -> string): (r: seq<string>)
    requires ValidDateTime(g.date)
    ensures |r| == BaseCount
  {
    var opening := [FormatDate(g.date.date, DayFirst, '-'), BasketballGamesBot.HourText(g.date),
      BasketballGamesBot.OptionalText(g.season), g.competition, g.fixture, g.opponentName,
      BasketballGamesBot.HomeOrAwayText(g.isHomeGame), g.arena];
    var closing := [
      BasketballGamesBot.NumberText(g.maccabiHalves.first), BasketballGamesBot.NumberText(g.maccabiHalves.second),
      BasketballGamesBot.NumberText(g.opponentHalves.first), BasketballGamesBot.NumberText(g.opponentHalves.second),
      NatToString(g.maccabiPoints), NatToString(g.opponentPoints),
      BasketballGamesBot.OptionalText(g.maccabiCoach), BasketballGamesBot.OptionalText(g.opponentCoach),
      BasketballGamesBot.OptionalText(g.referee), Join(g.refereeAssistants, ", "), BasketballGamesBot.NumberText(g.crowd)];
    var media := ["", "", "", "", "", ""];
    opening + BasketballGamesBot.PeriodTexts(g.maccabiPeriods) + BasketballGamesBot.PeriodTexts(g.opponentPeriods) + closing + media
  }

  /** The dictionary's literal. */
  function Base<P>(g: Game<P>, render: P -> string): (r: seq<(string, string)>)
    requires ValidDateTime(g.date)
    ensures |r| == BaseCount
  {
    var vs := BaseValues(g, render);
    seq(BaseCount, k requires 0 <= k < BaseCount => (Names[k], vs[k]))
  }

  /** The hour's value is empty exactly at midnight and reads the hour back
    * otherwise, and the six media arguments are empty. */
  lemma BaseSpec<P>(g: Game<P>, render: P -> string)
    requires ValidDateTime(g.date)
    ensures Base(g, render)[1].1 == BasketballGamesBot.HourText(g.date)
    ensures Base(g, render)[1].1 == "" <==> g.date.hour == 0
    ensures forall k :: 35 <= k < BaseCount ==> Base(g, render)[k].1 == ""
  {
    var vs := BaseValues(g, render);
    assert vs[1] == BasketballGamesBot.HourText(g.date);
    BasketballGamesBot.HourTextSpec(g.date);
  }

  /** The names are the forty-six, with the five added ones last. */
  predicate NamesOk(ns: seq<string>)
  {
    && |ns| == 46 && BasketballGamesBot.GoodNames(ns)
    && ns[41] == IsOvertime && ns[42] == Article1 && ns[43] == Article2
    && ns[44] == MaccabiPlayers && ns[45] == OpponentPlayers
  }

  /** The keys of d are distinct, stripped and among the first m names. */
  predicate Keyed(d: seq<(string, string)>, ns: seq<string>, m: nat)
    requires m <= |ns|
  {
    GamesBot.DistinctNames(d) && GamesBot.StrippedNames(d) && KeysBelow(d, ns, m)
  }

  /** The literal's keys are the first forty-one names. */
  lemma BaseKeys<P>(g: Game<P>, render: P -> string)
    requires ValidDateTime(g.date)
    ensures NamesOk(Names) && Keyed(Base(g, render), Names, BaseCount)
  {
    NamesFacts();
    var ns := Names;
    var base := Base(g, render);
    forall i | 0 <= i < |base| ensures base[i].0 in ns[..41] {
      assert ns[..41][i] == ns[i];
    }
  }

  /** The overtime flag, set only for a game with overtime. */
  function WithOvertime(d: seq<(string, string)>, overtime: bool): seq<(string, string)>
  {
    if overtime then Assign(d, IsOvertime, "כן") else d
  }

  /** The articles: the first link, then the second when there is one. */
  function WithArticles(d: seq<(string, string)>, articles: seq<string>): seq<(string, string)>
  {
    var withFirst := if |articles| > 0 then Assign(d, Article1, articles[0]) else d;
    if |articles| > 1 then Assign(withFirst, Article2, articles[1]) else withFirst
  }

  /** The two player lists. */
  function WithPlayers(d: seq<(string, string)>, maccabi: string, opponent: string): seq<(string, string)>
  {
    Assign(Assign(d, MaccabiPlayers, maccabi), OpponentPlayers, opponent)
  }

  /** The number of article links: one per URL, at most two. */
  function ArticleCount(urls: seq<string>): nat
  {
    if |urls| > 1 then 2 else |urls|
  }

  /** The article links of the first two URLs. */
  function Articles(urls: seq<string>, domainOf: string -> string): (r: seq<string>)
    ensures |r| == ArticleCount(urls)
    ensures forall i :: 0 <= i < |r| ==> r[i] == FormatUrl(urls[i], domainOf)
  {
    if |urls| == 0 then []
    else if |urls| == 1 then [FormatUrl(urls[0], domainOf)]
    else [FormatUrl(urls[0], domainOf), FormatUrl(urls[1], domainOf)]
  }

  /** `__get_football_game_template_with_maccabistats_game_value`: the
    * literal, the overtime flag, the articles, then the players. */
  function Arguments<P>(g: Game<P>, render: P -> string, domainOf: string -> string): seq<(string, string)>
    requires ValidDateTime(g.date)
  {
    var withOvertime := WithOvertime(Base(g, render), g.hasOvertime);
    var withArticles := WithArticles(withOvertime, Articles(g.gameUrl, domainOf));
    WithPlayers(withArticles, BasketballGamesBot.PlayersText(g.maccabiPlayers, render),
      BasketballGamesBot.PlayersText(g.opponentPlayers, render))
  }

  /** The builder, step by step on the dictionary. */
  method BuildArguments<P>(g: Game<P>, render: P -> string, domainOf: string -> string) returns (args: seq<(string, string)>)
    requires ValidDateTime(g.date)
    ensures args == Arguments(g, render, domainOf)
  {
    args := Base(g, render);
    if g.hasOvertime {
      args := Assign(args, IsOvertime, "כן");
    }
    if |g.gameUrl| > 0 {
      args := Assign(args, Article1, FormatUrl(g.gameUrl[0], domainOf));
      if |g.gameUrl| > 1 {
        args := Assign(args, Article2, FormatUrl(g.gameUrl[1], domainOf));
      }
    }
    args := Assign(args, MaccabiPlayers, BasketballGamesBot.PlayersText(g.maccabiPlayers, render));
    args := Assign(args, OpponentPlayers, BasketballGamesBot.PlayersText(g.opponentPlayers, render));
  }

  /** The overtime entry, present only with overtime. */
  function FlagEntries(overtime: bool): seq<(string, string)>
  {
    if overtime then [(IsOvertime, "כן")] else []
  }

  /** The article entries, one per article link. */
  function ArticleEntries(articles: seq<string>): seq<(string, string)>
    requires |articles| <= 2
  {
    if |articles| == 0 then []
    else if |articles| == 1 then [(Article1, articles[0])]
    else [(Article1, articles[0]), (Article2, articles[1])]
  }

  /** The flag is appended exactly for a game with overtime. */
  lemma OvertimeStage(d: seq<(string, string)>, ns: seq<string>, overtime: bool)
    requires NamesOk(ns) && Keyed(d, ns, BaseCount)
    ensures WithOvertime(d, overtime) == d + FlagEntries(overtime)
    ensures Keyed(d + FlagEntries(overtime), ns, 42)
  {
    if overtime {
      AssignNew(d, ns, 41, 41, "כן");
    } else {
      KeysBelowGrow(d, ns, 41, 41);
      assert d + [] == d;
    }
  }

  /** Each article is appended when there is a link for it. */
  lemma ArticlesStage(d: seq<(string, string)>, ns: seq<string>, articles: seq<string>)
    requires NamesOk(ns) && Keyed(d, ns, 42) && |articles| <= 2
    ensures WithArticles(d, articles) == d + ArticleEntries(articles)
    ensures Keyed(d + ArticleEntries(articles), ns, 44)
  {
    if |articles| == 0 {
      KeysBelowGrow(d, ns, 42, 43);
      assert d + [] == d;
    } else if |articles| == 1 {
      assert articles == [articles[0]];
      OneArticle(d, ns, articles[0]);
    } else {
      assert articles == [articles[0], articles[1]];
      TwoArticles(d, ns, articles[0], articles[1]);
    }
  }

  lemma OneArticle(d: seq<(string, string)>, ns: seq<string>, a: string)
    requires NamesOk(ns) && Keyed(d, ns, 42)
    ensures WithArticles(d, [a]) == d + [(Article1, a)]
    ensures Keyed(d + [(Article1, a)], ns, 44)
  {
    AssignNew(d, ns, 42, 42, a);
    KeysBelowGrow(d + [(Article1, a)], ns, 43, 43);
  }

  lemma TwoArticles(d: seq<(string, string)>, ns: seq<string>, a: string, b: string)
    requires NamesOk(ns) && Keyed(d, ns, 42)
    ensures WithArticles(d, [a, b]) == d + [(Article1, a), (Article2, b)]
    ensures Keyed(d + [(Article1, a), (Article2, b)], ns, 44)
  {
    AssignNew(d, ns, 42, 42, a);
    var a1 := d + [(Article1, a)];
    AssignNew(a1, ns, 43, 43, b);
    assert a1 + [(Article2, b)] == d + [(Article1, a), (Article2, b)];
  }

  /** The player lists go last, Maccabi's then the opponent's. */
  lemma PlayersStage(d: seq<(string, string)>, ns: seq<string>, maccabi: string, opponent: string)
    requires NamesOk(ns) && Keyed(d, ns, 44)
    ensures WithPlayers(d, maccabi, opponent) == d + [(MaccabiPlayers, maccabi), (OpponentPlayers, opponent)]
    ensures Keyed(d + [(MaccabiPlayers, maccabi), (OpponentPlayers, opponent)], ns, 46)
  {
    assert ns[44] == MaccabiPlayers && ns[45] == OpponentPlayers;
    AssignNew(d, ns, 44, 44, maccabi);
    var a1 := d + [(MaccabiPlayers, maccabi)];
    assert Assign(d, MaccabiPlayers, maccabi) == a1;
    AssignNew(a1, ns, 45, 45, opponent);
    assert Assign(a1, OpponentPlayers, opponent) == a1 + [(OpponentPlayers, opponent)];
    assert a1 + [(OpponentPlayers, opponent)] == d + [(MaccabiPlayers, maccabi), (OpponentPlayers, opponent)];
  }

  /** The literal followed by the flag, the articles and the players. */
  function Extended(base: seq<(string, string)>, overtime: bool, articles: seq<string>, maccabi: string, opponent: string): seq<(string, string)>
    requires |articles| <= 2
  {
    base + FlagEntries(overtime) + ArticleEntries(articles) + [(MaccabiPlayers, maccabi), (OpponentPlayers, opponent)]
  }

  /** Extending the literal appends the flag, the articles and the players,
    * in that order, and the keys stay distinct and stripped. */
  lemma ExtendedAppends(base: seq<(string, string)>, ns: seq<string>, overtime: bool, articles: seq<string>, maccabi: string, opponent: string)
    requires NamesOk(ns) && Keyed(base, ns, BaseCount) && |articles| <= 2
    ensures WithPlayers(WithArticles(WithOvertime(base, overtime), articles), maccabi, opponent)
      == Extended(base, overtime, articles, maccabi, opponent)
    ensures GamesBot.DistinctNames(Extended(base, overtime, articles, maccabi, opponent))
    ensures GamesBot.StrippedNames(Extended(base, overtime, articles, maccabi, opponent))
  {
    OvertimeStage(base, ns, overtime);
    var a1 := base + FlagEntries(overtime);
    ArticlesStage(a1, ns, articles);
    var a2 := a1 + ArticleEntries(articles);
    PlayersStage(a2, ns, maccabi, opponent);
  }

  /** The flag reads "yes" exactly with overtime when no other entry has
    * its key. */
  lemma FlagLookup(pre: seq<(string, string)>, overtime: bool, post: seq<(string, string)>)
    requires forall i :: 0 <= i < |pre| ==> pre[i].0 != IsOvertime
    requires forall i :: 0 <= i < |post| ==> post[i].0 != IsOvertime
    ensures Lookup(pre + FlagEntries(overtime) + post, IsOvertime) == (if overtime then Some("כן") else None)
  {
    var f := FlagEntries(overtime);
    LookupAfter(pre, f + post, IsOvertime);
    assert pre + f + post == pre + (f + post);
    if overtime {
      LookupFirst(f + post, 0, IsOvertime);
    } else {
      assert f + post == post;
    }
  }

  /** The articles read back their links when no other entry has their
    * keys. */
  lemma ArticleLookups(pre: seq<(string, string)>, articles: seq<string>, post: seq<(string, string)>)
    requires |articles| <= 2
    requires forall i :: 0 <= i < |pre| ==> pre[i].0 != Article1 && pre[i].0 != Article2
    requires forall i :: 0 <= i < |post| ==> post[i].0 != Article1 && post[i].0 != Article2
    ensures Lookup(pre + ArticleEntries(articles) + post, Article1) == (if |articles| > 0 then Some(articles[0]) else None)
    ensures Lookup(pre + ArticleEntries(articles) + post, Article2) == (if |articles| > 1 then Some(articles[1]) else None)
  {
    var e := ArticleEntries(articles);
    assert pre + e + post == pre + (e + post);
    LookupAfter(pre, e + post, Article1);
    LookupAfter(pre, e + post, Article2);
    if |articles| == 0 {
      assert e + post == post;
    } else {
      LookupFirst(e + post, 0, Article1);
      if |articles| > 1 {
        LookupFirst(e + post, 1, Article2);
      } else {
        assert (e + post)[0].0 == Article1;
        assert forall i :: 1 <= i < |e + post| ==> (e + post)[i] == post[i - 1];
      }
    }
  }

  /** The five added names differ from each other. */
  lemma AddedNamesDiffer()
    ensures IsOvertime != Article1 && IsOvertime != Article2 && Article1 != Article2
    ensures MaccabiPlayers != IsOvertime && MaccabiPlayers != Article1 && MaccabiPlayers != Article2
    ensures OpponentPlayers != IsOvertime && OpponentPlayers != Article1 && OpponentPlayers != Article2
  {
    assert IsOvertime[0] != Article1[0] && IsOvertime[0] != Article2[0] && Article1[4] != Article2[4];
    assert |MaccabiPlayers| != |IsOvertime| && |OpponentPlayers| != |IsOvertime|;
  }

  /** No key of the literal is the flag's or an article's. */
  predicate LacksAdded(base: seq<(string, string)>)
  {
    forall i :: 0 <= i < |base| ==> base[i].0 != IsOvertime && base[i].0 != Article1 && base[i].0 != Article2
  }

  /** A dictionary keyed by the literal's names lacks the added ones. */
  lemma KeyedLacksAdded(base: seq<(string, string)>, ns: seq<string>)
    requires NamesOk(ns) && Keyed(base, ns, BaseCount)
    ensures LacksAdded(base)
  {
    LaterAbsent(base, ns, 41, 41);
    LaterAbsent(base, ns, 41, 42);
    LaterAbsent(base, ns, 41, 43);
  }

  /** After the literal, the overtime flag is there only with overtime, the
    * first article only when there is one and the second only when there
    * are two. */
  lemma ExtendedLookups(base: seq<(string, string)>, overtime: bool, articles: seq<string>, maccabi: string, opponent: string)
    requires LacksAdded(base) && |articles| <= 2
    ensures var args := Extended(base, overtime, articles, maccabi, opponent);
      && Lookup(args, IsOvertime) == (if overtime then Some("כן") else None)
      && Lookup(args, Article1) == (if |articles| > 0 then Some(articles[0]) else None)
      && Lookup(args, Article2) == (if |articles| > 1 then Some(articles[1]) else None)
  {
    AddedNamesDiffer();
    var players := [(MaccabiPlayers, maccabi), (OpponentPlayers, opponent)];
    var f := FlagEntries(overtime);
    var e := ArticleEntries(articles);
    assert base + f + e + players == base + f + (e + players);
    FlagLookup(base, overtime, e + players);
    ArticleLookups(base + f, articles, players);
  }

  /** The game's dictionary is its literal followed by the flag, the
    * articles and the two player lists. */
  lemma ArgumentsAppend<P>(g: Game<P>, render: P -> string, domainOf: string -> string)
    requires ValidDateTime(g.date)
    ensures |Articles(g.gameUrl, domainOf)| <= 2
    ensures Arguments(g, render, domainOf) == Extended(Base(g, render), g.hasOvertime, Articles(g.gameUrl, domainOf),
      BasketballGamesBot.PlayersText(g.maccabiPlayers, render), BasketballGamesBot.PlayersText(g.opponentPlayers, render))
    ensures NamesOk(Names) && Keyed(Base(g, render), Names, BaseCount)
  {
    BaseKeys(g, render);
    ExtendedAppends(Base(g, render), Names, g.hasOvertime, Articles(g.gameUrl, domainOf),
      BasketballGamesBot.PlayersText(g.maccabiPlayers, render), BasketballGamesBot.PlayersText(g.opponentPlayers, render));
  }

  /** The extended dictionary starts with the literal and ends with the two
    * player lists, with the flag and the articles between. */
  lemma ExtendedShape(base: seq<(string, string)>, overtime: bool, articles: seq<string>, maccabi: string, opponent: string)
    requires |articles| <= 2
    ensures var args := Extended(base, overtime, articles, maccabi, opponent);
      && |args| == |base| + (if overtime then 1 else 0) + |articles| + 2
      && args[..|base|] == base
      && args[|args| - 2] == (MaccabiPlayers, maccabi)
      && args[|args| - 1] == (OpponentPlayers, opponent)
  {
    var args := Extended(base, overtime, articles, maccabi, opponent);
    assert args[..|base|] == base;
  }

  /** The game's dictionary starts with its literal and ends with the two
    * player lists, with the flag and the articles between; its keys are
    * distinct and stripped. */
  lemma ArgumentsLayout<P>(g: Game<P>, render: P -> string, domainOf: string -> string)
    requires ValidDateTime(g.date)
    ensures var args := Arguments(g, render, domainOf);
      && |args| == BaseCount + (if g.hasOvertime then 1 else 0) + ArticleCount(g.gameUrl) + 2
      && args[..BaseCount] == Base(g, render)
      && GamesBot.DistinctNames(args) && GamesBot.StrippedNames(args)
      && args[|args| - 2] == (MaccabiPlayers, BasketballGamesBot.PlayersText(g.maccabiPlayers, render))
      && args[|args| - 1] == (OpponentPlayers, BasketballGamesBot.PlayersText(g.opponentPlayers, render))
  {
    ArgumentsAppend(g, render, domainOf);
    var base := Base(g, render);
    var articles := Articles(g.gameUrl, domainOf);
    var mp := BasketballGamesBot.PlayersText(g.maccabiPlayers, render);
    var op := BasketballGamesBot.PlayersText(g.opponentPlayers, render);
    ExtendedAppends(base, Names, g.hasOvertime, articles, mp, op);
    ExtendedShape(base, g.hasOvertime, articles, mp, op);
  }

  /** The game's dictionary holds the overtime flag only for a game with
    * overtime, the first article only when there is a URL and the second
    * only when there are two. */
  lemma ArgumentsLookups<P>(g: Game<P>, render: P -> string, domainOf: string -> string)
    requires ValidDateTime(g.date)
    ensures var args := Arguments(g, render, domainOf);
      && Lookup(args, IsOvertime) == (if g.hasOvertime then Some("כן") else None)
      && Lookup(args, Article1) == (if |g.gameUrl| > 0 then Some(FormatUrl(g.gameUrl[0], domainOf)) else None)
      && Lookup(args, Article2) == (if |g.gameUrl| > 1 then Some(FormatUrl(g.gameUrl[1], domainOf)) else None)
  {
    ArgumentsAppend(g, render, domainOf);
    var base := Base(g, render);
    KeyedLacksAdded(base, Names);
    ExtendedLookups(base, g.hasOvertime, Articles(g.gameUrl, domainOf),
      BasketballGamesBot.PlayersText(g.maccabiPlayers, render), BasketballGamesBot.PlayersText(g.opponentPlayers, render));
  }

  // ----- The new page -----

  /** On a template built from a dictionary with distinct, stripped keys, a
    * key reads its dictionary value and a missing key is no parameter. */
  lemma TemplateLookup(args: seq<(string, string)>, k: string)
    requires GamesBot.DistinctNames(args) && GamesBot.StrippedNames(args)
    ensures var ps := GamesBot.AddedAll([], args);
      && (HasParam(ps, k) <==> Lookup(args, k).Some?)
      && (Lookup(args, k).Some? ==> ValueOf(ps, k) == Lookup(args, k).value)
  {
    var i := KeyIndex(args, k);
    if i >= 0 {
      BasketballGamesBot.NewTemplateValue(args, i);
      var ps := GamesBot.AddedAll([], args);
      assert Trim(args[i].0) == args[i].0;
      assert Key(ps[i]) == k;
    } else {
      TemplateLacks(args, k);
    }
  }

  /** A key no entry has is no parameter of the new template. */
  lemma TemplateLacks(args: seq<(string, string)>, k: string)
    requires GamesBot.DistinctNames(args) && GamesBot.StrippedNames(args)
    requires forall i :: 0 <= i < |args| ==> args[i].0 != k
    ensures !HasParam(GamesBot.AddedAll([], args), k)
  {
    TemplateParams(args);
    var ps := GamesBot.AddedAll([], args);
    forall j | 0 <= j < |ps| ensures Key(ps[j]) != k {
      assert ps[j] == Param(args[j].0, args[j].1);
      assert Trim(args[j].0) == args[j].0;
    }
  }

  /** The text of a new game page: the basketball template with every
    * argument added in order. */
  function NewPageText<P>(g: Game<P>, render: P -> string, domainOf: string -> string): string
    requires ValidDateTime(g.date)
  {
    Render(BasketballGamesBot.TemplateName, GamesBot.AddedAll([], Arguments(g, render, domainOf)))
  }

  /** A template built from a dictionary with distinct, stripped keys holds
    * one parameter per entry, in order. */
  lemma TemplateParams(args: seq<(string, string)>)
    requires GamesBot.DistinctNames(args) && GamesBot.StrippedNames(args)
    ensures |GamesBot.AddedAll([], args)| == |args|
    ensures forall k :: 0 <= k < |args| ==> GamesBot.AddedAll([], args)[k] == Param(args[k].0, args[k].1)
  {
    GamesBot.AddedAllAppends([], args);
  }

  /** A new page's template holds the dictionary's entries in order, one
    * parameter each, starting with the literal's and ending with the two
    * player lists. */
  lemma NewPageParams<P>(g: Game<P>, render: P -> string, domainOf: string -> string)
    requires ValidDateTime(g.date)
    ensures var args := Arguments(g, render, domainOf);
      var ps := GamesBot.AddedAll([], args);
      && |ps| == |args| >= BaseCount + 2
      && (forall k :: 0 <= k < BaseCount ==> ps[k] == Param(args[..BaseCount][k].0, args[..BaseCount][k].1))
      && ps[|ps| - 2] == Param(MaccabiPlayers, BasketballGamesBot.PlayersText(g.maccabiPlayers, render))
      && ps[|ps| - 1] == Param(OpponentPlayers, BasketballGamesBot.PlayersText(g.opponentPlayers, render))
  {
    ArgumentsLayout(g, render, domainOf);
    TemplateParams(Arguments(g, render, domainOf));
  }

  /** A new page has the overtime flag exactly for a game with overtime,
    * the first article exactly when the game has a URL and the second
    * exactly when it has two, each reading its link. */
  lemma NewPageSpec<P>(g: Game<P>, render: P -> string, domainOf: string -> string)
    requires ValidDateTime(g.date)
    ensures var ps := GamesBot.AddedAll([], Arguments(g, render, domainOf));
      && (HasParam(ps, IsOvertime) <==> g.hasOvertime)
      && (g.hasOvertime ==> ValueOf(ps, IsOvertime) == "כן")
      && (HasParam(ps, Article1) <==> |g.gameUrl| > 0)
      && (|g.gameUrl| > 0 ==> ValueOf(ps, Article1) == FormatUrl(g.gameUrl[0], domainOf))
      && (HasParam(ps, Article2) <==> |g.gameUrl| > 1)
      && (|g.gameUrl| > 1 ==> ValueOf(ps, Article2) == FormatUrl(g.gameUrl[1], domainOf))
  {
    ArgumentsLayout(g, render, domainOf);
    ArgumentsLookups(g, render, domainOf);
    var args := Arguments(g, render, domainOf);
    TemplateLookup(args, IsOvertime);
    TemplateLookup(args, Article1);
    TemplateLookup(args, Article2);
  }

  // ----- One game -----

  /** A game's page: its title and the text of a new page for it. */
  function PageOf<P>(g: Game<P>, render: P -> string, domainOf: string -> string): (string, string)
    requires ValidDateTime(g.date)
  {
    (BasketballGamesBot.PageName(g), NewPageText(g, render, domainOf))
  }

  /** `handle_game`: an existing page is skipped unless overwriting, and
    * overwriting it raises NameError; a new page is built and, when
    * saving, written and then prettified, which leaves it as it is. */
  method HandleGame<P>(wiki: map<string, string>, g: Game<P>, render: P -> string, domainOf: string -> string, overwrite: bool, save: bool)
    returns (r: Result<map<string, string>>)
    requires ValidDateTime(g.date)
    ensures r == BasketballGamesBot.Handled(wiki, PageOf(g, render, domainOf), overwrite, save)
  {
    var name := BasketballGamesBot.PageName(g);
    if name in wiki && !overwrite {
      return Ok(wiki);
    }
    if name in wiki {
      return Fail(NameError);
    }
    var args := BuildArguments(g, render, domainOf);
    var t := BasketballGamesBot.HandleNewPage(args);
    if !save {
      return Ok(wiki);
    }
    var text := BasketballGamesBot.SaveNewPage(t);
    return Ok(wiki[name := text]);
  }

  // ----- The upload -----

  /** The page of each game, in order. */
  function Pages<P>(games: seq<Game<P>>, render: P -> string, domainOf: string -> string): seq<(string, string)>
    requires BasketballGamesBot.AllValid(games)
  {
    seq(|games|, i requires 0 <= i < |games| => PageOf(games[i], render, domainOf))
  }

  /** `upload_basketball_games_to_maccabipedia`: every game in turn, never
    * overwriting an existing page. */
  method UploadGames<P>(wiki: map<string, string>, games: seq<Game<P>>, render: P -> string, domainOf: string -> string, save: bool)
    returns (r: map<string, string>)
    requires BasketballGamesBot.AllValid(games)
    ensures r == BasketballGamesBot.Uploaded(wiki, Pages(games, render, domainOf), save)
  {
    var pages := Pages(games, render, domainOf);
    r := wiki;
    for i := 0 to |games|
      invariant r == BasketballGamesBot.Uploaded(wiki, pages[..i], save)
    {
      BasketballGamesBot.UploadedStep(wiki, pages, i, save);
      var next := HandleGame(r, games[i], render, domainOf, false, save);
      r := next.value;
    }
    assert pages[..|pages|] == pages;
  }

  /** Python's `s[a:b]` for non-negative bounds: the bounds are clamped to
    * the length. */
  function Slice<T>(s: seq<T>, a: nat, b: nat): (r: seq<T>)
    ensures |r| == if a <= b && a <= |s| then (if b <= |s| then b else |s|) - a else 0
    ensures forall i :: 0 <= i < |r| ==> r[i] == s[a + i]
  {
    var hi := if b <= |s| then b else |s|;
    if a <= hi then s[a..hi] else []
  }

  /** The games the script uploads: `games[5:10] + games[100:105]`, at most
    * ten, each one of the loaded games. */
  function Selected<T>(games: seq<T>): (r: seq<T>)
    ensures |r| <= 10
    ensures forall i :: 0 <= i < |r| ==> r[i] in games
    ensures |games| >= 105 ==> r == games[5..10] + games[100..105]
  {
    Slice(games, 5, 10) + Slice(games, 100, 105)
  }
}
