/** gamesbot_volleyball.py: volleyball games read from the folder tree of
  * scanned papers, "season/competition/details", and the wiki page name
  * of each game. */
module VolleyballFolders {
  import opened Wrappers
  import opened Strings
  import opened Dates

  const MaccabiName: string := "מכבי תל אביב"
  const PagePrefix: string := "כדורעף"

  /** A game as the folder names describe it. */
  datatype FolderGame = FolderGame(
    date: Date,
    fixture: string,
    opponent: string,
    homeGame: bool,
    competition: string,
    season: string)

  /** `home_team`: the club at home, the opponent away. */
  function HomeTeam(g: FolderGame): (t: string)
    ensures g.homeGame ==> t == MaccabiName
    ensures !g.homeGame ==> t == g.opponent
  {
    if g.homeGame then MaccabiName else g.opponent
  }

  /** `away_team`: the opponent at home, the club away. */
  function AwayTeam(g: FolderGame): (t: string)
    ensures g.homeGame ==> t == g.opponent
    ensures !g.homeGame ==> t == MaccabiName
  {
    if g.homeGame then g.opponent else MaccabiName
  }

  /** The season folder "עונת X-Y" as the wiki writes seasons: the word
    * removed, the rest stripped, its dashes made slashes. */
  function SeasonName(raw: string): string
  {
    Replace(Trim(Replace(raw, "עונת", "")), "-", "/")
  }

  lemma NoSpaceIn(s: string)
    requires AllDigits(s)
    ensures ' ' !in s && '-' !in s && 'ע' !in s
  {
    assert forall i :: 0 <= i < |s| ==> s[i] != ' ' && s[i] != '-' && s[i] != 'ע';
  }

  /** "עונת 1990-91" names the season 1990/91. */
  lemma SeasonNameSpec(x: string, y: string)
    requires |x| > 0 && AllDigits(x) && |y| > 0 && AllDigits(y)
    ensures SeasonName("עונת " + x + "-" + y) == x + "/" + y
  {
    var u := x + "-" + y;
    var t := " " + u;
    NoSpaceIn(x);
    NoSpaceIn(y);
    assert "עונת " + x + "-" + y == "עונת" + t;
    SeasonWordRemoved(t);
    assert Stripped(u) by {
      assert u[0] == x[0] && IsDigit(x[0]);
      assert u[|u| - 1] == y[|y| - 1] && IsDigit(y[|y| - 1]);
    }
    TrimPadded(u);
    DashesToSlashes(x, y);
  }

  lemma SeasonWordRemoved(t: string)
    requires 'ע' !in t
    ensures Replace("עונת" + t, "עונת", "") == t
  {
    assert ("עונת" + t)[..4] == "עונת";
    assert ("עונת" + t)[4..] == t;
    AbsentByFirstChar(t, "עונת");
    ReplaceAbsent(t, "עונת", "");
  }

  lemma DashesToSlashes(x: string, y: string)
    requires '-' !in x && '-' !in y
    ensures Replace(x + "-" + y, "-", "/") == x + "/" + y
  {
    var u := x + "-" + y;
    ReplaceChar(u, '-', '/');
    var r := Replace(u, "-", "/");
    forall i | 0 <= i < |u|
      ensures r[i] == (x + "/" + y)[i]
    {
      if i < |x| {
        assert u[i] == x[i];
      } else if i > |x| {
        assert u[i] == y[i - |x| - 1];
      }
    }
  }

  /** A competition is a cup iff its name holds "גביע". */
  predicate IsTrophy(competition: string)
  {
    Contains(competition, "גביע")
  }

  /** The words of the fourth part that make the game a home game. */
  const HomeWords: set<string> := {"בית", "נייטרלי"}

  /** `map(str.strip, parts)`. */
  function TrimAll(parts: seq<string>): (r: seq<string>)
    ensures |r| == |parts| && forall i :: 0 <= i < |parts| ==> r[i] == Trim(parts[i])
  {
    seq(|parts|, i requires 0 <= i < |parts| => Trim(parts[i]))
  }

  /** `build_volleyball_game_from_folder` on the three relative parts of
    * a folder: a wrong number of parts or of dash-separated details, or a
    * date that is not dd.mm.yyyy, is a ValueError; a league game that does
    * not say home or away is a RuntimeError. */
  function BuildGameFromFolder(parts: seq<string>): (r: Result<FolderGame>)
    ensures r.Ok? ==> |parts| == 3 && r.value.competition == parts[1] && r.value.season == SeasonName(parts[0])
    ensures r.Ok? ==> var pieces := TrimAll(Split(parts[2], "-"));
      && |pieces| >= 3
      && r.value.fixture == pieces[0] && r.value.opponent == pieces[1]
      && ParseDate(pieces[2], DayFirst, '.') == Some(r.value.date)
      && (r.value.homeGame <==> |pieces| == 3 || pieces[3] in HomeWords)
      && (|pieces| == 3 ==> IsTrophy(parts[1]))
    ensures (|parts| == 3 && !IsTrophy(parts[1]) && |Split(parts[2], "-")| == 3
             && ParseDate(Trim(Split(parts[2], "-")[2]), DayFirst, '.').Some?) ==> r == Fail(RuntimeError)
  {
    if |parts| != 3 then Fail(ValueError)
    else
      var season := SeasonName(parts[0]);
      var competition := parts[1];
      var pieces := TrimAll(Split(parts[2], "-"));
      if |pieces| < 3 then Fail(ValueError)
      else
        match ParseDate(pieces[2], DayFirst, '.')
        case None => Fail(ValueError)
        case Some(d) =>
          var rest := pieces[3..];
          if !IsTrophy(competition) && rest == [] then Fail(RuntimeError)
          else Ok(FolderGame(d, pieces[0], pieces[1], rest == [] || rest[0] in HomeWords, competition, season))
  }

  /** The details folder the papers use: "fixture - opponent - dd.mm.yyyy -
    * בית" (or "חוץ"). */
  function DetailsName(g: FolderGame): string
    requires ValidDate(g.date)
  {
    Join(Spaced(g.fixture, g.opponent, FormatDate(g.date, DayFirst, '.'), if g.homeGame then "בית" else "חוץ"), "-")
  }

  lemma DateTextChars(d: Date)
    requires ValidDate(d)
    ensures var s := FormatDate(d, DayFirst, '.'); '-' !in s && |s| > 0 && s[0] !in Whitespace && s[|s| - 1] !in Whitespace
  {
    var dd, mm, yyyy := ZeroPad(d.day, 2), ZeroPad(d.month, 2), ZeroPad(d.year, 4);
    NoSpaceIn(dd);
    NoSpaceIn(mm);
    NoSpaceIn(yyyy);
    var s := FormatDate(d, DayFirst, '.');
    assert s == dd + ['.'] + mm + ['.'] + yyyy;
    assert s[0] == dd[0] && IsDigit(dd[0]);
    DigitNotWhitespace(dd[0]);
    assert s[|s| - 1] == yyyy[|yyyy| - 1] && IsDigit(yyyy[|yyyy| - 1]);
    DigitNotWhitespace(yyyy[|yyyy| - 1]);
  }

  /** Four texts joined by dashes, spaced as the papers' folders are. */
  function Spaced(a: string, b: string, c: string, d: string): seq<string>
  {
    [a + " ", " " + b + " ", " " + c + " ", " " + d]
  }

  /** Four dash-free texts joined by " - " split back into the texts
    * with the spaces around the dashes. */
  lemma SplitFour(a: string, b: string, c: string, d: string)
    requires '-' !in a && '-' !in b && '-' !in c && '-' !in d
    ensures Split(Join(Spaced(a, b, c, d), "-"), "-") == Spaced(a, b, c, d)
  {
    var parts := Spaced(a, b, c, d);
    forall k | 0 <= k < 4
      ensures '-' !in parts[k]
    {
    }
    SplitJoin(parts, '-');
  }

  /** The pieces of a split, stripped, are the stripped texts. */
  lemma TrimFour(a: string, b: string, c: string, d: string)
    requires Stripped(a) && Stripped(b) && Stripped(c) && Stripped(d)
    ensures TrimAll(Spaced(a, b, c, d)) == [a, b, c, d]
  {
    TrimPadded(a);
    TrimPadded(b);
    TrimPadded(c);
    TrimPadded(d);
  }

  /** The details folder of a game splits back into its four stripped
    * pieces. */
  lemma DetailsPieces(g: FolderGame)
    requires ValidDate(g.date)
    requires '-' !in g.fixture && '-' !in g.opponent && Stripped(g.fixture) && Stripped(g.opponent)
    ensures TrimAll(Split(DetailsName(g), "-"))
              == [g.fixture, g.opponent, FormatDate(g.date, DayFirst, '.'), if g.homeGame then "בית" else "חוץ"]
  {
    var date := FormatDate(g.date, DayFirst, '.');
    var word := if g.homeGame then "בית" else "חוץ";
    DateTextChars(g.date);
    assert Stripped(date);
    HomeWordPiece(g.homeGame);
    SplitFour(g.fixture, g.opponent, date, word);
    TrimFour(g.fixture, g.opponent, date, word);
  }

  /** A game's folders read back as the game: its season folder "עונת X-Y"
    * and its details folder written as the papers write them. */
  lemma FolderRoundTrip(g: FolderGame, x: string, y: string)
    requires ValidDate(g.date) && g.date.year >= 1000
    requires '-' !in g.fixture && '-' !in g.opponent && Stripped(g.fixture) && Stripped(g.opponent)
    requires |x| > 0 && AllDigits(x) && |y| > 0 && AllDigits(y) && g.season == x + "/" + y
    ensures BuildGameFromFolder(["עונת " + x + "-" + y, g.competition, DetailsName(g)]) == Ok(g)
  {
    SeasonNameSpec(x, y);
    HomeWordRead(g.homeGame);
    var date := FormatDate(g.date, DayFirst, '.');
    var word := if g.homeGame then "בית" else "חוץ";
    var parts := ["עונת " + x + "-" + y, g.competition, DetailsName(g)];
    DetailsPieces(g);
    DateReadsBack(g.date);
    BuildFromPieces(parts, g.fixture, g.opponent, date, word, g.date);
  }

  /** The word written for home and away games is one piece of the
    * details. */
  lemma HomeWordPiece(home: bool)
    ensures var word := if home then "בית" else "חוץ";
      '-' !in word && Stripped(word)
  {
    var word := if home then "בית" else "חוץ";
    assert Visible(word[0]) && Visible(word[|word| - 1]);
    VisibleEndsStripped(word);
  }

  /** The word written for home and away games reads back as the same. */
  lemma HomeWordRead(home: bool)
    ensures ((if home then "בית" else "חוץ") in HomeWords) == home
  {
    if !home {
      assert "חוץ"[0] != "בית"[0] && "חוץ"[0] != "נייטרלי"[0];
    }
  }

  /** A folder whose details are four pieces with a date reads as a game. */
  lemma BuildFromPieces(parts: seq<string>, fixture: string, opponent: string, dateText: string, word: string, d: Date)
    requires |parts| == 3 && TrimAll(Split(parts[2], "-")) == [fixture, opponent, dateText, word]
    requires ParseDate(dateText, DayFirst, '.') == Some(d)
    ensures BuildGameFromFolder(parts) == Ok(FolderGame(d, fixture, opponent, word in HomeWords, parts[1], SeasonName(parts[0])))
  {
    assert TrimAll(Split(parts[2], "-"))[3..] == [word];
  }

  lemma DateReadsBack(d: Date)
    requires ValidDate(d) && d.year >= 1000
    ensures ParseDate(FormatDate(d, DayFirst, '.'), DayFirst, '.') == Some(d)
  {
    FormatParseRoundTrip(d, DayFirst, '.');
  }

  /** The games of the folders three levels below the root, in order;
    * folders that fail to parse are skipped. */
  function FolderGames(folders: seq<seq<string>>): seq<FolderGame>
    decreases |folders|
  {
    if folders == [] then []
    else
      var last := folders[|folders| - 1];
      var game := BuildGameFromFolder(last);
      FolderGames(folders[..|folders| - 1]) + (if |last| == 3 && game.Ok? then [game.value] else [])
  }

  /** Every folder three levels deep that parses gives its game, and every
    * game comes from such a folder. */
  lemma FolderGamesSpec(folders: seq<seq<string>>)
    ensures |FolderGames(folders)| <= |folders|
    ensures forall f :: f in folders && BuildGameFromFolder(f).Ok? ==> BuildGameFromFolder(f).value in FolderGames(folders)
    ensures forall g :: g in FolderGames(folders) ==> exists f :: f in folders && BuildGameFromFolder(f) == Ok(g)
  {
    FolderGamesCover(folders);
    FolderGamesFrom(folders);
  }

  lemma {:induction false} FolderGamesCover(folders: seq<seq<string>>)
    ensures |FolderGames(folders)| <= |folders|
    ensures forall f :: f in folders && BuildGameFromFolder(f).Ok? ==> BuildGameFromFolder(f).value in FolderGames(folders)
    decreases |folders|
  {
    if folders != [] {
      var init := folders[..|folders| - 1];
      FolderGamesCover(init);
      FolderGamesPrefix(folders);
      forall f | f in folders && BuildGameFromFolder(f).Ok?
        ensures BuildGameFromFolder(f).value in FolderGames(folders)
      {
        InitOrLast(folders, f);
        if f == folders[|folders| - 1] {
          LastFolderGame(folders);
        }
      }
    }
  }

  /** The games of all folders but the last are games of all folders. */
  lemma FolderGamesPrefix(folders: seq<seq<string>>)
    requires folders != []
    ensures forall g :: g in FolderGames(folders[..|folders| - 1]) ==> g in FolderGames(folders)
  {
  }

  /** A member of a non-empty list is its last element or in the rest. */
  lemma InitOrLast<T>(xs: seq<T>, x: T)
    requires x in xs
    ensures x == xs[|xs| - 1] || x in xs[..|xs| - 1]
  {
    var i :| 0 <= i < |xs| && xs[i] == x;
    if i < |xs| - 1 {
      assert xs[..|xs| - 1][i] == x;
    }
  }

  /** The last folder's game, when it has one, closes the list. */
  lemma LastFolderGame(folders: seq<seq<string>>)
    requires folders != [] && BuildGameFromFolder(folders[|folders| - 1]).Ok?
    ensures BuildGameFromFolder(folders[|folders| - 1]).value in FolderGames(folders)
  {
    var last := folders[|folders| - 1];
    assert |last| == 3;
  }

  lemma {:induction false} FolderGamesFrom(folders: seq<seq<string>>)
    ensures forall g :: g in FolderGames(folders) ==> exists f :: f in folders && BuildGameFromFolder(f) == Ok(g)
    decreases |folders|
  {
    if folders != [] {
      var init, last := folders[..|folders| - 1], folders[|folders| - 1];
      FolderGamesFrom(init);
      assert folders == init + [last];
      forall g | g in FolderGames(folders)
        ensures exists f :: f in folders && BuildGameFromFolder(f) == Ok(g)
      {
        if g in FolderGames(init) {
          var f :| f in init && BuildGameFromFolder(f) == Ok(g);
          assert f in folders;
        } else {
          assert last in folders;
        }
      }
    }
  }

  /** `get_volleyball_games` over the relative parts of the folders the
    * walk visits. */
  method GetVolleyballGames(folders: seq<seq<string>>) returns (games: seq<FolderGame>)
    ensures games == FolderGames(folders)
  {
    games := [];
    for i := 0 to |folders|
      invariant games == FolderGames(folders[..i])
    {
      assert folders[..i + 1][..i] == folders[..i];
      var folder := folders[i];
      if |folder| != 3 {
        continue;
      }
      var game := BuildGameFromFolder(folder);
      if game.Ok? {
        games := games + [game.value];
      }
    }
    assert folders[..|folders|] == folders;
  }

  /** `generate_page_name_from_game`: "כדורעף:{dd-mm-yyyy} {home} נגד
    * {away} - {competition}". */
  function PageName(g: FolderGame): (r: string)
    requires ValidDate(g.date)
    ensures StartsWith(r, PagePrefix + ":")
    ensures EndsWith(r, " - " + g.competition)
  {
    var prefix := PagePrefix + ":";
    var tail := " - " + g.competition;
    var r := prefix + FormatDate(g.date, DayFirst, '-') + " " + HomeTeam(g) + " נגד " + AwayTeam(g) + tail;
    assert r[..|prefix|] == prefix;
    assert r[|r| - |tail|..] == tail;
    r
  }

  /** The page name starts with the game's date, which reads back, and
    * names the home side before "נגד" and the away side after it. */
  lemma PageNameSpec(g: FolderGame)
    requires ValidDate(g.date) && g.date.year >= 1000
    ensures var r := PageName(g); var n := |PagePrefix| + 1;
      n + 10 <= |r| && ParseDate(r[n..n + 10], DayFirst, '-') == Some(g.date)
    ensures Contains(PageName(g), HomeTeam(g) + " נגד " + AwayTeam(g))
  {
    var date := FormatDate(g.date, DayFirst, '-');
    DashedDate(g.date);
    PageNameParts(PagePrefix + ":", date, HomeTeam(g), AwayTeam(g), " - " + g.competition);
  }

  lemma DashedDate(d: Date)
    requires ValidDate(d) && d.year >= 1000
    ensures var s := FormatDate(d, DayFirst, '-'); |s| == 10 && ParseDate(s, DayFirst, '-') == Some(d)
  {
    ZeroPadTwo(d.day);
    ZeroPadTwo(d.month);
    NatToStringLength(d.year, 4);
    FormatParseRoundTrip(d, DayFirst, '-');
  }

  lemma PageNameParts(prefix: string, date: string, home: string, away: string, tail: string)
    ensures var r := prefix + date + " " + home + " נגד " + away + tail;
      r[|prefix|..|prefix| + |date|] == date && Contains(r, home + " נגד " + away)
  {
    var teams := home + " נגד " + away;
    var r := prefix + date + " " + home + " נגד " + away + tail;
    assert r == prefix + date + " " + teams + tail;
    assert r[|prefix|..|prefix| + |date|] == date;
    var k := |prefix| + |date| + 1;
    assert r[k..k + |teams|] == teams;
    ContainsAt(r, teams, k);
  }
}
