/** upload_games_papers_bot.py: newspaper scans named after the game they
  * report on ("מעריב 29-09-1973 הפועל בני נצרת (30.09.1973).jpg") are
  * uploaded to the wiki with a paper template linking the game page, and
  * each file is then moved to the passed, duplicate or failed folder. */
module UploadGamesPapers {
  import opened Wrappers
  import opened Strings
  import opened Dates
  import opened WikiTemplate
  import opened GamesBot
  import opened Paths

  const PaperTemplateName: string := "תיוג עיתונים"
  const PaperNameName: string := "שם עיתון"
  const PublishDateName: string := "תאריך פרסום"
  const RelatedGameName: string := "שיוך משחק"

  /** The formats `_try_to_cast_date_str_to_datetime` tries, in order:
    * `%d-%m-%Y`, `%Y-%m-%d`, `%d.%m.%Y`, `%Y.%m.%d`. */
  const Formats: seq<(FieldOrder, char)> := [(DayFirst, '-'), (YearFirst, '-'), (DayFirst, '.'), (YearFirst, '.')]

  /** `datetime.strptime(s, f)` for the `k`-th format. */
  function ParseWith(s: string, k: nat): Option<Date>
    requires k < |Formats|
  {
    var sep := if k < 2 then '-' else '.';
    assert sep == Formats[k].1;
    ParseDate(s, Formats[k].0, sep)
  }

  /** The first format from the `k`-th on that reads `s`. */
  function CastDateFrom(s: string, k: nat): Result<Date>
    requires k <= |Formats|
    decreases |Formats| - k
  {
    if k == |Formats| then Fail(ValueError)
    else
      match ParseWith(s, k)
      case Some(d) => Ok(d)
      case None => CastDateFrom(s, k + 1)
  }

  /** `_try_to_cast_date_str_to_datetime`. */
  function CastDate(s: string): Result<Date>
  {
    CastDateFrom(s, 0)
  }

  /** Only a string no format from the `k`-th on reads is a ValueError. */
  lemma {:induction false} CastDateFromFails(s: string, k: nat)
    requires k <= |Formats|
    ensures var r := CastDateFrom(s, k);
      && (r.Fail? <==> forall j :: k <= j < |Formats| ==> ParseWith(s, j).None?)
      && (r.Fail? ==> r.error == ValueError)
      && (r.Ok? ==> ValidDate(r.value))
    decreases |Formats| - k
  {
    if k < |Formats| {
      CastDateFromFails(s, k + 1);
    }
  }

  /** The first format from the `k`-th on that reads the string wins. */
  lemma {:induction false} CastDateFromFirst(s: string, k: nat)
    requires k <= |Formats|
    ensures forall j :: (k <= j < |Formats| && ParseWith(s, j).Some?
                         && (forall i :: k <= i < j ==> ParseWith(s, i).None?) ==>
                         CastDateFrom(s, k) == Ok(ParseWith(s, j).value))
    decreases |Formats| - k
  {
    if k < |Formats| {
      CastDateFromFirst(s, k + 1);
    }
  }

  /** The first format that reads the string wins, and only a string no
    * format reads is a ValueError. */
  lemma CastDateFromSpec(s: string, k: nat)
    requires k <= |Formats|
    ensures var r := CastDateFrom(s, k);
      && (r.Fail? <==> forall j :: k <= j < |Formats| ==> ParseWith(s, j).None?)
      && (r.Fail? ==> r.error == ValueError)
      && (r.Ok? ==> ValidDate(r.value))
      && forall j :: (k <= j < |Formats| && ParseWith(s, j).Some?
                      && (forall i :: k <= i < j ==> ParseWith(s, i).None?) ==>
                      r == Ok(ParseWith(s, j).value))
  {
    CastDateFromFails(s, k);
    CastDateFromFirst(s, k);
  }

  /** The loop of `_try_to_cast_date_str_to_datetime`. */
  method TryCastDate(s: string) returns (r: Result<Date>)
    ensures r == CastDate(s)
  {
    var k := 0;
    while k < |Formats|
      invariant 0 <= k <= |Formats|
      invariant CastDateFrom(s, k) == CastDate(s)
    {
      var parsed := ParseWith(s, k);
      if parsed.Some? {
        return Ok(parsed.value);
      }
      k := k + 1;
    }
    r := Fail(ValueError);
  }

  /** A dd-mm-yyyy date is read by the first format. */
  lemma CastDashed(d: Date)
    requires ValidDate(d) && d.year >= 1000
    ensures CastDate(FormatDate(d, DayFirst, '-')) == Ok(d)
  {
    FormatParseRoundTrip(d, DayFirst, '-');
  }

  /** A dd.mm.yyyy date is read by the third, the two formats with '-'
    * failing on it. */
  lemma CastDotted(d: Date)
    requires ValidDate(d) && d.year >= 1000
    ensures CastDate(FormatDate(d, DayFirst, '.')) == Ok(d)
  {
    var f := FormatDate(d, DayFirst, '.');
    FormattedShape(d, '.');
    assert '-' !in f by {
      forall i | 0 <= i < |f| ensures f[i] != '-' {
        if i != 2 && i != 5 {
          assert IsDigit(f[i]);
        }
      }
    }
    SplitNoSeparator(f, '-');
    FormatParseRoundTrip(d, DayFirst, '.');
  }

  /** Ten characters, `sep` at positions 2 and 5, digits elsewhere. */
  predicate DateShape(d: string, sep: char)
  {
    |d| == 10 && d[2] == sep && d[5] == sep
    && forall i :: 0 <= i < 10 && i != 2 && i != 5 ==> IsDigit(d[i])
  }

  lemma FormattedShape(g: Date, sep: char)
    requires ValidDate(g) && g.year >= 1000
    ensures DateShape(FormatDate(g, DayFirst, sep), sep)
  {
    var dd, mm, yyyy := ZeroPad(g.day, 2), ZeroPad(g.month, 2), ZeroPad(g.year, 4);
    ZeroPadTwo(g.day);
    ZeroPadTwo(g.month);
    NatToStringLength(g.year, 4);
    var f := FormatDate(g, DayFirst, sep);
    assert f == dd + [sep] + mm + [sep] + yyyy;
    forall i | 0 <= i < 10 && i != 2 && i != 5 ensures IsDigit(f[i]) {
      if i < 2 {
        assert f[i] == dd[i];
      } else if i < 5 {
        assert f[i] == mm[i - 3];
      } else {
        assert f[i] == yyyy[i - 6];
      }
    }
  }

  /** What a paper's file name says: the paper, the game's date and
    * possibly the date the paper was published. */
  datatype PaperDetails = PaperDetails(name: string, gameDate: Date, publishDate: Option<Date>)

  predicate ValidDetails(p: PaperDetails)
  {
    ValidDate(p.gameDate) && (p.publishDate.Some? ==> ValidDate(p.publishDate.value))
  }

  /** The ten characters of a date match at `i`. */
  function DateText(s: string, i: int): string
    requires 0 <= i && i + 10 <= |s|
  {
    s[i..i + 10]
  }

  /** The game's date of `_parse_paper_file_name`: RuntimeError for more
    * than two dd-dd-dddd dates, TypeError for none, otherwise the first one
    * read by `CastDate`. */
  function GameDateOf(stem: string): (r: Result<Date>)
    ensures r.Ok? ==> ValidDate(r.value)
  {
    var games := FindAllDatePatterns(stem, '-', 0);
    if |games| > 2 then Fail(RuntimeError)
    else if |games| == 0 then Fail(TypeError)
    else
      CastDateFromSpec(DateText(stem, games[0]), 0);
      CastDate(DateText(stem, games[0]))
  }

  /** The paper's name: the PAPER_NAME override when set, otherwise the
    * text before the game's date with '_' as ' ', stripped. */
  function PaperNameOf(stem: string, env: Option<string>): string
    requires FindDatePattern(stem, '-', 0) >= 0
  {
    var gameText := DateText(stem, FindDatePattern(stem, '-', 0));
    env.GetOr(Trim(Replace(Split(stem, gameText)[0], "_", " ")))
  }

  /** The publish date: the first dd.dd.dddd date read by `CastDate`, or
    * None when there is none. */
  function PublishDateOf(stem: string): (r: Result<Option<Date>>)
    ensures r.Ok? && r.value.Some? ==> ValidDate(r.value.value)
  {
    var i := FindDatePattern(stem, '.', 0);
    if i < 0 then Ok(None) else CastPublishDate(DateText(stem, i))
  }

  function CastPublishDate(text: string): (r: Result<Option<Date>>)
    ensures r.Ok? ==> r.value.Some? && ValidDate(r.value.value)
  {
    CastDateFromSpec(text, 0);
    match CastDate(text)
    case Fail(e) => Fail(e)
    case Ok(d) => Ok(Some(d))
  }

  /** `_parse_paper_file_name`: the game's date, then the name
    * (RuntimeError when blank), then the publish date. */
  function ParsePaperFileName(stem: string, env: Option<string>): (r: Result<PaperDetails>)
    ensures r.Ok? ==> ValidDetails(r.value) && !IsBlank(r.value.name)
  {
    match GameDateOf(stem)
    case Fail(e) => Fail(e)
    case Ok(gameDate) =>
      var name := PaperNameOf(stem, env);
      if IsBlank(name) then Fail(RuntimeError)
      else
        match PublishDateOf(stem)
        case Fail(e) => Fail(e)
        case Ok(publishDate) => Ok(PaperDetails(name, gameDate, publishDate))
  }

  /** The error cases of the file name, in the order they are checked. */
  lemma ParsePaperFileNameErrors(stem: string, env: Option<string>)
    ensures |FindAllDatePatterns(stem, '-', 0)| > 2 ==> ParsePaperFileName(stem, env) == Fail(RuntimeError)
    ensures FindDatePattern(stem, '-', 0) < 0 ==> ParsePaperFileName(stem, env) == Fail(TypeError)
    ensures env.Some? && IsBlank(env.value) ==> ParsePaperFileName(stem, env).Fail?
    ensures env.Some? && ParsePaperFileName(stem, env).Ok? ==> ParsePaperFileName(stem, env).value.name == env.value
    ensures ParsePaperFileName(stem, env).Ok? ==> ParsePaperFileName(stem, env).value.gameDate == GameDateOf(stem).value
  {
  }

  /** No character of a digit-free text starts a date. */
  predicate DigitFree(s: string)
  {
    forall i :: 0 <= i < |s| ==> !IsDigit(s[i])
  }

  /** After a dd-mm-yyyy date and a text without '-', no other
    * dd-dd-dddd date is found. */
  lemma NoDashedDateAfter(prefix: string, date: string, rest: string)
    requires |date| == 10 && '-' !in rest
    ensures FindDatePattern(prefix + date + rest, '-', |prefix| + 10) == -1
  {
    var s := prefix + date + rest;
    forall j | |prefix| + 10 <= j ensures !DatePatternAt(s, j, '-') {
      if j + 10 <= |s| {
        assert s[j + 2] == rest[j + 2 - |prefix| - 10];
      }
    }
  }

  /** A date matching in the rest matches at the same place in the whole. */
  lemma PatternShift(a: string, rest: string, sep: char)
    ensures forall k :: 0 <= k ==> (DatePatternAt(a + rest, |a| + k, sep) <==> DatePatternAt(rest, k, sep))
  {
    forall j | |a| <= j < |a + rest| ensures (a + rest)[j] == rest[j - |a|] {
    }
  }

  /** No dd.dd.dddd date starts in a digit-free prefix or in the
    * dashed date after it, when what follows starts with neither a digit
    * nor a dot. */
  lemma NoDottedBefore(prefix: string, d: string, rest: string)
    requires DigitFree(prefix) && DateShape(d, '-')
    requires |rest| > 0 ==> !IsDigit(rest[0]) && rest[0] != '.'
    ensures forall j :: 0 <= j < |prefix| + 10 ==> !DatePatternAt(prefix + d + rest, j, '.')
  {
    var s := prefix + d + rest;
    forall j | 0 <= j < |prefix| + 10 ensures !DatePatternAt(s, j, '.') {
      if j < |prefix| {
        assert s[j] == prefix[j];
      } else if j - |prefix| + 2 < 10 {
        var k := j - |prefix| + 2;
        assert s[j + 2] == d[k];
        assert k == 2 || k == 5 || IsDigit(d[k]);
      } else if j + 10 <= |s| && j - |prefix| == 8 {
        assert s[j + 2] == rest[0];
      } else if j + 10 <= |s| {
        assert s[j + 1] == rest[0];
      }
    }
  }

  /** The first dd.dd.dddd date of `prefix + dashed + rest` is the first
    * one in `rest`, when the prefix has no digit and `rest` starts with
    * neither a digit nor a dot. */
  lemma FirstDottedInRest(prefix: string, d: string, rest: string)
    requires DigitFree(prefix) && DateShape(d, '-')
    requires |rest| > 0 ==> !IsDigit(rest[0]) && rest[0] != '.'
    ensures var k := FindDatePattern(rest, '.', 0);
      var s := prefix + d + rest;
      && (k < 0 ==> FindDatePattern(s, '.', 0) == -1)
      && (k >= 0 ==> FindDatePattern(s, '.', 0) == |prefix| + 10 + k && DateText(s, |prefix| + 10 + k) == DateText(rest, k))
  {
    var s := prefix + d + rest;
    var a := prefix + d;
    assert s == a + rest;
    NoDottedBefore(prefix, d, rest);
    var k := FindDatePattern(rest, '.', 0);
    if k >= 0 {
      NoPatternUpTo(a, rest, '.', k);
      PatternShift(a, rest, '.');
      FirstPatternAt(s, '.', |a| + k);
      DateTextShift(a, rest, k);
    } else {
      NoPatternUpTo(a, rest, '.', |rest|);
      NoPatternAtAll(s, '.');
    }
  }

  /** No date pattern in the head, nor in the tail before k, means none in
    * the whole before the head's length plus k. */
  lemma NoPatternUpTo(a: string, rest: string, sep: char, k: nat)
    requires forall j :: 0 <= j < |a| ==> !DatePatternAt(a + rest, j, sep)
    requires forall j :: 0 <= j < k ==> !DatePatternAt(rest, j, sep)
    ensures forall j :: 0 <= j < |a| + k ==> !DatePatternAt(a + rest, j, sep)
  {
    PatternShift(a, rest, sep);
    forall j | |a| <= j < |a| + k ensures !DatePatternAt(a + rest, j, sep) {
      assert !DatePatternAt(rest, j - |a|, sep);
    }
  }

  /** A text with no date pattern anywhere gives -1. */
  lemma NoPatternAtAll(s: string, sep: char)
    requires forall j :: 0 <= j < |s| ==> !DatePatternAt(s, j, sep)
    ensures FindDatePattern(s, sep, 0) == -1
  {
  }

  /** A date pattern with none before it is the one the search finds. */
  lemma FirstPatternAt(s: string, sep: char, r: nat)
    requires DatePatternAt(s, r, sep) && forall j :: 0 <= j < r ==> !DatePatternAt(s, j, sep)
    ensures FindDatePattern(s, sep, 0) == r
  {
  }

  /** A date inside the tail reads the same in the whole text. */
  lemma DateTextShift(a: string, rest: string, k: nat)
    requires k + 10 <= |rest|
    ensures DateText(a + rest, |a| + k) == DateText(rest, k)
  {
    assert (a + rest)[|a| + k..|a| + k + 10] == rest[k..k + 10];
  }

  /** In a digit-free prefix followed by a dashed date and text without
    * '-', the dashed date is the one dd-dd-dddd date found. */
  lemma DashedFound(prefix: string, d: string, rest: string)
    requires DigitFree(prefix) && DateShape(d, '-') && '-' !in rest
    ensures FindAllDatePatterns(prefix + d + rest, '-', 0) == [|prefix|]
  {
    var s := prefix + d + rest;
    forall m | 0 <= m < 10 ensures s[|prefix| + m] == d[m] {
    }
    assert DatePatternAt(s, |prefix|, '-');
    forall j | 0 <= j < |prefix| ensures !DatePatternAt(s, j, '-') {
      assert s[j] == prefix[j];
    }
    NoDashedDateAfter(prefix, d, rest);
  }

  /** The text before the first occurrence of a date that starts with a
    * digit is the digit-free prefix in front of it. */
  lemma NameBeforeDate(prefix: string, d: string, rest: string)
    requires DigitFree(prefix) && |d| > 0 && IsDigit(d[0])
    ensures Split(prefix + d + rest, d)[0] == prefix
  {
    var s := prefix + d + rest;
    assert s[|prefix|..|prefix| + |d|] == d;
    assert OccursAt(s, d, |prefix|);
    forall j | 0 <= j < |prefix| ensures !OccursAt(s, d, j) {
      assert s[j] == prefix[j];
      if j + |d| <= |s| {
        assert s[j..j + |d|][0] == s[j];
      }
    }
    assert Find(s, d) == |prefix|;
    assert s[..|prefix|] == prefix;
  }

  /** A file name of the documented form, paper name, game date, then
    * text without '-' that starts with neither a digit nor a dot, is read
    * back as that paper and that game date, with the publish date the
    * first dd.dd.dddd date of the text after the game date. */
  lemma PaperFileNameRoundTrip(prefix: string, g: Date, rest: string)
    requires DigitFree(prefix) && ValidDate(g) && g.year >= 1000
    requires '-' !in rest && (|rest| > 0 ==> !IsDigit(rest[0]) && rest[0] != '.')
    requires !IsBlank(Trim(Replace(prefix, "_", " ")))
    ensures var stem := prefix + FormatDate(g, DayFirst, '-') + rest;
      var name := Trim(Replace(prefix, "_", " "));
      ParsePaperFileName(stem, None) ==
        match PublishDateOf(rest)
        case Fail(e) => Fail(e)
        case Ok(p) => Ok(PaperDetails(name, g, p))
  {
    RoundTripGame(prefix, g, rest);
    RoundTripPublish(prefix, g, rest);
  }

  /** The three parts of the round trip: game date, name, publish date. */
  lemma RoundTripGame(prefix: string, g: Date, rest: string)
    requires DigitFree(prefix) && ValidDate(g) && g.year >= 1000 && '-' !in rest
    ensures GameDateOf(prefix + FormatDate(g, DayFirst, '-') + rest) == Ok(g)
    ensures FindDatePattern(prefix + FormatDate(g, DayFirst, '-') + rest, '-', 0) >= 0
    ensures PaperNameOf(prefix + FormatDate(g, DayFirst, '-') + rest, None) == Trim(Replace(prefix, "_", " "))
  {
    var d := FormatDate(g, DayFirst, '-');
    FormattedShape(g, '-');
    CastDashed(g);
    GamePart(prefix, d, rest);
    NamePart(prefix, d, rest);
  }

  lemma RoundTripPublish(prefix: string, g: Date, rest: string)
    requires DigitFree(prefix) && ValidDate(g) && g.year >= 1000
    requires |rest| > 0 ==> !IsDigit(rest[0]) && rest[0] != '.'
    ensures PublishDateOf(prefix + FormatDate(g, DayFirst, '-') + rest) == PublishDateOf(rest)
  {
    var d := FormatDate(g, DayFirst, '-');
    FormattedShape(g, '-');
    PublishPart(prefix, d, rest);
  }

  lemma PublishPart(prefix: string, d: string, rest: string)
    requires DigitFree(prefix) && DateShape(d, '-')
    requires |rest| > 0 ==> !IsDigit(rest[0]) && rest[0] != '.'
    ensures PublishDateOf(prefix + d + rest) == PublishDateOf(rest)
  {
    var s := prefix + d + rest;
    FirstDottedInRest(prefix, d, rest);
    var k := FindDatePattern(rest, '.', 0);
    var i := FindDatePattern(s, '.', 0);
    if k >= 0 {
      var t := DateText(rest, k);
      assert DateText(s, i) == t;
    }
  }

  lemma GamePart(prefix: string, d: string, rest: string)
    requires DigitFree(prefix) && DateShape(d, '-') && '-' !in rest
    ensures GameDateOf(prefix + d + rest) == CastDate(d)
    ensures FindDatePattern(prefix + d + rest, '-', 0) == |prefix|
  {
    var stem := prefix + d + rest;
    DashedFound(prefix, d, rest);
    assert DateText(stem, |prefix|) == d;
  }

  lemma NamePart(prefix: string, d: string, rest: string)
    requires DigitFree(prefix) && DateShape(d, '-') && '-' !in rest
    ensures FindDatePattern(prefix + d + rest, '-', 0) >= 0
    ensures PaperNameOf(prefix + d + rest, None) == Trim(Replace(prefix, "_", " "))
  {
    var stem := prefix + d + rest;
    DashedFound(prefix, d, rest);
    assert DateText(stem, |prefix|) == d;
    NameBeforeDate(prefix, d, rest);
  }

  /** A dotted date between two dash-free strings leaves them dash-free. */
  lemma DashFreeAround(middle: string, p: Date, tail: string)
    requires ValidDate(p) && p.year >= 1000 && '-' !in middle && '-' !in tail
    ensures var rest := middle + FormatDate(p, DayFirst, '.') + tail;
      forall i :: 0 <= i < |rest| ==> rest[i] != '-'
  {
    var dotted := FormatDate(p, DayFirst, '.');
    var rest := middle + dotted + tail;
    FormattedShape(p, '.');
    forall i | 0 <= i < |rest| ensures rest[i] != '-' {
      if i < |middle| {
        assert rest[i] == middle[i];
      } else if i < |middle| + 10 {
        assert rest[i] == dotted[i - |middle|];
        if i - |middle| != 2 && i - |middle| != 5 {
          assert IsDigit(dotted[i - |middle|]);
        }
      } else {
        assert rest[i] == tail[i - |middle| - 10];
      }
    }
  }

  /** The documented example: "מעריב 29-09-1973 הפועל (30.09.1973)" names
    * the paper, the game's date and the publish date. */
  lemma PaperFileNameExample(prefix: string, g: Date, middle: string, p: Date, tail: string)
    requires DigitFree(prefix) && ValidDate(g) && g.year >= 1000 && ValidDate(p) && p.year >= 1000
    requires DigitFree(middle) && '-' !in middle && '-' !in tail && |middle| > 0 && middle[0] != '.'
    requires !IsBlank(Trim(Replace(prefix, "_", " ")))
    ensures var stem := prefix + FormatDate(g, DayFirst, '-') + middle + FormatDate(p, DayFirst, '.') + tail;
      ParsePaperFileName(stem, None) == Ok(PaperDetails(Trim(Replace(prefix, "_", " ")), g, Some(p)))
  {
    var rest := middle + FormatDate(p, DayFirst, '.') + tail;
    RegroupTail(prefix, FormatDate(g, DayFirst, '-'), middle, FormatDate(p, DayFirst, '.'), tail);
    DashFreeAround(middle, p, tail);
    assert rest[0] == middle[0];
    PublishDateFound(middle, p, tail);
    PaperFileNameRoundTrip(prefix, g, rest);
  }

  lemma RegroupTail(a: string, b: string, c: string, d: string, e: string)
    ensures a + b + c + d + e == a + b + (c + d + e)
  {
  }

  /** A dotted date after digit-free text is the publish date. */
  lemma PublishDateFound(middle: string, p: Date, tail: string)
    requires DigitFree(middle) && ValidDate(p) && p.year >= 1000
    ensures PublishDateOf(middle + FormatDate(p, DayFirst, '.') + tail) == Ok(Some(p))
  {
    CastDotted(p);
    FormattedDateFound(middle, p, '.', tail);
  }

  function Abs(x: int): nat
  {
    if x < 0 then -x else x
  }

  /** `PaperGameDetails.to_mediawiki_template`: the paper's name, its
    * publish date when known, and the page of the one game played on the
    * game's date; RuntimeError when the publish date is more than a week
    * from the game or not exactly one game was played that day. The games
    * come from the statistics library, here `playedAt`. */
  function PaperTemplate<T, S>(p: PaperDetails, playedAt: Date -> seq<FootballGame<T, S>>): Result<seq<Param>>
    requires ValidDetails(p)
    requires forall day, k :: 0 <= k < |playedAt(day)| ==> WellFormed(playedAt(day)[k])
  {
    var withDate := DatedTemplate(p);
    if p.publishDate.Some? && Abs(Ordinal(p.publishDate.value) - Ordinal(p.gameDate)) > 7 then Fail(RuntimeError)
    else
      var games := playedAt(p.gameDate);
      if |games| != 1 then Fail(RuntimeError)
      else Ok(Added(withDate, RelatedGameName, PageName(games[0])))
  }

  /** The template's name and, when known, publish date parameters. */
  function DatedTemplate(p: PaperDetails): seq<Param>
    requires ValidDetails(p)
  {
    var withName := Added([], PaperNameName, p.name + "\n");
    if p.publishDate.Some? then Added(withName, PublishDateName, FormatDate(p.publishDate.value, DayFirst, '-') + "\n")
    else withName
  }

  /** The name and publish date parameters hold their values, and there is
    * no other parameter. */
  lemma DatedTemplateSpec(p: PaperDetails)
    requires ValidDetails(p)
    ensures var t := DatedTemplate(p);
      && ValueOf(t, PaperNameName) == p.name + "\n"
      && (HasParam(t, PublishDateName) <==> p.publishDate.Some?)
      && (p.publishDate.Some? ==> ValueOf(t, PublishDateName) == FormatDate(p.publishDate.value, DayFirst, '-') + "\n")
      && forall other :: other != PaperNameName && other != PublishDateName ==> !HasParam(t, other)
  {
    TemplateNamesDiffer();
    var withName := Added([], PaperNameName, p.name + "\n");
    AddedHasValue([], PaperNameName, p.name + "\n");
    if p.publishDate.Some? {
      var v := FormatDate(p.publishDate.value, DayFirst, '-') + "\n";
      AddedHasValue(withName, PublishDateName, v);
      AddedOthers(withName, PublishDateName, v, PaperNameName);
    }
  }

  lemma TemplateNamesDiffer()
    ensures Trim(PaperNameName) == PaperNameName && Trim(PublishDateName) == PublishDateName
    ensures Trim(RelatedGameName) == RelatedGameName
    ensures PaperNameName != PublishDateName && PaperNameName != RelatedGameName && PublishDateName != RelatedGameName
  {
    TrimUnchanged(PaperNameName);
    TrimUnchanged(PublishDateName);
    TrimUnchanged(RelatedGameName);
    assert |PaperNameName| == 8 && |PublishDateName| == 11 && |RelatedGameName| == 9;
  }

  /** The template names the paper, carries the publish date exactly when
    * one is known, and links the one game of that day; it fails exactly
    * when the dates are more than seven days apart or the day does not
    * have exactly one game. */
  lemma PaperTemplateSpec<T, S>(p: PaperDetails, playedAt: Date -> seq<FootballGame<T, S>>)
    requires ValidDetails(p)
    requires forall day, k :: 0 <= k < |playedAt(day)| ==> WellFormed(playedAt(day)[k])
    ensures var r := PaperTemplate(p, playedAt);
      && (r.Fail? <==> (p.publishDate.Some? && Abs(Ordinal(p.publishDate.value) - Ordinal(p.gameDate)) > 7)
                       || |playedAt(p.gameDate)| != 1)
      && (r.Fail? ==> r.error == RuntimeError)
      && (r.Ok? ==>
            && ValueOf(r.value, PaperNameName) == p.name + "\n"
            && (HasParam(r.value, PublishDateName) <==> p.publishDate.Some?)
            && (p.publishDate.Some? ==> ValueOf(r.value, PublishDateName) == FormatDate(p.publishDate.value, DayFirst, '-') + "\n")
            && ValueOf(r.value, RelatedGameName) == PageName(playedAt(p.gameDate)[0])
            && forall other :: other != PaperNameName && other != PublishDateName && other != RelatedGameName ==>
                 !HasParam(r.value, other))
  {
    PaperTemplateFails(p, playedAt);
    if PaperTemplate(p, playedAt).Ok? {
      PaperTemplateContents(p, playedAt);
    }
  }

  /** The template fails, with RuntimeError, exactly when the dates are too
    * far apart or the day does not have one game. */
  lemma PaperTemplateFails<T, S>(p: PaperDetails, playedAt: Date -> seq<FootballGame<T, S>>)
    requires ValidDetails(p)
    requires forall day, k :: 0 <= k < |playedAt(day)| ==> WellFormed(playedAt(day)[k])
    ensures var r := PaperTemplate(p, playedAt);
      && (r.Fail? <==> (p.publishDate.Some? && Abs(Ordinal(p.publishDate.value) - Ordinal(p.gameDate)) > 7)
                       || |playedAt(p.gameDate)| != 1)
      && (r.Fail? ==> r.error == RuntimeError)
  {
  }

  /** A template that builds holds the name, the publish date when known and
    * the game's page, and nothing else. */
  lemma PaperTemplateContents<T, S>(p: PaperDetails, playedAt: Date -> seq<FootballGame<T, S>>)
    requires ValidDetails(p)
    requires forall day, k :: 0 <= k < |playedAt(day)| ==> WellFormed(playedAt(day)[k])
    requires PaperTemplate(p, playedAt).Ok?
    ensures var t := PaperTemplate(p, playedAt).value;
      && ValueOf(t, PaperNameName) == p.name + "\n"
      && (HasParam(t, PublishDateName) <==> p.publishDate.Some?)
      && (p.publishDate.Some? ==> ValueOf(t, PublishDateName) == FormatDate(p.publishDate.value, DayFirst, '-') + "\n")
      && ValueOf(t, RelatedGameName) == PageName(playedAt(p.gameDate)[0])
      && forall other :: other != PaperNameName && other != PublishDateName && other != RelatedGameName ==>
           !HasParam(t, other)
  {
    TemplateNamesDiffer();
    DatedTemplateSpec(p);
    var withDate := DatedTemplate(p);
    var v := PageName(playedAt(p.gameDate)[0]);
    var t := Added(withDate, RelatedGameName, v);
    assert PaperTemplate(p, playedAt).value == t;
    AddedHasValue(withDate, RelatedGameName, v);
    AddedOthers(withDate, RelatedGameName, v, PaperNameName);
    AddedOthers(withDate, RelatedGameName, v, PublishDateName);
  }

  /** The wiki file name: the file's name behind "<PAPER_NAME> " unless
    * it already starts with that. */
  function FinalName(fileName: string, paper: string): (r: string)
    ensures StartsWith(r, paper + " ")
  {
    var prefix := paper + " ";
    if StartsWith(fileName, prefix) then fileName else prefix + fileName
  }

  /** The prefix goes on once: a name that has it is kept. */
  lemma FinalNameOnce(fileName: string, paper: string)
    ensures FinalName(FinalName(fileName, paper), paper) == FinalName(fileName, paper)
    ensures StartsWith(fileName, paper + " ") <==> FinalName(fileName, paper) == fileName
  {
    var prefix := paper + " ";
    if FinalName(fileName, paper) == fileName {
      assert StartsWith(fileName, prefix);
    }
  }

  /** `UploadGamesPapers._handle_paper` up to the upload: the name to
    * upload under and the page text. A missing PAPER_NAME stops it; an
    * existing file page is a DuplicatePage. */
  function HandlePaper<T, S>(fileName: string, env: Option<string>, wiki: map<string, string>,
                             playedAt: Date -> seq<FootballGame<T, S>>): Result<(string, string)>
    requires forall day, k :: 0 <= k < |playedAt(day)| ==> WellFormed(playedAt(day)[k])
  {
    if env.None? then Fail(PlainException)
    else
      var final := FinalName(fileName, env.value);
      if final in wiki then Fail(DuplicatePage)
      else
        match ParsePaperFileName(Stem(fileName), env)
        case Fail(e) => Fail(e)
        case Ok(details) =>
          match PaperTemplate(details, playedAt)
          case Fail(e) => Fail(e)
          case Ok(ps) => Ok((final, Render(PaperTemplateName + "\n", ps)))
  }

  /** A page already on the wiki is never uploaded over. */
  lemma HandlePaperNeverOverwrites<T, S>(fileName: string, env: Option<string>, wiki: map<string, string>,
                                         playedAt: Date -> seq<FootballGame<T, S>>)
    requires forall day, k :: 0 <= k < |playedAt(day)| ==> WellFormed(playedAt(day)[k])
    ensures var r := HandlePaper(fileName, env, wiki, playedAt);
      && (r.Ok? ==> r.value.0 !in wiki && env.Some? && StartsWith(r.value.0, env.value + " "))
      && (env.Some? && FinalName(fileName, env.value) in wiki ==> r == Fail(DuplicatePage))
      && (env.None? ==> r == Fail(PlainException))
  {
  }

  /** The folder a file ends in. */
  datatype Folder = Passed | Duplicate | Failed

  function Route<X>(r: Result<X>): Folder
  {
    if r.Ok? then Passed else if r.error == DuplicatePage then Duplicate else Failed
  }

  /** Where the run of the upload loop over `files` leaves things: the
    * files in each folder, in order, and the wiki's file pages. A later
    * file sees the pages the earlier ones created. */
  datatype UploadState = UploadState(passed: seq<string>, duplicate: seq<string>, failed: seq<string>, wiki: map<string, string>)

  /** One file moved to the folder its outcome names; a successful one
    * is uploaded first. */
  function Moved(before: UploadState, f: string, r: Result<(string, string)>): UploadState
  {
    match Route(r)
    case Passed => before.(passed := before.passed + [f], wiki := before.wiki[r.value.0 := r.value.1])
    case Duplicate => before.(duplicate := before.duplicate + [f])
    case Failed => before.(failed := before.failed + [f])
  }

  /** A move adds the file to exactly one folder and keeps every page
    * that was there, when the outcome is never a page that exists. */
  lemma MovedSpec(before: UploadState, f: string, r: Result<(string, string)>)
    requires r.Ok? ==> r.value.0 !in before.wiki
    ensures var after := Moved(before, f, r);
      && multiset(after.passed) + multiset(after.duplicate) + multiset(after.failed)
         == multiset(before.passed) + multiset(before.duplicate) + multiset(before.failed) + multiset{f}
      && forall page :: page in before.wiki ==> page in after.wiki && after.wiki[page] == before.wiki[page]
  {
  }

  /** A move adds the file to exactly one folder, whatever the outcome. */
  predicate Partitions(o: UploadState, files: seq<string>)
  {
    multiset(o.passed) + multiset(o.duplicate) + multiset(o.failed) == multiset(files)
  }

  lemma MovedFolders(before: UploadState, f: string, r: Result<(string, string)>, done: seq<string>)
    requires Partitions(before, done)
    ensures Partitions(Moved(before, f, r), done + [f])
  {
  }

  function Uploaded<T, S>(files: seq<string>, env: Option<string>, wiki: map<string, string>,
                          playedAt: Date -> seq<FootballGame<T, S>>): UploadState
    requires forall day, k :: 0 <= k < |playedAt(day)| ==> WellFormed(playedAt(day)[k])
    decreases |files|
  {
    if |files| == 0 then UploadState([], [], [], wiki)
    else
      var before := Uploaded(files[..|files| - 1], env, wiki, playedAt);
      var f := files[|files| - 1];
      Moved(before, f, HandlePaper(f, env, before.wiki, playedAt))
  }

  /** Every file ends in exactly one folder, and the wiki only gains pages:
    * no page that was there is changed. */
  lemma UploadedPartition<T, S>(files: seq<string>, env: Option<string>, wiki: map<string, string>,
                                playedAt: Date -> seq<FootballGame<T, S>>)
    requires forall day, k :: 0 <= k < |playedAt(day)| ==> WellFormed(playedAt(day)[k])
    ensures var o := Uploaded(files, env, wiki, playedAt);
      && multiset(o.passed) + multiset(o.duplicate) + multiset(o.failed) == multiset(files)
      && forall page :: page in wiki ==> page in o.wiki && o.wiki[page] == wiki[page]
  {
    UploadedFolders(files, env, wiki, playedAt);
    UploadedKeepsPages(files, env, wiki, playedAt);
  }

  lemma {:induction false} UploadedFolders<T, S>(files: seq<string>, env: Option<string>, wiki: map<string, string>,
                                                 playedAt: Date -> seq<FootballGame<T, S>>)
    requires forall day, k :: 0 <= k < |playedAt(day)| ==> WellFormed(playedAt(day)[k])
    ensures Partitions(Uploaded(files, env, wiki, playedAt), files)
    decreases |files|
  {
    if |files| > 0 {
      var init := files[..|files| - 1];
      var f := files[|files| - 1];
      UploadedFolders(init, env, wiki, playedAt);
      var before := Uploaded(init, env, wiki, playedAt);
      assert files == init + [f];
      MovedFolders(before, f, HandlePaper(f, env, before.wiki, playedAt), init);
    }
  }

  lemma {:induction false} UploadedKeepsPages<T, S>(files: seq<string>, env: Option<string>, wiki: map<string, string>,
                                                    playedAt: Date -> seq<FootballGame<T, S>>)
    requires forall day, k :: 0 <= k < |playedAt(day)| ==> WellFormed(playedAt(day)[k])
    ensures var o := Uploaded(files, env, wiki, playedAt);
      forall page :: page in wiki ==> page in o.wiki && o.wiki[page] == wiki[page]
    decreases |files|
  {
    if |files| > 0 {
      var init := files[..|files| - 1];
      var f := files[|files| - 1];
      UploadedKeepsPages(init, env, wiki, playedAt);
      var before := Uploaded(init, env, wiki, playedAt);
      var r := HandlePaper(f, env, before.wiki, playedAt);
      assert Uploaded(files, env, wiki, playedAt) == Moved(before, f, r);
      HandlePaperNeverOverwrites(f, env, before.wiki, playedAt);
      MovedSpec(before, f, r);
    }
  }

  /** A state whose folders already held `p`, `d` and `f` before the run. */
  function Prefixed(p: seq<string>, d: seq<string>, f: seq<string>, o: UploadState): UploadState
  {
    UploadState(p + o.passed, d + o.duplicate, f + o.failed, o.wiki)
  }

  /** Files already in the folders stay ahead of the ones a move adds. */
  lemma MovedPrefixed(p: seq<string>, d: seq<string>, f: seq<string>, o: UploadState, x: string,
                      r: Result<(string, string)>)
    ensures Moved(Prefixed(p, d, f, o), x, r) == Prefixed(p, d, f, Moved(o, x, r))
  {
    match Route(r)
    case Passed => assert p + o.passed + [x] == p + (o.passed + [x]);
    case Duplicate => assert d + o.duplicate + [x] == d + (o.duplicate + [x]);
    case Failed => assert f + o.failed + [x] == f + (o.failed + [x]);
  }

  /** One more file extends the run by one move. */
  lemma UploadedStep<T, S>(files: seq<string>, i: nat, env: Option<string>, wiki: map<string, string>,
                           playedAt: Date -> seq<FootballGame<T, S>>)
    requires forall day, k :: 0 <= k < |playedAt(day)| ==> WellFormed(playedAt(day)[k])
    requires i < |files|
    ensures var before := Uploaded(files[..i], env, wiki, playedAt);
      Uploaded(files[..i + 1], env, wiki, playedAt)
        == Moved(before, files[i], HandlePaper(files[i], env, before.wiki, playedAt))
  {
    assert files[..i + 1][..i] == files[..i];
  }

  /** The folders and the wiki's file pages the bot works on. */
  class PaperFolders {
    var input: seq<string>
    var passed: seq<string>
    var duplicate: seq<string>
    var failed: seq<string>
    var wiki: map<string, string>

    constructor(files: seq<string>, wiki: map<string, string>)
      ensures input == files && passed == [] && duplicate == [] && failed == [] && this.wiki == wiki
    {
      input := files;
      passed := [];
      duplicate := [];
      failed := [];
      this.wiki := wiki;
    }

    /** The output folders and the wiki. */
    function State(): UploadState
      reads this
    {
      UploadState(passed, duplicate, failed, wiki)
    }

    /** `UploadGamesPapers.upload_papers`: each input file is handled and
      * moved to the folder its outcome names; a successful one is uploaded
      * first. */
    method UploadPapers<T, S>(env: Option<string>, playedAt: Date -> seq<FootballGame<T, S>>)
      requires forall day, k :: 0 <= k < |playedAt(day)| ==> WellFormed(playedAt(day)[k])
      modifies this
      ensures input == []
      ensures State() == Prefixed(old(passed), old(duplicate), old(failed), Uploaded(old(input), env, old(wiki), playedAt))
    {
      ghost var files, p0, d0, f0, w0 := input, passed, duplicate, failed, wiki;
      ghost var i := 0;
      while input != []
        invariant 0 <= i <= |files| && input == files[i..]
        invariant State() == Prefixed(p0, d0, f0, Uploaded(files[..i], env, w0, playedAt))
        decreases |input|
      {
        HandleNext(env, playedAt, files, i, p0, d0, f0, w0);
        i := i + 1;
      }
      assert files[..i] == files;
    }

    /** One iteration: the first input file is handled and moved. */
    method HandleNext<T, S>(env: Option<string>, playedAt: Date -> seq<FootballGame<T, S>>,
                            ghost files: seq<string>, ghost i: nat, ghost p0: seq<string>, ghost d0: seq<string>,
                            ghost f0: seq<string>, ghost w0: map<string, string>)
      requires forall day, k :: 0 <= k < |playedAt(day)| ==> WellFormed(playedAt(day)[k])
      requires i < |files| && input == files[i..]
      requires State() == Prefixed(p0, d0, f0, Uploaded(files[..i], env, w0, playedAt))
      modifies this
      ensures input == files[i + 1..]
      ensures State() == Prefixed(p0, d0, f0, Uploaded(files[..i + 1], env, w0, playedAt))
    {
      var f := input[0];
      var r := HandlePaper(f, env, wiki, playedAt);
      UploadedStep(files, i, env, w0, playedAt);
      MovedPrefixed(p0, d0, f0, Uploaded(files[..i], env, w0, playedAt), f, r);
      MoveFile(f, r);
    }

    /** The rename at the end of one iteration: out of the input folder and
      * into the one the outcome names, the upload first when it passed. */
    method MoveFile(f: string, r: Result<(string, string)>)
      requires |input| > 0
      modifies this
      ensures input == old(input[1..])
      ensures State() == Moved(old(State()), f, r)
    {
      match Route(r) {
        case Passed =>
          wiki := wiki[r.value.0 := r.value.1];
          passed := passed + [f];
        case Duplicate =>
          duplicate := duplicate + [f];
        case Failed =>
          failed := failed + [f];
      }
      input := input[1..];
    }
  }
}
