/** add_publish_date_for_papers.py: a Maariv newspaper scan whose title
  * carries its date in brackets, "(31.12.1970)", gets that date as the
  * publish-date argument of its paper template. */
module PaperPublishDate {
  import opened Wrappers
  import opened Strings
  import opened Dates
  import opened WikiTemplate

  const PaperTemplateName: string := "תיוג עיתונים"
  const PublishDateName: string := "תאריך פרסום"

  /** A character of the bracket group's class `[\d.]`. */
  predicate DateChar(c: char)
  {
    IsDigit(c) || c == '.'
  }

  /** Where the run of `[\d.]` characters starting at `j` ends. */
  function RunEnd(s: string, j: nat): (e: nat)
    requires j <= |s|
    ensures j <= e <= |s|
    ensures forall k :: j <= k < e ==> DateChar(s[k])
    ensures e == |s| || !DateChar(s[e])
    decreases |s| - j
  {
    if j < |s| && DateChar(s[j]) then RunEnd(s, j + 1) else j
  }

  /** The regular expression `\([\d.]*\)` matches at `i`: an opening
    * bracket, digits and dots, and a closing bracket right after the
    * longest such run (a shorter run is followed by a digit or a dot, never
    * by ')'). */
  predicate GroupAt(s: string, i: int)
  {
    0 <= i < |s| && s[i] == '(' && RunEnd(s, i + 1) < |s| && s[RunEnd(s, i + 1)] == ')'
  }

  /** `re.search`: the leftmost match from `from`, or -1. */
  function FindGroup(s: string, from: nat): (r: int)
    ensures r == -1 || (from <= r && GroupAt(s, r))
    ensures r == -1 ==> forall j :: from <= j ==> !GroupAt(s, j)
    ensures r >= 0 ==> forall j :: from <= j < r ==> !GroupAt(s, j)
    decreases |s| - from
  {
    if from >= |s| then -1
    else if GroupAt(s, from) then from
    else FindGroup(s, from + 1)
  }

  /** `match.group()[1:-1]`: the text between the brackets. */
  function GroupText(s: string, i: int): string
    requires GroupAt(s, i)
  {
    s[i + 1..RunEnd(s, i + 1)]
  }

  /** `_extract_paper_page_from_title`: the first bracket group read as
    * `%d.%m.%Y` and written as `%d-%m-%Y`; None when there is no group or
    * the first one is not such a date. */
  function PublishDateOf(title: string): (r: Option<string>)
    ensures r.Some? ==> |r.value| == 10
  {
    var i := FindGroup(title, 0);
    if i < 0 then None
    else
      match ParseDate(GroupText(title, i), DayFirst, '.')
      case None => None
      case Some(d) =>
        ZeroPadTwo(d.day);
        ZeroPadTwo(d.month);
        FourDigitYear(d.year);
        Some(FormatDate(d, DayFirst, '-'))
  }

  lemma FourDigitYear(y: int)
    requires 1 <= y <= 9999
    ensures |ZeroPad(y, 4)| == 4
  {
    if y >= 1000 {
      NatToStringLength(y, 4);
    } else if y >= 100 {
      NatToStringLength(y, 3);
    } else if y >= 10 {
      NatToStringLength(y, 2);
    } else {
      NatToStringLength(y, 1);
    }
  }

  /** A title without a bracket group of digits and dots has no date. */
  lemma NoGroupNoDate(title: string)
    requires forall i :: !GroupAt(title, i)
    ensures PublishDateOf(title) == None
  {
  }

  /** The date found denotes the same day as the first bracket group,
    * now with '-' between its fields. */
  lemma PublishDateReadsBack(title: string)
    requires PublishDateOf(title).Some?
    ensures var i := FindGroup(title, 0);
      i >= 0 && ParseDate(GroupText(title, i), DayFirst, '.').Some?
      && (ParseDate(GroupText(title, i), DayFirst, '.').value.year >= 1000 ==>
            ParseDate(PublishDateOf(title).value, DayFirst, '-') == ParseDate(GroupText(title, i), DayFirst, '.'))
  {
    var i := FindGroup(title, 0);
    var d := ParseDate(GroupText(title, i), DayFirst, '.').value;
    if d.year >= 1000 {
      FormatParseRoundTrip(d, DayFirst, '-');
    }
  }

  /** The characters of a date written with dots are all of the class
    * `[\d.]`. */
  lemma DottedDateChars(d: Date)
    requires ValidDate(d)
    ensures forall k :: 0 <= k < |FormatDate(d, DayFirst, '.')| ==> DateChar(FormatDate(d, DayFirst, '.')[k])
  {
    var dd, mm, yyyy := ZeroPad(d.day, 2), ZeroPad(d.month, 2), ZeroPad(d.year, 4);
    var f := FormatDate(d, DayFirst, '.');
    assert f == dd + ['.'] + mm + ['.'] + yyyy;
    forall k | 0 <= k < |f| ensures DateChar(f[k]) {
      if k < |dd| {
        assert f[k] == dd[k];
      } else if k == |dd| {
      } else if k < |dd| + 1 + |mm| {
        assert f[k] == mm[k - |dd| - 1];
      } else if k == |dd| + 1 + |mm| {
      } else {
        assert f[k] == yyyy[k - |dd| - 2 - |mm|];
      }
    }
  }

  /** Only the first bracket group counts: when it holds a date of
    * digits and dots, the publish date is that date with dashes, whatever
    * follows it, and when it holds digits and dots that are no date, there
    * is no publish date even if a later group has one. */
  lemma FirstGroupDecides(prefix: string, inner: string, rest: string)
    requires '(' !in prefix
    requires forall k :: 0 <= k < |inner| ==> DateChar(inner[k])
    ensures var title := prefix + "(" + inner + ")" + rest;
      PublishDateOf(title) ==
        match ParseDate(inner, DayFirst, '.')
        case None => None
        case Some(d) => PublishDateOf("(" + inner + ")")
  {
    var title := prefix + "(" + inner + ")" + rest;
    var p := |prefix|;
    RunAcross(title, p + 1, inner);
    assert GroupAt(title, p);
    forall j | 0 <= j < p ensures !GroupAt(title, j) {
      assert title[j] == prefix[j];
    }
    assert FindGroup(title, 0) == p;
    assert GroupText(title, p) == inner;
    GroupAlone(inner);
  }

  /** A bracket group on its own is found, and its text is what is
    * between the brackets. */
  lemma GroupAlone(inner: string)
    requires forall k :: 0 <= k < |inner| ==> DateChar(inner[k])
    ensures var alone := "(" + inner + ")";
      FindGroup(alone, 0) == 0 && GroupText(alone, 0) == inner
  {
    var alone := "(" + inner + ")";
    RunAcross(alone, 1, inner);
    assert GroupAt(alone, 0);
  }

  lemma {:induction false} RunAcross(s: string, j: nat, inner: string)
    requires j + |inner| < |s| && s[j..j + |inner|] == inner && s[j + |inner|] == ')'
    requires forall k :: 0 <= k < |inner| ==> DateChar(inner[k])
    ensures RunEnd(s, j) == j + |inner|
    decreases |inner|
  {
    if |inner| > 0 {
      assert s[j] == inner[0];
      assert s[j + 1..j + 1 + |inner[1..]|] == inner[1..];
      RunAcross(s, j + 1, inner[1..]);
    }
  }

  /** A paper dated 31.12.1970 in its title gets the publish date
    * 31-12-1970. */
  lemma PublishDateRoundTrip(prefix: string, d: Date, rest: string)
    requires ValidDate(d) && d.year >= 1000
    requires '(' !in prefix
    ensures PublishDateOf(prefix + "(" + FormatDate(d, DayFirst, '.') + ")" + rest) == Some(FormatDate(d, DayFirst, '-'))
  {
    var inner := FormatDate(d, DayFirst, '.');
    DottedDateChars(d);
    FirstGroupDecides(prefix, inner, rest);
    FormatParseRoundTrip(d, DayFirst, '.');
    GroupAlone(inner);
  }

  /** The template edit of `handle_maariv_paper_page`: skipped when the
    * argument's name already shows anywhere in the template's text,
    * otherwise the argument is added. */
  function WithPublishDate(name: string, ps: seq<Param>, date: string): seq<Param>
  {
    if Contains(Render(name, ps), PublishDateName) then ps else Added(ps, PublishDateName, date)
  }

  /** An existing publish date is never replaced; a missing one is added
    * with the given date; no other argument changes; and a second run
    * changes nothing. */
  lemma WithPublishDateSpec(name: string, ps: seq<Param>, date: string)
    ensures var r := WithPublishDate(name, ps, date);
      && (HasParam(ps, PublishDateName) ==> r == ps)
      && (Contains(Render(name, ps), PublishDateName) ==> r == ps)
      && (!Contains(Render(name, ps), PublishDateName) ==>
            HasParam(r, PublishDateName) && ValueOf(r, PublishDateName) == date)
      && (forall other :: other != PublishDateName ==> GetParam(r, other) == GetParam(ps, other))
      && WithPublishDate(name, r, date) == r
  {
    TrimUnchanged(PublishDateName);
    var r := WithPublishDate(name, ps, date);
    if HasParam(ps, PublishDateName) {
      KeyInRender(name, ps, LastIndexOf(ps, PublishDateName));
    }
    AddedHasValue(ps, PublishDateName, date);
    forall other | other != PublishDateName
      ensures GetParam(Added(ps, PublishDateName, date), other) == GetParam(ps, other)
    {
      GetParamAdded(ps, PublishDateName, date, other);
    }
    if !Contains(Render(name, ps), PublishDateName) {
      KeyInRender(name, r, LastIndexOf(r, PublishDateName));
    }
  }

  /** `handle_maariv_paper_page` on a page's templates: nothing happens
    * without a date in the title; otherwise the page's first template gets
    * the date unless its text already names the argument. That template may
    * have any name: the name is passed positionally where the parser
    * expects `recursive`, and a page without templates raises IndexError.
    * The result says whether the page changed. */
  method HandleMaarivPaperPage(title: string, ts: seq<Template>) returns (r: Result<bool>)
    modifies set t | t in ts
    ensures var date := PublishDateOf(title);
      var i := FirstTemplateAsWritten(old(TemplateNames(ts)), PaperTemplateName);
      && (date.None? ==> r == Ok(false))
      && (date.Some? && i.Fail? ==> r == Fail(IndexError))
      && (date.Some? && i.Ok? ==>
            && ts[i.value].name == old(ts[i.value].name)
            && ts[i.value].params == WithPublishDate(old(ts[i.value].name), old(ts[i.value].params), date.value)
            && r == Ok(!Contains(old(ts[i.value].Text()), PublishDateName)))
      && forall t :: t in ts && (date.None? || i.Fail? || t != ts[i.value]) ==>
           t.name == old(t.name) && t.params == old(t.params)
  {
    var date := PublishDateOf(title);
    if date.None? {
      return Ok(false);
    }
    var i := FirstTemplateAsWritten(TemplateNames(ts), PaperTemplateName);
    if i.Fail? {
      return Fail(i.error);
    }
    var t := ts[i.value];
    if t.ContainsText(PublishDateName) {
      return Ok(false);
    }
    t.Add(PublishDateName, date.value);
    r := Ok(true);
  }
}
