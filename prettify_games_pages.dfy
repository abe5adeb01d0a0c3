/** prettify_games_pages.py: puts every parameter of a football game
  * template on its own line. */
module PrettifyGamesPages {
  import opened Strings
  import opened WikiTemplate

  const GamesTemplateName: string := "קטלוג משחקים"
  const PlayersEventsName: string := "אירועי שחקנים"
  const Newline: set<char> := {'\n'}

  /** `name.strip("\n")`. */
  function StripNewlines(s: string): string
  {
    Strip(s, Newline)
  }

  /** The template name with a newline after it, added only when missing. */
  function NameWithNewline(name: string): (r: string)
    ensures EndsWith(r, "\n")
    ensures EndsWith(name, "\n") ==> r == name
    ensures !EndsWith(name, "\n") ==> r == name + "\n"
  {
    if EndsWith(name, "\n") then name else name + "\n"
  }

  /** One parameter value as the loop body writes it: a trailing newline
    * first, then a leading newline for the players events parameter
    * (compared by its raw name) or the leading newlines stripped from any
    * other value that is not exactly "\n". */
  function PrettifiedValueAsWritten(name: string, value: string): string
  {
    var v1 := if EndsWith(value, "\n") then value else value + "\n";
    if name == PlayersEventsName then (if StartsWith(v1, "\n") then v1 else "\n" + v1)
    else if StartsWith(v1, "\n") && v1 != "\n" then LStrip(v1, Newline)
    else v1
  }

  /** A value of two newlines, an empty value written over two lines, comes
    * out empty, so the next parameter starts on the same line. */
  lemma AsWrittenEmptiesTwoNewlines()
    ensures PrettifiedValueAsWritten("שופטים", "\n\n") == ""
  {
    assert "\n\n"[1..] == "\n" && "\n"[1..] == "";
  }

  /** A players events parameter whose raw name carries a newline is
    * treated as an ordinary one on the first pass and as the players events
    * on the second, so a second pass changes the page again. */
  lemma AsWrittenSecondPassDiffers()
    ensures var name := PlayersEventsName + "\n";
      var first := PrettifiedValueAsWritten(name, "a");
      StripNewlines(name) == PlayersEventsName
      && first == "a\n"
      && PrettifiedValueAsWritten(StripNewlines(name), first) == "\na\n"
  {
    var name := PlayersEventsName + "\n";
    assert name != PlayersEventsName by { assert |name| != |PlayersEventsName|; }
    assert LStrip(name, Newline) == name by { assert name[0] !in Newline; }
    assert RStrip(name, Newline) == RStrip(PlayersEventsName, Newline) by {
      assert name[|name| - 1] in Newline;
      assert name[..|name| - 1] == PlayersEventsName;
    }
    StripUnchanged(PlayersEventsName, Newline);
    assert StripNewlines(name) == PlayersEventsName;
    assert !StartsWith("a\n", "\n") by { assert "a\n"[0] == 'a'; }
  }

  /** The evidently intended value: the leading newlines handled first
    * (by the newline-stripped name, as the name ends up), then a trailing
    * newline added when missing. */
  function PrettifiedValue(name: string, value: string): string
  {
    var v1 :=
      if StripNewlines(name) == PlayersEventsName then (if StartsWith(value, "\n") then value else "\n" + value)
      else if StartsWith(value, "\n") && value != "\n" then LStrip(value, Newline)
      else value;
    if EndsWith(v1, "\n") then v1 else v1 + "\n"
  }

  /** The two differ only on the values the written order empties. */
  lemma PrettifiedValueAgrees(value: string)
    requires value != "" && !(forall i :: 0 <= i < |value| ==> value[i] == '\n')
    ensures PrettifiedValue("שופטים", value) == PrettifiedValueAsWritten("שופטים", value)
  {
    TrimUnchanged("שופטים");
    var name := "שופטים";
    assert StripNewlines(name) == name by {
      StripUnchanged(name, Newline);
    }
    assert name != PlayersEventsName by { assert |name| != |PlayersEventsName|; }
    if StartsWith(value, "\n") {
      LeadingNewlineAgrees(value);
    } else {
      assert value != "\n";
      assert !StartsWith(value + "\n", "\n");
    }
  }

  /** A value with a leading newline and other text: stripping the front and
    * adding the final newline commute. */
  lemma LeadingNewlineAgrees(value: string)
    requires StartsWith(value, "\n") && exists i :: 0 <= i < |value| && value[i] !in Newline
    ensures var v1 := if EndsWith(value, "\n") then value else value + "\n";
      var l := LStrip(value, Newline);
      && value != "\n" && StartsWith(v1, "\n") && v1 != "\n"
      && LStrip(v1, Newline) == if EndsWith(l, "\n") then l else l + "\n"
  {
    var l := LStrip(value, Newline);
    LStripSpec(value, Newline);
    assert |l| > 0;
    if !EndsWith(value, "\n") {
      LStripConcat(value, "\n");
      assert l[|l| - 1] == value[|value| - 1];
      assert (value + "\n")[0] == value[0];
    } else {
      assert l == value[|value| - |l|..];
      assert l[|l| - 1] == value[|value| - 1];
    }
  }

  /** `lstrip` of a string that does not reduce to nothing only looks at its front. */
  lemma {:induction false} LStripConcat(s: string, t: string)
    requires exists i :: 0 <= i < |s| && s[i] !in Newline
    ensures LStrip(s + t, Newline) == LStrip(s, Newline) + t
  {
    if s[0] in Newline {
      assert (s + t)[1..] == s[1..] + t;
      var i :| 0 <= i < |s| && s[i] !in Newline;
      assert s[1..][i - 1] == s[i];
      LStripConcat(s[1..], t);
    }
  }

  /** After the pass every value ends with a newline; the players events
    * value also starts with one, any other value is "\n" or starts with
    * something else. */
  lemma PrettifiedValueSpec(name: string, value: string)
    ensures var r := PrettifiedValue(name, value);
      && EndsWith(r, "\n")
      && (StripNewlines(name) == PlayersEventsName ==> StartsWith(r, "\n"))
      && (StripNewlines(name) != PlayersEventsName ==> r == "\n" || !StartsWith(r, "\n"))
  {
    if StripNewlines(name) != PlayersEventsName && StartsWith(value, "\n") && value != "\n" {
      LStripSpec(value, Newline);
    }
  }

  /** A second pass over a prettified parameter changes nothing. */
  lemma PrettifiedValueIdempotent(name: string, value: string)
    ensures PrettifiedValue(StripNewlines(name), PrettifiedValue(name, value)) == PrettifiedValue(name, value)
  {
    StripIdempotent(name, Newline);
    PrettifiedValueSpec(name, value);
  }

  function PrettifiedParam(p: Param): Param
  {
    Param(StripNewlines(p.name), PrettifiedValue(p.name, p.value))
  }

  function Prettified(ps: seq<Param>): (r: seq<Param>)
    ensures |r| == |ps| && forall k :: 0 <= k < |ps| ==> r[k] == PrettifiedParam(ps[k])
  {
    seq(|ps|, k requires 0 <= k < |ps| => PrettifiedParam(ps[k]))
  }

  /** The whole pass is idempotent: names, values, count and order. */
  lemma PrettifiedIdempotent(name: string, ps: seq<Param>)
    ensures NameWithNewline(NameWithNewline(name)) == NameWithNewline(name)
    ensures Prettified(Prettified(ps)) == Prettified(ps)
  {
    forall k | 0 <= k < |ps| ensures PrettifiedParam(PrettifiedParam(ps[k])) == PrettifiedParam(ps[k]) {
      StripIdempotent(ps[k].name, Newline);
      PrettifiedValueIdempotent(ps[k].name, ps[k].value);
    }
  }

  /** The edits of the loop on one template: a newline after the template
    * name, then every parameter prettified in place. */
  method PrettifyTemplate(t: Template)
    modifies t
    ensures t.name == NameWithNewline(old(t.name))
    ensures t.params == Prettified(old(t.params))
  {
    if !EndsWith(t.name, "\n") {
      t.Rename(t.name + "\n");
    }
    var k := 0;
    while k < |t.params|
      invariant 0 <= k <= |t.params| == |old(t.params)|
      invariant t.name == NameWithNewline(old(t.name))
      invariant forall j :: 0 <= j < k ==> t.params[j] == PrettifiedParam(old(t.params)[j])
      invariant forall j :: k <= j < |t.params| ==> t.params[j] == old(t.params)[j]
    {
      var p := t.params[k];
      var v := p.value;
      if StripNewlines(p.name) == PlayersEventsName {
        if !StartsWith(v, "\n") {
          v := "\n" + v;
        }
      } else if StartsWith(v, "\n") && v != "\n" {
        v := LStrip(v, Newline);
      }
      if !EndsWith(v, "\n") {
        v := v + "\n";
      }
      t.SetValue(k, v);
      t.SetName(k, StripNewlines(p.name));
      k := k + 1;
    }
  }

  /** `prettify_game_page_main_template` on a page's templates: only the
    * first game template is edited; a page without one is left alone. */
  method PrettifyGamePage(ts: seq<Template>) returns (edited: bool)
    modifies set t | t in ts
    ensures var i := FirstNamed(old(TemplateNames(ts)), GamesTemplateName);
      && edited == (i >= 0)
      && (i >= 0 ==> ts[i].name == NameWithNewline(old(ts[i].name)) && ts[i].params == Prettified(old(ts[i].params)))
      && forall t :: t in ts && (i < 0 || t != ts[i]) ==> t.name == old(t.name) && t.params == old(t.params)
  {
    var i := FirstNamed(TemplateNames(ts), GamesTemplateName);
    if i < 0 {
      return false;
    }
    PrettifyTemplate(ts[i]);
    edited := true;
  }
}
