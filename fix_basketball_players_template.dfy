/** fix_basketball_players_template.py: clean-up of the basketball player
  * profile template: three career fields dropped, dates written with dots,
  * a height with a unit cut down to its number. */
module BasketballPlayerProfile {
  import opened Wrappers
  import opened Strings
  import opened WikiTemplate

  const ProfileTemplateName: string := "פרופיל כדורסל"
  const ProfileMarker: string := "{{פרופיל כדורסל"
  const SeasonsName: string := "עונות כשחקן"
  const TitlesName: string := "מספר תארים כשחקן"
  const CitizenshipName: string := "אזרחות"
  const BirthName: string := "תאריך לידה"
  const DeathName: string := "תאריך פטירה"
  const HeightName: string := "גובה"

  /** The names the clean-up touches. */
  predicate Touched(name: string)
  {
    name == SeasonsName || name == TitlesName || name == CitizenshipName
    || name == BirthName || name == DeathName || name == HeightName
  }

  /** `if template.has(name): template.remove(name)`. */
  function Dropped(ps: seq<Param>, name: string): seq<Param>
  {
    if HasParam(ps, name) then Removed(ps, name) else ps
  }

  /** The three career fields dropped, in order. */
  function WithoutCareer(ps: seq<Param>): seq<Param>
  {
    Dropped(Dropped(Dropped(ps, SeasonsName), TitlesName), CitizenshipName)
  }

  /** A date stripped and written with dots instead of dashes. */
  function DottedDate(v: string): string
  {
    Replace(Trim(v), "-", ".")
  }

  /** A present date parameter rewritten with dots. */
  function WithDottedDate(ps: seq<Param>, name: string): seq<Param>
  {
    if HasParam(ps, name) then Added(ps, name, DottedDate(ValueOf(ps, name))) else ps
  }

  function WithDates(ps: seq<Param>): seq<Param>
  {
    WithDottedDate(WithDottedDate(ps, BirthName), DeathName)
  }

  /** The height a value ends up with: its first word when that differs
    * from the whole stripped value and has a '.', otherwise the value. */
  function NewHeight(v: string): string
    requires |Words(v)| > 0
  {
    var target := Words(v)[0];
    if Trim(v) != target && Contains(target, ".") then target else v
  }

  /** The height step: `value.split()[0]` raises IndexError on a blank height. */
  function WithHeight(ps: seq<Param>): Result<seq<Param>>
  {
    if !HasParam(ps, HeightName) then Ok(ps)
    else
      var v := ValueOf(ps, HeightName);
      if |Words(v)| == 0 then Fail(IndexError)
      else if NewHeight(v) == v then Ok(ps)
      else Ok(Added(ps, HeightName, NewHeight(v)))
  }

  /** The edits of one profile template, in the order they are made. */
  function FixedProfile(ps: seq<Param>): Result<seq<Param>>
  {
    WithHeight(WithDates(WithoutCareer(ps)))
  }

  lemma NamesFacts()
    ensures Trim(BirthName) == BirthName && Trim(DeathName) == DeathName && Trim(HeightName) == HeightName
    ensures SeasonsName != TitlesName && SeasonsName != CitizenshipName && TitlesName != CitizenshipName
    ensures BirthName != DeathName && BirthName != HeightName && DeathName != HeightName
    ensures SeasonsName != BirthName && SeasonsName != DeathName && SeasonsName != HeightName
    ensures TitlesName != BirthName && TitlesName != DeathName && TitlesName != HeightName
    ensures CitizenshipName != BirthName && CitizenshipName != DeathName && CitizenshipName != HeightName
  {
    TrimUnchanged(BirthName);
    TrimUnchanged(DeathName);
    TrimUnchanged(HeightName);
    assert |SeasonsName| == 11 && |TitlesName| == 16 && |CitizenshipName| == 6;
    assert |BirthName| == 10 && |DeathName| == 11 && |HeightName| == 4;
    assert SeasonsName[0] != DeathName[0];
  }

  /** The dotted date has no dash, and a second rewrite keeps it. */
  lemma DottedDateSpec(v: string)
    ensures '-' !in DottedDate(v)
    ensures |DottedDate(v)| == |Trim(v)|
    ensures forall i :: 0 <= i < |Trim(v)| ==> DottedDate(v)[i] == if Trim(v)[i] == '-' then '.' else Trim(v)[i]
    ensures DottedDate(DottedDate(v)) == DottedDate(v)
  {
    var t := Trim(v);
    var d := DottedDate(v);
    ReplaceChar(t, '-', '.');
    StripEnds(v, Whitespace);
    TrimUnchanged(d);
    ReplaceChar(d, '-', '.');
    assert Replace(d, "-", ".") == d;
  }

  /** Dropping one name: that name is gone and `get` of any other finds
    * the same parameter. */
  lemma DroppedSpec(ps: seq<Param>, name: string)
    ensures !HasParam(Dropped(ps, name), name)
    ensures forall other :: other != name ==> GetParam(Dropped(ps, name), other) == GetParam(ps, other)
  {
    if HasParam(ps, name) {
      RemovedLacks(ps, name);
      forall other | other != name ensures GetParam(Dropped(ps, name), other) == GetParam(ps, other) {
        GetParamRemoved(ps, name, other);
      }
    }
  }

  lemma WithoutCareerSpec(ps: seq<Param>)
    ensures var r := WithoutCareer(ps);
      && !HasParam(r, SeasonsName) && !HasParam(r, TitlesName) && !HasParam(r, CitizenshipName)
      && forall other :: other != SeasonsName && other != TitlesName && other != CitizenshipName ==>
           GetParam(r, other) == GetParam(ps, other)
  {
    NamesFacts();
    var p1 := Dropped(ps, SeasonsName);
    var p2 := Dropped(p1, TitlesName);
    DroppedSpec(ps, SeasonsName);
    DroppedSpec(p1, TitlesName);
    DroppedSpec(p2, CitizenshipName);
    ValueOfGet(p1, SeasonsName);
    ValueOfGet(p2, SeasonsName);
    ValueOfGet(p2, TitlesName);
    ValueOfGet(WithoutCareer(ps), SeasonsName);
    ValueOfGet(WithoutCareer(ps), TitlesName);
  }

  /** Rewriting one date: presence kept, the value dotted, every other
    * name found as before. */
  lemma WithDottedDateSpec(ps: seq<Param>, name: string)
    requires Trim(name) == name
    ensures var r := WithDottedDate(ps, name);
      && (HasParam(r, name) <==> HasParam(ps, name))
      && (HasParam(ps, name) ==> ValueOf(r, name) == DottedDate(ValueOf(ps, name)))
      && forall other :: other != name ==> GetParam(r, other) == GetParam(ps, other)
  {
    if HasParam(ps, name) {
      AddedHasValue(ps, name, DottedDate(ValueOf(ps, name)));
      forall other | other != name ensures GetParam(WithDottedDate(ps, name), other) == GetParam(ps, other) {
        GetParamAdded(ps, name, DottedDate(ValueOf(ps, name)), other);
      }
    }
  }

  lemma WithDatesSpec(ps: seq<Param>)
    ensures var r := WithDates(ps);
      && (HasParam(r, BirthName) <==> HasParam(ps, BirthName))
      && (HasParam(ps, BirthName) ==> ValueOf(r, BirthName) == DottedDate(ValueOf(ps, BirthName)))
      && (HasParam(r, DeathName) <==> HasParam(ps, DeathName))
      && (HasParam(ps, DeathName) ==> ValueOf(r, DeathName) == DottedDate(ValueOf(ps, DeathName)))
      && forall other :: other != BirthName && other != DeathName ==> GetParam(r, other) == GetParam(ps, other)
  {
    NamesFacts();
    var p1 := WithDottedDate(ps, BirthName);
    var r := WithDottedDate(p1, DeathName);
    WithDottedDateSpec(ps, BirthName);
    WithDottedDateSpec(p1, DeathName);
    assert GetParam(r, BirthName) == GetParam(p1, BirthName);
    assert GetParam(p1, DeathName) == GetParam(ps, DeathName);
    ValueOfGet(p1, BirthName);
    ValueOfGet(r, BirthName);
    ValueOfGet(p1, DeathName);
    ValueOfGet(ps, DeathName);
  }

  lemma WithHeightSpec(ps: seq<Param>)
    ensures WithHeight(ps).Fail? <==> HasParam(ps, HeightName) && |Words(ValueOf(ps, HeightName))| == 0
    ensures WithHeight(ps).Fail? ==> WithHeight(ps).error == IndexError
    ensures WithHeight(ps).Ok? ==>
      var r := WithHeight(ps).value;
      && (HasParam(r, HeightName) <==> HasParam(ps, HeightName))
      && (HasParam(ps, HeightName) ==> ValueOf(r, HeightName) == NewHeight(ValueOf(ps, HeightName)))
      && forall other :: other != HeightName ==> GetParam(r, other) == GetParam(ps, other)
  {
    NamesFacts();
    if WithHeight(ps).Ok? && HasParam(ps, HeightName) {
      var v := ValueOf(ps, HeightName);
      if NewHeight(v) != v {
        AddedHasValue(ps, HeightName, NewHeight(v));
        forall other | other != HeightName ensures GetParam(WithHeight(ps).value, other) == GetParam(ps, other) {
          GetParamAdded(ps, HeightName, NewHeight(v), other);
        }
      }
    }
  }

  /** The clean-up fails only on a blank height; otherwise the career
    * fields are gone, the dates are dotted, the height is cut down when it
    * carries more than its number, and nothing else changes. */
  lemma FixedProfileSpec(ps: seq<Param>)
    ensures FixedProfile(ps).Fail? <==> HasParam(ps, HeightName) && |Words(ValueOf(ps, HeightName))| == 0
    ensures FixedProfile(ps).Fail? ==> FixedProfile(ps).error == IndexError
    ensures FixedProfile(ps).Ok? ==>
      var r := FixedProfile(ps).value;
      && !HasParam(r, SeasonsName) && !HasParam(r, TitlesName) && !HasParam(r, CitizenshipName)
      && (HasParam(r, BirthName) <==> HasParam(ps, BirthName))
      && (HasParam(ps, BirthName) ==> ValueOf(r, BirthName) == DottedDate(ValueOf(ps, BirthName)))
      && (HasParam(r, DeathName) <==> HasParam(ps, DeathName))
      && (HasParam(ps, DeathName) ==> ValueOf(r, DeathName) == DottedDate(ValueOf(ps, DeathName)))
      && (HasParam(r, HeightName) <==> HasParam(ps, HeightName))
      && (HasParam(ps, HeightName) ==> ValueOf(r, HeightName) == NewHeight(ValueOf(ps, HeightName)))
      && forall other :: !Touched(other) ==> GetParam(r, other) == GetParam(ps, other)
  {
    NamesFacts();
    var p3 := WithoutCareer(ps);
    var p5 := WithDates(p3);
    WithoutCareerSpec(ps);
    WithDatesSpec(p3);
    WithHeightSpec(p5);
    ValueOfGet(ps, BirthName);
    ValueOfGet(ps, DeathName);
    ValueOfGet(ps, HeightName);
    ValueOfGet(p3, BirthName);
    ValueOfGet(p3, DeathName);
    ValueOfGet(p3, HeightName);
    ValueOfGet(p5, HeightName);
    if FixedProfile(ps).Ok? {
      var r := FixedProfile(ps).value;
      ValueOfGet(p5, SeasonsName);
      ValueOfGet(p5, TitlesName);
      ValueOfGet(p5, CitizenshipName);
      ValueOfGet(p5, BirthName);
      ValueOfGet(p5, DeathName);
      ValueOfGet(r, SeasonsName);
      ValueOfGet(r, TitlesName);
      ValueOfGet(r, CitizenshipName);
      ValueOfGet(r, BirthName);
      ValueOfGet(r, DeathName);
    }
  }

  /** A word is its own first word. */
  lemma WordsOfWord(t: string)
    requires |t| > 0 && forall i :: 0 <= i < |t| ==> t[i] !in Whitespace
    ensures Words(t) == [t]
    ensures Trim(t) == t
  {
    assert WordLength(t) == |t|;
    assert t[..|t|] == t && t[|t|..] == [];
    TrimUnchanged(t);
  }

  /** A height the clean-up leaves is left again. */
  lemma NewHeightIdempotent(v: string)
    requires |Words(v)| > 0
    ensures |Words(NewHeight(v))| > 0 && NewHeight(NewHeight(v)) == NewHeight(v)
  {
    var target := Words(v)[0];
    if NewHeight(v) == target {
      WordsOfWord(target);
    }
  }

  /** Running the clean-up on its own result changes nothing. */
  lemma FixedProfileIdempotent(ps: seq<Param>)
    requires FixedProfile(ps).Ok?
    ensures FixedProfile(FixedProfile(ps).value) == FixedProfile(ps)
  {
    NamesFacts();
    var r := FixedProfile(ps).value;
    FixedProfileSpec(ps);
    assert WithoutCareer(r) == r;
    WithDatesSpec(r);
    if HasParam(r, BirthName) {
      DottedDateSpec(ValueOf(ps, BirthName));
      AddedSame(r, BirthName, DottedDate(ValueOf(r, BirthName)));
    }
    var r1 := WithDottedDate(r, BirthName);
    assert r1 == r;
    if HasParam(r, DeathName) {
      DottedDateSpec(ValueOf(ps, DeathName));
      AddedSame(r, DeathName, DottedDate(ValueOf(r, DeathName)));
    }
    assert WithDates(r) == r;
    if HasParam(r, HeightName) {
      NewHeightIdempotent(ValueOf(ps, HeightName));
    }
  }

  /** `fix_basketball_players_page` for one page: a page whose text lacks
    * the profile template is skipped; otherwise the page's first
    * template, of whatever name, is cleaned up, since the template name is
    * passed positionally where the parser expects `recursive` (IndexError on
    * a page without templates). */
  method FixPlayerPage(text: string, ts: seq<Template>) returns (r: Result<bool>)
    modifies set t | t in ts
    ensures !Contains(text, ProfileMarker) ==> r == Ok(false)
    ensures var i := FirstTemplateAsWritten(old(TemplateNames(ts)), ProfileTemplateName);
      Contains(text, ProfileMarker) ==>
      && (i.Fail? ==> r == Fail(IndexError))
      && (i.Ok? ==>
           var spec := FixedProfile(old(ts[i.value].params));
           && ts[i.value].name == old(ts[i.value].name)
           && (spec.Ok? ==> r == Ok(true) && ts[i.value].params == spec.value)
           && (spec.Fail? ==> r == Fail(spec.error)))
    ensures var i := FirstTemplateAsWritten(old(TemplateNames(ts)), ProfileTemplateName);
      forall t :: t in ts && (!Contains(text, ProfileMarker) || i.Fail? || t != ts[i.value]) ==>
        t.name == old(t.name) && t.params == old(t.params)
  {
    if !Contains(text, ProfileMarker) {
      return Ok(false);
    }
    var i := FirstTemplateAsWritten(TemplateNames(ts), ProfileTemplateName);
    if i.Fail? {
      return Fail(i.error);
    }
    var done := FixTemplate(ts[i.value]);
    r := if done.Ok? then Ok(true) else Fail(done.error);
  }

  /** The per-template edits in place, one `has` test after the other. */
  method FixTemplate(t: Template) returns (r: Result<()>)
    modifies t
    ensures t.name == old(t.name)
    ensures FixedProfile(old(t.params)).Ok? ==> r == Ok(()) && t.params == FixedProfile(old(t.params)).value
    ensures FixedProfile(old(t.params)).Fail? ==> r == Fail(IndexError)
  {
    DropCareer(t);
    DotDates(t);
    r := CutHeight(t);
  }

  method DropCareer(t: Template)
    modifies t
    ensures t.name == old(t.name) && t.params == WithoutCareer(old(t.params))
  {
    if t.Has(SeasonsName) {
      var _ := t.Remove(SeasonsName);
    }
    if t.Has(TitlesName) {
      var _ := t.Remove(TitlesName);
    }
    if t.Has(CitizenshipName) {
      var _ := t.Remove(CitizenshipName);
    }
  }

  method DotDates(t: Template)
    modifies t
    ensures t.name == old(t.name) && t.params == WithDates(old(t.params))
  {
    if t.Has(BirthName) {
      t.Add(BirthName, DottedDate(ValueOf(t.params, BirthName)));
    }
    if t.Has(DeathName) {
      t.Add(DeathName, DottedDate(ValueOf(t.params, DeathName)));
    }
  }

  method CutHeight(t: Template) returns (r: Result<()>)
    modifies t
    ensures t.name == old(t.name)
    ensures WithHeight(old(t.params)).Ok? ==> r == Ok(()) && t.params == WithHeight(old(t.params)).value
    ensures WithHeight(old(t.params)).Fail? ==> r == Fail(IndexError)
  {
    if t.Has(HeightName) {
      var original := ValueOf(t.params, HeightName);
      var words := Words(original);
      if |words| == 0 {
        return Fail(IndexError);
      }
      var target := words[0];
      if Trim(original) != target && Contains(target, ".") {
        t.Add(HeightName, target);
      }
    }
    r := Ok(());
  }
}
