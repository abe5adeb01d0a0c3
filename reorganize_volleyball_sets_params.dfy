/** reorganize_volleyball_sets_params.py: each old "set" parameter of a
  * volleyball game template, holding both teams' points as "a:b", gets two
  * new parameters, one per team. */
module VolleyballSets {
  import opened Wrappers
  import opened Strings
  import opened WikiTemplate

  const GamesTemplateName: string := "משחק כדורעף"
  const MaccabiTeam: string := "מכבי תל אביב"
  const Versus: string := "נגד"
  const MaccabiSuffix: string := " מכבי"
  const OpponentSuffix: string := " יריבה"

  /** The set parameters, in the order they are processed. */
  const SetNames: seq<string> := ["מערכה1", "מערכה2", "מערכה3", "מערכה4", "מערכה5", "מערכת זהב"]

  function MaccabiName(name: string): string
  {
    name + MaccabiSuffix
  }

  function OpponentName(name: string): string
  {
    name + OpponentSuffix
  }

  /** A parameter name the template stores as written. */
  predicate PlainName(name: string)
  {
    |name| > 0 && name[0] !in Whitespace && name[|name| - 1] !in Whitespace
  }

  /** The page is a home game when "מכבי תל אביב" is found before "נגד" in
    * its title, a missing string counting as position -1. */
  predicate IsHome(title: string)
  {
    Find(title, MaccabiTeam) < Find(title, Versus)
  }

  /** A title without "מכבי תל אביב" is a home game when it has "נגד" at
    * all, and a title without "נגד" is never one. */
  lemma IsHomeCases(title: string)
    ensures !Contains(title, MaccabiTeam) ==> (IsHome(title) <==> Contains(title, Versus))
    ensures !Contains(title, Versus) ==> !IsHome(title)
  {
  }

  /** The set's points: stripped, apostrophes dropped, split on ":". */
  function Scores(value: string): (r: seq<string>)
    ensures |r| >= 1
  {
    Split(Replace(Trim(value), "'", ""), ":")
  }

  /** `split_old_set_param_to_new_format`: nothing for an absent set; two
    * empty parameters for a blank one; otherwise Maccabi's points (the
    * second part at home, the first away) and the opponent's (the other
    * one), or RuntimeError when there are fewer than two parts. The old
    * parameter stays. */
  function SplitSet(ps: seq<Param>, name: string, home: bool): Result<seq<Param>>
  {
    if !HasParam(ps, name) then Ok(ps)
    else if IsBlank(ValueOf(ps, name)) then
      Ok(Added(Added(ps, MaccabiName(name), ""), OpponentName(name), ""))
    else
      var scores := Scores(ValueOf(ps, name));
      if |scores| < 2 then Fail(RuntimeError)
      else Ok(Added(Added(ps, MaccabiName(name), scores[if home then 1 else 0]),
                    OpponentName(name), scores[if home then 0 else 1]))
  }

  /** The points each new parameter gets, read off the old value. */
  function MaccabiPoints(value: string, home: bool): string
  {
    var scores := Scores(value);
    if IsBlank(value) || |scores| < 2 then "" else scores[if home then 1 else 0]
  }

  function OpponentPoints(value: string, home: bool): string
  {
    var scores := Scores(value);
    if IsBlank(value) || |scores| < 2 then "" else scores[if home then 0 else 1]
  }

  lemma DerivedNames(name: string)
    requires PlainName(name)
    ensures PlainName(MaccabiName(name)) && PlainName(OpponentName(name))
    ensures Trim(MaccabiName(name)) == MaccabiName(name) && Trim(OpponentName(name)) == OpponentName(name)
    ensures MaccabiName(name) != OpponentName(name)
    ensures name != MaccabiName(name) && name != OpponentName(name)
  {
    assert |MaccabiName(name)| != |OpponentName(name)|;
    TrimUnchanged(MaccabiName(name));
    TrimUnchanged(OpponentName(name));
  }

  /** An absent set changes nothing; otherwise the split fails exactly when
    * a non-blank value has no ":", and on success both new parameters hold
    * their team's points, the set parameter keeps its value, and every
    * other parameter is as it was. */
  lemma SplitSetSpec(ps: seq<Param>, name: string, home: bool)
    requires PlainName(name)
    ensures !HasParam(ps, name) ==> SplitSet(ps, name, home) == Ok(ps)
    ensures HasParam(ps, name) ==>
      var v := ValueOf(ps, name);
      var r := SplitSet(ps, name, home);
      && (r.Fail? <==> !IsBlank(v) && |Scores(v)| < 2)
      && (r.Fail? ==> r.error == RuntimeError)
      && (r.Ok? ==>
           && HasParam(r.value, MaccabiName(name)) && ValueOf(r.value, MaccabiName(name)) == MaccabiPoints(v, home)
           && HasParam(r.value, OpponentName(name)) && ValueOf(r.value, OpponentName(name)) == OpponentPoints(v, home)
           && forall other :: other != MaccabiName(name) && other != OpponentName(name) ==>
                (HasParam(r.value, other) <==> HasParam(ps, other)) && ValueOf(r.value, other) == ValueOf(ps, other))
  {
    DerivedNames(name);
    var r := SplitSet(ps, name, home);
    if HasParam(ps, name) && r.Ok? {
      var v := ValueOf(ps, name);
      var m := MaccabiPoints(v, home);
      var o := OpponentPoints(v, home);
      assert r.value == Added(Added(ps, MaccabiName(name), m), OpponentName(name), o);
      var ps1 := Added(ps, MaccabiName(name), m);
      AddedHasValue(ps, MaccabiName(name), m);
      AddedHasValue(ps1, OpponentName(name), o);
      AddedOthers(ps1, OpponentName(name), o, MaccabiName(name));
      forall other | other != MaccabiName(name) && other != OpponentName(name)
        ensures (HasParam(r.value, other) <==> HasParam(ps, other)) && ValueOf(r.value, other) == ValueOf(ps, other)
      {
        AddedOthers(ps, MaccabiName(name), m, other);
        AddedOthers(ps1, OpponentName(name), o, other);
      }
    }
  }

  /** Splitting a set a second time changes nothing. */
  lemma SplitSetIdempotent(ps: seq<Param>, name: string, home: bool)
    requires PlainName(name) && SplitSet(ps, name, home).Ok?
    ensures var r := SplitSet(ps, name, home).value;
      SplitSet(r, name, home) == Ok(r)
  {
    SplitSetSpec(ps, name, home);
    DerivedNames(name);
    var r := SplitSet(ps, name, home).value;
    if HasParam(ps, name) {
      var v := ValueOf(ps, name);
      assert HasParam(r, name) && ValueOf(r, name) == v;
      SplitSetSpec(r, name, home);
      var m := MaccabiPoints(v, home);
      var o := OpponentPoints(v, home);
      AddedSame(r, MaccabiName(name), m);
      AddedSame(r, OpponentName(name), o);
    }
  }

  /** The sets split one after the other, stopping at the first failure. */
  function SplitAll(ps: seq<Param>, names: seq<string>, home: bool): Result<seq<Param>>
    decreases |names|
  {
    if |names| == 0 then Ok(ps)
    else
      match SplitSet(ps, names[0], home)
      case Fail(e) => Fail(e)
      case Ok(ps1) => SplitAll(ps1, names[1..], home)
  }

  /** Splitting from the k-th name on is the k-th split followed by the
    * rest. */
  lemma SplitAllStep(ps: seq<Param>, names: seq<string>, k: nat, home: bool)
    requires k < |names|
    ensures SplitAll(ps, names[k..], home)
         == match SplitSet(ps, names[k], home)
            case Fail(e) => Fail(e)
            case Ok(ps1) => SplitAll(ps1, names[k + 1..], home)
  {
    assert names[k..][0] == names[k] && names[k..][1..] == names[k + 1..];
  }

  /** No old set parameter is ever removed or changed: a name shorter than
    * every derived name keeps its presence and value through all splits. */
  lemma {:induction false} SplitAllKeeps(ps: seq<Param>, names: seq<string>, home: bool, other: string)
    requires forall k :: 0 <= k < |names| ==> PlainName(names[k]) && |other| < |names[k]| + |MaccabiSuffix|
    requires SplitAll(ps, names, home).Ok?
    ensures var r := SplitAll(ps, names, home).value;
      (HasParam(r, other) <==> HasParam(ps, other)) && ValueOf(r, other) == ValueOf(ps, other)
    decreases |names|
  {
    if |names| > 0 {
      SplitSetSpec(ps, names[0], home);
      var ps1 := SplitSet(ps, names[0], home).value;
      assert other != MaccabiName(names[0]) && other != OpponentName(names[0]);
      SplitAllKeeps(ps1, names[1..], home, other);
    }
  }

  lemma SetNamesPlain()
    ensures forall k :: 0 <= k < |SetNames| ==> PlainName(SetNames[k]) && |SetNames[k]| >= 6
    ensures forall k :: 0 <= k < |SetNames| ==> |SetNames[k]| <= 9
  {
  }

  /** `reorganize_sets_params` on a page's templates: the first volleyball
    * game template gets all six sets split, in order; a page without one is
    * left alone. */
  method ReorganizeSetsParams(ts: seq<Template>, title: string) returns (r: Result<bool>)
    modifies set t | t in ts
    ensures var i := FirstNamed(old(TemplateNames(ts)), GamesTemplateName);
      && (i < 0 ==> r == Ok(false))
      && (i >= 0 ==>
           var spec := SplitAll(old(ts[i].params), SetNames, IsHome(title));
           && ts[i].name == old(ts[i].name)
           && (spec.Ok? ==> r == Ok(true) && ts[i].params == spec.value)
           && (spec.Fail? ==> r == Fail(spec.error)))
      && forall t :: t in ts && (i < 0 || t != ts[i]) ==> t.name == old(t.name) && t.params == old(t.params)
  {
    var i := FirstNamed(TemplateNames(ts), GamesTemplateName);
    if i < 0 {
      return Ok(false);
    }
    var done := SplitSets(ts[i], IsHome(title));
    r := if done.Ok? then Ok(true) else Fail(done.error);
  }

  /** The six calls on the game template, in the order of `SetNames`. */
  method SplitSets(t: Template, home: bool) returns (r: Result<()>)
    modifies t
    ensures t.name == old(t.name)
    ensures var spec := SplitAll(old(t.params), SetNames, home);
      && (spec.Ok? ==> r == Ok(()) && t.params == spec.value)
      && (spec.Fail? ==> r == Fail(spec.error))
  {
    r := Ok(());
    for k := 0 to |SetNames|
      invariant t.name == old(t.name) && r == Ok(())
      invariant SplitAll(old(t.params), SetNames, home) == SplitAll(t.params, SetNames[k..], home)
    {
      SplitAllStep(t.params, SetNames, k, home);
      r := SplitSetParam(t, SetNames[k], home);
      if r.Fail? {
        return;
      }
    }
  }

  /** `split_old_set_param_to_new_format` in place. */
  method SplitSetParam(t: Template, name: string, home: bool) returns (r: Result<()>)
    modifies t
    ensures t.name == old(t.name)
    ensures SplitSet(old(t.params), name, home).Ok? ==> r == Ok(()) && t.params == SplitSet(old(t.params), name, home).value
    ensures SplitSet(old(t.params), name, home).Fail? ==> r == Fail(RuntimeError)
  {
    if !t.Has(name) {
      return Ok(());
    }
    var value := ValueOf(t.params, name);
    if IsBlank(value) {
      t.Add(MaccabiName(name), "");
      t.Add(OpponentName(name), "");
      return Ok(());
    }
    var scores := Scores(value);
    if |scores| < 2 {
      return Fail(RuntimeError);
    }
    t.Add(MaccabiName(name), scores[if home then 1 else 0]);
    t.Add(OpponentName(name), scores[if home then 0 else 1]);
    r := Ok(());
  }
}
