/** A wiki template as mwparserfromhell exposes it to the bots: a template
  * name and an ordered list of named parameters, edited in place with
  * `has`, `get`, `add` (optionally `before` another parameter) and `remove`.
  * Wiki parsing itself is not modelled; a parameter is a (name, value) pair
  * of strings. */
module WikiTemplate {
  import opened Wrappers
  import opened Strings

  datatype Param = Param(name: string, value: string)

  /** mwparserfromhell compares parameter names after `strip()`. */
  function Key(p: Param): string
  {
    Trim(p.name)
  }

  /** `template.has(name)` for a name without surrounding whitespace. */
  predicate HasParam(ps: seq<Param>, name: string)
  {
    exists i :: 0 <= i < |ps| && Key(ps[i]) == name
  }

  /** Index of the last parameter called `name`, the one `template.get`
    * returns, or -1 when there is none. */
  function LastIndexOf(ps: seq<Param>, name: string): (r: int)
    ensures -1 <= r < |ps|
    ensures r == -1 <==> !HasParam(ps, name)
    ensures r >= 0 ==> Key(ps[r]) == name && forall j :: r < j < |ps| ==> Key(ps[j]) != name
  {
    if |ps| == 0 then -1
    else if Key(ps[|ps| - 1]) == name then |ps| - 1
    else LastIndexOf(ps[..|ps| - 1], name)
  }

  /** `template.get(name)`: the last parameter with that name, or ValueError. */
  function GetParam(ps: seq<Param>, name: string): (r: Result<Param>)
    ensures r.Ok? <==> HasParam(ps, name)
    ensures r.Fail? ==> r.error == ValueError
    ensures r.Ok? ==> r.value in ps && Key(r.value) == name
  {
    var i := LastIndexOf(ps, name);
    if i < 0 then Fail(ValueError) else Ok(ps[i])
  }

  /** The value `template.get(name).value` reads, or "" when absent. */
  function ValueOf(ps: seq<Param>, name: string): string
  {
    var i := LastIndexOf(ps, name);
    if i < 0 then "" else ps[i].value
  }

  /** `template.add(name, value)`: an existing parameter gets the new value
    * in place; otherwise the parameter is appended. */
  function Added(ps: seq<Param>, name: string, value: string): seq<Param>
  {
    var i := LastIndexOf(ps, name);
    if i >= 0 then ps[i := ps[i].(value := value)] else ps + [Param(name, value)]
  }

  /** `str(param)` for a named parameter. A parameter compares equal to
    * another exactly when these texts are equal. */
  function ParamText(p: Param): string
  {
    p.name + "=" + p.value
  }

  /** `params.index(p)`: the first parameter whose text equals that of
    * `p`, or -1 when there is none. */
  function IndexOfText(ps: seq<Param>, p: Param): (r: int)
    ensures -1 <= r < |ps|
    ensures r == -1 <==> forall k :: 0 <= k < |ps| ==> ParamText(ps[k]) != ParamText(p)
    ensures r >= 0 ==> ParamText(ps[r]) == ParamText(p)
    ensures r >= 0 ==> forall k :: 0 <= k < r ==> ParamText(ps[k]) != ParamText(p)
  {
    if |ps| == 0 then -1
    else if ParamText(ps[0]) == ParamText(p) then 0
    else
      var k := IndexOfText(ps[1..], p);
      if k < 0 then -1 else k + 1
  }

  /** Where `add(before=anchor)` inserts: `params.index(get(anchor))`,
    * the first parameter whose text equals that of the last one called
    * `anchor`, or -1 when no parameter is called `anchor`. */
  function AnchorIndex(ps: seq<Param>, anchor: string): (r: int)
    ensures -1 <= r < |ps|
    ensures r == -1 <==> !HasParam(ps, anchor)
    ensures r >= 0 ==> r <= LastIndexOf(ps, anchor)
    ensures r >= 0 ==> ParamText(ps[r]) == ParamText(ps[LastIndexOf(ps, anchor)])
    ensures r >= 0 ==> forall k :: 0 <= k < r ==> ParamText(ps[k]) != ParamText(ps[r])
  {
    var j := LastIndexOf(ps, anchor);
    if j < 0 then -1 else IndexOfText(ps, ps[j])
  }

  /** `template.add(name, value, before=anchor)`: an existing parameter
    * gets the new value in place and the anchor is ignored; otherwise the
    * new parameter goes just before the anchor's first textual copy, and
    * a missing anchor is a ValueError (from `get(anchor)`). */
  function AddedBefore(ps: seq<Param>, name: string, value: string, anchor: string): Result<seq<Param>>
  {
    var i := LastIndexOf(ps, name);
    if i >= 0 then Ok(ps[i := ps[i].(value := value)])
    else
      var j := AnchorIndex(ps, anchor);
      if j < 0 then Fail(ValueError) else Ok(ps[..j] + [Param(name, value)] + ps[j..])
  }

  /** `template.remove(name)` once the name is known to be present: every
    * parameter with that name goes, the others keep their order. */
  function Removed(ps: seq<Param>, name: string): (r: seq<Param>)
    ensures |r| <= |ps|
  {
    if |ps| == 0 then []
    else (if Key(ps[0]) == name then [] else [ps[0]]) + Removed(ps[1..], name)
  }

  /** `remove` keeps exactly the parameters with other names. */
  lemma {:induction false} RemovedMembers(ps: seq<Param>, name: string)
    ensures forall p :: p in Removed(ps, name) <==> p in ps && Key(p) != name
  {
    if |ps| > 0 {
      RemovedMembers(ps[1..], name);
      assert ps == [ps[0]] + ps[1..];
    }
  }

  /** The wikitext of a parameter list, `|name=value` for each. */
  function ParamsText(ps: seq<Param>): string
  {
    if |ps| == 0 then "" else "|" + ps[0].name + "=" + ps[0].value + ParamsText(ps[1..])
  }

  lemma {:induction false} ParamsTextAppend(xs: seq<Param>, ys: seq<Param>)
    ensures ParamsText(xs + ys) == ParamsText(xs) + ParamsText(ys)
  {
    if |xs| > 0 {
      assert (xs + ys)[1..] == xs[1..] + ys;
      ParamsTextAppend(xs[1..], ys);
    } else {
      assert xs + ys == ys;
    }
  }

  /** Every parameter value appears in the template's wikitext, so `x in
    * template` holds for it. */
  lemma RenderContainsValue(name: string, ps: seq<Param>, j: int)
    requires 0 <= j < |ps|
    ensures Contains(Render(name, ps), ps[j].value)
  {
    assert ps == ps[..j] + ([ps[j]] + ps[j + 1..]);
    ParamsTextAppend(ps[..j], [ps[j]] + ps[j + 1..]);
    assert ([ps[j]] + ps[j + 1..])[1..] == ps[j + 1..];
    var a := "{{" + name + ParamsText(ps[..j]) + "|" + ps[j].name + "=";
    var b := ParamsText(ps[j + 1..]) + "}}";
    assert Render(name, ps) == a + ps[j].value + b;
    assert (a + ps[j].value + b)[|a|..|a| + |ps[j].value|] == ps[j].value;
    ContainsAt(Render(name, ps), ps[j].value, |a|);
  }

  /** The wikitext of a whole template. */
  function Render(name: string, ps: seq<Param>): string
  {
    "{{" + name + ParamsText(ps) + "}}"
  }

  /** The template text around one parameter's name. */
  lemma RenderAround(name: string, ps: seq<Param>, j: int)
    requires 0 <= j < |ps|
    ensures Render(name, ps)
         == ("{{" + name + ParamsText(ps[..j]) + "|") + ps[j].name + ("=" + ps[j].value + ParamsText(ps[j + 1..]) + "}}")
  {
    assert ps == ps[..j] + ([ps[j]] + ps[j + 1..]);
    ParamsTextAppend(ps[..j], [ps[j]] + ps[j + 1..]);
    assert ([ps[j]] + ps[j + 1..])[1..] == ps[j + 1..];
  }

  /** A parameter's stripped name shows in the template text. */
  lemma KeyInRender(name: string, ps: seq<Param>, j: int)
    requires 0 <= j < |ps|
    ensures Contains(Render(name, ps), Key(ps[j]))
  {
    var a := "{{" + name + ParamsText(ps[..j]) + "|";
    var b := "=" + ps[j].value + ParamsText(ps[j + 1..]) + "}}";
    var n := ps[j].name;
    RenderAround(name, ps, j);
    TrimOccurs(n);
    var off := |n| - |LStrip(n, Whitespace)|;
    OccursInMiddle(a, n, b, Key(ps[j]), off);
    ContainsAt(a + n + b, Key(ps[j]), |a| + off);
  }

  lemma AddedHasValue(ps: seq<Param>, name: string, value: string)
    requires Trim(name) == name
    ensures HasParam(Added(ps, name, value), name)
    ensures ValueOf(Added(ps, name, value), name) == value
    ensures forall other :: other != name ==> (HasParam(Added(ps, name, value), other) <==> HasParam(ps, other))
  {
    var r := Added(ps, name, value);
    var i := LastIndexOf(ps, name);
    if i < 0 {
      assert Key(r[|ps|]) == name;
      assert r[..|ps|] == ps;
      forall other | other != name && HasParam(ps, other) ensures HasParam(r, other) {
        var k :| 0 <= k < |ps| && Key(ps[k]) == other;
        assert Key(r[k]) == other;
      }
    } else {
      assert forall j :: 0 <= j < |r| ==> Key(r[j]) == Key(ps[j]);
      assert Key(r[i]) == name;
      var l := LastIndexOf(r, name);
      assert l == i;
      forall other | other != name ensures HasParam(r, other) <==> HasParam(ps, other) {
        if HasParam(ps, other) {
          var k :| 0 <= k < |ps| && Key(ps[k]) == other;
          assert Key(r[k]) == other;
        }
        if HasParam(r, other) {
          var k :| 0 <= k < |r| && Key(r[k]) == other;
          assert Key(ps[k]) == other;
        }
      }
    }
  }

  /** An added parameter lands just before the first parameter that reads
    * exactly like the anchor `get` finds (the anchor itself when its text
    * is unique), and all other parameters keep their relative order. */
  lemma AddedBeforeShape(ps: seq<Param>, name: string, value: string, anchor: string)
    requires !HasParam(ps, name)
    ensures AddedBefore(ps, name, value, anchor).Ok? <==> HasParam(ps, anchor)
    ensures AddedBefore(ps, name, value, anchor).Ok? ==>
      var r := AddedBefore(ps, name, value, anchor).value;
      var j := AnchorIndex(ps, anchor);
      |r| == |ps| + 1 && r[j] == Param(name, value) && r[j + 1] == ps[j]
      && r[..j] + r[j + 1..] == ps
  {
    if HasParam(ps, anchor) {
      var j := AnchorIndex(ps, anchor);
      assert AddedBefore(ps, name, value, anchor).value == ps[..j] + [Param(name, value)] + ps[j..];
      InsertedAt(ps, j, Param(name, value));
    }
  }

  /** When no other parameter reads exactly like the anchor `get` finds,
    * the insertion point is that anchor. */
  lemma AnchorIndexUnique(ps: seq<Param>, anchor: string)
    requires HasParam(ps, anchor)
    requires var j := LastIndexOf(ps, anchor);
      forall k :: 0 <= k < |ps| && k != j ==> ParamText(ps[k]) != ParamText(ps[j])
    ensures AnchorIndex(ps, anchor) == LastIndexOf(ps, anchor)
  {
  }

  /** Two identical copies of the anchor: `get` finds the second, but the
    * new parameter goes before the first. */
  lemma AddedBeforeDuplicateAnchor()
    ensures AddedBefore([Param("a", ""), Param("b", "1"), Param("a", "")], "n", "v", "a")
         == Ok([Param("n", "v"), Param("a", ""), Param("b", "1"), Param("a", "")])
  {
    var a, b, x := Param("a", ""), Param("b", "1"), Param("n", "v");
    TrimUnchanged("a");
    TrimUnchanged("b");
    DuplicateAnchorIndex(a, b);
    assert [a, b, a][..0] + [x] + [a, b, a][0..] == [x, a, b, a];
  }

  /** With the anchor's text twice, `get` finds the last copy and
    * `index` the first. */
  lemma DuplicateAnchorIndex(a: Param, b: Param)
    requires Key(a) != Key(b) && Key(a) != "n" && Key(b) != "n"
    ensures LastIndexOf([a, b, a], "n") == -1
    ensures LastIndexOf([a, b, a], Key(a)) == 2
    ensures AnchorIndex([a, b, a], Key(a)) == 0
  {
    assert [a, b, a][..2] == [a, b] && [a, b][..1] == [a] && [a][..0] == [];
  }

  /** The parts of a list with `x` inserted at `j`. */
  lemma InsertedAt(ps: seq<Param>, j: nat, x: Param)
    requires j < |ps|
    ensures var r := ps[..j] + [x] + ps[j..];
      |r| == |ps| + 1 && r[j] == x && r[j + 1] == ps[j] && r[..j] + r[j + 1..] == ps
  {
    var r := ps[..j] + [x] + ps[j..];
    assert r[..j] == ps[..j];
    assert r[j + 1..] == ps[j..];
    assert ps[..j] + ps[j..] == ps;
  }

  /** A name held by one parameter only reads that parameter's value. */
  lemma ValueOfUnique(ps: seq<Param>, k: int)
    requires 0 <= k < |ps| && forall j :: 0 <= j < |ps| && j != k ==> Key(ps[j]) != Key(ps[k])
    ensures ValueOf(ps, Key(ps[k])) == ps[k].value
  {
    assert HasParam(ps, Key(ps[k]));
  }

  /** Inserting a parameter changes no other name's presence. */
  lemma InsertedOthers(ps: seq<Param>, j: nat, x: Param, other: string)
    requires j < |ps| && other != Key(x)
    ensures HasParam(ps[..j] + [x] + ps[j..], other) <==> HasParam(ps, other)
  {
    var r := ps[..j] + [x] + ps[j..];
    if HasParam(ps, other) {
      var k :| 0 <= k < |ps| && Key(ps[k]) == other;
      if k < j {
        assert r[k] == ps[k];
      } else {
        assert r[k + 1] == ps[k];
      }
    }
    if HasParam(r, other) {
      var k :| 0 <= k < |r| && Key(r[k]) == other;
      if k < j {
        assert r[k] == ps[k];
      } else {
        assert k > j && r[k] == ps[k - 1];
      }
    }
  }

  /** A parameter inserted under a new name is the only one with it. */
  lemma InsertedOnly(ps: seq<Param>, j: nat, x: Param)
    requires j < |ps| && !HasParam(ps, Key(x))
    ensures LastIndexOf(ps[..j] + [x] + ps[j..], Key(x)) == j
  {
    var r := ps[..j] + [x] + ps[j..];
    forall k | 0 <= k < |r| && k != j ensures Key(r[k]) != Key(x) {
      if k < j {
        assert r[k] == ps[k];
      } else {
        assert r[k] == ps[k - 1];
      }
    }
    assert r[j] == x;
  }

  /** After `remove`, the name is gone and every other name is as before. */
  lemma RemovedLacks(ps: seq<Param>, name: string)
    ensures !HasParam(Removed(ps, name), name)
    ensures forall other :: other != name ==> (HasParam(Removed(ps, name), other) <==> HasParam(ps, other))
  {
    var r := Removed(ps, name);
    RemovedMembers(ps, name);
    forall k | 0 <= k < |r| ensures Key(r[k]) != name {
      assert r[k] in r;
    }
    forall other | other != name ensures HasParam(r, other) <==> HasParam(ps, other) {
      if HasParam(ps, other) {
        var k :| 0 <= k < |ps| && Key(ps[k]) == other;
        assert ps[k] in r;
        var m :| 0 <= m < |r| && r[m] == ps[k];
      }
      if HasParam(r, other) {
        var k :| 0 <= k < |r| && Key(r[k]) == other;
        assert r[k] in ps;
        var m :| 0 <= m < |ps| && ps[m] == r[k];
      }
    }
  }

  /** `add` of one name leaves the presence and value of every other name alone. */
  lemma AddedOthers(ps: seq<Param>, name: string, value: string, other: string)
    requires Trim(name) == name && other != name
    ensures HasParam(Added(ps, name, value), other) <==> HasParam(ps, other)
    ensures ValueOf(Added(ps, name, value), other) == ValueOf(ps, other)
  {
    AddedHasValue(ps, name, value);
    var r := Added(ps, name, value);
    var i := LastIndexOf(ps, name);
    if i < 0 {
      assert Key(r[|ps|]) == name;
      assert r[..|ps|] == ps;
      assert forall j :: 0 <= j < |ps| ==> r[j] == ps[j];
      if HasParam(ps, other) {
        assert LastIndexOf(r, other) == LastIndexOf(ps, other);
      }
    } else {
      assert forall j :: 0 <= j < |r| ==> Key(r[j]) == Key(ps[j]);
      if HasParam(ps, other) {
        var l := LastIndexOf(ps, other);
        assert LastIndexOf(r, other) == l;
        assert l != i;
      }
    }
  }

  /** `add` of the value a parameter already holds changes nothing. */
  lemma AddedSame(ps: seq<Param>, name: string, value: string)
    requires HasParam(ps, name) && ValueOf(ps, name) == value
    ensures Added(ps, name, value) == ps
  {
    var i := LastIndexOf(ps, name);
    assert ps[i].(value := value) == ps[i];
  }

  /** Presence and value follow from what `get` finds. */
  lemma ValueOfGet(ps: seq<Param>, name: string)
    ensures HasParam(ps, name) <==> GetParam(ps, name).Ok?
    ensures HasParam(ps, name) ==> ValueOf(ps, name) == GetParam(ps, name).value.value
  {
  }

  /** `get` looks at the last parameter first. */
  lemma GetParamSnoc(ps: seq<Param>, p: Param, name: string)
    ensures Key(p) == name ==> GetParam(ps + [p], name) == Ok(p)
    ensures Key(p) != name ==> GetParam(ps + [p], name) == GetParam(ps, name)
  {
    assert (ps + [p])[..|ps|] == ps;
    if Key(p) != name && HasParam(ps, name) {
      var i := LastIndexOf(ps, name);
      assert (ps + [p])[i] == ps[i];
    }
  }

  lemma ConcatAssociates(a: seq<Param>, b: seq<Param>, c: seq<Param>)
    ensures a + (b + c) == (a + b) + c
  {
  }

  lemma {:induction false} RemovedSnoc(ps: seq<Param>, name: string)
    requires |ps| > 0
    ensures Removed(ps, name) == Removed(ps[..|ps| - 1], name) + (if Key(ps[|ps| - 1]) == name then [] else [ps[|ps| - 1]])
  {
    var init, last := ps[..|ps| - 1], ps[|ps| - 1];
    var tail := if Key(last) == name then [] else [last];
    if |ps| == 1 {
      assert Removed(ps[1..], name) == [];
      assert init == [];
    } else {
      var head := if Key(ps[0]) == name then [] else [ps[0]];
      assert ps[1..][..|ps[1..]| - 1] == init[1..];
      assert ps[1..][|ps[1..]| - 1] == last;
      RemovedSnoc(ps[1..], name);
      assert init[0] == ps[0];
      var a, b := Removed(ps[1..], name), Removed(init[1..], name);
      assert a == b + tail;
      assert Removed(ps, name) == head + a;
      assert Removed(init, name) == head + b;
      ConcatAssociates(head, b, tail);
    }
  }

  /** `remove` of one name leaves what `get` finds for any other name. */
  lemma {:induction false} GetParamRemoved(ps: seq<Param>, name: string, other: string)
    requires other != name
    ensures GetParam(Removed(ps, name), other) == GetParam(ps, other)
  {
    if |ps| > 0 {
      var init, last := ps[..|ps| - 1], ps[|ps| - 1];
      assert ps == init + [last];
      var rest := Removed(init, name);
      RemovedSnoc(ps, name);
      GetParamSnoc(init, last, other);
      if Key(last) == other {
        assert Removed(ps, name) == rest + [last];
        GetParamSnoc(rest, last, other);
      } else {
        GetParamRemoved(init, name, other);
        if Key(last) == name {
          assert Removed(ps, name) == rest;
        } else {
          assert Removed(ps, name) == rest + [last];
          GetParamSnoc(rest, last, other);
        }
      }
    }
  }

  /** `add` of one name leaves what `get` finds for any other name. */
  lemma GetParamAdded(ps: seq<Param>, name: string, value: string, other: string)
    requires Trim(name) == name && other != name
    ensures GetParam(Added(ps, name, value), other) == GetParam(ps, other)
  {
    var i := LastIndexOf(ps, name);
    if i < 0 {
      GetParamSnoc(ps, Param(name, value), other);
    } else {
      AddedOthers(ps, name, value, other);
      var r := Added(ps, name, value);
      assert forall j :: 0 <= j < |r| ==> Key(r[j]) == Key(ps[j]);
      if HasParam(ps, other) {
        var l := LastIndexOf(ps, other);
        assert LastIndexOf(r, other) == l;
        assert r[l] == ps[l];
      }
    }
  }

  /** Index of the first template whose stripped name is `name`
    * (`filter_templates(matches=...)[0]`), or -1 when there is none. */
  function FirstNamed(names: seq<string>, name: string): (r: int)
    ensures -1 <= r < |names|
    ensures r >= 0 ==> Trim(names[r]) == name && forall j :: 0 <= j < r ==> Trim(names[j]) != name
    ensures r == -1 ==> forall j :: 0 <= j < |names| ==> Trim(names[j]) != name
  {
    if |names| == 0 then -1
    else if Trim(names[0]) == name then 0
    else
      var r := FirstNamed(names[1..], name);
      assert forall j :: 0 < j < |names| ==> names[j] == names[1..][j - 1];
      if r < 0 then -1 else r + 1
  }

  /** `filter_templates(x)[0]` with `x` passed positionally: mwparserfromhell
    * takes the first positional argument as `recursive`, so no name filter
    * applies and this is the page's first template; a page without
    * templates raises IndexError. */
  function FirstTemplateAsWritten(names: seq<string>, name: string): (r: Result<nat>)
    ensures r.Ok? <==> |names| > 0
    ensures r.Ok? ==> r.value == 0
  {
    if |names| == 0 then Fail(IndexError) else Ok(0)
  }

  /** The template the bots mean: the first one with that name, IndexError
    * when the page has none. */
  function FirstTemplateNamed(names: seq<string>, name: string): (r: Result<nat>)
    ensures r.Ok? <==> exists j :: 0 <= j < |names| && Trim(names[j]) == name
    ensures r.Ok? ==> r.value < |names| && Trim(names[r.value]) == name
                      && forall j :: 0 <= j < r.value ==> Trim(names[j]) != name
  {
    var i := FirstNamed(names, name);
    if i < 0 then Fail(IndexError) else Ok(i)
  }

  /** On a page whose first template is another one, the positional call
    * edits that other template. */
  lemma FirstTemplateAsWrittenPicksOther()
    ensures FirstTemplateAsWritten(["שחקן", "קטלוג משחקים"], "קטלוג משחקים") == Ok(0)
    ensures Trim("שחקן") != "קטלוג משחקים"
    ensures FirstTemplateNamed(["שחקן", "קטלוג משחקים"], "קטלוג משחקים") == Ok(1)
  {
    var names := ["שחקן", "קטלוג משחקים"];
    TrimUnchanged(names[0]);
    TrimUnchanged(names[1]);
    assert names[0] != names[1];
    assert names[1..] == [names[1]];
    assert FirstNamed(names[1..], names[1]) == 0;
  }

  /** Decides whether `_save_page_changes` writes: never when the new text
    * equals the old one, and only when saving is switched on. */
  predicate ShouldSave(oldText: string, newText: string, saveEnabled: bool)
  {
    oldText != newText && saveEnabled
  }

  /** A parsed template that the bots edit in place. */
  class Template {
    var name: string
    var params: seq<Param>

    constructor (name: string, params: seq<Param>)
      ensures this.name == name && this.params == params
    {
      this.name := name;
      this.params := params;
    }

    /** `str(template)`. */
    function Text(): string
      reads this
    {
      Render(name, params)
    }

    /** `template.has(n)`. */
    predicate Has(n: string)
      reads this
    {
      HasParam(params, n)
    }

    /** `x in template`: a substring test on the template's wikitext. */
    predicate ContainsText(x: string)
      reads this
    {
      Contains(Text(), x)
    }

    method Add(n: string, v: string)
      modifies this
      ensures name == old(name)
      ensures params == Added(old(params), n, v)
    {
      var i := LastIndexOf(params, n);
      if i >= 0 {
        params := params[i := params[i].(value := v)];
      } else {
        params := params + [Param(n, v)];
      }
    }

    method AddBefore(n: string, v: string, anchor: string) returns (r: Result<()>)
      modifies this
      ensures name == old(name)
      ensures AddedBefore(old(params), n, v, anchor).Ok? ==>
        r == Ok(()) && params == AddedBefore(old(params), n, v, anchor).value
      ensures AddedBefore(old(params), n, v, anchor).Fail? ==>
        r == Fail(ValueError) && params == old(params)
    {
      var i := LastIndexOf(params, n);
      if i >= 0 {
        params := params[i := params[i].(value := v)];
        return Ok(());
      }
      var j := AnchorIndex(params, anchor);
      if j < 0 {
        return Fail(ValueError);
      }
      params := params[..j] + [Param(n, v)] + params[j..];
      r := Ok(());
    }

    /** `template.remove(n)`: ValueError when the name is absent. */
    method Remove(n: string) returns (r: Result<()>)
      modifies this
      ensures name == old(name)
      ensures r.Ok? <==> old(Has(n))
      ensures r.Fail? ==> r.error == ValueError && params == old(params)
      ensures r.Ok? ==> params == Removed(old(params), n)
    {
      if !HasParam(params, n) {
        return Fail(ValueError);
      }
      params := Removed(params, n);
      r := Ok(());
    }

    /** `param.value = v` for the parameter at index `i`. */
    method SetValue(i: nat, v: string)
      requires i < |params|
      modifies this
      ensures name == old(name)
      ensures params == old(params)[i := old(params)[i].(value := v)]
    {
      params := params[i := params[i].(value := v)];
    }

    /** `param.name = n` for the parameter at index `i`. */
    method SetName(i: nat, n: string)
      requires i < |params|
      modifies this
      ensures name == old(name)
      ensures params == old(params)[i := old(params)[i].(name := n)]
    {
      params := params[i := params[i].(name := n)];
    }

    /** `template.name = n`. */
    method Rename(n: string)
      modifies this
      ensures name == n && params == old(params)
    {
      name := n;
    }
  }

  /** The names of a page's templates, in page order. */
  function TemplateNames(ts: seq<Template>): (r: seq<string>)
    reads set t | t in ts
    ensures |r| == |ts| && forall i :: 0 <= i < |ts| ==> r[i] == ts[i].name
  {
    if |ts| == 0 then [] else [ts[0].name] + TemplateNames(ts[1..])
  }
}
