/** replace_custom_field_name.py: the game template's kit field moves from
  * its old name to the new one. */
module ReplaceCustomFieldName {
  import opened Wrappers
  import opened Strings
  import opened WikiTemplate

  const GamesTemplateName: string := "קטלוג משחקים"
  const OldCustomFieldName: string := "מכבי תלבושת"
  const NewCustomFieldName: string := "מדים"
  const VideoSummary: string := "תקציר וידאו"
  const VideoSummaryMisspelt: string := "תקציר וידו"
  const PlayersEvents: string := "אירועי שחקנים"

  /** The parameters after the swap, given the name whose presence chooses
    * the anchor: the old field removed when present, then the new field
    * added empty before the video summary or, failing that, before the
    * players events, unless it is already there. */
  function SwappedWith(ps: seq<Param>, probe: string): Result<seq<Param>>
  {
    var ps1 := if HasParam(ps, OldCustomFieldName) then Removed(ps, OldCustomFieldName) else ps;
    if HasParam(ps1, NewCustomFieldName) then Ok(ps1)
    else
      var anchor := if HasParam(ps1, probe) then VideoSummary else PlayersEvents;
      AddedBefore(ps1, NewCustomFieldName, "", anchor)
  }

  /** As written: the presence test reads a differently spelt name than
    * the anchor it then uses. */
  function SwappedAsWritten(ps: seq<Param>): Result<seq<Param>>
  {
    SwappedWith(ps, VideoSummaryMisspelt)
  }

  /** The evidently intended swap: the anchor is the video summary
    * whenever the template has one. */
  function Swapped(ps: seq<Param>): Result<seq<Param>>
  {
    SwappedWith(ps, VideoSummary)
  }

  lemma VideoNamesDiffer()
    ensures VideoSummary != VideoSummaryMisspelt && VideoSummary != PlayersEvents && VideoSummaryMisspelt != PlayersEvents
    ensures NewCustomFieldName != OldCustomFieldName
    ensures OldCustomFieldName != VideoSummary && OldCustomFieldName != PlayersEvents && OldCustomFieldName != VideoSummaryMisspelt
    ensures NewCustomFieldName != VideoSummary && NewCustomFieldName != PlayersEvents && NewCustomFieldName != VideoSummaryMisspelt
    ensures Trim(VideoSummary) == VideoSummary && Trim(VideoSummaryMisspelt) == VideoSummaryMisspelt
    ensures Trim(PlayersEvents) == PlayersEvents && Trim(NewCustomFieldName) == NewCustomFieldName
    ensures Trim(OldCustomFieldName) == OldCustomFieldName
  {
    assert |VideoSummary| != |VideoSummaryMisspelt|;
    assert |VideoSummary| != |PlayersEvents|;
    assert |VideoSummaryMisspelt| != |PlayersEvents|;
    assert |NewCustomFieldName| != |OldCustomFieldName|;
    assert OldCustomFieldName[0] != VideoSummary[0] && |OldCustomFieldName| != |PlayersEvents|;
    assert |OldCustomFieldName| != |VideoSummaryMisspelt|;
    assert |NewCustomFieldName| != |VideoSummary| && |NewCustomFieldName| != |PlayersEvents|;
    assert |NewCustomFieldName| != |VideoSummaryMisspelt|;
    VisibleEndsStripped(VideoSummary);
    VisibleEndsStripped(VideoSummaryMisspelt);
    VisibleEndsStripped(PlayersEvents);
    VisibleEndsStripped(NewCustomFieldName);
    VisibleEndsStripped(OldCustomFieldName);
  }

  /** On a template with the misspelt name and no video summary the
    * written code raises ValueError. */
  lemma SwappedAsWrittenRaises()
    ensures SwappedAsWritten([Param(VideoSummaryMisspelt, ""), Param(PlayersEvents, "")]) == Fail(ValueError)
  {
    MisspeltTemplateFacts();
  }

  /** The two-parameter template with the misspelt video field: nothing to
    * remove, the new field and the correctly spelt video field missing. */
  lemma MisspeltTemplateFacts()
    ensures var a := [Param(VideoSummaryMisspelt, ""), Param(PlayersEvents, "")];
      && !HasParam(a, OldCustomFieldName) && !HasParam(a, NewCustomFieldName)
      && HasParam(a, VideoSummaryMisspelt) && !HasParam(a, VideoSummary)
  {
    VideoNamesDiffer();
    var m, e := Param(VideoSummaryMisspelt, ""), Param(PlayersEvents, "");
    assert Key(m) == VideoSummaryMisspelt && Key(e) == PlayersEvents;
    PairIndex(m, e, OldCustomFieldName);
    PairIndex(m, e, NewCustomFieldName);
    PairIndex(m, e, VideoSummaryMisspelt);
    PairIndex(m, e, VideoSummary);
  }

  /** The two-parameter template of the counterexample: nothing to
    * remove, the new field missing, the video summary first. */
  lemma VideoTemplateFacts()
    ensures var b := [Param(VideoSummary, ""), Param(PlayersEvents, "")];
      && !HasParam(b, OldCustomFieldName) && !HasParam(b, NewCustomFieldName)
      && !HasParam(b, VideoSummaryMisspelt) && HasParam(b, VideoSummary)
      && LastIndexOf(b, NewCustomFieldName) == -1
      && LastIndexOf(b, PlayersEvents) == 1 && LastIndexOf(b, VideoSummary) == 0
      && AnchorIndex(b, PlayersEvents) == 1 && AnchorIndex(b, VideoSummary) == 0
  {
    VideoNamesDiffer();
    var v, e := Param(VideoSummary, ""), Param(PlayersEvents, "");
    assert Key(v) == VideoSummary && Key(e) == PlayersEvents;
    PairIndex(v, e, OldCustomFieldName);
    PairIndex(v, e, NewCustomFieldName);
    PairIndex(v, e, VideoSummaryMisspelt);
    PairIndex(v, e, VideoSummary);
    PairIndex(v, e, PlayersEvents);
    assert |ParamText(v)| != |ParamText(e)|;
  }

  /** Where `get` finds a name in a two-parameter list. */
  lemma PairIndex(p: Param, q: Param, name: string)
    ensures LastIndexOf([p, q], name) == if Key(q) == name then 1 else if Key(p) == name then 0 else -1
    ensures HasParam([p, q], name) <==> Key(p) == name || Key(q) == name
  {
    assert [p, q][..1] == [p];
    assert [p][..0] == [];
  }

  /** On a template with the video summary the written code puts the new
    * field before the players events. */
  lemma SwappedAsWrittenMisplaces()
    ensures SwappedAsWritten([Param(VideoSummary, ""), Param(PlayersEvents, "")])
         == Ok([Param(VideoSummary, ""), Param(NewCustomFieldName, ""), Param(PlayersEvents, "")])
  {
    AsWrittenAnchor();
    AddedBeforePlayersEvents();
  }

  /** On the two-parameter template the written code anchors on the
    * players events. */
  lemma AsWrittenAnchor()
    ensures var b := [Param(VideoSummary, ""), Param(PlayersEvents, "")];
      SwappedAsWritten(b) == AddedBefore(b, NewCustomFieldName, "", PlayersEvents)
  {
    VideoTemplateFacts();
  }

  lemma AddedBeforePlayersEvents()
    ensures var b := [Param(VideoSummary, ""), Param(PlayersEvents, "")];
      AddedBefore(b, NewCustomFieldName, "", PlayersEvents)
      == Ok([Param(VideoSummary, ""), Param(NewCustomFieldName, ""), Param(PlayersEvents, "")])
  {
    VideoTemplateFacts();
    InsertSecond(Param(VideoSummary, ""), Param(PlayersEvents, ""), Param(NewCustomFieldName, ""));
  }

  lemma InsertSecond(p: Param, q: Param, x: Param)
    ensures [p, q][..1] + [x] + [p, q][1..] == [p, x, q]
  {
    assert [p, q][..1] == [p] && [p, q][1..] == [q];
  }

  /** On the same template the intended swap puts it before the video summary. */
  lemma SwappedPlacesBeforeVideo()
    ensures Swapped([Param(VideoSummary, ""), Param(PlayersEvents, "")])
         == Ok([Param(NewCustomFieldName, ""), Param(VideoSummary, ""), Param(PlayersEvents, "")])
  {
    VideoTemplateFacts();
    InsertFirst(Param(VideoSummary, ""), Param(PlayersEvents, ""), Param(NewCustomFieldName, ""));
  }

  lemma InsertFirst(p: Param, q: Param, x: Param)
    ensures [p, q][..0] + [x] + [p, q][0..] == [x, p, q]
  {
  }

  /** After a successful swap the old field is gone, the new one is
    * present with its old value when it had one and "" otherwise, and the
    * swap fails only when neither anchor is there. */
  lemma SwappedSpec(ps: seq<Param>)
    ensures var ps1 := if HasParam(ps, OldCustomFieldName) then Removed(ps, OldCustomFieldName) else ps;
      && (Swapped(ps).Fail? <==> !HasParam(ps1, NewCustomFieldName) && !HasParam(ps1, VideoSummary) && !HasParam(ps1, PlayersEvents))
      && (Swapped(ps).Ok? ==>
           var r := Swapped(ps).value;
           && !HasParam(r, OldCustomFieldName) && HasParam(r, NewCustomFieldName)
           && (HasParam(ps1, NewCustomFieldName) ==> r == ps1)
           && (!HasParam(ps1, NewCustomFieldName) ==> ValueOf(r, NewCustomFieldName) == ""))
  {
    VideoNamesDiffer();
    var ps1 := if HasParam(ps, OldCustomFieldName) then Removed(ps, OldCustomFieldName) else ps;
    if HasParam(ps, OldCustomFieldName) {
      RemovedLacks(ps, OldCustomFieldName);
    }
    if !HasParam(ps1, NewCustomFieldName) {
      var anchor := if HasParam(ps1, VideoSummary) then VideoSummary else PlayersEvents;
      AddedBeforeShape(ps1, NewCustomFieldName, "", anchor);
      if HasParam(ps1, anchor) {
        AddedBeforeKeeps(ps1, NewCustomFieldName, anchor);
      }
    }
  }

  /** The parameter added before an anchor is the only new name, and it
    * holds its value. */
  lemma AddedBeforeKeeps(ps: seq<Param>, name: string, anchor: string)
    requires Trim(name) == name && !HasParam(ps, name) && HasParam(ps, anchor)
    ensures AddedBefore(ps, name, "", anchor).Ok?
    ensures var r := AddedBefore(ps, name, "", anchor).value;
      HasParam(r, name) && ValueOf(r, name) == ""
      && forall other :: other != name ==> (HasParam(r, other) <==> HasParam(ps, other))
  {
    AddedBeforeShape(ps, name, "", anchor);
    var r := AddedBefore(ps, name, "", anchor).value;
    var j := AnchorIndex(ps, anchor);
    var x := Param(name, "");
    assert r == ps[..j] + [x] + ps[j..];
    assert Key(x) == name;
    InsertedOnly(ps, j, x);
    forall other | other != name ensures HasParam(r, other) <==> HasParam(ps, other) {
      InsertedOthers(ps, j, x, other);
    }
  }

  /** Running the swap on its own result changes nothing. */
  lemma SwappedIdempotent(ps: seq<Param>)
    requires Swapped(ps).Ok?
    ensures Swapped(Swapped(ps).value) == Swapped(ps)
  {
    SwappedSpec(ps);
  }

  /** The edit of one page: the first game template, if any, is swapped in
    * place; a page without one is untouched. */
  method ReplaceCustomField(ts: seq<Template>) returns (r: Result<bool>)
    modifies set t | t in ts
    ensures var i := FirstNamed(old(TemplateNames(ts)), GamesTemplateName);
      && (i < 0 ==> r == Ok(false))
      && (i >= 0 ==>
           && ts[i].name == old(ts[i].name)
           && (Swapped(old(ts[i].params)).Ok? ==> r == Ok(true) && ts[i].params == Swapped(old(ts[i].params)).value)
           && (Swapped(old(ts[i].params)).Fail? ==> r == Fail(ValueError)))
      && forall t :: t in ts && (i < 0 || t != ts[i]) ==> t.name == old(t.name) && t.params == old(t.params)
  {
    var i := FirstNamed(TemplateNames(ts), GamesTemplateName);
    if i < 0 {
      return Ok(false);
    }
    var done := SwapInTemplate(ts[i]);
    r := if done.Ok? then Ok(true) else Fail(done.error);
  }

  method SwapInTemplate(t: Template) returns (r: Result<()>)
    modifies t
    ensures t.name == old(t.name)
    ensures Swapped(old(t.params)).Ok? ==> r == Ok(()) && t.params == Swapped(old(t.params)).value
    ensures Swapped(old(t.params)).Fail? ==> r == Fail(ValueError)
  {
    if t.Has(OldCustomFieldName) {
      var removed := t.Remove(OldCustomFieldName);
    }
    if t.Has(NewCustomFieldName) {
      return Ok(());
    }
    var anchor := if t.Has(VideoSummary) then VideoSummary else PlayersEvents;
    r := t.AddBefore(NewCustomFieldName, "", anchor);
  }
}
