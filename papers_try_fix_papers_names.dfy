/** papers/try_fix_papers_names.py: newspaper scans of "חדשות הספורט" are
  * renamed, one rewrite of the stem at a time, so that the paper's name
  * leads and the spelling of the rest is uniform. */
module SportsNewsPaperNames {
  import opened Wrappers
  import opened Strings
  import opened Paths
  import opened PaperStems

  const PaperName: Pattern := "חדשות הספורט"

  /** The steps of `handle_paper_image_file`, in order; every renamed file
    * keeps the suffix the scan had at first. */
  const Steps: seq<Step> := [
    Step(NameFirst(PaperName, ""), false),
    Step(SingleSpaces, false),
    Step(TightBrackets, false),
    Step(NoAgainst, false),
    Step(FullMaccabi, false),
    Step(NoMakaf, false),
    Step(NumberLast(2), false)
  ]

  /** `rename_file`: nothing happens when the two names are the same;
    * otherwise the file is renamed, and the new name is returned. */
  method RenameFile(dir: Directory, source: string, target: string) returns (r: Result<string>)
    modifies dir
    ensures source == target ==> r == Ok(target) && dir.names == old(dir.names)
    ensures source != target && source !in old(dir.names) ==>
              r == Fail(FileNotFoundError) && dir.names == old(dir.names)
    ensures source != target && source in old(dir.names) && target in old(dir.names) ==>
              r == Fail(FileExistsError) && dir.names == old(dir.names)
    ensures source != target && source in old(dir.names) && target !in old(dir.names) ==>
              r == Ok(target) && dir.names == old(dir.names) - {source} + {target}
  {
    if source == target {
      return Ok(target);
    }
    var moved := dir.Rename(source, target);
    if moved.Fail? {
      return Fail(moved.error);
    }
    r := Ok(target);
  }

  /** `handle_paper_image_file`: the file named `paper` goes through the
    * renames of `Steps`; a rename onto a name another file of the folder
    * has raises FileExistsError and leaves the file where the chain
    * stopped. */
  method HandlePaperImageFile(dir: Directory, paper: string) returns (r: Result<()>)
    requires paper in dir.names
    modifies dir
    ensures var rest := old(dir.names) - {paper};
      var w := Chain(rest, paper, "", Suffix(paper), Steps);
      dir.names == rest + {w.at} && r == if w.ok then Ok(()) else Fail(FileExistsError)
  {
    ghost var rest := dir.names - {paper};
    var suffix := Suffix(paper);
    var current := paper;
    var stem := "";
    if !StartsWith(Stem(paper), PaperName) {
      stem, current, r := NextRename(dir, current, "", PaperNameFirst(Stem(current), PaperName, ""), suffix, rest, Steps);
      if r.Fail? {
        return;
      }
    } else {
      ChainSkipped(rest, current, "", suffix, Steps);
    }
    r := SpacingRenames(dir, current, stem, suffix, rest);
  }

  /** The blocks that make the spaces of the stem single and take them out
    * of brackets; then the rest of `Steps`. */
  method SpacingRenames(dir: Directory, current: string, last: string, suffix: string, ghost rest: set<string>)
    returns (r: Result<()>)
    requires dir.names == rest + {current} && current !in rest
    modifies dir
    ensures var w := Chain(rest, current, last, suffix, Steps[1..]);
      dir.names == rest + {w.at} && r == if w.ok then Ok(()) else Fail(FileExistsError)
  {
    var stem, current := last, current;
    stem, current, r := NextRename(dir, current, stem, SingleSpaced(Stem(current)), suffix, rest, Steps[1..]);
    if r.Fail? {
      return;
    }
    assert Steps[1..][1..] == Steps[2..];
    stem, current, r := NextRename(dir, current, stem, TightBracketed(Stem(current)), suffix, rest, Steps[2..]);
    if r.Fail? {
      return;
    }
    assert Steps[2..][1..] == Steps[3..];
    r := WordingRenames(dir, current, stem, suffix, rest);
  }

  /** The blocks that drop "against" and write Maccabi in full; then the
    * rest of `Steps`. */
  method WordingRenames(dir: Directory, current: string, last: string, suffix: string, ghost rest: set<string>)
    returns (r: Result<()>)
    requires dir.names == rest + {current} && current !in rest
    modifies dir
    ensures var w := Chain(rest, current, last, suffix, Steps[3..]);
      dir.names == rest + {w.at} && r == if w.ok then Ok(()) else Fail(FileExistsError)
  {
    var stem, current := last, current;
    stem, current, r := NextRename(dir, current, stem, WithoutAgainst(Stem(current)), suffix, rest, Steps[3..]);
    if r.Fail? {
      return;
    }
    assert Steps[3..][1..] == Steps[4..];
    stem, current, r := NextRename(dir, current, stem, WithFullMaccabi(Stem(current)), suffix, rest, Steps[4..]);
    if r.Fail? {
      return;
    }
    assert Steps[4..][1..] == Steps[5..];
    r := NumberRenames(dir, current, stem, suffix, rest);
  }

  /** The blocks that drop the dash and move the paper's number to the end. */
  method NumberRenames(dir: Directory, current: string, last: string, suffix: string, ghost rest: set<string>)
    returns (r: Result<()>)
    requires dir.names == rest + {current} && current !in rest
    modifies dir
    ensures var w := Chain(rest, current, last, suffix, Steps[5..]);
      dir.names == rest + {w.at} && r == if w.ok then Ok(()) else Fail(FileExistsError)
  {
    var stem, current := last, current;
    stem, current, r := NextRename(dir, current, stem, WithoutMakaf(Stem(current)), suffix, rest, Steps[5..]);
    if r.Fail? {
      return;
    }
    assert Steps[5..][1..] == Steps[6..];
    if Contains(stem, NumberMark(2)) {
      stem, current, r := NextRename(dir, current, stem, NumberMovedLast(Stem(current), 2), suffix, rest, Steps[6..]);
      if r.Fail? {
        return;
      }
    } else {
      ChainSkipped(rest, current, stem, suffix, Steps[6..]);
    }
    assert Steps[6..][1..] == [];
    r := Ok(());
  }

  /** One block of `handle_paper_image_file`: the stem `next` the first of
    * `steps` computes becomes the file's new stem, behind the original
    * suffix. */
  method NextRename(dir: Directory, current: string, last: string, next: string, suffix: string,
                    ghost rest: set<string>, ghost steps: seq<Step>)
    returns (stem: string, moved: string, r: Result<()>)
    requires dir.names == rest + {current} && current !in rest
    requires steps != [] && !steps[0].currentSuffix && Rewritten(steps[0].rewrite, Stem(current), last) == Some(next)
    modifies dir
    ensures r.Fail? ==> r == Fail(FileExistsError) && moved == current && dir.names == old(dir.names)
    ensures r.Ok? ==> dir.names == rest + {moved} && moved !in rest
    ensures Chain(rest, current, last, suffix, steps)
              == if r.Fail? then Walked(current, false) else Chain(rest, moved, stem, suffix, steps[1..])
  {
    ChainTaken(rest, current, last, suffix, steps, next);
    stem := next;
    var renamed := RenameFile(dir, current, stem + suffix);
    if renamed.Fail? {
      return stem, current, Fail(renamed.error);
    }
    moved, r := stem + suffix, Ok(());
  }

  /** The name the main loop gives a scan whose renames hit a taken name:
    * " עיתון2" after its original stem. */
  const SecondPaper: string := " עיתון2"

  /** The main loop leaves a file alone when its stem lacks the paper's
    * name or has only one kind of bracket. */
  predicate Skipped(f: string)
  {
    var stem := Stem(f);
    || !Contains(stem, PaperName)
    || (Contains(stem, "(") && !Contains(stem, ")"))
    || (Contains(stem, ")") && !Contains(stem, "("))
  }

  /** `rename_file` on the names of a folder. */
  function Renamed(names: set<string>, source: string, target: string): Folder
  {
    if source == target then Folder(names, Ok(()))
    else if source !in names then Folder(names, Fail(FileNotFoundError))
    else if target in names then Folder(names, Fail(FileExistsError))
    else Folder(names - {source} + {target}, Ok(()))
  }

  /** One file of the main loop: skipped, renamed through `Steps`, or, when
    * that stops on a taken name, renamed from its original name to the
    * " עיתון2" name; no other file of the folder is touched. */
  function Handled(names: set<string>, f: string): (r: Folder)
    requires f in names
    ensures forall g :: g in names && g != f ==> g in r.names
  {
    if Skipped(f) then Folder(names, Ok(()))
    else
      var rest := names - {f};
      var w := Chain(rest, f, "", Suffix(f), Steps);
      var moved := rest + {w.at};
      if w.ok then Folder(moved, Ok(()))
      else Renamed(moved, f, Stem(f) + SecondPaper + Suffix(f))
  }

  /** The main loop over the listed files, up to the first error it does
    * not catch. */
  function Fixed(names: set<string>, files: seq<string>): Folder
    requires Distinct(files) && forall i :: 0 <= i < |files| ==> files[i] in names
    decreases |files|
  {
    if files == [] then Folder(names, Ok(()))
    else
      var h := Handled(names, files[0]);
      if h.result.Fail? then h else Fixed(h.names, files[1..])
  }

  /** The main block: every file listed in `files`, the folder's content
    * when the loop started, is handled in turn; FileExistsError from the
    * renames is caught by the " עיתון2" rename, and any error that rename
    * raises ends the run. */
  method FixFolder(dir: Directory, files: seq<string>) returns (r: Result<()>)
    requires Distinct(files) && forall i :: 0 <= i < |files| ==> files[i] in dir.names
    modifies dir
    ensures Folder(dir.names, r) == Fixed(old(dir.names), files)
  {
    for i := 0 to |files|
      invariant forall j :: i <= j < |files| ==> files[j] in dir.names
      invariant Fixed(old(dir.names), files) == Fixed(dir.names, files[i..])
    {
      var f := files[i];
      ghost var names := dir.names;
      assert files[i..][0] == f && files[i..][1..] == files[i + 1..];
      var stem := Stem(f);
      if Contains(stem, PaperName)
         && !(Contains(stem, "(") && !Contains(stem, ")"))
         && !(Contains(stem, ")") && !Contains(stem, "("))
      {
        var handled := HandlePaperImageFile(dir, f);
        if handled.Fail? {
          var retried := RenameFile(dir, f, stem + SecondPaper + Suffix(f));
          if retried.Fail? {
            return Fail(retried.error);
          }
        }
      }
      assert Folder(dir.names, Ok(())) == Handled(names, f);
    }
    r := Ok(());
  }

  /** A file keeps its place in the folder's count: no rename loses or
    * merges a file. */
  lemma HandledKeepsCount(names: set<string>, f: string)
    requires f in names
    ensures |Handled(names, f).names| == |names|
  {
    if !Skipped(f) {
      var rest := names - {f};
      ChainSpec(rest, f, "", Suffix(f), Steps);
      var w := Chain(rest, f, "", Suffix(f), Steps);
      var moved := rest + {w.at};
      assert |moved| == |names|;
      if !w.ok {
        var target := Stem(f) + SecondPaper + Suffix(f);
        if f != target && f in moved && target !in moved {
          assert |moved - {f}| == |names| - 1;
        }
      }
    }
  }

  /** The run never changes how many files the folder has. */
  lemma {:induction false} FixedKeepsCount(names: set<string>, files: seq<string>)
    requires Distinct(files) && forall i :: 0 <= i < |files| ==> files[i] in names
    ensures |Fixed(names, files).names| == |names|
    decreases |files|
  {
    if files != [] {
      HandledKeepsCount(names, files[0]);
      var h := Handled(names, files[0]);
      if h.result.Ok? {
        FixedKeepsCount(h.names, files[1..]);
      }
    }
  }

  /** A file that was not listed, or that the loop skips, keeps its name. */
  lemma {:induction false} FixedKeepsOthers(names: set<string>, files: seq<string>, g: string)
    requires Distinct(files) && forall i :: 0 <= i < |files| ==> files[i] in names
    requires g in names && (g !in files || Skipped(g))
    ensures g in Fixed(names, files).names
    decreases |files|
  {
    if files != [] {
      var h := Handled(names, files[0]);
      assert g in h.names;
      if h.result.Ok? {
        FixedKeepsOthers(h.names, files[1..], g);
      }
    }
  }

  /** Every step keeps a stem that starts with the paper's name. */
  lemma StepsKeepPaperName()
    ensures forall i :: 0 <= i < |Steps| ==> KeepsPrefix(Steps[i].rewrite, PaperName)
  {
    PaperNameLetters();
    assert KeepsPrefix(TightBrackets, PaperName);
    assert KeepsPrefix(NoAgainst, PaperName);
    assert KeepsPrefix(NoMakaf, PaperName);
    assert KeepsPrefix(NumberLast(2), PaperName);
  }

  /** The paper's name has one space, before 'ה', and no bracket, dash,
    * 'מ' or 'נ'. */
  lemma PaperNameLetters()
    ensures forall k :: 0 <= k < |PaperName| ==> PaperName[k] !in "()-מנ"
    ensures forall k :: 0 <= k < |PaperName| && PaperName[k] == ' ' ==> k + 1 < |PaperName| && PaperName[k + 1] == 'ה'
  {
  }

  /** When all the renames of a scan with a proper suffix go through, its
    * final name is the stem computed on stems alone, which starts with the
    * paper's name, behind the scan's original suffix. */
  lemma FinalName(rest: set<string>, paper: string)
    requires paper !in rest && ProperSuffix(Suffix(paper))
    requires Chain(rest, paper, "", Suffix(paper), Steps).ok
    ensures Chain(rest, paper, "", Suffix(paper), Steps).at == StemAfter(Stem(paper), "", Steps) + Suffix(paper)
    ensures StartsWith(StemAfter(Stem(paper), "", Steps), PaperName)
  {
    ChainSpec(rest, paper, "", Suffix(paper), Steps);
    StepsKeepPaperName();
    if StartsWith(Stem(paper), PaperName) {
      ChainStems(paper, "", Suffix(paper), Steps, PaperName);
    } else {
      NamedFinalName(paper);
    }
  }

  /** The same in an empty folder, for a scan whose stem does not start
    * with the paper's name: the first step puts the name in front. */
  lemma NamedFinalName(paper: string)
    requires ProperSuffix(Suffix(paper)) && !StartsWith(Stem(paper), PaperName)
    requires forall i :: 0 <= i < |Steps| ==> KeepsPrefix(Steps[i].rewrite, PaperName)
    ensures Chain({}, paper, "", Suffix(paper), Steps).at == StemAfter(Stem(paper), "", Steps) + Suffix(paper)
    ensures StartsWith(StemAfter(Stem(paper), "", Steps), PaperName)
  {
    var suffix := Suffix(paper);
    var stem := PaperNameFirst(Stem(paper), PaperName, "");
    NameFirstSpec(Stem(paper), "", PaperName, "");
    ChainTaken({}, paper, "", suffix, Steps, stem);
    NameParts(stem, suffix);
    assert forall i :: 0 <= i < |Steps[1..]| ==> Steps[1..][i] == Steps[i + 1];
    ChainStems(stem + suffix, stem, suffix, Steps[1..], PaperName);
  }

  /** The " עיתון2" rename is of the scan's original name: when an earlier
    * rename of the scan went through before one hit a taken name, the
    * original name is gone and the run stops with FileNotFoundError. */
  lemma RetryAfterMove(names: set<string>, f: string)
    requires f in names && !Skipped(f)
    requires var w := Chain(names - {f}, f, "", Suffix(f), Steps); !w.ok && w.at != f
    ensures Handled(names, f).result == Fail(FileNotFoundError)
  {
    var rest := names - {f};
    ChainSpec(rest, f, "", Suffix(f), Steps);
    var target := Stem(f) + SecondPaper + Suffix(f);
    StemAndSuffix(f);
    assert |target| > |f|;
  }
}
