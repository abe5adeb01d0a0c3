/** scripts/papers/try_fix_papers_names.py: scans of the paper "למרחב" are
  * given a ".jpg" suffix and renamed, one rewrite of the stem at a time,
  * so that the paper's name leads and page numbers come last. */
module LamerhavPaperNames {
  import opened Wrappers
  import opened Strings
  import opened Paths
  import opened PaperStems

  const PaperName: Pattern := "למרחב"

  /** "עיתון למרחב", the long form of the paper's name. */
  const LongName: string := "עיתון " + PaperName

  const Jpg: Pattern := ".jpg"
  const Jpeg: string := ".jpeg"

  /** The name the main loop gives a scan whose renames hit a taken name. */
  const SecondPaper: string := " עיתון2"

  /** The steps of `handle_paper_image_file` before its page-number loop.
    * The first two rename the file behind the suffix it has at that
    * moment; the others behind the suffix it had at first. */
  const FixedSteps: seq<Step> := [
    Step(SingleSpaces, true),
    Step(NoLongName(PaperName), true),
    Step(NameFirst(PaperName, " "), false),
    Step(SingleSpaces, false),
    Step(TightBrackets, false),
    Step(SpaceAfterBracket, false),
    Step(NoSpaceAfterEndBracket, false),
    Step(NoAgainst, false),
    Step(FullMaccabi, false),
    Step(NoMakaf, false)
  ]

  /** The page-number moves of the loop `for paper_num in range(n, 10)`. */
  function NumberSteps(n: nat): seq<Step>
    decreases 10 - n
  {
    if n >= 10 then [] else [Step(NumberLast(n), false)] + NumberSteps(n + 1)
  }

  /** All the steps of `handle_paper_image_file`, in order. */
  const Steps: seq<Step> := FixedSteps + NumberSteps(1)

  /** The fixed steps one by one. */
  lemma FixedStepsAt()
    ensures |FixedSteps| == 10
    ensures FixedSteps[0] == Step(SingleSpaces, true) && FixedSteps[1] == Step(NoLongName(PaperName), true)
    ensures FixedSteps[2] == Step(NameFirst(PaperName, " "), false) && FixedSteps[3] == Step(SingleSpaces, false)
    ensures FixedSteps[4] == Step(TightBrackets, false) && FixedSteps[5] == Step(SpaceAfterBracket, false)
    ensures FixedSteps[6] == Step(NoSpaceAfterEndBracket, false) && FixedSteps[7] == Step(NoAgainst, false)
    ensures FixedSteps[8] == Step(FullMaccabi, false) && FixedSteps[9] == Step(NoMakaf, false)
  {
  }

  /** The steps from the `k`-th fixed one on. */
  function From(k: nat): seq<Step>
    requires k <= |FixedSteps|
  {
    FixedSteps[k..] + NumberSteps(1)
  }

  lemma FromNext(k: nat)
    requires k < |FixedSteps|
    ensures From(k) != [] && From(k)[0] == FixedSteps[k] && From(k)[1..] == From(k + 1)
  {
    assert From(k)[1..] == FixedSteps[k + 1..] + NumberSteps(1);
  }

  /** The last fixed step drops the dash; the page-number moves follow. */
  lemma LastFixedStep()
    ensures From(9) != [] && From(9)[0] == Step(NoMakaf, false) && From(9)[1..] == NumberSteps(1)
  {
    FixedStepsAt();
    FromNext(9);
    assert From(10) == NumberSteps(1);
  }

  /** `rename_file`: nothing happens when the target is an existing file
    * and the same file as the source; otherwise the file is renamed, and
    * the new name is returned. */
  method RenameFile(dir: Directory, source: string, target: string) returns (r: Result<string>)
    modifies dir
    ensures source == target && target in old(dir.names) ==> r == Ok(target) && dir.names == old(dir.names)
    ensures source !in old(dir.names) ==> r == Fail(FileNotFoundError) && dir.names == old(dir.names)
    ensures source in old(dir.names) && source != target && target in old(dir.names) ==>
              r == Fail(FileExistsError) && dir.names == old(dir.names)
    ensures source in old(dir.names) && target !in old(dir.names) ==>
              r == Ok(target) && dir.names == old(dir.names) - {source} + {target}
  {
    if target in dir.names && source == target {
      return Ok(target);
    }
    var moved := dir.Rename(source, target);
    if moved.Fail? {
      return Fail(moved.error);
    }
    r := Ok(target);
  }

  /** One block of `handle_paper_image_file`: the stem `next` the first of
    * `steps` computes becomes the file's new stem, behind `tail`, the
    * suffix that step asks for. */
  method NextRename(dir: Directory, current: string, last: string, next: string, tail: string, suffix: string,
                    ghost rest: set<string>, ghost steps: seq<Step>)
    returns (stem: string, moved: string, r: Result<()>)
    requires dir.names == rest + {current} && current !in rest
    requires steps != [] && Rewritten(steps[0].rewrite, Stem(current), last) == Some(next)
    requires tail == if steps[0].currentSuffix then Suffix(current) else suffix
    modifies dir
    ensures r.Fail? ==> r == Fail(FileExistsError) && moved == current && dir.names == old(dir.names)
    ensures r.Ok? ==> dir.names == rest + {moved} && moved !in rest
    ensures Chain(rest, current, last, suffix, steps)
              == if r.Fail? then Walked(current, false) else Chain(rest, moved, stem, suffix, steps[1..])
  {
    ChainTaken(rest, current, last, suffix, steps, next);
    stem := next;
    var renamed := RenameFile(dir, current, stem + tail);
    if renamed.Fail? {
      return stem, current, Fail(renamed.error);
    }
    moved, r := stem + tail, Ok(());
  }

  /** One conditional block of the script: when `apply` holds, the step
    * `k` renames the file behind the original suffix; otherwise the file
    * stays where it is. */
  method OptionalRename(dir: Directory, current: string, last: string, suffix: string, ghost rest: set<string>,
                        ghost k: nat, apply: bool, next: string)
    returns (stem: string, moved: string, r: Result<()>)
    requires dir.names == rest + {current} && current !in rest
    requires k < |FixedSteps| && !FixedSteps[k].currentSuffix
    requires apply ==> Rewritten(FixedSteps[k].rewrite, Stem(current), last) == Some(next)
    requires !apply ==> Rewritten(FixedSteps[k].rewrite, Stem(current), last).None?
    modifies dir
    ensures r.Fail? ==> r == Fail(FileExistsError) && dir.names == old(dir.names)
                        && Chain(rest, current, last, suffix, From(k)) == Walked(current, false)
    ensures r.Ok? ==> dir.names == rest + {moved} && moved !in rest
                      && Chain(rest, current, last, suffix, From(k)) == Chain(rest, moved, stem, suffix, From(k + 1))
  {
    FromNext(k);
    if apply {
      stem, moved, r := NextRename(dir, current, last, next, suffix, suffix, rest, From(k));
    } else {
      ChainSkipped(rest, current, last, suffix, From(k));
      stem, moved, r := last, current, Ok(());
    }
  }

  /** `handle_paper_image_file`: the file named `paper` goes through the
    * renames of `Steps` and its final name is returned; a rename onto a
    * name another file of the folder has raises FileExistsError and
    * leaves the file where the chain stopped. */
  method HandlePaperImageFile(dir: Directory, paper: string) returns (r: Result<string>)
    requires paper in dir.names
    modifies dir
    ensures var rest := old(dir.names) - {paper};
      var w := Chain(rest, paper, "", Suffix(paper), Steps);
      dir.names == rest + {w.at} && r == if w.ok then Ok(w.at) else Fail(FileExistsError)
  {
    FixedStepsAt();
    ghost var rest := dir.names - {paper};
    var suffix := Suffix(paper);
    var stem, current, moved;
    FromNext(0);
    stem, current, moved := NextRename(dir, paper, "", SingleSpaced(Stem(paper)), Suffix(paper), suffix, rest, From(0));
    if moved.Fail? {
      return Fail(moved.error);
    }
    FromNext(1);
    stem, current, moved := NextRename(dir, current, stem, Replace(Stem(current), LongName, ""), Suffix(current), suffix,
                                       rest, From(1));
    if moved.Fail? {
      return Fail(moved.error);
    }
    FromNext(2);
    if !StartsWith(Stem(current), PaperName) {
      stem, current, moved := NextRename(dir, current, stem, PaperNameFirst(Stem(current), PaperName, " "), suffix, suffix,
                                         rest, From(2));
      if moved.Fail? {
        return Fail(moved.error);
      }
    } else {
      ChainSkipped(rest, current, stem, suffix, From(2));
    }
    r := SpacingRenames(dir, current, stem, suffix, rest);
  }

  /** The blocks that make the spaces of the stem single and take them out
    * of brackets; then the rest of `Steps`. */
  method SpacingRenames(dir: Directory, current: string, last: string, suffix: string, ghost rest: set<string>)
    returns (r: Result<string>)
    requires dir.names == rest + {current} && current !in rest
    modifies dir
    ensures var w := Chain(rest, current, last, suffix, From(3));
      dir.names == rest + {w.at} && r == if w.ok then Ok(w.at) else Fail(FileExistsError)
  {
    FixedStepsAt();
    var stem, current, moved := last, current, Ok(());
    FromNext(3);
    stem, current, moved := NextRename(dir, current, stem, SingleSpaced(Stem(current)), suffix, suffix, rest, From(3));
    if moved.Fail? {
      return Fail(moved.error);
    }
    FromNext(4);
    stem, current, moved := NextRename(dir, current, stem, TightBracketed(Stem(current)), suffix, suffix, rest, From(4));
    if moved.Fail? {
      return Fail(moved.error);
    }
    r := BracketRenames(dir, current, stem, suffix, rest);
  }

  /** The blocks that put a space after a closing bracket inside the stem
    * and take it away at the stem's end; then the rest of `Steps`. */
  method BracketRenames(dir: Directory, current: string, last: string, suffix: string, ghost rest: set<string>)
    returns (r: Result<string>)
    requires dir.names == rest + {current} && current !in rest
    modifies dir
    ensures var w := Chain(rest, current, last, suffix, From(5));
      dir.names == rest + {w.at} && r == if w.ok then Ok(w.at) else Fail(FileExistsError)
  {
    assert FixedSteps[5] == Step(SpaceAfterBracket, false);
    var stem, moved, renamed := OptionalRename(dir, current, last, suffix, rest, 5,
      Contains(Stem(current), ")") && !Contains(Stem(current), ") ") && !EndsWith(Stem(current), ")"),
      SpacedAfterBracket(Stem(current)));
    if renamed.Fail? {
      return Fail(renamed.error);
    }
    r := EndBracketRename(dir, moved, stem, suffix, rest);
  }

  /** The block that takes the space after a closing bracket away at the
    * stem's end; then the rest of `Steps`. */
  method EndBracketRename(dir: Directory, current: string, last: string, suffix: string, ghost rest: set<string>)
    returns (r: Result<string>)
    requires dir.names == rest + {current} && current !in rest
    modifies dir
    ensures var w := Chain(rest, current, last, suffix, From(6));
      dir.names == rest + {w.at} && r == if w.ok then Ok(w.at) else Fail(FileExistsError)
  {
    assert FixedSteps[6] == Step(NoSpaceAfterEndBracket, false);
    var stem, moved, renamed := OptionalRename(dir, current, last, suffix, rest, 6,
      EndsWith(Stem(current), ") "), UnspacedAfterBracket(Stem(current)));
    if renamed.Fail? {
      return Fail(renamed.error);
    }
    r := AgainstRename(dir, moved, stem, suffix, rest);
  }

  /** The block that drops "against"; then the rest of `Steps`. */
  method AgainstRename(dir: Directory, current: string, last: string, suffix: string, ghost rest: set<string>)
    returns (r: Result<string>)
    requires dir.names == rest + {current} && current !in rest
    modifies dir
    ensures var w := Chain(rest, current, last, suffix, From(7));
      dir.names == rest + {w.at} && r == if w.ok then Ok(w.at) else Fail(FileExistsError)
  {
    FixedStepsAt();
    FromNext(7);
    var stem, moved, renamed := NextRename(dir, current, last, WithoutAgainst(Stem(current)), suffix, suffix, rest, From(7));
    if renamed.Fail? {
      return Fail(renamed.error);
    }
    r := MaccabiRename(dir, moved, stem, suffix, rest);
  }

  /** The block that writes Maccabi in full; then the rest of `Steps`. */
  method MaccabiRename(dir: Directory, current: string, last: string, suffix: string, ghost rest: set<string>)
    returns (r: Result<string>)
    requires dir.names == rest + {current} && current !in rest
    modifies dir
    ensures var w := Chain(rest, current, last, suffix, From(8));
      dir.names == rest + {w.at} && r == if w.ok then Ok(w.at) else Fail(FileExistsError)
  {
    FixedStepsAt();
    FromNext(8);
    var stem, moved, renamed := NextRename(dir, current, last, WithFullMaccabi(Stem(current)), suffix, suffix, rest, From(8));
    if renamed.Fail? {
      return Fail(renamed.error);
    }
    r := MakafRename(dir, moved, stem, suffix, rest);
  }

  /** The block that drops the dash before the paper's word; then the
    * page-number moves. */
  method MakafRename(dir: Directory, current: string, last: string, suffix: string, ghost rest: set<string>)
    returns (r: Result<string>)
    requires dir.names == rest + {current} && current !in rest
    modifies dir
    ensures var w := Chain(rest, current, last, suffix, From(9));
      dir.names == rest + {w.at} && r == if w.ok then Ok(w.at) else Fail(FileExistsError)
  {
    LastFixedStep();
    var stem, moved, renamed := NextRename(dir, current, last, WithoutMakaf(Stem(current)), suffix, suffix, rest, From(9));
    if renamed.Fail? {
      return Fail(renamed.error);
    }
    r := NumberRenames(dir, moved, stem, suffix, rest);
  }

  /** The loop over page numbers 1 to 9: " עיתון N" in the last stem moves
    * to the end of the stem as " עיתוןN". */
  method NumberRenames(dir: Directory, current: string, last: string, suffix: string, ghost rest: set<string>)
    returns (r: Result<string>)
    requires dir.names == rest + {current} && current !in rest
    modifies dir
    ensures var w := Chain(rest, current, last, suffix, NumberSteps(1));
      dir.names == rest + {w.at} && r == if w.ok then Ok(w.at) else Fail(FileExistsError)
  {
    ghost var spec := Chain(rest, current, last, suffix, NumberSteps(1));
    var stem, current, moved := last, current, Ok(());
    for n := 1 to 10
      invariant dir.names == rest + {current} && current !in rest
      invariant spec == Chain(rest, current, stem, suffix, NumberSteps(n))
    {
      stem, current, moved := NumberRename(dir, current, stem, suffix, n, rest);
      if moved.Fail? {
        return Fail(moved.error);
      }
    }
    r := Ok(current);
  }

  /** One turn of the page-number loop, for the number `n`. */
  method NumberRename(dir: Directory, current: string, last: string, suffix: string, n: nat, ghost rest: set<string>)
    returns (stem: string, moved: string, r: Result<()>)
    requires dir.names == rest + {current} && current !in rest && n < 10
    modifies dir
    ensures r.Fail? ==> r == Fail(FileExistsError) && moved == current && dir.names == old(dir.names)
    ensures r.Ok? ==> dir.names == rest + {moved} && moved !in rest
    ensures Chain(rest, current, last, suffix, NumberSteps(n))
              == if r.Fail? then Walked(current, false) else Chain(rest, moved, stem, suffix, NumberSteps(n + 1))
  {
    assert NumberSteps(n)[0] == Step(NumberLast(n), false) && NumberSteps(n)[1..] == NumberSteps(n + 1);
    if Contains(last, NumberMark(n)) {
      stem, moved, r := NextRename(dir, current, last, NumberMovedLast(Stem(current), n), suffix, suffix,
                                   rest, NumberSteps(n));
    } else {
      ChainSkipped(rest, current, last, suffix, NumberSteps(n));
      stem, moved, r := last, current, Ok(());
    }
  }

  /** `rename_file` on the names of a folder. */
  function Renamed(names: set<string>, source: string, target: string): (r: Folder)
    ensures forall g :: g in names && g != source ==> g in r.names
    ensures r.result.Ok? ==> target in r.names && (source == target || target !in names)
  {
    if source == target && target in names then Folder(names, Ok(()))
    else if source !in names then Folder(names, Fail(FileNotFoundError))
    else if source != target && target in names then Folder(names, Fail(FileExistsError))
    else Folder(names - {source} + {target}, Ok(()))
  }

  /** The name a listed file is given a ".jpg" suffix under, when it has
    * neither ".jpg" nor ".jpeg". */
  function WithJpg(f: string): string
  {
    if Suffix(f) != Jpg && Suffix(f) != Jpeg then f + Jpg else f
  }

  /** The name with its first ".jpg" removed, when it has several. */
  function Deduplicated(f: string): string
  {
    if Count(f, Jpg) > 1 then ReplaceFirst(f, Jpg, "") else f
  }

  /** The loop leaves a file alone when its stem has only one kind of
    * bracket. */
  predicate Skipped(f: string)
  {
    var stem := Stem(f);
    || (Contains(stem, "(") && !Contains(stem, ")"))
    || (Contains(stem, ")") && !Contains(stem, "("))
  }

  /** The file `f`, its suffix settled: skipped, renamed through `Steps`,
    * or, when that stops on a taken name, renamed from the name it had
    * before the chain to the " עיתון2" name. */
  function Tidied(names: set<string>, f: string): (r: Folder)
    requires f in names
    ensures forall g :: g in names && g != f ==> g in r.names
  {
    if Skipped(f) then Folder(names, Ok(()))
    else
      var rest := names - {f};
      var w := Chain(rest, f, "", Suffix(f), Steps);
      var moved := rest + {w.at};
      if w.ok then Folder(moved, Ok(()))
      else Renamed(moved, f, Stem(f) + SecondPaper + Suffix(f))
  }

  /** One file of the main loop. A rename that keeps the name is the same
    * as the script's skipping it, the file being in the folder. */
  function Handled(names: set<string>, f: string): (r: Folder)
    requires f in names
    ensures forall g :: g in names && g != f ==> g in r.names
  {
    var a := WithJpg(f);
    var s1 := Renamed(names, f, a);
    if s1.result.Fail? then s1
    else
      var b := Deduplicated(a);
      var s2 := Renamed(s1.names, a, b);
      if s2.result.Fail? then s2 else Tidied(s2.names, b)
  }

  /** `files` lists distinct names of the folder. */
  predicate Listed(names: set<string>, files: seq<string>)
  {
    Distinct(files) && forall i :: 0 <= i < |files| ==> files[i] in names
  }

  /** The main loop over the listed files, up to the first error it does
    * not catch. */
  function Fixed(names: set<string>, files: seq<string>): Folder
    requires Listed(names, files)
    decreases |files|
  {
    if files == [] then Folder(names, Ok(()))
    else
      var h := Handled(names, files[0]);
      if h.result.Fail? then h else Fixed(h.names, files[1..])
  }

  /** One iteration of the main block: the ".jpg" suffix, the duplicate
    * ".jpg", the bracket check, the renames, and the " עיתון2" rename that
    * catches FileExistsError. */
  method HandleListed(dir: Directory, f: string) returns (r: Result<()>)
    requires f in dir.names
    modifies dir
    ensures Folder(dir.names, r) == Handled(old(dir.names), f)
  {
    var withJpg := AddJpg(dir, f);
    if withJpg.Fail? {
      return Fail(withJpg.error);
    }
    var single := DropJpg(dir, withJpg.value);
    if single.Fail? {
      return Fail(single.error);
    }
    r := TidyListed(dir, single.value);
  }

  /** The ".jpg" suffix given to a file that has neither ".jpg" nor ".jpeg". */
  method AddJpg(dir: Directory, f: string) returns (r: Result<string>)
    requires f in dir.names
    modifies dir
    ensures Folder(dir.names, if r.Ok? then Ok(()) else Fail(r.error)) == Renamed(old(dir.names), f, WithJpg(f))
    ensures r.Ok? ==> r.value == WithJpg(f)
  {
    r := Ok(f);
    if Suffix(f) != Jpg && Suffix(f) != Jpeg {
      r := RenameFile(dir, f, f + Jpg);
    }
  }

  /** The first ".jpg" removed from a name that has several. */
  method DropJpg(dir: Directory, a: string) returns (r: Result<string>)
    requires a in dir.names
    modifies dir
    ensures Folder(dir.names, if r.Ok? then Ok(()) else Fail(r.error)) == Renamed(old(dir.names), a, Deduplicated(a))
    ensures r.Ok? ==> r.value == Deduplicated(a)
  {
    r := Ok(a);
    if Count(a, Jpg) > 1 {
      r := RenameFile(dir, a, ReplaceFirst(a, Jpg, ""));
    }
  }

  /** The rest of the iteration, once the suffix is settled: the bracket
    * check, the renames, and the " עיתון2" rename that catches
    * FileExistsError. */
  method TidyListed(dir: Directory, current: string) returns (r: Result<()>)
    requires current in dir.names
    modifies dir
    ensures Folder(dir.names, r) == Tidied(old(dir.names), current)
  {
    var stem := Stem(current);
    if (Contains(stem, "(") && !Contains(stem, ")")) || (Contains(stem, ")") && !Contains(stem, "(")) {
      return Ok(());
    }
    var handled := HandlePaperImageFile(dir, current);
    if handled.Fail? {
      var retried := RenameFile(dir, current, stem + SecondPaper + Suffix(current));
      if retried.Fail? {
        return Fail(retried.error);
      }
    }
    r := Ok(());
  }

  /** The run handles the first listed file first and leaves the later
    * ones in the folder. */
  lemma FixedStep(names: set<string>, files: seq<string>)
    requires Listed(names, files) && files != []
    ensures var h := Handled(names, files[0]);
      && (h.result.Ok? ==> Listed(h.names, files[1..]))
      && Fixed(names, files) == if h.result.Fail? then h else Fixed(h.names, files[1..])
  {
    var h := Handled(names, files[0]);
    forall j | 1 <= j < |files|
      ensures files[j] in h.names
    {
      assert files[j] != files[0];
    }
  }

  /** The main block: every file listed in `files`, the folder's content
    * when the loop started, is handled in turn, up to the first error no
    * handler catches. */
  method FixFolder(dir: Directory, files: seq<string>) returns (r: Result<()>)
    requires Listed(dir.names, files)
    modifies dir
    ensures Folder(dir.names, r) == Fixed(old(dir.names), files)
  {
    for i := 0 to |files|
      invariant Listed(dir.names, files[i..])
      invariant Fixed(old(dir.names), files) == Fixed(dir.names, files[i..])
    {
      assert files[i..][0] == files[i] && files[i..][1..] == files[i + 1..];
      FixedStep(dir.names, files[i..]);
      r := HandleListed(dir, files[i]);
      if r.Fail? {
        return;
      }
    }
    r := Ok(());
  }

  /** A rename neither loses nor merges files. */
  lemma RenamedKeepsCount(names: set<string>, source: string, target: string)
    ensures |Renamed(names, source, target).names| == |names|
  {
    if source in names && target !in names {
      assert |names - {source}| == |names| - 1;
    }
  }

  lemma TidiedKeepsCount(names: set<string>, f: string)
    requires f in names
    ensures |Tidied(names, f).names| == |names|
  {
    if !Skipped(f) {
      var rest := names - {f};
      ChainSpec(rest, f, "", Suffix(f), Steps);
      var w := Chain(rest, f, "", Suffix(f), Steps);
      assert |rest + {w.at}| == |names|;
      RenamedKeepsCount(rest + {w.at}, f, Stem(f) + SecondPaper + Suffix(f));
    }
  }

  lemma HandledKeepsCount(names: set<string>, f: string)
    requires f in names
    ensures |Handled(names, f).names| == |names|
  {
    var a := WithJpg(f);
    var s1 := Renamed(names, f, a);
    RenamedKeepsCount(names, f, a);
    if s1.result.Ok? {
      var b := Deduplicated(a);
      RenamedKeepsCount(s1.names, a, b);
      var s2 := Renamed(s1.names, a, b);
      if s2.result.Ok? {
        TidiedKeepsCount(s2.names, b);
      }
    }
  }

  /** The run never changes how many files the folder has. */
  lemma {:induction false} FixedKeepsCount(names: set<string>, files: seq<string>)
    requires Listed(names, files)
    ensures |Fixed(names, files).names| == |names|
    decreases |files|
  {
    if files != [] {
      HandledKeepsCount(names, files[0]);
      var h := Handled(names, files[0]);
      if h.result.Ok? {
        FixedKeepsCount(h.names, files[1..]);
      }
    }
  }

  /** A file that was not listed keeps its name. */
  lemma {:induction false} FixedKeepsOthers(names: set<string>, files: seq<string>, g: string)
    requires Listed(names, files)
    requires g in names && g !in files
    ensures g in Fixed(names, files).names
    decreases |files|
  {
    if files != [] {
      var h := Handled(names, files[0]);
      assert g in h.names;
      if h.result.Ok? {
        FixedKeepsOthers(h.names, files[1..], g);
      }
    }
  }

  /** The name the renames start from ends with ".jpg" unless the file was
    * a ".jpeg" one, and a name with ".jpg" more than once loses the first
    * and keeps another. */
  lemma JpgName(f: string)
    ensures Suffix(f) != Jpeg ==> EndsWith(Deduplicated(WithJpg(f)), Jpg)
    ensures var a := WithJpg(f);
      Count(a, Jpg) > 1 ==> |Deduplicated(a)| == |a| - |Jpg| && Contains(Deduplicated(a), Jpg)
  {
    var a := WithJpg(f);
    if Suffix(f) == Jpg {
      StemAndSuffix(f);
      assert f[|f| - |Jpg|..] == Suffix(f);
    }
    if Count(a, Jpg) > 1 {
      RemoveFirstOfMany(a, Jpg);
    }
  }

  /** The paper's name has no space, bracket, dash or 'נ', and its 'מ' is
    * followed by 'ר'. */
  lemma PaperNameLetters()
    ensures forall k :: 0 <= k < |PaperName| ==> PaperName[k] !in " ()-נ"
    ensures forall k :: 0 <= k < |PaperName| && PaperName[k] == 'מ' ==> k + 1 < |PaperName| && PaperName[k + 1] == 'ר'
  {
  }

  lemma {:induction false} NumberStepsKeep(n: nat)
    ensures forall i :: 0 <= i < |NumberSteps(n)| ==> KeepsPrefix(NumberSteps(n)[i].rewrite, PaperName)
    decreases 10 - n
  {
    if n < 10 {
      NumberStepsKeep(n + 1);
      PaperNameLetters();
      assert NumberMark(n)[0] == ' ';
      assert KeepsPrefix(NumberLast(n), PaperName);
      forall i | 1 <= i < |NumberSteps(n)| ensures NumberSteps(n)[i] == NumberSteps(n + 1)[i - 1] {
      }
    }
  }

  /** From the name-first step on, every step keeps a stem that starts
    * with the paper's name. */
  lemma LaterStepsKeep(k: nat)
    requires 2 <= k <= |FixedSteps|
    ensures forall i :: 0 <= i < |From(k)| ==> KeepsPrefix(From(k)[i].rewrite, PaperName)
  {
    NumberStepsKeep(1);
    forall i | 0 <= i < |From(k)| ensures KeepsPrefix(From(k)[i].rewrite, PaperName) {
      FromAt(k, i);
      if i < |FixedSteps| - k {
        FixedKeeps(k + i);
      }
    }
  }

  /** The i-th step from step k on. */
  lemma FromAt(k: nat, i: nat)
    requires k <= |FixedSteps| && i < |From(k)|
    ensures |From(k)| == |FixedSteps| - k + |NumberSteps(1)|
    ensures From(k)[i] == if i < |FixedSteps| - k then FixedSteps[k + i] else NumberSteps(1)[i - (|FixedSteps| - k)]
  {
  }

  /** Each fixed step from the name-first one on keeps the paper's name in front. */
  lemma FixedKeeps(j: nat)
    requires 2 <= j < |FixedSteps|
    ensures KeepsPrefix(FixedSteps[j].rewrite, PaperName)
  {
    FixedStepsAt();
    PaperNameLetters();
    if j == 4 {
      assert KeepsPrefix(TightBrackets, PaperName);
    } else if j == 7 {
      assert KeepsPrefix(NoAgainst, PaperName);
    } else if j == 8 {
      assert KeepsPrefix(FullMaccabi, PaperName);
    } else if j == 9 {
      assert KeepsPrefix(NoMakaf, PaperName);
    }
  }

  /** When all the renames of a scan with a proper suffix go through, and
    * dropping the long form of the name leaves a stem, its final name is
    * the stem computed on stems alone, which starts with the paper's name,
    * behind the scan's original suffix. */
  lemma FinalName(rest: set<string>, paper: string)
    requires paper !in rest && ProperSuffix(Suffix(paper))
    requires Replace(SingleSpaced(Stem(paper)), LongName, "") != ""
    requires Chain(rest, paper, "", Suffix(paper), Steps).ok
    ensures Chain(rest, paper, "", Suffix(paper), Steps).at == StemAfter(Stem(paper), "", Steps) + Suffix(paper)
    ensures StartsWith(StemAfter(Stem(paper), "", Steps), PaperName)
  {
    ChainSpec(rest, paper, "", Suffix(paper), Steps);
    assert Steps == From(0);
    var s1 := FirstTwoSteps(paper);
    LaterSteps(s1, Suffix(paper));
  }

  /** From the name-first step on, in an empty folder, the file whose
    * stem is `s1` ends at the stem computed on stems alone, which starts
    * with the paper's name. */
  lemma LaterSteps(s1: string, suffix: string)
    requires |s1| > 0 && ProperSuffix(suffix)
    ensures Chain({}, s1 + suffix, s1, suffix, From(2)).at == StemAfter(s1, s1, From(2)) + suffix
    ensures StartsWith(StemAfter(s1, s1, From(2)), PaperName)
  {
    if StartsWith(s1, PaperName) {
      NameParts(s1, suffix);
      LaterStepsKeep(2);
      ChainStems(s1 + suffix, s1, suffix, From(2), PaperName);
    } else {
      NameMovedFirst(s1, suffix);
    }
  }

  /** A stem without the paper's name in front gets it there at the
    * name-first step, and keeps it from then on. */
  lemma NameMovedFirst(s1: string, suffix: string)
    requires |s1| > 0 && ProperSuffix(suffix) && !StartsWith(s1, PaperName)
    ensures Chain({}, s1 + suffix, s1, suffix, From(2)).at == StemAfter(s1, s1, From(2)) + suffix
    ensures StartsWith(StemAfter(s1, s1, From(2)), PaperName)
  {
    NameParts(s1, suffix);
    FromNext(2);
    FixedStepsAt();
    var s2 := PaperNameFirst(s1, PaperName, " ");
    NameFirstSpec(s1, s1, PaperName, " ");
    ChainTaken({}, s1 + suffix, s1, suffix, From(2), s2);
    NameParts(s2, suffix);
    LaterStepsKeep(3);
    ChainStems(s2 + suffix, s2, suffix, From(3), PaperName);
  }

  /** The two steps that keep the current suffix: with a proper suffix and
    * a stem left after them, the file then has that stem and the suffix
    * it had at first. */
  lemma FirstTwoSteps(paper: string) returns (s1: string)
    requires ProperSuffix(Suffix(paper))
    requires Replace(SingleSpaced(Stem(paper)), LongName, "") != ""
    ensures s1 == Replace(SingleSpaced(Stem(paper)), LongName, "")
    ensures Stem(s1 + Suffix(paper)) == s1 && Suffix(s1 + Suffix(paper)) == Suffix(paper)
    ensures Chain({}, paper, "", Suffix(paper), From(0)) == Chain({}, s1 + Suffix(paper), s1, Suffix(paper), From(2))
    ensures StemAfter(Stem(paper), "", From(0)) == StemAfter(s1, s1, From(2))
  {
    var suffix := Suffix(paper);
    var s0 := SingleSpaced(Stem(paper));
    assert |s0| > 0;
    NameParts(s0, suffix);
    FirstStepTaken(paper, s0);
    s1 := Replace(s0, LongName, "");
    NameParts(s1, suffix);
    SecondStepTaken(s0, suffix, s1);
  }

  /** The first step: single spaces in the stem, behind the current suffix. */
  lemma FirstStepTaken(paper: string, s0: string)
    requires s0 == SingleSpaced(Stem(paper))
    ensures Chain({}, paper, "", Suffix(paper), From(0)) == Chain({}, s0 + Suffix(paper), s0, Suffix(paper), From(1))
    ensures StemAfter(Stem(paper), "", From(0)) == StemAfter(s0, s0, From(1))
  {
    FirstStepIs();
    ChainTaken({}, paper, "", Suffix(paper), From(0), s0);
    StemAfterTaken(Stem(paper), "", From(0), s0);
  }

  /** The chain starts with single spacing behind the current suffix. */
  lemma FirstStepIs()
    ensures From(0) != [] && From(0)[0] == Step(SingleSpaces, true) && From(0)[1..] == From(1)
  {
    FromNext(0);
  }

  /** The second step: the long form of the name dropped, behind the
    * current suffix. */
  lemma SecondStepTaken(s0: string, suffix: string, s1: string)
    requires Suffix(s0 + suffix) == suffix && Stem(s0 + suffix) == s0
    requires s1 == Replace(s0, LongName, "")
    ensures Chain({}, s0 + suffix, s0, suffix, From(1)) == Chain({}, s1 + suffix, s1, suffix, From(2))
    ensures StemAfter(s0, s0, From(1)) == StemAfter(s1, s1, From(2))
  {
    FromNext(1);
    ChainTaken({}, s0 + suffix, s0, suffix, From(1), s1);
    StemAfterTaken(s0, s0, From(1), s1);
  }
}
