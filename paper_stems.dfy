/** The rewrites of a newspaper scan's file stem that both renaming scripts,
  * papers/try_fix_papers_names.py and scripts/papers/try_fix_papers_names.py,
  * apply one after the other, each followed by a rename of the file. */
module PaperStems {
  import opened Wrappers
  import opened Strings
  import opened Paths

  /** Text a rewrite searches for. */
  type Pattern = s: string | |s| > 0 witness " "

  const Against: string := "מכבי תל אביב נגד "
  const ShortAgainst: string := "נגד "
  const ShortMaccabi: string := "מ "
  const FullMaccabiText: string := "מכבי "
  const DashedPaper: string := " - עיתון"
  const HalfDashedPaper: string := "- עיתון"
  const PaperWord: string := " עיתון"

  /** " עיתון N", a scan's page number written apart. */
  function NumberMark(n: nat): Pattern
  {
    PaperWord + " " + NatToString(n)
  }

  /** " עיתוןN", the page number as the scripts leave it, at the end. */
  function NumberTail(n: nat): string
  {
    PaperWord + NatToString(n)
  }

  /** One rewrite of the stem. */
  datatype Rewrite =
    | NameFirst(paper: Pattern, sep: string)   // the paper's name moved to the front
    | NoLongName(name: string)                 // "עיתון <name>" removed
    | SingleSpaces                             // "  " becomes " "
    | TightBrackets                            // "( " and " )" lose their space
    | SpaceAfterBracket                        // ")" becomes ") "
    | NoSpaceAfterEndBracket                   // ") " becomes ")"
    | NoAgainst                                // "מכבי תל אביב נגד " and "נגד " removed
    | FullMaccabi                              // "מ " becomes "מכבי "
    | NoMakaf                                  // " - עיתון" and "- עיתון" become " עיתון"
    | NumberLast(n: nat)                       // " עיתון N" moved to the end as " עיתוןN"

  /** A rewrite, and whether the renamed file takes the suffix the file has
    * now rather than the one it had at first. */
  datatype Step = Step(rewrite: Rewrite, currentSuffix: bool)

  function PaperNameFirst(stem: string, paper: Pattern, sep: string): string
  {
    paper + sep + Replace(stem, paper, "")
  }

  function SingleSpaced(stem: string): string
  {
    Replace(stem, "  ", " ")
  }

  function TightBracketed(stem: string): string
  {
    Replace(Replace(stem, "( ", "("), " )", ")")
  }

  function SpacedAfterBracket(stem: string): string
  {
    Replace(stem, ")", ") ")
  }

  function UnspacedAfterBracket(stem: string): string
  {
    Replace(stem, ") ", ")")
  }

  function WithoutAgainst(stem: string): string
  {
    Replace(Replace(stem, Against, ""), ShortAgainst, "")
  }

  function WithFullMaccabi(stem: string): string
  {
    Replace(stem, ShortMaccabi, FullMaccabiText)
  }

  function WithoutMakaf(stem: string): string
  {
    Replace(Replace(stem, DashedPaper, PaperWord), HalfDashedPaper, PaperWord)
  }

  function NumberMovedLast(stem: string, n: nat): string
  {
    Replace(stem, NumberMark(n), "") + NumberTail(n)
  }

  /** The stem a step gives the file, or None when the script skips the
    * step. `stem` is the stem of the file's current name; `last` is the
    * stem the previous step computed, which decides the page-number
    * moves. */
  function Rewritten(rw: Rewrite, stem: string, last: string): Option<string>
  {
    match rw
    case NameFirst(p, sep) => if StartsWith(stem, p) then None else Some(PaperNameFirst(stem, p, sep))
    case NoLongName(p) => Some(Replace(stem, "עיתון " + p, ""))
    case SingleSpaces => Some(SingleSpaced(stem))
    case TightBrackets => Some(TightBracketed(stem))
    case SpaceAfterBracket =>
      if Contains(stem, ")") && !Contains(stem, ") ") && !EndsWith(stem, ")") then Some(SpacedAfterBracket(stem))
      else None
    case NoSpaceAfterEndBracket => if EndsWith(stem, ") ") then Some(UnspacedAfterBracket(stem)) else None
    case NoAgainst => Some(WithoutAgainst(stem))
    case FullMaccabi => Some(WithFullMaccabi(stem))
    case NoMakaf => Some(WithoutMakaf(stem))
    case NumberLast(n) => if Contains(last, NumberMark(n)) then Some(NumberMovedLast(stem, n)) else None
  }

  /** Where a chain of renames leaves a file. */
  datatype Walked = Walked(at: string, ok: bool)

  /** The file named `at`, among other files named `rest`, goes through the
    * steps: each taken step renames it to the new stem and a suffix, and
    * the chain stops, with FileExistsError, at the first new name another
    * file already has. `suffix` is the file's suffix at the start. */
  function Chain(rest: set<string>, at: string, last: string, suffix: string, steps: seq<Step>): Walked
    decreases |steps|
  {
    if steps == [] then Walked(at, true)
    else
      match Rewritten(steps[0].rewrite, Stem(at), last)
      case None => Chain(rest, at, last, suffix, steps[1..])
      case Some(stem) =>
        var target := stem + if steps[0].currentSuffix then Suffix(at) else suffix;
        if target in rest then Walked(at, false) else Chain(rest, target, stem, suffix, steps[1..])
  }

  /** A folder's file names, and whether the run is still going. */
  datatype Folder = Folder(names: set<string>, result: Result<()>)

  /** No name is listed twice. */
  predicate Distinct(files: seq<string>)
  {
    forall i, j :: 0 <= i < j < |files| ==> files[i] != files[j]
  }

  /** A taken step either stops the chain at a taken name or moves the
    * file on. */
  lemma ChainTaken(rest: set<string>, at: string, last: string, suffix: string, steps: seq<Step>, stem: string)
    requires steps != [] && Rewritten(steps[0].rewrite, Stem(at), last) == Some(stem)
    ensures var target := stem + if steps[0].currentSuffix then Suffix(at) else suffix;
      Chain(rest, at, last, suffix, steps)
        == if target in rest then Walked(at, false) else Chain(rest, target, stem, suffix, steps[1..])
  {
  }

  /** A skipped step leaves the chain as it was. */
  lemma ChainSkipped(rest: set<string>, at: string, last: string, suffix: string, steps: seq<Step>)
    requires steps != [] && Rewritten(steps[0].rewrite, Stem(at), last).None?
    ensures Chain(rest, at, last, suffix, steps) == Chain(rest, at, last, suffix, steps[1..])
  {
  }

  /** The stem after all the steps, computed on stems alone. */
  function StemAfter(stem: string, last: string, steps: seq<Step>): string
    decreases |steps|
  {
    if steps == [] then stem
    else
      match Rewritten(steps[0].rewrite, stem, last)
      case None => StemAfter(stem, last, steps[1..])
      case Some(s) => StemAfter(s, s, steps[1..])
  }

  /** A taken step moves the stem computation on to the new stem. */
  lemma StemAfterTaken(stem: string, last: string, steps: seq<Step>, s: string)
    requires steps != [] && Rewritten(steps[0].rewrite, stem, last) == Some(s)
    ensures StemAfter(stem, last, steps) == StemAfter(s, s, steps[1..])
  {
  }

  /** The chain never puts the file on a name another file has, and when
    * it completes it ends where it would have ended in an empty folder. */
  lemma {:induction false} ChainSpec(rest: set<string>, at: string, last: string, suffix: string, steps: seq<Step>)
    requires at !in rest
    ensures Chain(rest, at, last, suffix, steps).at !in rest
    ensures Chain(rest, at, last, suffix, steps).ok ==>
              Chain(rest, at, last, suffix, steps) == Chain({}, at, last, suffix, steps)
    ensures Chain({}, at, last, suffix, steps).ok
    decreases |steps|
  {
    if steps != [] {
      match Rewritten(steps[0].rewrite, Stem(at), last)
      case None =>
        ChainSpec(rest, at, last, suffix, steps[1..]);
      case Some(stem) =>
        var target := stem + if steps[0].currentSuffix then Suffix(at) else suffix;
        if target !in rest {
          ChainSpec(rest, target, stem, suffix, steps[1..]);
        } else {
          ChainSpec({}, target, stem, suffix, steps[1..]);
        }
    }
  }

  /** The rewrite cannot disturb a stem that starts with `p`: none of its
    * patterns can start inside `p`, and a name-first step for `p` itself is
    * skipped. */
  predicate KeepsPrefix(rw: Rewrite, p: string)
  {
    match rw
    case NameFirst(q, sep) => q == p
    case NoLongName(q) => NoStartWithin(p, "עיתון " + q)
    case SingleSpaces => NoStartWithin(p, "  ")
    case TightBrackets => NoStartWithin(p, "( ") && NoStartWithin(p, " )")
    case SpaceAfterBracket => NoStartWithin(p, ")")
    case NoSpaceAfterEndBracket => NoStartWithin(p, ") ")
    case NoAgainst => NoStartWithin(p, Against) && NoStartWithin(p, ShortAgainst)
    case FullMaccabi => NoStartWithin(p, ShortMaccabi)
    case NoMakaf => NoStartWithin(p, DashedPaper) && NoStartWithin(p, HalfDashedPaper)
    case NumberLast(n) => NoStartWithin(p, NumberMark(n))
  }

  lemma RewriteKeepsPrefix(rw: Rewrite, stem: string, last: string, p: string)
    requires KeepsPrefix(rw, p) && StartsWith(stem, p)
    ensures Rewritten(rw, stem, last).Some? ==> StartsWith(Rewritten(rw, stem, last).value, p)
  {
    match rw
    case NameFirst(q, sep) =>
    case NoLongName(q) => ReplaceKeepsPrefix(stem, p, "עיתון " + q, "");
    case SingleSpaces => ReplaceKeepsPrefix(stem, p, "  ", " ");
    case TightBrackets =>
      ReplaceKeepsPrefix(stem, p, "( ", "(");
      ReplaceKeepsPrefix(Replace(stem, "( ", "("), p, " )", ")");
    case SpaceAfterBracket => ReplaceKeepsPrefix(stem, p, ")", ") ");
    case NoSpaceAfterEndBracket => ReplaceKeepsPrefix(stem, p, ") ", ")");
    case NoAgainst =>
      ReplaceKeepsPrefix(stem, p, Against, "");
      ReplaceKeepsPrefix(Replace(stem, Against, ""), p, ShortAgainst, "");
    case FullMaccabi => ReplaceKeepsPrefix(stem, p, ShortMaccabi, FullMaccabiText);
    case NoMakaf =>
      ReplaceKeepsPrefix(stem, p, DashedPaper, PaperWord);
      ReplaceKeepsPrefix(Replace(stem, DashedPaper, PaperWord), p, HalfDashedPaper, PaperWord);
    case NumberLast(n) =>
      var removed := Replace(stem, NumberMark(n), "");
      ReplaceKeepsPrefix(stem, p, NumberMark(n), "");
      assert (removed + NumberTail(n))[..|p|] == removed[..|p|];
  }

  /** With a proper suffix and a stem that starts with a non-empty `p` that
    * every step keeps, the chain in an empty folder ends at the stem
    * computed on stems alone, behind the same suffix, still starting with
    * `p`. */
  lemma {:induction false} ChainStems(at: string, last: string, suffix: string, steps: seq<Step>, p: string)
    requires ProperSuffix(suffix) && Suffix(at) == suffix
    requires |p| > 0 && StartsWith(Stem(at), p)
    requires forall i :: 0 <= i < |steps| ==> KeepsPrefix(steps[i].rewrite, p)
    ensures Chain({}, at, last, suffix, steps).at == StemAfter(Stem(at), last, steps) + suffix
    ensures StartsWith(StemAfter(Stem(at), last, steps), p)
    decreases |steps|
  {
    StemAndSuffix(at);
    if steps != [] {
      assert KeepsPrefix(steps[0].rewrite, p);
      RewriteKeepsPrefix(steps[0].rewrite, Stem(at), last, p);
      match Rewritten(steps[0].rewrite, Stem(at), last)
      case None =>
        ChainStems(at, last, suffix, steps[1..], p);
      case Some(stem) =>
        NameParts(stem, suffix);
        ChainStems(stem + suffix, stem, suffix, steps[1..], p);
    }
  }

  /** A name-first step puts the paper's name and the separator in front
    * of a stem that did not start with the name. */
  lemma NameFirstSpec(stem: string, last: string, p: Pattern, sep: string)
    ensures Rewritten(NameFirst(p, sep), stem, last).None? <==> StartsWith(stem, p)
    ensures Rewritten(NameFirst(p, sep), stem, last).Some? ==>
              StartsWith(Rewritten(NameFirst(p, sep), stem, last).value, p + sep)
  {
    if !StartsWith(stem, p) {
      var r := PaperNameFirst(stem, p, sep);
      assert r[..|p + sep|] == p + sep;
    }
  }

  /** After the bracket-spacing step every ')' is followed by a space. */
  lemma SpaceAfterBracketSpec(stem: string, last: string)
    ensures var r := Rewritten(SpaceAfterBracket, stem, last);
      r.Some? ==> forall i :: 0 <= i < |r.value| && r.value[i] == ')' ==> i + 1 < |r.value| && r.value[i + 1] == ' '
  {
    SpacedEverywhere(stem);
  }

  lemma {:induction false} SpacedEverywhere(s: string)
    ensures var r := SpacedAfterBracket(s);
      forall i :: 0 <= i < |r| && r[i] == ')' ==> i + 1 < |r| && r[i + 1] == ' '
    decreases |s|
  {
    if |s| > 0 {
      SpacedEverywhere(s[1..]);
      var tail := SpacedAfterBracket(s[1..]);
      if s[..1] == ")" {
        assert SpacedAfterBracket(s) == ") " + tail;
      } else {
        assert s[..1] == [s[0]] && s[0] != ')';
        assert SpacedAfterBracket(s) == [s[0]] + tail;
      }
    }
  }

  /** After the step for a stem ending in ") " the stem ends in ")". */
  lemma NoSpaceAfterEndBracketSpec(stem: string, last: string)
    ensures var r := Rewritten(NoSpaceAfterEndBracket, stem, last);
      r.Some? ==> EndsWith(r.value, ")")
  {
    if EndsWith(stem, ") ") {
      UnspacedEnd(stem);
    }
  }

  lemma {:induction false} UnspacedEnd(s: string)
    requires EndsWith(s, ") ")
    ensures EndsWith(UnspacedAfterBracket(s), ")")
    decreases |s|
  {
    if |s| == 2 {
      assert s == ") ";
      assert s[..2] == ") ";
      assert UnspacedAfterBracket(s) == ")" + UnspacedAfterBracket(s[2..]);
    } else if s[..2] == ") " {
      assert s[|s| - 2..][0] == ')' && s[..2][1] == ' ';
      assert |s| >= 4;
      assert s[2..][|s[2..]| - 2..] == s[|s| - 2..];
      UnspacedEnd(s[2..]);
      assert UnspacedAfterBracket(s) == ")" + UnspacedAfterBracket(s[2..]);
    } else {
      assert s[1..][|s[1..]| - 2..] == s[|s| - 2..];
      UnspacedEnd(s[1..]);
      assert UnspacedAfterBracket(s) == [s[0]] + UnspacedAfterBracket(s[1..]);
    }
  }

  /** A page-number move happens exactly when the previous stem holds the
    * number written apart, and then the stem ends with it written
    * together. */
  lemma NumberLastSpec(stem: string, last: string, n: nat)
    ensures Rewritten(NumberLast(n), stem, last).Some? <==> Contains(last, NumberMark(n))
    ensures Rewritten(NumberLast(n), stem, last).Some? ==>
              EndsWith(Rewritten(NumberLast(n), stem, last).value, NumberTail(n))
  {
    var r := NumberMovedLast(stem, n);
    var removed := Replace(stem, NumberMark(n), "");
    assert r[|r| - |NumberTail(n)|..] == NumberTail(n);
  }
}
