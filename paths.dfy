/** `pathlib` names and a folder of files whose renames refuse to replace an
  * existing file, as `os.rename` does on Windows. */
module Paths {
  import opened Wrappers
  import opened Strings

  /** The index of the last '.' before `upto`, or -1. */
  function LastDot(s: string, upto: nat): (i: int)
    requires upto <= |s|
    ensures -1 <= i < upto && (i >= 0 ==> s[i] == '.')
    ensures forall j :: i < j < upto ==> s[j] != '.'
  {
    if upto == 0 then -1 else if s[upto - 1] == '.' then upto - 1 else LastDot(s, upto - 1)
  }

  /** `Path.stem`: the name without its last suffix, a leading dot or a
    * trailing one not counting as one. */
  function Stem(name: string): string
  {
    var i := LastDot(name, |name|);
    if 0 < i < |name| - 1 then name[..i] else name
  }

  /** `Path.suffix`: from the last dot on, under the same rule. */
  function Suffix(name: string): string
  {
    var i := LastDot(name, |name|);
    if 0 < i < |name| - 1 then name[i..] else ""
  }

  /** The stem and the suffix make up the name. */
  lemma StemAndSuffix(name: string)
    ensures Stem(name) + Suffix(name) == name
  {
  }

  /** A suffix such as ".jpg": a dot and at least one character, none of
    * them a dot. */
  predicate ProperSuffix(x: string)
  {
    |x| >= 2 && x[0] == '.' && forall k :: 1 <= k < |x| ==> x[k] != '.'
  }

  /** Every suffix `Path.suffix` reports is proper. */
  lemma SuffixProper(name: string)
    ensures Suffix(name) == "" || ProperSuffix(Suffix(name))
  {
  }

  /** `with_name(stem + suffix)` reads back as that stem and suffix when the
    * stem is not empty and the suffix proper. */
  lemma NameParts(stem: string, suffix: string)
    requires |stem| > 0 && ProperSuffix(suffix)
    ensures Stem(stem + suffix) == stem && Suffix(stem + suffix) == suffix
  {
    var name := stem + suffix;
    assert name[|stem|] == '.';
    var i := LastDot(name, |name|);
    forall j | |stem| < j < |name| ensures name[j] != '.' {
      assert name[j] == suffix[j - |stem|];
    }
    assert i == |stem|;
    assert name[..i] == stem;
    assert name[i..] == suffix;
  }

  /** The names in one folder. */
  class Directory {
    var names: set<string>

    constructor(names: set<string>)
      ensures this.names == names
    {
      this.names := names;
    }

    /** `os.rename` on Windows: a missing source raises FileNotFoundError,
      * an existing target other than the source raises FileExistsError,
      * and otherwise the file takes its new name. */
    method Rename(source: string, target: string) returns (r: Result<()>)
      modifies this
      ensures source !in old(names) ==> r == Fail(FileNotFoundError) && names == old(names)
      ensures source in old(names) && target != source && target in old(names) ==>
                r == Fail(FileExistsError) && names == old(names)
      ensures source in old(names) && (target == source || target !in old(names)) ==>
                r == Ok(()) && names == old(names) - {source} + {target}
    {
      if source !in names {
        return Fail(FileNotFoundError);
      }
      if target != source && target in names {
        return Fail(FileExistsError);
      }
      names := names - {source} + {target};
      r := Ok(());
    }
  }
}
