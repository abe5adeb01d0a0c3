/** The Python string operations the bots use: `in`, `find`, `startswith`,
  * `endswith`, `replace`, `split`, `join`, `strip` and `str(int)`, on
  * `string` (a sequence of Unicode characters). */
module Strings {
  import opened Wrappers

  /** The characters Python's `str.strip()`, `str.split()` and `int()`
    * treat as whitespace: those for which `str.isspace` holds. */
  const Whitespace: set<char> := set c: char | '\t' <= c <= '\U{3000}' && IsSpace(c)

  /** `str.isspace` on one character: the ASCII controls TAB to CR and
    * FS to US, the space, NEL, NBSP, the Ogham space mark, the spaces
    * U+2000 to U+200A, the line and paragraph separators, the narrow
    * no-break space, the medium mathematical space and the ideographic
    * space. */
  predicate IsSpace(c: char)
  {
    || ('\t' <= c <= '\r') || ('\U{001C}' <= c <= ' ')
    || c == '\U{0085}' || c == '\U{00A0}' || c == '\U{1680}'
    || ('\U{2000}' <= c <= '\U{200A}')
    || c == '\U{2028}' || c == '\U{2029}' || c == '\U{202F}' || c == '\U{205F}' || c == '\U{3000}'
  }

  predicate StartsWith(s: string, prefix: string)
  {
    |prefix| <= |s| && s[..|prefix|] == prefix
  }

  predicate EndsWith(s: string, suffix: string)
  {
    |suffix| <= |s| && s[|s| - |suffix|..] == suffix
  }

  /** `p` occurs in `s` starting at index `i`. */
  predicate OccursAt(s: string, p: string, i: int)
  {
    0 <= i && i + |p| <= |s| && s[i..i + |p|] == p
  }

  /** `str.find(p, from)`: the first index at or after `from` where `p` occurs, or -1. */
  function FindFrom(s: string, p: string, from: nat): (r: int)
    requires from <= |s|
    ensures r == -1 || (from <= r && OccursAt(s, p, r))
    ensures r == -1 ==> forall j :: from <= j ==> !OccursAt(s, p, j)
    ensures r != -1 ==> forall j :: from <= j < r ==> !OccursAt(s, p, j)
    decreases |s| - from
  {
    if from + |p| > |s| then -1
    else if s[from..from + |p|] == p then from
    else FindFrom(s, p, from + 1)
  }

  /** `str.find(p)`. */
  function Find(s: string, p: string): (r: int)
    ensures r == -1 <==> forall j :: !OccursAt(s, p, j)
    ensures r != -1 ==> OccursAt(s, p, r) && forall j :: j < r ==> !OccursAt(s, p, j)
  {
    FindFrom(s, p, 0)
  }

  /** Python's `p in s`. */
  predicate Contains(s: string, p: string)
  {
    Find(s, p) >= 0
  }

  lemma ContainsAt(s: string, p: string, i: int)
    requires OccursAt(s, p, i)
    ensures Contains(s, p)
  {
  }

  lemma ContainsChar(s: string, c: char)
    ensures Contains(s, [c]) <==> c in s
  {
    if c in s {
      var i :| 0 <= i < |s| && s[i] == c;
      assert OccursAt(s, [c], i);
    }
    if Contains(s, [c]) {
      var i := Find(s, [c]);
      assert s[i..i + 1] == [c];
      assert s[i..i + 1][0] == s[i];
    }
  }

  /** A pattern whose first character is not in `s` does not occur in it. */
  lemma AbsentByFirstChar(s: string, p: string)
    requires |p| > 0 && p[0] !in s
    ensures !Contains(s, p)
  {
    forall j
      ensures !OccursAt(s, p, j)
    {
      if 0 <= j && j + |p| <= |s| {
        assert s[j..j + |p|][0] == s[j];
      }
    }
  }

  /** What occurs in a part of a text occurs in the text. */
  lemma ContainsWithin(a: string, p: string, b: string, q: string)
    requires Contains(p, q)
    ensures Contains(a + p + b, q) && Contains(a + (p + b), q)
  {
    var i := Find(p, q);
    var s := a + p + b;
    assert s[|a| + i..|a| + i + |q|] == p[i..i + |q|];
    ContainsAt(s, q, |a| + i);
    assert a + (p + b) == s;
  }

  /** An occurrence inside a slice is an occurrence in the whole string. */
  lemma OccursInSuffix(s: string, p: string, lo: nat, j: int)
    requires lo <= |s| && OccursAt(s[lo..], p, j)
    ensures OccursAt(s, p, lo + j)
  {
    assert s[lo..][j..j + |p|] == s[lo + j..lo + j + |p|];
  }

  /** An occurrence in the middle piece is one in the whole. */
  lemma OccursInMiddle(a: string, n: string, b: string, p: string, i: int)
    requires OccursAt(n, p, i)
    ensures OccursAt(a + n + b, p, |a| + i)
  {
    var w := a + n + b;
    forall k | 0 <= k < |p| ensures w[|a| + i + k] == p[k] {
      assert n[i..i + |p|][k] == p[k];
    }
    assert w[|a| + i..|a| + i + |p|] == p;
  }

  /** `str.replace(pat, rep)`: every non-overlapping occurrence of `pat`,
    * scanning from the left, becomes `rep`. */
  function Replace(s: string, pat: string, rep: string): string
    requires |pat| > 0
    decreases |s|
  {
    if |s| < |pat| then s
    else if s[..|pat|] == pat then rep + Replace(s[|pat|..], pat, rep)
    else [s[0]] + Replace(s[1..], pat, rep)
  }

  /** Replacing a pattern that does not occur changes nothing. */
  lemma {:induction false} ReplaceAbsent(s: string, pat: string, rep: string)
    requires |pat| > 0 && !Contains(s, pat)
    ensures Replace(s, pat, rep) == s
    decreases |s|
  {
    if |s| >= |pat| {
      assert !OccursAt(s, pat, 0);
      if Contains(s[1..], pat) {
        var j := Find(s[1..], pat);
        assert OccursAt(s[1..], pat, j);
        OccursInSuffix(s, pat, 1, j);
        assert false;
      }
      ReplaceAbsent(s[1..], pat, rep);
    }
  }

  /** Replacement leaves alone a prefix of length `n` at none of whose
    * positions an occurrence of the pattern starts. */
  lemma {:induction false} ReplaceSkipsPrefix(s: string, n: nat, pat: string, rep: string)
    requires |pat| > 0 && n <= |s|
    requires forall k :: 0 <= k < n ==> !OccursAt(s, pat, k)
    ensures Replace(s, pat, rep) == s[..n] + Replace(s[n..], pat, rep)
    decreases n
  {
    if n == 0 {
      assert s[..0] + s[0..] == s;
    } else {
      var t := s[1..];
      NoOccurrenceShift(s, n, pat);
      ReplaceSkipsPrefix(t, n - 1, pat, rep);
      ReplaceSkipsFirst(s, pat, rep);
      assert t[n - 1..] == s[n..];
      ConsSplit(s, n, Replace(s[n..], pat, rep));
    }
  }

  /** The first character put back in front of the rest's prefix. */
  lemma ConsSplit(s: string, n: nat, r: string)
    requires 0 < n <= |s|
    ensures [s[0]] + (s[1..][..n - 1] + r) == s[..n] + r
  {
    assert [s[0]] + s[1..][..n - 1] == s[..n];
  }

  /** A position that does not start the pattern is copied through. */
  lemma ReplaceSkipsFirst(s: string, pat: string, rep: string)
    requires |pat| > 0 && |s| > 0 && !OccursAt(s, pat, 0)
    ensures Replace(s, pat, rep) == [s[0]] + Replace(s[1..], pat, rep)
  {
    if |s| < |pat| {
      ReplaceShort(s[1..], pat, rep);
      assert [s[0]] + s[1..] == s;
    }
  }

  /** Strings shorter than the pattern are left alone. */
  lemma ReplaceShort(s: string, pat: string, rep: string)
    requires |pat| > 0 && |s| < |pat|
    ensures Replace(s, pat, rep) == s
  {
  }

  /** Dropping the first character shifts the positions free of the pattern. */
  lemma NoOccurrenceShift(s: string, n: nat, pat: string)
    requires 0 < n <= |s|
    requires forall k :: 0 <= k < n ==> !OccursAt(s, pat, k)
    ensures forall k :: 0 <= k < n - 1 ==> !OccursAt(s[1..], pat, k)
  {
    forall k | 0 <= k < n - 1
      ensures !OccursAt(s[1..], pat, k)
    {
      if OccursAt(s[1..], pat, k) {
        OccursInSuffix(s, pat, 1, k);
      }
    }
  }

  /** `str.count(p)`: the non-overlapping occurrences of `p`, scanning
    * from the left. */
  function Count(s: string, p: string): (n: nat)
    requires |p| > 0
    ensures n == 0 <==> !Contains(s, p)
    decreases |s|
  {
    var i := Find(s, p);
    if i < 0 then 0 else 1 + Count(s[i + |p|..], p)
  }

  /** `str.replace(p, rep, 1)`: only the first occurrence becomes `rep`. */
  function ReplaceFirst(s: string, p: string, rep: string): (r: string)
    ensures !Contains(s, p) ==> r == s
    ensures Contains(s, p) ==> |r| == |s| - |p| + |rep|
  {
    var i := Find(s, p);
    if i < 0 then s else s[..i] + rep + s[i + |p|..]
  }

  /** Removing the first of several occurrences leaves another one, and a
    * string that ended with the pattern still does. */
  lemma RemoveFirstOfMany(s: string, p: string)
    requires |p| > 0 && Count(s, p) > 1
    ensures var r := ReplaceFirst(s, p, "");
      |r| == |s| - |p| && Contains(r, p) && (EndsWith(s, p) ==> EndsWith(r, p))
  {
    var i := Find(s, p);
    assert Count(s[i + |p|..], p) > 0;
    assert ReplaceFirst(s, p, "") == s[..i] + s[i + |p|..];
    RemovedBefore(s, p, i);
  }

  lemma RemovedBefore(s: string, p: string, i: int)
    requires OccursAt(s, p, i) && Contains(s[i + |p|..], p)
    ensures var r := s[..i] + s[i + |p|..];
      Contains(r, p) && (EndsWith(s, p) ==> EndsWith(r, p))
  {
    var t := s[i + |p|..];
    var j := Find(t, p);
    var r := s[..i] + t;
    assert r[i..] == t;
    OccursInSuffix(r, p, i, j);
    ContainsAt(r, p, i + j);
    if EndsWith(s, p) {
      EndsWithTail(s, i + |p|, p);
      EndsWithAppended(s[..i], t, p);
    }
  }

  /** A tail at least as long as the suffix keeps it. */
  lemma EndsWithTail(s: string, lo: nat, p: string)
    requires lo + |p| <= |s| && EndsWith(s, p)
    ensures EndsWith(s[lo..], p)
  {
    assert s[lo..][|s| - lo - |p|..] == s[|s| - |p|..];
  }

  /** Text put in front keeps a suffix. */
  lemma EndsWithAppended(a: string, t: string, p: string)
    requires EndsWith(t, p)
    ensures EndsWith(a + t, p)
  {
    assert (a + t)[|a + t| - |p|..] == t[|t| - |p|..];
  }

  /** No occurrence of `pat` can start inside `p`: at each position of `p`
    * either its first character or its second one differs. */
  predicate NoStartWithin(p: string, pat: string)
    requires |pat| > 0
  {
    forall k :: 0 <= k < |p| ==> p[k] != pat[0] || (|pat| >= 2 && k + 1 < |p| && p[k + 1] != pat[1])
  }

  /** A replacement whose pattern cannot start inside a prefix keeps that
    * prefix. */
  lemma ReplaceKeepsPrefix(s: string, p: string, pat: string, rep: string)
    requires |pat| > 0 && StartsWith(s, p) && NoStartWithin(p, pat)
    ensures StartsWith(Replace(s, pat, rep), p)
  {
    forall k | 0 <= k < |p| ensures !OccursAt(s, pat, k) {
      if k + |pat| <= |s| {
        var w := s[k..k + |pat|];
        assert p[k] != pat[0] || (|pat| >= 2 && k + 1 < |p| && p[k + 1] != pat[1]);
        assert w[0] == s[k] == s[..|p|][k] == p[k];
        if p[k] == pat[0] {
          assert w[1] == s[k + 1] == s[..|p|][k + 1] == p[k + 1];
          assert w[1] != pat[1];
        } else {
          assert w[0] != pat[0];
        }
      }
    }
    ReplaceSkipsPrefix(s, |p|, pat, rep);
    assert s[..|p|] == p;
  }

  /** Replacing one character by another maps the string character by character. */
  lemma {:induction false} ReplaceChar(s: string, c: char, d: char)
    ensures |Replace(s, [c], [d])| == |s|
    ensures forall i :: 0 <= i < |s| ==> Replace(s, [c], [d])[i] == if s[i] == c then d else s[i]
    decreases |s|
  {
    if |s| > 0 {
      ReplaceChar(s[1..], c, d);
      assert s[..1] == [s[0]];
    }
  }

  /** `[f(x) for x in xs]` for a function producing text. */
  function Serialised<E>(xs: seq<E>, f: E -> string): (r: seq<string>)
    ensures |r| == |xs|
    ensures forall i :: 0 <= i < |xs| ==> r[i] == f(xs[i])
  {
    seq(|xs|, i requires 0 <= i < |xs| => f(xs[i]))
  }

  /** One more element gives one more text at the end. */
  lemma SerialisedSnoc<E>(xs: seq<E>, x: E, f: E -> string)
    ensures Serialised(xs + [x], f) == Serialised(xs, f) + [f(x)]
  {
  }

  /** `sep.join(parts)`. */
  function Join(parts: seq<string>, sep: string): string
  {
    if |parts| == 0 then ""
    else if |parts| == 1 then parts[0]
    else parts[0] + sep + Join(parts[1..], sep)
  }

  /** `s.split(sep)` for a non-empty separator. */
  function Split(s: string, sep: string): (parts: seq<string>)
    requires |sep| > 0
    ensures |parts| >= 1
    ensures Contains(s, sep) ==> |parts| >= 2
    decreases |s|
  {
    var i := Find(s, sep);
    if i < 0 then [s] else [s[..i]] + Split(s[i + |sep|..], sep)
  }

  /** Joining the pieces of a split with the same separator gives the string back. */
  lemma {:induction false} JoinSplit(s: string, sep: string)
    requires |sep| > 0
    ensures Join(Split(s, sep), sep) == s
    decreases |s|
  {
    var i := Find(s, sep);
    if i >= 0 {
      var tail := s[i + |sep|..];
      var pieces := Split(tail, sep);
      JoinSplit(tail, sep);
      assert Split(s, sep) == [s[..i]] + pieces;
      JoinCons(s[..i], pieces, sep);
      assert s[i..i + |sep|] == sep;
      assert s == s[..i] + sep + tail;
    }
  }

  lemma JoinCons(head: string, rest: seq<string>, sep: string)
    requires |rest| >= 1
    ensures Join([head] + rest, sep) == head + sep + Join(rest, sep)
  {
    assert ([head] + rest)[1..] == rest;
  }

  /** A string without the separator character splits into itself alone. */
  lemma SplitNoSeparator(s: string, c: char)
    requires c !in s
    ensures Split(s, [c]) == [s]
  {
    ContainsChar(s, c);
  }

  /** Splitting a join on a one-character separator recovers the parts, as
    * long as no part contains that character. */
  lemma {:induction false} SplitJoin(parts: seq<string>, c: char)
    requires |parts| >= 1
    requires forall k :: 0 <= k < |parts| ==> c !in parts[k]
    ensures Split(Join(parts, [c]), [c]) == parts
    decreases |parts|
  {
    if |parts| == 1 {
      SplitNoSeparator(parts[0], c);
    } else {
      assert parts == [parts[0]] + parts[1..];
      JoinCons(parts[0], parts[1..], [c]);
      SplitAtFirst(parts[0], c, Join(parts[1..], [c]));
      SplitJoin(parts[1..], c);
    }
  }

  /** The first piece of a split ends at the first separator. */
  lemma SplitAtFirst(head: string, c: char, rest: string)
    requires c !in head
    ensures Split(head + [c] + rest, [c]) == [head] + Split(rest, [c])
  {
    var s := head + [c] + rest;
    assert OccursAt(s, [c], |head|);
    forall j | j < |head| ensures !OccursAt(s, [c], j) {
      if 0 <= j {
        assert s[j] == head[j];
      }
    }
    assert Find(s, [c]) == |head|;
    assert s[..|head|] == head;
    assert s[|head| + 1..] == rest;
  }

  /** `s.lstrip(chars)`. */
  function LStrip(s: string, chars: set<char>): string
  {
    if |s| > 0 && s[0] in chars then LStrip(s[1..], chars) else s
  }

  /** `s.rstrip(chars)`. */
  function RStrip(s: string, chars: set<char>): string
  {
    if |s| > 0 && s[|s| - 1] in chars then RStrip(s[..|s| - 1], chars) else s
  }

  /** What `lstrip` removes: the longest prefix made of `chars`. */
  lemma {:induction false} LStripSpec(s: string, chars: set<char>)
    ensures var r := LStrip(s, chars);
      |r| <= |s| && r == s[|s| - |r|..]
      && (forall i :: 0 <= i < |s| - |r| ==> s[i] in chars)
      && (|r| > 0 ==> r[0] !in chars)
  {
    if |s| > 0 && s[0] in chars {
      LStripSpec(s[1..], chars);
    }
  }

  /** What `rstrip` removes: the longest suffix made of `chars`. */
  lemma {:induction false} RStripSpec(s: string, chars: set<char>)
    ensures var r := RStrip(s, chars);
      |r| <= |s| && r == s[..|r|]
      && (forall i :: |r| <= i < |s| ==> s[i] in chars)
      && (|r| > 0 ==> r[|r| - 1] !in chars)
  {
    if |s| > 0 && s[|s| - 1] in chars {
      RStripSpec(s[..|s| - 1], chars);
    }
  }

  /** `s.strip(chars)`. */
  function Strip(s: string, chars: set<char>): string
  {
    RStrip(LStrip(s, chars), chars)
  }

  /** What `strip` leaves has none of `chars` at either end. */
  lemma StripEnds(s: string, chars: set<char>)
    ensures var r := Strip(s, chars);
      |r| > 0 ==> r[0] !in chars && r[|r| - 1] !in chars
  {
    var l := LStrip(s, chars);
    LStripSpec(s, chars);
    RStripSpec(l, chars);
  }

  /** A string with none of `chars` at either end is its own `strip`. */
  lemma StripUnchanged(s: string, chars: set<char>)
    requires |s| > 0 ==> s[0] !in chars && s[|s| - 1] !in chars
    ensures Strip(s, chars) == s
  {
  }

  /** Stripping twice strips no more than once. */
  lemma StripIdempotent(s: string, chars: set<char>)
    ensures Strip(Strip(s, chars), chars) == Strip(s, chars)
  {
    StripEnds(s, chars);
    StripUnchanged(Strip(s, chars), chars);
  }

  /** `s.strip()` with Python's default whitespace. */
  function Trim(s: string): string
  {
    Strip(s, Whitespace)
  }

  /** A string without whitespace at either end is its own `strip()`. */
  lemma TrimUnchanged(s: string)
    requires |s| > 0 ==> s[0] !in Whitespace && s[|s| - 1] !in Whitespace
    ensures Trim(s) == s
  {
  }

  /** A text with no whitespace at its ends. */
  predicate Stripped(t: string)
  {
    |t| > 0 ==> t[0] !in Whitespace && t[|t| - 1] !in Whitespace
  }

  /** Padding a stripped text with a space on either side, or both, and
    * stripping it again gives it back. */
  lemma TrimPadded(t: string)
    requires Stripped(t)
    ensures Trim(t + " ") == t && Trim(" " + t) == t && Trim(" " + t + " ") == t
  {
    assert (" " + t + " ")[1..] == t + " ";
    assert (" " + t)[1..] == t;
    if |t| == 0 {
      assert t + " " == " " && " " + t == " " && " " + t + " " == "  ";
      assert LStrip(" ", Whitespace) == "";
      assert LStrip("  ", Whitespace) == "";
    } else {
      assert LStrip(t + " ", Whitespace) == t + " ";
      assert LStrip(t, Whitespace) == t;
      assert (t + " ")[..|t|] == t;
      assert RStrip(t, Whitespace) == t;
    }
  }

  /** What `strip()` leaves is a piece of the string it came from. */
  lemma TrimOccurs(s: string)
    ensures OccursAt(s, Trim(s), |s| - |LStrip(s, Whitespace)|)
  {
    var l := LStrip(s, Whitespace);
    LStripSpec(s, Whitespace);
    RStripSpec(l, Whitespace);
    assert Trim(s) == l[..|Trim(s)|];
    assert s[|s| - |l|..][..|Trim(s)|] == s[|s| - |l|..|s| - |l| + |Trim(s)|];
  }

  /** `not s.strip()`: the string is empty or all whitespace. */
  predicate IsBlank(s: string)
  {
    Trim(s) == ""
  }

  lemma BlankIff(s: string)
    ensures IsBlank(s) <==> forall i :: 0 <= i < |s| ==> s[i] in Whitespace
  {
    var l := LStrip(s, Whitespace);
    LStripSpec(s, Whitespace);
    RStripSpec(l, Whitespace);
    if |l| > 0 {
      assert l[0] == s[|s| - |l|];
    }
  }

  /** Length of the leading run of non-whitespace characters. */
  function WordLength(s: string): (n: nat)
    ensures n <= |s|
    ensures forall i :: 0 <= i < n ==> s[i] !in Whitespace
    ensures n < |s| ==> s[n] in Whitespace
  {
    if |s| == 0 || s[0] in Whitespace then 0 else 1 + WordLength(s[1..])
  }

  /** `s.split()` with no argument: the maximal runs of non-whitespace. */
  function Words(s: string): (words: seq<string>)
    ensures forall k :: 0 <= k < |words| ==> |words[k]| > 0
    ensures forall k, i :: 0 <= k < |words| && 0 <= i < |words[k]| ==> words[k][i] !in Whitespace
    decreases |s|
  {
    if |s| == 0 then []
    else if s[0] in Whitespace then Words(s[1..])
    else
      var n := WordLength(s);
      [s[..n]] + Words(s[n..])
  }

  /** A word, then nothing or whitespace: the word is the leading run. */
  lemma {:induction false} WordLengthOf(a: string, t: string)
    requires forall i :: 0 <= i < |a| ==> a[i] !in Whitespace
    requires |t| == 0 || t[0] in Whitespace
    ensures WordLength(a + t) == |a|
    decreases |a|
  {
    if |a| > 0 {
      assert (a + t)[1..] == a[1..] + t;
      WordLengthOf(a[1..], t);
    }
  }

  /** A word followed by nothing or by whitespace is the first of the
    * words. */
  lemma WordsCons(a: string, t: string)
    requires |a| > 0 && forall i :: 0 <= i < |a| ==> a[i] !in Whitespace
    requires |t| == 0 || t[0] in Whitespace
    ensures Words(a + t) == [a] + Words(t)
  {
    var s := a + t;
    WordLengthOf(a, t);
    assert s[..|a|] == a;
    assert s[|a|..] == t;
  }

  /** Leading whitespace does not change the words. */
  lemma WordsSkip(c: char, t: string)
    requires c in Whitespace
    ensures Words([c] + t) == Words(t)
  {
    assert ([c] + t)[1..] == t;
  }

  /** Words joined by one whitespace character split back into the words. */
  lemma {:induction false} WordsJoin(ws: seq<string>, c: char)
    requires c in Whitespace
    requires forall k :: 0 <= k < |ws| ==> |ws[k]| > 0
    requires forall k, i :: 0 <= k < |ws| && 0 <= i < |ws[k]| ==> ws[k][i] !in Whitespace
    ensures Words(Join(ws, [c])) == ws
    decreases |ws|
  {
    if |ws| == 1 {
      WordsCons(ws[0], "");
      assert ws[0] + "" == ws[0];
    } else if |ws| > 1 {
      var rest := Join(ws[1..], [c]);
      assert Join(ws, [c]) == ws[0] + ([c] + rest);
      WordsJoin(ws[1..], c);
      WordThenSeparator(ws[0], c, rest);
      assert ws == [ws[0]] + ws[1..];
    }
  }

  /** A word, one whitespace character and more text: the word, then the
    * words of the rest. */
  lemma WordThenSeparator(w: string, c: char, rest: string)
    requires c in Whitespace
    requires |w| > 0 && forall i :: 0 <= i < |w| ==> w[i] !in Whitespace
    ensures Words(w + ([c] + rest)) == [w] + Words(rest)
  {
    WordsCons(w, [c] + rest);
    WordsSkip(c, rest);
  }

  predicate IsDigit(c: char)
  {
    '0' <= c <= '9'
  }

  predicate AllDigits(s: string)
  {
    forall i :: 0 <= i < |s| ==> IsDigit(s[i])
  }

  lemma DigitNotWhitespace(c: char)
    requires IsDigit(c)
    ensures c !in Whitespace
  {
  }

  /** A visible character: ASCII other than space and control characters,
    * or one between U+00A1 and U+167F (the Hebrew letters among them). */
  predicate Visible(c: char)
  {
    ('!' <= c <= '~') || ('\U{00A1}' <= c < '\U{1680}')
  }

  lemma VisibleNotWhitespace(c: char)
    requires Visible(c)
    ensures c !in Whitespace
  {
  }

  /** A text that starts and ends with a visible character is unchanged
    * by `strip()`. */
  lemma VisibleEndsStripped(s: string)
    requires |s| > 0 ==> Visible(s[0]) && Visible(s[|s| - 1])
    ensures Stripped(s) && Trim(s) == s
  {
    if |s| > 0 {
      VisibleNotWhitespace(s[0]);
      VisibleNotWhitespace(s[|s| - 1]);
    }
    TrimUnchanged(s);
  }

  function DigitChar(d: nat): (c: char)
    requires d < 10
    ensures IsDigit(c) && c as int - '0' as int == d
  {
    "0123456789"[d]
  }

  /** The number a string of decimal digits denotes. */
  function DigitsValue(s: string): nat
    requires AllDigits(s)
  {
    if |s| == 0 then 0
    else DigitsValue(s[..|s| - 1]) * 10 + (s[|s| - 1] as int - '0' as int)
  }

  /** `str(n)` for a non-negative integer. */
  function NatToString(n: nat): (s: string)
    ensures |s| >= 1 && AllDigits(s)
    decreases n
  {
    if n < 10 then [DigitChar(n)] else NatToString(n / 10) + [DigitChar(n % 10)]
  }

  /** `int(str(n)) == n`. */
  lemma {:induction false} NatToStringRoundTrip(n: nat)
    ensures DigitsValue(NatToString(n)) == n
    decreases n
  {
    if n >= 10 {
      NatToStringRoundTrip(n / 10);
      var s := NatToString(n);
      assert s[..|s| - 1] == NatToString(n / 10);
    }
  }

  /** Decimal digits of `n`, padded on the left with zeros to `width`
    * (`%02d`, `zfill`). */
  function ZeroPad(n: nat, width: nat): (s: string)
    ensures |s| >= width && AllDigits(s)
  {
    var digits := NatToString(n);
    if |digits| >= width then digits else seq(width - |digits|, _ => '0') + digits
  }

  function Pow10(k: nat): nat
  {
    if k == 0 then 1 else 10 * Pow10(k - 1)
  }

  lemma TimesTen(x: int, p: int)
    ensures (x * p) * 10 == x * (10 * p)
  {
  }

  /** The value of a digit string is read positionally. */
  lemma {:induction false} DigitsValueAppend(a: string, b: string)
    requires AllDigits(a) && AllDigits(b)
    ensures AllDigits(a + b)
    ensures DigitsValue(a + b) == DigitsValue(a) * Pow10(|b|) + DigitsValue(b)
    decreases |b|
  {
    if |b| == 0 {
      assert a + b == a;
    } else {
      var b' := b[..|b| - 1];
      DigitsValueAppend(a, b');
      assert (a + b)[..|a + b| - 1] == a + b';
      var d := b[|b| - 1] as int - '0' as int;
      var x, p := DigitsValue(a), Pow10(|b'|);
      assert DigitsValue(a + b) == (x * p + DigitsValue(b')) * 10 + d;
      TimesTen(x, p);
    }
  }

  lemma {:induction false} ZerosValue(k: nat)
    ensures AllDigits(seq(k, _ => '0'))
    ensures DigitsValue(seq(k, _ => '0')) == 0
  {
    if k > 0 {
      ZerosValue(k - 1);
      assert seq(k, _ => '0')[..k - 1] == seq(k - 1, _ => '0');
    }
  }

  /** Padding with zeros keeps the value: `int("%02d" % n) == n`. */
  lemma ZeroPadValue(n: nat, width: nat)
    ensures DigitsValue(ZeroPad(n, width)) == n
  {
    var digits := NatToString(n);
    NatToStringRoundTrip(n);
    if |digits| < width {
      ZerosValue(width - |digits|);
      DigitsValueAppend(seq(width - |digits|, _ => '0'), digits);
    }
  }

  /** `str(n)` has exactly k digits when 10^(k-1) <= n < 10^k. */
  lemma {:induction false} NatToStringLength(n: nat, k: nat)
    requires k >= 1 && n < Pow10(k) && (k == 1 || Pow10(k - 1) <= n)
    ensures |NatToString(n)| == k
    decreases k
  {
    if k > 1 {
      NatToStringLength(n / 10, k - 1);
    }
  }

  /** `"%02d" % n` is two characters for n < 100. */
  lemma ZeroPadTwo(n: nat)
    requires n < 100
    ensures |ZeroPad(n, 2)| == 2
  {
    if n < 10 {
      NatToStringLength(n, 1);
    } else {
      NatToStringLength(n, 2);
    }
  }

  /** `s[-2:]`. */
  function LastTwo(s: string): string
  {
    if |s| >= 2 then s[|s| - 2..] else s
  }

  /** The last two characters of a text with one more character. */
  lemma LastTwoAppend(t: string, c: char)
    requires |t| >= 1
    ensures LastTwo(t + [c]) == [t[|t| - 1], c]
  {
  }

  /** The last digit of a number's text is its units digit. */
  lemma LastDigit(n: nat)
    ensures NatToString(n)[|NatToString(n)| - 1] == DigitChar(n % 10)
  {
    if n >= 10 {
      assert NatToString(n) == NatToString(n / 10) + [DigitChar(n % 10)];
    }
  }

  /** The number an optional sign and a non-empty run of ASCII digits
    * denote, or None for any other text. */
  function SignedValue(t: string): Option<int>
  {
    if |t| > 1 && (t[0] == '+' || t[0] == '-') && AllDigits(t[1..]) then
      Some(if t[0] == '-' then 0 - DigitsValue(t[1..]) else DigitsValue(t[1..]))
    else if |t| > 0 && AllDigits(t) then Some(DigitsValue(t))
    else None
  }

  /** Python's `int(s)` on a string: whitespace around the number is
    * ignored and a leading sign is allowed; any other text is a ValueError,
    * here None. */
  function ParseInt(s: string): (r: Option<int>)
    ensures |Trim(s)| > 0 && AllDigits(Trim(s)) ==> r == Some(DigitsValue(Trim(s)))
    ensures r.Some? ==> |Trim(s)| > 0
    ensures r.Some? && r.value < 0 ==> Trim(s)[0] == '-'
    ensures r.Some? && !AllDigits(Trim(s)) ==>
      |Trim(s)| > 1 && (Trim(s)[0] == '+' || Trim(s)[0] == '-') && AllDigits(Trim(s)[1..])
    ensures |Trim(s)| > 0 && !IsDigit(Trim(s)[0]) && Trim(s)[0] != '+' && Trim(s)[0] != '-' ==> r.None?
  {
    SignedValue(Trim(s))
  }

  /** `int()` of a run of digits is the number they denote. */
  lemma ParseIntDigits(t: string)
    requires |t| > 0 && AllDigits(t)
    ensures ParseInt(t) == Some(DigitsValue(t))
  {
    DigitNotWhitespace(t[0]);
    DigitNotWhitespace(t[|t| - 1]);
    TrimUnchanged(t);
  }

  /** `int(str(n)) == n`. */
  lemma ParseIntOfString(n: nat)
    ensures ParseInt(NatToString(n)) == Some(n)
  {
    NatToStringRoundTrip(n);
    ParseIntDigits(NatToString(n));
  }

  /** `lstrip` drops a leading run of `chars` up to a text that does not
    * start with one. */
  lemma {:induction false} LStripLeading(a: string, r: string, chars: set<char>)
    requires forall i :: 0 <= i < |a| ==> a[i] in chars
    requires |r| > 0 ==> r[0] !in chars
    ensures LStrip(a + r, chars) == r
    decreases |a|
  {
    if |a| > 0 {
      assert (a + r)[1..] == a[1..] + r;
      LStripLeading(a[1..], r, chars);
    } else {
      assert a + r == r;
    }
  }

  /** `rstrip` drops a trailing run of `chars` back to a text that does not
    * end with one. */
  lemma {:induction false} RStripTrailing(r: string, b: string, chars: set<char>)
    requires forall i :: 0 <= i < |b| ==> b[i] in chars
    requires |r| > 0 ==> r[|r| - 1] !in chars
    ensures RStrip(r + b, chars) == r
    decreases |b|
  {
    if |b| > 0 {
      assert (r + b)[..|r + b| - 1] == r + b[..|b| - 1];
      RStripTrailing(r, b[..|b| - 1], chars);
    } else {
      assert r + b == r;
    }
  }

  /** Whitespace around a stripped text is what `strip()` removes. */
  lemma TrimAround(a: string, t: string, b: string)
    requires forall i :: 0 <= i < |a| ==> a[i] in Whitespace
    requires forall i :: 0 <= i < |b| ==> b[i] in Whitespace
    requires |t| > 0 && Stripped(t)
    ensures Trim(a + t + b) == t
  {
    assert a + t + b == a + (t + b);
    LStripLeading(a, t + b, Whitespace);
    RStripTrailing(t, b, Whitespace);
  }

  /** A run of digits has no whitespace at its ends. */
  lemma DigitsStripped(t: string)
    requires |t| > 0 && AllDigits(t)
    ensures Stripped(t)
  {
    DigitNotWhitespace(t[0]);
    DigitNotWhitespace(t[|t| - 1]);
  }

  /** `int()` of a run of digits followed by whitespace, such as the raw
    * text of a page element ending in a newline. */
  lemma ParseIntTrailing(t: string, b: string)
    requires |t| > 0 && AllDigits(t)
    requires forall i :: 0 <= i < |b| ==> b[i] in Whitespace
    ensures ParseInt(t + b) == Some(DigitsValue(t))
  {
    TrimTrailing(t, b);
    ParseIntOfTrimmed(t + b, t);
  }

  lemma TrimTrailing(t: string, b: string)
    requires |t| > 0 && AllDigits(t)
    requires forall i :: 0 <= i < |b| ==> b[i] in Whitespace
    ensures Trim(t + b) == t
  {
    DigitsStripped(t);
    TrimAround("", t, b);
    assert "" + t + b == t + b;
  }

  lemma ParseIntOfTrimmed(s: string, t: string)
    requires Trim(s) == t && |t| > 0 && AllDigits(t)
    ensures ParseInt(s) == Some(DigitsValue(t))
  {
  }

  /** `int()` reads a number with whitespace on either side, such as the
    * raw text of a page element ending in a newline. */
  lemma ParseIntPadded(a: string, n: nat, b: string)
    requires forall i :: 0 <= i < |a| ==> a[i] in Whitespace
    requires forall i :: 0 <= i < |b| ==> b[i] in Whitespace
    ensures ParseInt(a + NatToString(n) + b) == Some(n)
  {
    var t := NatToString(n);
    NatToStringRoundTrip(n);
    DigitNotWhitespace(t[0]);
    DigitNotWhitespace(t[|t| - 1]);
    TrimAround(a, t, b);
  }

  /** Whitespace around a stripped text does not change what `int()`
    * reads. */
  lemma ParseIntAround(a: string, t: string, b: string)
    requires forall i :: 0 <= i < |a| ==> a[i] in Whitespace
    requires forall i :: 0 <= i < |b| ==> b[i] in Whitespace
    requires |t| > 0 && Stripped(t)
    ensures ParseInt(a + t + b) == ParseInt(t)
  {
    TrimAround(a, t, b);
    TrimUnchanged(t);
  }

  /** `str(n)` for any integer. */
  function IntToString(n: int): (s: string)
    ensures n >= 0 ==> s == NatToString(n)
    ensures n < 0 ==> s == "-" + NatToString(-n)
  {
    if n < 0 then "-" + NatToString(-n) else NatToString(n)
  }

  /** `int(str(n)) == n` for any integer. */
  lemma ParseIntOfIntString(n: int)
    ensures ParseInt(IntToString(n)) == Some(n)
  {
    var s := IntToString(n);
    if n < 0 {
      var m: nat := -n;
      assert s == "-" + NatToString(m);
      ParseIntNegative(m);
    } else {
      assert s == NatToString(n);
      ParseIntOfString(n);
    }
  }

  /** `int()` reads a negative number. */
  lemma ParseIntNegative(n: nat)
    ensures ParseInt("-" + NatToString(n)) == Some(0 - n)
  {
    SignedNat('-', n);
    assert ['-'] + NatToString(n) == "-" + NatToString(n);
  }

  /** `int()` reads a signed number. */
  lemma ParseIntSigned(n: nat)
    ensures ParseInt("-" + NatToString(n)) == Some(0 - n)
    ensures ParseInt("+" + NatToString(n)) == Some(n)
  {
    SignedNat('-', n);
    SignedNat('+', n);
  }

  lemma SignedNat(sign: char, n: nat)
    requires sign == '-' || sign == '+'
    ensures ParseInt([sign] + NatToString(n)) == Some(if sign == '-' then 0 - n else n)
  {
    NatToStringRoundTrip(n);
    SignedDigits(sign, NatToString(n), n);
  }

  /** `int()` of a sign followed by a run of digits. */
  lemma SignedDigits(sign: char, t: string, v: nat)
    requires sign == '-' || sign == '+'
    requires |t| > 0 && AllDigits(t) && DigitsValue(t) == v
    ensures ParseInt([sign] + t) == Some(if sign == '-' then 0 - v else v)
  {
    SignStripped(sign, t);
    ParseIntStripped([sign] + t);
    SignedValueOfSign(sign, t);
  }

  lemma SignStripped(sign: char, t: string)
    requires sign == '-' || sign == '+'
    requires |t| > 0 && AllDigits(t)
    ensures Stripped([sign] + t)
  {
    var s := [sign] + t;
    DigitNotWhitespace(t[|t| - 1]);
    assert s[0] == sign && s[|s| - 1] == t[|t| - 1];
  }

  lemma SignedValueOfSign(sign: char, t: string)
    requires sign == '-' || sign == '+'
    requires |t| > 0 && AllDigits(t)
    ensures SignedValue([sign] + t) == Some(if sign == '-' then 0 - DigitsValue(t) else DigitsValue(t))
  {
    assert ([sign] + t)[1..] == t;
  }

  /** `int()` of a text without whitespace at its ends reads the text
    * itself. */
  lemma ParseIntStripped(s: string)
    requires Stripped(s)
    ensures ParseInt(s) == SignedValue(s)
  {
    TrimUnchanged(s);
  }

  /** Python's `a < b` on strings: lexicographic order of the code points,
    * a proper prefix coming first. */
  predicate Less(a: string, b: string)
    decreases |a|
  {
    if |a| == 0 then |b| > 0
    else if |b| == 0 then false
    else a[0] < b[0] || (a[0] == b[0] && Less(a[1..], b[1..]))
  }

  /** The order is strict and total: of two different strings exactly one
    * is the smaller. */
  lemma {:induction false} LessTotal(a: string, b: string)
    ensures !(Less(a, b) && Less(b, a))
    ensures a != b ==> Less(a, b) || Less(b, a)
    ensures !Less(a, a)
    decreases |a|
  {
    if |a| > 0 {
      LessTotal(a[1..], a[1..]);
    }
    if |a| > 0 && |b| > 0 {
      LessTotal(a[1..], b[1..]);
      if a[0] == b[0] && a[1..] == b[1..] {
        assert a == [a[0]] + a[1..] && b == [b[0]] + b[1..];
      }
    }
  }
}
