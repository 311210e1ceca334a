/**
 * The download-name sanitiser: four rewrites applied in order to a suggested
 * file name before it is joined onto the output directory.
 *   1. `/` and `\` become `_`;
 *   2. every run of two or more dots becomes one dot;
 *   3. every character outside `[\w\s\-.]` becomes `_`;
 *   4. surrounding whitespace is stripped, then surrounding dots.
 */
module Filename {

  /**
   * Python's `\w` and `\s` character classes, left uninterpreted.  The same
   * `isSpace` serves the regex class and `str.strip()`: both use the
   * interpreter's one notion of a whitespace character.
   */
  datatype CharClasses = CharClasses(isWord: char -> bool, isSpace: char -> bool) {

    /** The one fact about `\w` the sanitiser relies on: `_` is a word character. */
    predicate Valid() {
      isWord('_')
    }

    /** Membership in the regex class `[\w\s\-.]`. */
    predicate Allowed(c: char) {
      isWord(c) || isSpace(c) || c == '-' || c == '.'
    }
  }

  predicate IsSeparator(c: char) {
    c == '/' || c == '\\'
  }

  predicate IsDot(c: char) {
    c == '.'
  }

  predicate NoSeparator(s: string) {
    forall i :: 0 <= i < |s| ==> !IsSeparator(s[i])
  }

  predicate AllAllowed(cls: CharClasses, s: string) {
    forall i :: 0 <= i < |s| ==> cls.Allowed(s[i])
  }

  /** Positions `i` and `i + 1` of `s` both hold a dot. */
  predicate DoubleDotAt(s: string, i: int)
    requires 0 <= i < |s| - 1
  {
    s[i] == '.' && s[i + 1] == '.'
  }

  /** No two adjacent dots anywhere in `s`. */
  predicate NoDoubleDot(s: string) {
    forall i :: 0 <= i < |s| - 1 ==> !DoubleDotAt(s, i)
  }

  /** A contiguous piece of a string without adjacent dots has none either. */
  lemma NoDoubleDotSlice(s: string, lo: int, hi: int)
    requires 0 <= lo <= hi <= |s| && NoDoubleDot(s)
    ensures NoDoubleDot(s[lo..hi])
  {
    var t := s[lo..hi];
    forall i | 0 <= i < |t| - 1
      ensures !DoubleDotAt(t, i)
    {
      assert !DoubleDotAt(s, lo + i);
    }
  }

  /** Adding one character in front of a string without adjacent dots. */
  lemma NoDoubleDotCons(c: char, t: string)
    requires NoDoubleDot(t) && !(c == '.' && t != [] && t[0] == '.')
    ensures NoDoubleDot([c] + t)
  {
    var s := [c] + t;
    forall i | 0 <= i < |s| - 1
      ensures !DoubleDotAt(s, i)
    {
      if i > 0 {
        assert !DoubleDotAt(t, i - 1);
      }
    }
  }

  /** `s` with every dot removed; what dot-collapsing must leave alone. */
  function Undotted(s: string): string {
    if s == [] then []
    else if s[0] == '.' then Undotted(s[1..])
    else [s[0]] + Undotted(s[1..])
  }

  /** Stage 1: `name.replace("/", "_").replace("\\", "_")`. */
  function ReplaceSeparators(s: string): (r: string)
    ensures |r| == |s|
    ensures NoSeparator(r)
    ensures forall i :: 0 <= i < |s| ==> r[i] == s[i] || (IsSeparator(s[i]) && r[i] == '_')
    ensures NoSeparator(s) ==> r == s
  {
    if s == [] then []
    else [if IsSeparator(s[0]) then '_' else s[0]] + ReplaceSeparators(s[1..])
  }

  /** Stage 2: `re.sub(r"\.\.+", ".", name)`; a dot followed by a dot is dropped. */
  function CollapseDots(s: string): (r: string)
    ensures |r| <= |s|
    ensures NoDoubleDot(r)
    ensures |s| > 0 ==> |r| > 0 && r[0] == s[0]
    ensures NoSeparator(s) ==> NoSeparator(r)
    ensures NoDoubleDot(s) ==> r == s
  {
    if |s| < 2 then s
    else if s[0] == '.' && s[1] == '.' then
      assert DoubleDotAt(s, 0);
      CollapseDots(s[1..])
    else
      var rest := CollapseDots(s[1..]);
      NoDoubleDotCons(s[0], rest);
      assert NoDoubleDot(s) ==> NoDoubleDot(s[1..]) by {
        if NoDoubleDot(s) {
          NoDoubleDotSlice(s, 1, |s|);
          assert s[1..|s|] == s[1..];
        }
      }
      assert [s[0]] + s[1..] == s;
      [s[0]] + rest
  }

  /** Position `i` of `s` holds a dot directly after another dot. */
  predicate DotAfterDot(s: string, i: int)
    requires 0 <= i < |s|
  {
    i > 0 && s[i - 1] == '.' && s[i] == '.'
  }

  /**
   * The reference reading of the collapse, from position `i` on: a
   * character is kept unless it is a dot directly after a dot, so every run
   * of dots leaves exactly its first dot behind.
   */
  function KeepFirstDots(s: string, i: nat): string
    requires i <= |s|
    decreases |s| - i
  {
    if i == |s| then []
    else (if DotAfterDot(s, i) then [] else [s[i]]) + KeepFirstDots(s, i + 1)
  }

  /** Past its first two positions, dropping the first character of `s` does not change which characters are kept. */
  lemma {:induction false} KeepFirstDotsShift(s: string, k: nat)
    requires 1 <= k < |s|
    ensures KeepFirstDots(s, k + 1) == KeepFirstDots(s[1..], k)
    decreases |s| - k
  {
    if k + 1 < |s| {
      assert DotAfterDot(s, k + 1) == DotAfterDot(s[1..], k);
      KeepFirstDotsShift(s, k + 1);
    }
  }

  /** The collapse agrees with the reference reading on every input: each run of dots becomes one dot. */
  lemma {:induction false} CollapseDotsIsReference(s: string)
    ensures CollapseDots(s) == KeepFirstDots(s, 0)
    decreases |s|
  {
    if |s| == 1 {
      assert KeepFirstDots(s, 1) == [];
    } else if |s| >= 2 {
      var t := s[1..];
      CollapseDotsIsReference(t);
      KeepFirstDotsShift(s, 1);
      assert KeepFirstDots(s, 0) == [s[0]] + KeepFirstDots(s, 1);
      assert KeepFirstDots(t, 0) == [t[0]] + KeepFirstDots(t, 1);
      if s[0] == '.' && s[1] == '.' {
        assert KeepFirstDots(s, 1) == KeepFirstDots(t, 1);
      } else {
        assert KeepFirstDots(s, 1) == [s[1]] + KeepFirstDots(t, 1);
      }
    }
  }

  /** A run of dots between two names keeps one dot: `"a..b"` becomes `"a.b"`. */
  lemma CollapseDotsExample()
    ensures CollapseDots("a..b") == "a.b"
  {
    CollapseDotsIsReference("a..b");
    assert KeepFirstDots("a..b", 4) == [];
    assert KeepFirstDots("a..b", 3) == "b";
    assert KeepFirstDots("a..b", 2) == "b";
    assert KeepFirstDots("a..b", 1) == ".b";
  }

  /** Collapsing dots keeps every other character, in order. */
  lemma {:induction false} CollapseDotsKeepsUndotted(s: string)
    ensures Undotted(CollapseDots(s)) == Undotted(s)
  {
    if |s| < 2 {
    } else if s[0] == '.' && s[1] == '.' {
      CollapseDotsKeepsUndotted(s[1..]);
    } else {
      CollapseDotsKeepsUndotted(s[1..]);
      assert ([s[0]] + CollapseDots(s[1..]))[1..] == CollapseDots(s[1..]);
    }
  }

  /** Stage 3: `re.sub(r"[^\w\s\-.]", "_", name)`. */
  function ReplaceDisallowed(cls: CharClasses, s: string): (r: string)
    ensures |r| == |s|
    ensures cls.Valid() ==> AllAllowed(cls, r)
    ensures forall i :: 0 <= i < |s| ==> r[i] == s[i] || (!cls.Allowed(s[i]) && r[i] == '_')
    ensures NoSeparator(s) ==> NoSeparator(r)
    ensures NoDoubleDot(s) ==> NoDoubleDot(r)
    ensures AllAllowed(cls, s) ==> r == s
  {
    if s == [] then []
    else
      var rest := ReplaceDisallowed(cls, s[1..]);
      var c := if cls.Allowed(s[0]) then s[0] else '_';
      assert NoDoubleDot(s) ==> NoDoubleDot([c] + rest) by {
        if NoDoubleDot(s) {
          NoDoubleDotSlice(s, 1, |s|);
          assert s[1..|s|] == s[1..];
          if |s| > 1 {
            assert !DoubleDotAt(s, 0);
          }
          NoDoubleDotCons(c, rest);
        }
      }
      [c] + rest
  }

  /** Scanning forward from `i`: the first position not satisfying `p`. */
  function SkipFrom(s: string, p: char -> bool, i: nat): (n: nat)
    requires i <= |s|
    ensures i <= n <= |s|
    ensures forall k :: i <= k < n ==> p(s[k])
    ensures n == |s| || !p(s[n])
    decreases |s| - i
  {
    if i < |s| && p(s[i]) then SkipFrom(s, p, i + 1) else i
  }

  /** Scanning backward from `j` down to `lo`: the end of the part not to be cut. */
  function SkipBackFrom(s: string, p: char -> bool, lo: nat, j: nat): (n: nat)
    requires lo <= j <= |s|
    ensures lo <= n <= j
    ensures forall k :: n <= k < j ==> p(s[k])
    ensures n == lo || !p(s[n - 1])
  {
    if j > lo && p(s[j - 1]) then SkipBackFrom(s, p, lo, j - 1) else j
  }

  /** Where `str.strip` with predicate `p` cuts `s`: the kept part is `s[lo..hi]`. */
  function StripBounds(s: string, p: char -> bool): (b: (nat, nat))
    ensures b.0 <= b.1 <= |s|
    ensures forall k :: 0 <= k < b.0 ==> p(s[k])
    ensures forall k :: b.1 <= k < |s| ==> p(s[k])
    ensures b.0 < b.1 ==> !p(s[b.0]) && !p(s[b.1 - 1])
  {
    var lo := SkipFrom(s, p, 0);
    (lo, SkipBackFrom(s, p, lo, |s|))
  }

  /** `str.strip` with a character predicate: every end character satisfying `p` is cut. */
  function Strip(s: string, p: char -> bool): (r: string)
    ensures |r| <= |s|
    ensures r == [] || (!p(r[0]) && !p(r[|r| - 1]))
    ensures exists lo: nat, hi: nat ::
              && lo <= hi <= |s| && r == s[lo..hi]
              && (forall k :: 0 <= k < lo ==> p(s[k]))
              && (forall k :: hi <= k < |s| ==> p(s[k]))
  {
    var b := StripBounds(s, p);
    assert s[b.0..b.1] == s[b.0..b.1];
    s[b.0..b.1]
  }

  /** Stripping changes nothing exactly when neither end of `s` satisfies `p`. */
  lemma StripUnchanged(s: string, p: char -> bool)
    ensures Strip(s, p) == s <==> (s == [] || (!p(s[0]) && !p(s[|s| - 1])))
  {
    var b := StripBounds(s, p);
    if s != [] && !p(s[0]) && !p(s[|s| - 1]) {
      assert b.0 == 0;
      assert b.1 == |s|;
    }
  }

  /** Stripping only cuts off ends, so it keeps what holds of every character. */
  lemma StripKeepsChars(cls: CharClasses, s: string, p: char -> bool)
    requires NoSeparator(s)
    requires cls.Valid() ==> AllAllowed(cls, s)
    ensures NoSeparator(Strip(s, p))
    ensures cls.Valid() ==> AllAllowed(cls, Strip(s, p))
  {
  }

  /** Stripping only cuts off ends, so it cannot bring two dots together. */
  lemma StripKeepsNoDoubleDot(s: string, p: char -> bool)
    requires NoDoubleDot(s)
    ensures NoDoubleDot(Strip(s, p))
  {
    NoDoubleDotSlice(s, StripBounds(s, p).0, StripBounds(s, p).1);
  }

  /** Stage 4 keeps everything stages 1-3 established. */
  lemma FinalStripsKeep(cls: CharClasses, s3: string)
    requires NoSeparator(s3) && NoDoubleDot(s3)
    requires cls.Valid() ==> AllAllowed(cls, s3)
    ensures NoSeparator(Strip(Strip(s3, cls.isSpace), IsDot))
    ensures NoDoubleDot(Strip(Strip(s3, cls.isSpace), IsDot))
    ensures cls.Valid() ==> AllAllowed(cls, Strip(Strip(s3, cls.isSpace), IsDot))
  {
    var s4 := Strip(s3, cls.isSpace);
    StripKeepsChars(cls, s3, cls.isSpace);
    StripKeepsChars(cls, s4, IsDot);
    StripKeepsNoDoubleDot(s3, cls.isSpace);
    StripKeepsNoDoubleDot(s4, IsDot);
  }

  /** Stage 4 and the whole sanitiser: `name.strip().strip(".")` after stages 1-3. */
  function SafeFilename(cls: CharClasses, name: string): (r: string)
    ensures |r| <= |name|
    ensures NoSeparator(r)
    ensures cls.Valid() ==> AllAllowed(cls, r)
    ensures NoDoubleDot(r)
    ensures r != [] ==> r[0] != '.' && r[|r| - 1] != '.'
  {
    var s3 := ReplaceDisallowed(cls, CollapseDots(ReplaceSeparators(name)));
    FinalStripsKeep(cls, s3);
    Strip(Strip(s3, cls.isSpace), IsDot)
  }

  /** A name the sanitiser leaves alone. */
  predicate IsCleanName(cls: CharClasses, n: string) {
    && NoSeparator(n)
    && AllAllowed(cls, n)
    && NoDoubleDot(n)
    && (n == [] || (!cls.isSpace(n[0]) && !cls.isSpace(n[|n| - 1])))
    && (n == [] || (n[0] != '.' && n[|n| - 1] != '.'))
  }

  /** The sanitiser's fixed points are exactly the clean names. */
  lemma SafeFilenameFixedPoint(cls: CharClasses, n: string)
    requires cls.Valid()
    ensures SafeFilename(cls, n) == n <==> IsCleanName(cls, n)
  {
    var s1 := ReplaceSeparators(n);
    var s2 := CollapseDots(s1);
    var s3 := ReplaceDisallowed(cls, s2);
    var s4 := Strip(s3, cls.isSpace);
    var r := Strip(s4, IsDot);
    assert r == SafeFilename(cls, n);
    if IsCleanName(cls, n) {
      assert s3 == n;
      StripUnchanged(n, cls.isSpace);
      StripUnchanged(n, IsDot);
    }
    if r == n {
      assert s3 == n;
      StripUnchanged(n, cls.isSpace);
    }
  }

  /**
   * Whitespace is stripped before dots, so whitespace that sat behind a
   * leading dot survives: `". a"` sanitises to `" a"`, which is not clean,
   * and a second pass changes it again.
   */
  lemma LeadingSpaceSurvives(cls: CharClasses)
    requires cls.isSpace(' ') && !cls.isSpace('.') && !cls.isSpace('a') && cls.isWord('a')
    ensures SafeFilename(cls, ". a") == " a"
    ensures SafeFilename(cls, " a") == "a"
  {
    assert ReplaceSeparators(". a") == ". a";
    assert CollapseDots(". a") == ". a";
    assert ReplaceDisallowed(cls, ". a") == ". a";
    StripUnchanged(". a", cls.isSpace);
    assert StripBounds(". a", IsDot) == (1, 3);
    assert Strip(". a", IsDot) == " a";
    assert ReplaceSeparators(" a") == " a";
    assert CollapseDots(" a") == " a";
    assert ReplaceDisallowed(cls, " a") == " a";
    assert StripBounds(" a", cls.isSpace) == (1, 2);
    assert Strip(" a", cls.isSpace) == "a";
    StripUnchanged("a", IsDot);
  }

  /** A name made only of dots sanitises to nothing at all. */
  lemma DotsSanitiseToEmpty(cls: CharClasses)
    requires !cls.isSpace('.')
    ensures SafeFilename(cls, "...") == ""
  {
    assert ReplaceSeparators("...") == "...";
    assert CollapseDots("...") == ".";
    assert ReplaceDisallowed(cls, ".") == ".";
    StripUnchanged(".", cls.isSpace);
    assert StripBounds(".", IsDot).0 == 1;
  }
}
