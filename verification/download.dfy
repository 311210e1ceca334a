/**
 * Where the download command saves each document: the page's download links
 * are followed in document order, and link `i` is saved in the output
 * directory under its suggested name (or `document_{i}.pdf` when the portal
 * suggests none), passed through the filename sanitiser.
 */
module Download {
  import opened Filename
  import opened OutputPath

  /** The decimal digit for `d`. */
  function Digit(d: nat): char
    requires d < 10
  {
    "0123456789"[d]
  }

  /** Python's `str(n)` for a natural number. */
  function NatToString(n: nat): (s: string)
    ensures s != []
    ensures forall i :: 0 <= i < |s| ==> '0' <= s[i] <= '9'
    ensures n == 0 <==> s == "0"
    ensures n > 0 ==> s[0] != '0'
  {
    if n < 10 then [Digit(n)] else NatToString(n / 10) + [Digit(n % 10)]
  }

  /** The value of a string of decimal digits. */
  function DigitsValue(s: string): nat
    requires forall i :: 0 <= i < |s| ==> '0' <= s[i] <= '9'
  {
    if s == [] then 0 else 10 * DigitsValue(s[..|s| - 1]) + (s[|s| - 1] - '0') as nat
  }

  /** Reading the decimal text back gives the number: the index in a fallback name is the link's. */
  lemma {:induction false} NatToStringRoundTrip(n: nat)
    ensures DigitsValue(NatToString(n)) == n
  {
    if n >= 10 {
      var s := NatToString(n);
      assert s[..|s| - 1] == NatToString(n / 10);
      NatToStringRoundTrip(n / 10);
    }
  }

  /** `f"document_{i}.pdf"`. */
  function FallbackName(i: nat): string {
    "document_" + NatToString(i) + ".pdf"
  }

  /** A name that joins onto a directory as exactly one new component. */
  predicate IsComponent(n: string) {
    && n != [] && n != "." && n != ".."
    && forall i :: 0 <= i < |n| ==> n[i] != '/'
  }

  lemma FallbackNameIsComponent(i: nat)
    ensures IsComponent(FallbackName(i)) && NoSeparator(FallbackName(i))
    ensures FallbackName(i)[0] == 'd'
  {
    var n := FallbackName(i);
    var d := NatToString(i);
    assert forall k :: 9 <= k < 9 + |d| ==> n[k] == d[k - 9];
  }

  /**
   * pathlib's `dir / name` for a name without `/`: an empty name or `.`
   * adds nothing, any other name is one more component.
   */
  function Join(dir: Path, name: string): (p: Path)
    requires forall i :: 0 <= i < |name| ==> name[i] != '/'
    ensures IsComponent(name) ==> p == dir + [name]
    ensures name == "" ==> p == dir
  {
    if name == "" || name == "." then dir else dir + [name]
  }

  /** The name the portal suggested for link `i`, or the fallback when it suggested none. */
  function SuggestedOrFallback(suggested: string, i: nat): string {
    if suggested != "" then suggested else FallbackName(i)
  }

  /**
   * The destination of each download, as the command computes it: the
   * fallback is applied before sanitising.  Every destination is the output
   * directory itself or one sanitised component below it.
   */
  function DownloadTargets(cls: CharClasses, outDir: Path, suggested: seq<string>): (dests: seq<Path>)
    ensures |dests| == |suggested|
    ensures forall i :: 0 <= i < |dests| ==>
              dests[i] == outDir
              || (exists n :: dests[i] == outDir + [n] && IsComponent(n) && NoSeparator(n) && n[0] != '.')
    ensures forall i :: 0 <= i < |dests| && SafeFilename(cls, SuggestedOrFallback(suggested[i], i)) != [] ==>
              dests[i] == outDir + [SafeFilename(cls, SuggestedOrFallback(suggested[i], i))]
    ensures forall i :: 0 <= i < |dests| && SafeFilename(cls, SuggestedOrFallback(suggested[i], i)) == [] ==>
              dests[i] == outDir
  {
    seq(|suggested|, i requires 0 <= i < |suggested| =>
      var n := SafeFilename(cls, SuggestedOrFallback(suggested[i], i));
      assert n != [] ==> n[0] != '.';
      Join(outDir, n))
  }

  /**
   * A suggested name that sanitises to nothing makes the destination the
   * output directory itself rather than a file inside it.
   */
  lemma EmptySanitisedNameTargetsDirectory(cls: CharClasses, outDir: Path)
    requires !cls.isSpace('.')
    ensures DownloadTargets(cls, outDir, ["..."])[0] == outDir
  {
    DotsSanitiseToEmpty(cls);
  }

  /** A non-empty sanitised name is a single component that does not start with a dot. */
  lemma SanitisedNameIsComponent(cls: CharClasses, s: string)
    requires SafeFilename(cls, s) != []
    ensures var n := SafeFilename(cls, s); IsComponent(n) && NoSeparator(n) && n[0] != '.'
  {
    var n := SafeFilename(cls, s);
    assert n[0] != '.';
    assert n != "." && n != "..";
    assert forall k :: 0 <= k < |n| ==> !IsSeparator(n[k]);
  }

  /** The sanitised name for link `i`, falling back to `document_{i}.pdf` when sanitising leaves nothing. */
  function SafeDownloadName(cls: CharClasses, suggested: string, i: nat): (n: string)
    ensures IsComponent(n) && NoSeparator(n) && n[0] != '.'
  {
    var n := SafeFilename(cls, SuggestedOrFallback(suggested, i));
    if n != [] then
      SanitisedNameIsComponent(cls, SuggestedOrFallback(suggested, i));
      n
    else
      FallbackNameIsComponent(i);
      FallbackName(i)
  }

  /** The destinations with the fallback applied after sanitising: every one is a file inside the output directory. */
  function SafeDownloadTargets(cls: CharClasses, outDir: Path, suggested: seq<string>): (dests: seq<Path>)
    ensures |dests| == |suggested|
    ensures forall i :: 0 <= i < |dests| ==> |dests[i]| == |outDir| + 1 && outDir <= dests[i]
    ensures forall i :: 0 <= i < |dests| ==> IsComponent(dests[i][|outDir|])
  {
    seq(|suggested|, i requires 0 <= i < |suggested| => Join(outDir, SafeDownloadName(cls, suggested[i], i)))
  }

  /** The corrected destinations agree with the command's wherever the sanitised name is not empty. */
  lemma SafeTargetsAgree(cls: CharClasses, outDir: Path, suggested: seq<string>, i: nat)
    requires i < |suggested|
    ensures SafeFilename(cls, SuggestedOrFallback(suggested[i], i)) != [] ==>
              SafeDownloadTargets(cls, outDir, suggested)[i] == DownloadTargets(cls, outDir, suggested)[i]
  {
  }

  /**
   * Downloads stay in the sandbox: when the output directory passed the
   * containment check, every destination lies inside the workspace or `/tmp`.
   */
  lemma DownloadsStayInSandbox(cls: CharClasses, raw: Path, workspace: Path, tmp: Path, suggested: seq<string>)
    requires SafeOutputPath(raw, workspace, tmp).Success?
    ensures var outDir := SafeOutputPath(raw, workspace, tmp).value;
            forall i :: 0 <= i < |suggested| ==>
              SafeOutputPath(SafeDownloadTargets(cls, outDir, suggested)[i], workspace, tmp).Success?
  {
    var outDir := SafeOutputPath(raw, workspace, tmp).value;
    var dests := SafeDownloadTargets(cls, outDir, suggested);
    forall i | 0 <= i < |suggested|
      ensures SafeOutputPath(dests[i], workspace, tmp).Success?
    {
      assert dests[i] == outDir + [dests[i][|outDir|]];
      BelowAcceptedIsAccepted(outDir, [dests[i][|outDir|]], workspace, tmp);
    }
  }

  /**
   * The command's own destinations stay in the sandbox as well: each is the
   * accepted output directory or one component below it.
   */
  lemma CommandDownloadsStayInSandbox(cls: CharClasses, raw: Path, workspace: Path, tmp: Path, suggested: seq<string>)
    requires SafeOutputPath(raw, workspace, tmp).Success?
    ensures var outDir := SafeOutputPath(raw, workspace, tmp).value;
            forall i :: 0 <= i < |suggested| ==>
              SafeOutputPath(DownloadTargets(cls, outDir, suggested)[i], workspace, tmp).Success?
  {
    var outDir := SafeOutputPath(raw, workspace, tmp).value;
    var dests := DownloadTargets(cls, outDir, suggested);
    forall i | 0 <= i < |suggested|
      ensures SafeOutputPath(dests[i], workspace, tmp).Success?
    {
      if dests[i] == outDir {
        assert dests[i] == outDir + [];
        BelowAcceptedIsAccepted(outDir, [], workspace, tmp);
      } else {
        assert dests[i] == outDir + [dests[i][|outDir|]];
        BelowAcceptedIsAccepted(outDir, [dests[i][|outDir|]], workspace, tmp);
      }
    }
  }
}
