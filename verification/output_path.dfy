/**
 * Output-directory sandboxing: a requested download directory is accepted
 * only when it is the workspace root or `/tmp`, or lies below one of them.
 * Paths are absolute and already resolved (`~` expanded, symlinks and `..`
 * gone), written as their components below `/`.
 */
module OutputPath {
  import opened Wrappers

  /** An absolute, resolved path: `["tmp", "x"]` is `/tmp/x`, `[]` is `/`. */
  type Path = seq<string>

  /** `/tmp` as written in the source, before resolution. */
  const Tmp: Path := ["tmp"]

  datatype PathError = OutsideSandbox(workspace: Path, got: Path)

  /**
   * pathlib's `is_relative_to`: `base` is a leading run of whole components
   * of `p` (so `/tmpx` is not below `/tmp`).
   */
  predicate IsRelativeTo(p: Path, base: Path) {
    |base| <= |p| && forall i :: 0 <= i < |base| ==> p[i] == base[i]
  }

  /** Accepts `p` unchanged when it is inside the workspace or `/tmp`; anything else is an error. */
  function SafeOutputPath(p: Path, workspace: Path, tmp: Path): (r: Result<Path, PathError>)
    ensures r.Success? <==> (workspace <= p || tmp <= p)
    ensures r.Success? ==> r.value == p
    ensures r.Failure? ==> r.error == OutsideSandbox(workspace, p)
  {
    if p == workspace || IsRelativeTo(p, workspace) then Success(p)
    else if p == tmp || IsRelativeTo(p, tmp) then Success(p)
    else Failure(OutsideSandbox(workspace, p))
  }

  /** A path as the text pathlib prints for it. */
  function Render(p: Path): (s: string)
    ensures s != [] && s[0] == '/'
  {
    if p == [] then "/" else RenderTail(p)
  }

  function RenderTail(p: Path): (s: string)
    requires p != []
    ensures s != [] && s[0] == '/'
  {
    if |p| == 1 then "/" + p[0] else "/" + p[0] + RenderTail(p[1..])
  }

  /**
   * Containment is about components, not text: `/tmpx` starts with the
   * characters of `/tmp` but is rejected whenever the workspace is elsewhere.
   */
  lemma TextPrefixIsNotContainment(workspace: Path)
    requires workspace != [] && workspace[0] != "tmpx"
    ensures Render(Tmp) <= Render(["tmpx"])
    ensures SafeOutputPath(["tmpx"], workspace, Tmp).Failure?
  {
    assert Render(Tmp) == "/tmp";
    assert Render(["tmpx"]) == "/tmpx";
    assert !(Tmp <= ["tmpx"]) by {
      assert "tmp" != "tmpx";
    }
  }

  /** Whatever lies below an accepted directory is accepted too. */
  lemma BelowAcceptedIsAccepted(dir: Path, sub: Path, workspace: Path, tmp: Path)
    requires SafeOutputPath(dir, workspace, tmp).Success?
    ensures SafeOutputPath(dir + sub, workspace, tmp).Success?
  {
    assert dir <= dir + sub;
  }
}
