/**
 * The upload command after its file list has been resolved: a configuration
 * error or an empty file list is an immediate failure; otherwise reach the
 * upload page (logging in if needed),
 * choose the document category, hand each file to the page in order, count
 * the successes, and exit 0 only when every file went through.
 */
module Upload {
  import opened Session
  import opened Config

  /** The default document category (Eingangsrechnungen), which needs no selection. */
  const DefaultCategory := "ER"

  /** The per-file outcomes of an upload run and the trace they left. */
  datatype Batch = Batch(trace: seq<Event>, results: seq<bool>)

  /**
   * Choose the category; the default needs no interaction, and a failed
   * choice is only a warning.  The step adds at most one action, and only a
   * choice of this very category.
   */
  function SelectCategory(t: seq<Event>, code: string): (r: seq<Event>)
    ensures t <= r && |r| <= |t| + 1
    ensures r == t <==> code == DefaultCategory
    ensures forall i :: |t| <= i < |r| ==> r[i] == ChooseCategory(code)
  {
    if code == DefaultCategory then t else t + [ChooseCategory(code)]
  }

  /**
   * Upload one file: with no file input on the page it fails without acting;
   * otherwise the file is handed over and the result is whether that worked.
   */
  function UploadFile(page: Page, t: seq<Event>, file: string): (r: Step)
    ensures r.ok ==> page.fileInputShown(t) && r.trace == t + [SetInputFiles(file)]
    ensures !page.fileInputShown(t) ==> r == Step(t, false)
    ensures page.fileInputShown(t) ==> r.trace == t + [SetInputFiles(file)]
    ensures page.fileInputShown(t) ==> r.ok == page.acceptsFile(t + [SetInputFiles(file)])
  {
    if !page.fileInputShown(t) then Step(t, false)
    else
      var t1 := t + [SetInputFiles(file)];
      Step(t1, page.acceptsFile(t1))
  }

  /** Upload each file in order, each attempt seeing the trace the previous ones left. */
  function UploadEach(page: Page, t: seq<Event>, files: seq<string>): (b: Batch)
    ensures |b.results| == |files|
    ensures t <= b.trace
    decreases |files|
  {
    if files == [] then Batch(t, [])
    else
      var s := UploadFile(page, t, files[0]);
      var rest := UploadEach(page, s.trace, files[1..]);
      Batch(rest.trace, [s.ok] + rest.results)
  }

  /** Uploading one more file extends the batch by that file's attempt. */
  lemma {:induction false} UploadEachSnoc(page: Page, t: seq<Event>, files: seq<string>, f: string)
    ensures UploadEach(page, t, files + [f]) ==
              var b := UploadEach(page, t, files);
              var s := UploadFile(page, b.trace, f);
              Batch(s.trace, b.results + [s.ok])
    decreases |files|
  {
    if files == [] {
      assert [f][1..] == [];
    } else {
      var s0 := UploadFile(page, t, files[0]);
      assert (files + [f])[1..] == files[1..] + [f];
      UploadEachSnoc(page, s0.trace, files[1..], f);
    }
  }

  /** Choosing a category stays on the page: no `page.goto` and no file is handed over. */
  lemma CategoryStepStaysOnPage(t: seq<Event>, code: string)
    ensures Gotos(SelectCategory(t, code)[|t|..]) == 0
    ensures forall e :: e in SelectCategory(t, code)[|t|..] ==> !e.SetInputFiles?
  {
    var r := SelectCategory(t, code);
    GotosNone(r[|t|..]);
  }

  /** Every file handed to the page, in order. */
  function Handed(files: seq<string>): (es: seq<Event>)
    ensures |es| == |files|
    ensures forall i :: 0 <= i < |files| ==> es[i] == SetInputFiles(files[i])
  {
    if files == [] then [] else [SetInputFiles(files[0])] + Handed(files[1..])
  }

  /** `a` is `b` with some elements left out, the rest kept in order. */
  predicate IsSubsequence<T(==)>(a: seq<T>, b: seq<T>)
    decreases |b|
  {
    a == [] || (b != [] && ((a[0] == b[0] && IsSubsequence(a[1..], b[1..])) || IsSubsequence(a, b[1..])))
  }

  /**
   * Uploading only hands files over: the actions a batch adds are the
   * hand-overs of some of its files, in file order, each file at most once,
   * and never a `page.goto`.
   */
  lemma {:induction false} UploadEachOnlyHandsFiles(page: Page, t: seq<Event>, files: seq<string>)
    ensures var b := UploadEach(page, t, files);
            && |b.trace| <= |t| + |files|
            && IsSubsequence(b.trace[|t|..], Handed(files))
            && (forall i :: |t| <= i < |b.trace| ==> b.trace[i].SetInputFiles? && b.trace[i].file in files)
            && Gotos(b.trace[|t|..]) == 0
    decreases |files|
  {
    var b := UploadEach(page, t, files);
    if files != [] {
      var s := UploadFile(page, t, files[0]);
      var rest := UploadEach(page, s.trace, files[1..]);
      UploadEachOnlyHandsFiles(page, s.trace, files[1..]);
      assert Handed(files)[1..] == Handed(files[1..]);
      if |s.trace| == |t| {
        assert b.trace[|t|..] == rest.trace[|s.trace|..];
      } else {
        assert b.trace[|t|..] == [SetInputFiles(files[0])] + rest.trace[|s.trace|..];
        assert b.trace[|t|..][1..] == rest.trace[|s.trace|..];
      }
      forall i | |t| <= i < |b.trace|
        ensures b.trace[i].SetInputFiles? && b.trace[i].file in files
      {
        if i >= |s.trace| {
          assert b.trace[i].file in files[1..];
        }
      }
    }
    GotosNone(b.trace[|t|..]);
  }

  /**
   * A page that always shows a file input and accepts every file gets every
   * file handed over once, in order, and every attempt succeeds.
   */
  lemma {:induction false} AcceptingPageUploadsAll(page: Page, t: seq<Event>, files: seq<string>)
    requires forall tr :: page.fileInputShown(tr) && page.acceptsFile(tr)
    ensures UploadEach(page, t, files).trace == t + Handed(files)
    ensures forall i :: 0 <= i < |files| ==> UploadEach(page, t, files).results[i]
    decreases |files|
  {
    if files != [] {
      var s := UploadFile(page, t, files[0]);
      AcceptingPageUploadsAll(page, s.trace, files[1..]);
      assert t + Handed(files) == s.trace + Handed(files[1..]);
    }
  }

  /** How many results are true. */
  function CountTrue(bs: seq<bool>): (n: nat)
    ensures n <= |bs|
    ensures n == |bs| <==> forall i :: 0 <= i < |bs| ==> bs[i]
  {
    if bs == [] then 0
    else
      var rest := CountTrue(bs[1..]);
      assert forall i :: 1 <= i < |bs| ==> bs[i] == bs[1..][i - 1];
      (if bs[0] then 1 else 0) + rest
  }

  lemma {:induction false} CountTrueSnoc(bs: seq<bool>, b: bool)
    ensures CountTrue(bs + [b]) == CountTrue(bs) + (if b then 1 else 0)
  {
    if bs == [] {
      assert [b][1..] == [];
    } else {
      assert (bs + [b])[1..] == bs[1..] + [b];
      CountTrueSnoc(bs[1..], b);
    }
  }

  /** The fields of a merged configuration that the session code reads. */
  function CredentialsOf(d: Dict): Credentials
    requires PortalUrlKey in d && UserIdKey in d && PasswordKey in d
  {
    Credentials(d[PortalUrlKey], d[UserIdKey], d[PasswordKey])
  }

  /**
   * The upload command once the configuration has loaded.  `ok` counts the
   * files that went through; the exit code is 0 exactly when there were
   * files, the upload page was reached, and every file went through.
   */
  method UploadFiles(page: Page, cred: Credentials, category: string, files: seq<string>)
    returns (trace: seq<Event>, ok: nat, code: int)
    ensures files == [] ==> trace == [] && ok == 0 && code == 1
    ensures files != [] && !EnsureOn(page, cred, UploadPath, []).ok ==>
              trace == EnsureOn(page, cred, UploadPath, []).trace && ok == 0 && code == 1
    ensures files != [] && EnsureOn(page, cred, UploadPath, []).ok ==>
              var b := UploadEach(page, SelectCategory(EnsureOn(page, cred, UploadPath, []).trace, category), files);
              && trace == b.trace
              && ok == CountTrue(b.results)
              && (code == 0 <==> forall i :: 0 <= i < |files| ==> b.results[i])
    ensures ok <= |files|
    ensures code == 0 || code == 1
  {
    if files == [] {
      return [], 0, 1;
    }
    var nav := EnsureOn(page, cred, UploadPath, []);
    if !nav.ok {
      return nav.trace, 0, 1;
    }
    var start := SelectCategory(nav.trace, category);
    trace := start;
    ok := 0;
    var i := 0;
    var results: seq<bool> := [];
    while i < |files|
      invariant 0 <= i <= |files|
      invariant UploadEach(page, start, files[..i]) == Batch(trace, results)
      invariant ok == CountTrue(results)
    {
      var s := UploadFile(page, trace, files[i]);
      UploadEachSnoc(page, start, files[..i], files[i]);
      CountTrueSnoc(results, s.ok);
      assert files[..i + 1] == files[..i] + [files[i]];
      trace := s.trace;
      results := results + [s.ok];
      if s.ok {
        ok := ok + 1;
      }
      i := i + 1;
    }
    assert files[..i] == files;
    code := if ok == |files| then 0 else 1;
  }

  /**
   * The whole upload command: the configuration is loaded first, and a
   * configuration error exits with 1 before anything else happens; with the
   * configuration loaded, the run is the one above on its credentials.
   */
  method RunUpload(page: Page, env: Env, cfg: Dict, category: string, files: seq<string>)
    returns (trace: seq<Event>, ok: nat, code: int)
    ensures LoadConfig(env, cfg).Failure? ==> trace == [] && ok == 0 && code == 1
    ensures LoadConfig(env, cfg).Success? && files == [] ==> trace == [] && ok == 0 && code == 1
    ensures LoadConfig(env, cfg).Success? && files != [] ==>
              var cred := CredentialsOf(LoadConfig(env, cfg).value);
              var nav := EnsureOn(page, cred, UploadPath, []);
              && (!nav.ok ==> trace == nav.trace && ok == 0 && code == 1)
              && (nav.ok ==>
                    var b := UploadEach(page, SelectCategory(nav.trace, category), files);
                    trace == b.trace && ok == CountTrue(b.results)
                    && (code == 0 <==> forall i :: 0 <= i < |files| ==> b.results[i]))
    ensures ok <= |files|
    ensures code == 0 || code == 1
  {
    var conf := LoadConfig(env, cfg);
    if conf.Failure? {
      return [], 0, 1;
    }
    trace, ok, code := UploadFiles(page, CredentialsOf(conf.value), category, files);
  }

  /**
   * A page that never shows a file input gets no file handed to it: every
   * attempt fails, nothing is added to the trace, and the count stays 0.
   */
  lemma {:induction false} NoFileInputUploadsNothing(page: Page, t: seq<Event>, files: seq<string>)
    requires forall tr :: !page.fileInputShown(tr)
    ensures UploadEach(page, t, files).trace == t
    ensures CountTrue(UploadEach(page, t, files).results) == 0
  {
    if files != [] {
      NoFileInputUploadsNothing(page, t, files[1..]);
    }
  }
}
