# Klientenportal automation core, modelled in Dafny

This project models the decision logic of the Klientenportal command-line tool
(`scripts/klientenportal.py`). The tool drives a browser session against the
HFP Klientenportal (an RZL portal): it logs in, uploads receipts to a document category
(Belegkreis), and downloads documents released by the accountant. The model
covers six parts of the tool:

- **Filename sanitisation** (`Filename`). Turns a name that came from the
  server into the empty string or a single safe path component, in four
  stages:
  1. replace `/` and `\` with `_`;
  2. collapse each run of dots to one dot;
  3. replace every character outside `[\w\s\-.]` with `_`;
  4. strip whitespace, then strip dots.

  Python's `\w` and `\s` are left uninterpreted and passed in as a
  `CharClasses` value. The one fact the proofs rely on is that `_` is a word
  character.
- **Output-path sandboxing** (`OutputPath`). A download directory must be the
  workspace root or `/tmp`, or lie below one of them. Paths are resolved
  sequences of components, so containment compares whole components, not text.
- **Configuration merge** (`Config`). Each of portal id, user id and password
  comes from a non-empty environment variable, else from the config file. If
  any of the three is empty, the result is an error listing the empty fields
  in order. Otherwise the portal URL is derived from the portal id, unless the
  file names one.
- **Login and session recovery** (`Session`). The browser page is an oracle: it
  answers "is the sign-out control shown?", "what is the URL?" and so on, as
  functions of the events the tool has sent so far (navigations, form fills,
  clicks). `Login` and `EnsureOn` return the events they produce and their
  verdict. `EnsureOn` is the navigate / detect redirect / log in / navigate
  again routine. It is shared by the upload page, the released-documents page
  and the download page.
- **Upload tally** (`Upload`). Files are handed to the page one by one, the
  successes are counted, and the exit code is 0 exactly when every file went
  through.
- **Download naming** (`Download`). Each download is saved at
  `out_dir / _safe_filename(suggested or "document_{i}.pdf")`.

`Wrappers` holds the `Result` type and `Text` holds the substring test.

## Model

| member | source | states |
|---|---|---|
| Filename.ReplaceSeparators | scripts/klientenportal.py:124 | Same length; every `/` and `\` becomes `_` and every other character is kept; no separator is left; a name without separators is unchanged |
| Filename.CollapseDots | scripts/klientenportal.py:125 | The result never holds two dots in a row and is no longer than the input; its first character is the input's; separator-freedom is kept; a name without a double dot is unchanged |
| Filename.CollapseDotsIsReference | scripts/klientenportal.py:125 | On every input the collapse equals the reference reading `KeepFirstDots`: a character is kept unless it is a dot directly after a dot, so each run of dots becomes exactly one dot |
| Filename.CollapseDotsExample | scripts/klientenportal.py:125 | `"a..b"` becomes `"a.b"`: the run keeps one dot and is not dropped |
| Filename.CollapseDotsKeepsUndotted | scripts/klientenportal.py:125 | Only dots are removed: with dots deleted, the input and the result are the same text |
| Filename.ReplaceDisallowed | scripts/klientenportal.py:126 | Same length; each character is kept if it is a word character, whitespace, `-` or `.`, and becomes `_` otherwise; afterwards every character is allowed; the earlier stages' guarantees survive |
| Filename.StripBounds | scripts/klientenportal.py:127 | `strip` as index bounds: everything cut from either end satisfies the predicate and the kept ends do not |
| Filename.Strip | scripts/klientenportal.py:127 | The result is a slice `s[lo..hi]` of the input such that everything before `lo` and from `hi` on is a stripped character, while the result neither starts nor ends with one |
| Filename.StripUnchanged | scripts/klientenportal.py:127 | Stripping changes nothing exactly when the text is empty or neither of its ends is stripped |
| Filename.SafeFilename | scripts/klientenportal.py:122-127 | The sanitised name is no longer than the input and holds no `/` or `\`; it never contains `..`; every character is allowed; a non-empty result neither starts nor ends with `.` |
| Filename.SafeFilenameFixedPoint | scripts/klientenportal.py:122-127 | A name is left unchanged exactly when it is already clean, i.e. it satisfies every guarantee above and has no leading or trailing whitespace |
| Filename.LeadingSpaceSurvives | scripts/klientenportal.py:127 | Whitespace is stripped before dots, so `". a"` comes out as `" a"` with its leading blank, and sanitising is not idempotent: a second pass gives `"a"` |
| Filename.DotsSanitiseToEmpty | scripts/klientenportal.py:122-127 | A name made only of dots, e.g. `"..."`, sanitises to the empty string |
| OutputPath.SafeOutputPath | scripts/klientenportal.py:103-114 | Accepted exactly when the path is the workspace or `/tmp` or lies below one of them; an accepted path is returned unchanged; a rejected one is an error naming the workspace and the path |
| OutputPath.TextPrefixIsNotContainment | scripts/klientenportal.py:108-111 | `/tmpx` begins with the text `/tmp` yet is rejected: containment compares whole components |
| OutputPath.BelowAcceptedIsAccepted | scripts/klientenportal.py:108-111 | Anything below an accepted directory is accepted too |
| Config.MissingNames | scripts/klientenportal.py:159 | The missing-field list names exactly the fields whose value is empty |
| Config.MissingInFieldOrder | scripts/klientenportal.py:158-159 | For the three credentials, the missing names come in the order portal_id, user_id, password |
| Config.LoadConfig | scripts/klientenportal.py:153-168 | Succeeds exactly when each credential has a non-empty value in the environment or the file. Failure lists the missing names in field order. Success keeps every other file key, takes each credential from the environment when set and non-empty (else from the file), derives the portal URL from the portal id unless the file gives a non-empty one, and leaves all three credentials non-empty |
| Config.LoadConfigStable | scripts/klientenportal.py:153-168 | Loading the merged configuration again, with an empty environment, gives it back unchanged |
| Config.EnvOverridesFile | scripts/klientenportal.py:154-156 | For each of portal id, user id and password: when its environment variable is set and non-empty, that value is the merged one whatever the config file says |
| Session.Login | scripts/klientenportal.py:220-251 | Already signed in: succeed after dismissing dialogs, without navigating. Signed in once the login page is open: succeed after exactly that navigation and a dismissal. Otherwise the actions are exactly: open the login page, type the user id, type the password, click Login, dismiss dialogs; success then equals the final sign-out check. At most one `page.goto`, and a failure always went through the form |
| Session.LoginTrueOnlyWhenSignedIn | scripts/klientenportal.py:225-249 | Login reports success only when one of its three sign-out checks saw the control |
| Session.LoginRedirectDetected | scripts/klientenportal.py:260 | The redirect test is a substring test: the login URL followed by any query string counts as the login page |
| Session.EnsureOn | scripts/klientenportal.py:254-271 | First navigates to the target. Without a redirect: succeed after dismissing dialogs. With a redirect: the outcome is the login's; a failed login ends there; a successful one is followed by navigating to the target again and dismissing dialogs |
| Session.EnsureOnGotos | scripts/klientenportal.py:254-271 | At most three `page.goto` calls: target, login page, target |
| Session.ReleasedPageRoutine | scripts/klientenportal.py:375-383 | The released-documents listing first calls `page.goto` on the history page, calls it at most three times, and a ready page ends with the dialog dismissal |
| Session.DownloadPageRoutine | scripts/klientenportal.py:410-421 | The download command first calls `page.goto` on the document page, calls it at most three times, and a ready page ends with the dialog dismissal |
| Session.ExpiredSessionRecovers | scripts/klientenportal.py:260-271 | An expired session with working credentials ends in success, and the trace is exactly: first navigation, the login's actions, the target again, dialog dismissal |
| Session.ReadyWithoutRecheck | scripts/klientenportal.py:262-271 | After logging in and navigating again the URL is not checked a second time: a page still at the login URL is reported ready |
| Upload.SelectCategory | scripts/klientenportal.py:274-290 | The step adds at most one action, and only a choice of the requested category; it adds nothing exactly when the category is the default `ER` |
| Upload.CategoryStepStaysOnPage | scripts/klientenportal.py:274-290 | Choosing a category never calls `page.goto` and never hands over a file |
| Upload.UploadFile | scripts/klientenportal.py:293-307 | With no file input shown, the attempt fails without acting; otherwise the file is handed to the first input, and the attempt succeeds exactly when the page accepts it |
| Upload.UploadEach | scripts/klientenportal.py:357-360 | One result per file, in order; the trace only grows |
| Upload.UploadEachSnoc | scripts/klientenportal.py:357-360 | Uploading one more file extends the batch by exactly that file's attempt |
| Upload.CountTrue | scripts/klientenportal.py:356-359 | The count never exceeds the number of files, and it equals that number exactly when every attempt succeeded |
| Upload.UploadFiles | scripts/klientenportal.py:341-363 | No files: exit 1, nothing done. Page not reached: exit 1, zero uploaded. Otherwise `ok` is the number of successful attempts, and the exit code is 0 exactly when every file succeeded |
| Upload.RunUpload | scripts/klientenportal.py:327-363 | The configuration is loaded first, and a configuration error exits with 1 before any page action, whatever the files; with it loaded, the run is `UploadFiles` on the merged portal URL, user id and password |
| Upload.NoFileInputUploadsNothing | scripts/klientenportal.py:297-300 | A page that never shows a file input receives no file, and the count stays 0 |
| Upload.UploadEachOnlyHandsFiles | scripts/klientenportal.py:357-360 | A batch only hands files over: the actions it adds are a subsequence of handing over each file in order, so files keep their order and each is handed over at most once; none is a `page.goto` |
| Upload.AcceptingPageUploadsAll | scripts/klientenportal.py:298-304 | On a page that shows a file input and accepts every file, each file is handed over once, in order, and every attempt succeeds |
| Download.NatToString | scripts/klientenportal.py:436 | The decimal text of the link index is made of digits, is `"0"` exactly for 0, and otherwise has no leading zero |
| Download.NatToStringRoundTrip | scripts/klientenportal.py:436 | Reading the decimal text back gives the index |
| Download.FallbackNameIsComponent | scripts/klientenportal.py:436 | `document_{i}.pdf` is a single path component: not empty, not `.` or `..`, no separator |
| Download.Join | scripts/klientenportal.py:437 | `dir / name` adds one component for a proper name and nothing for the empty name |
| Download.DownloadTargets | scripts/klientenportal.py:431-438 | One destination per link. Link `i` is saved under its own sanitised suggested name, or `document_{i}.pdf` when none is suggested, as one component below the output directory; when that sanitised name is empty, the destination is the output directory itself |
| Download.EmptySanitisedNameTargetsDirectory | scripts/klientenportal.py:436-438 | A suggested name of `"..."` makes the destination the output directory itself |
| Download.SanitisedNameIsComponent | scripts/klientenportal.py:436-437 | A non-empty sanitised name is a single component not starting with a dot |
| Download.SafeDownloadName | scripts/klientenportal.py:436 | The corrected name is always a proper single component |
| Download.SafeDownloadTargets | scripts/klientenportal.py:431-438 | With the fallback applied after sanitising, every destination is exactly one proper component below the output directory |
| Download.SafeTargetsAgree | scripts/klientenportal.py:436-437 | The corrected destinations equal the command's wherever the sanitised name is non-empty |
| Download.DownloadsStayInSandbox | scripts/klientenportal.py:403-438 | With the corrected naming (`SafeDownloadTargets`): when the output directory passed the sandbox check, every download destination lies inside the workspace or `/tmp` |
| Download.CommandDownloadsStayInSandbox | scripts/klientenportal.py:403-438 | With the naming as written (`DownloadTargets`): when the output directory passed the sandbox check, every destination, including the directory itself for an empty sanitised name, lies inside the workspace or `/tmp` |

## Left out

- Browser exceptions: in the tool a Playwright error ends the whole command, e.g. a navigation timeout (lines 230, 257, 264), a login form without a text or password input (lines 239-240), or more than one matching Login button (line 241). The model's page always completes each action, so `Session.Login` and `Session.EnsureOn` return a verdict for every page, and this fatal path is not modelled.
- Browser automation is an oracle. Playwright, page loading, `networkidle` waits, sleeps and the internals of dismissing dialogs are not modelled: the page's answers are functions of the events sent so far, and "dismiss dialogs" is one event.
- Upload.SelectCategory: the combobox interaction is one event. Because the source swallows its failure as a warning, the model treats it as always continuing.
- Upload.UploadFile: an exception from the browser while setting the file is not modelled separately. It ends in `False`, like a page that rejects the file, and that is what the `acceptsFile` oracle answers.
- Config.LoadConfig: the config file is a map of strings. Reading and parsing JSON, non-string values, file permission hardening and printing the error are not modelled.
- OutputPath.SafeOutputPath: `expanduser` and `resolve` (home directory, symlinks, `..`) are taken as already applied to all three paths, so the model states containment of resolved paths only.
- Filename.SafeFilename: Python's Unicode definitions of `\w` and whitespace are left uninterpreted. Only `_` being a word character is assumed, so the guarantees hold for any such character classes.
- Download.DownloadsStayInSandbox: covers an explicit output directory only. Without one, the command uses a default below the `OPENCLAW_TMP` directory (or `/tmp`), which the source does not pass through the sandbox check.
- Download.CommandDownloadsStayInSandbox: covers an explicit output directory only, for the same reason.
- The download command's navigation is `Session.EnsureOn`. Finding and clicking the download links and saving the files are not modelled; the model covers where each download is saved.
- Download.Join: models pathlib's join only for names without `/`. The sanitiser guarantees that for every name the command joins.
- Command-line parsing, resolving file globs into the upload list, finding the workspace root, the `login` and `logout` commands, and reading the released-documents table rows are not modelled. Their navigation step is `Session.EnsureOn`.
- Facts about the code that the model keeps as written:
  - an upload with no files exits with 1 (lines 341-343);
  - with no file input on the page, each file fails on its own and the loop goes on to the next (lines 298-300, 357-360);
  - after logging in and navigating again, the URL is not checked a second time (lines 262-271, `Session.ReadyWithoutRecheck`).

## Findings

| source | as written | input that shows it | evidently intended | confidence | as-written member | corrected member |
|---|---|---|---|---|---|---|
| scripts/klientenportal.py:436-438 | The `document_{i}.pdf` fallback is applied before sanitising, so a suggested name that sanitises to the empty string is joined onto the output directory as-is, and `out_dir / ""` is `out_dir` itself | suggested filename `"..."`: sanitised to `""`, so the destination passed to `save_as` equals the output directory itself | fall back to `document_{i}.pdf` when the sanitised name is empty, so every download is a file inside the output directory | medium, not executed | Download.EmptySanitisedNameTargetsDirectory | Download.SafeDownloadTargets |
