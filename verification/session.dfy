/**
 * Session handling: the login routine and the "navigate, log in if the portal
 * redirected to its login page, navigate again" routine that every command
 * uses before touching a page.
 *
 * The browser page is an oracle: what it shows is a function of the actions
 * performed on it so far.  Each routine takes the action trace so far and
 * returns it extended with its own actions, plus its boolean result, so the
 * order of actions and the decisions taken can both be stated.
 */
module Session {
  import opened Text

  datatype Field = TextInput | PasswordInput

  /** An action performed on the page. */
  datatype Event =
    | Goto(url: string)            // navigate and wait for the network to go idle
    | Fill(field: Field, value: string)
    | ClickLogin
    | DismissModals                // the best-effort dialog dismisser, as one step
    | ChooseCategory(code: string) // the document-category combobox interaction
    | SetInputFiles(file: string)  // hand a local file to the first file input

  /**
   * What the page reports after a given trace of actions:
   * whether a "sign out" (Abmelden) control is present, its current URL,
   * whether a file input is present, and whether handing it a file succeeds.
   */
  datatype Page = Page(
    signOutShown: seq<Event> -> bool,
    url: seq<Event> -> string,
    fileInputShown: seq<Event> -> bool,
    acceptsFile: seq<Event> -> bool)

  /** The merged configuration fields the session code reads. */
  datatype Credentials = Credentials(portalUrl: string, userId: string, password: string)

  /** The trace after a routine ran, and what it returned. */
  datatype Step = Step(trace: seq<Event>, ok: bool)

  const LoginPath := "/account/login"
  const UploadPath := "/Klient/Beleg/BelegTransfer/upload"
  const HistoryPath := "/Klient/Beleg/BelegHistory"
  const DownloadPath := "/Klient/Beleg/BelegTransfer/noupload"

  function LoginUrl(cred: Credentials): string {
    cred.portalUrl + LoginPath
  }

  /** The actions that submit the login form. */
  function SubmitForm(cred: Credentials): seq<Event> {
    [Fill(TextInput, cred.userId), Fill(PasswordInput, cred.password), ClickLogin, DismissModals]
  }

  /**
   * The number of `page.goto` calls in a run of actions.  Submitting the
   * login form also loads a page, but it is not a `goto` and is not counted.
   */
  function Gotos(es: seq<Event>): nat {
    if es == [] then 0 else (if es[0].Goto? then 1 else 0) + Gotos(es[1..])
  }

  lemma {:induction false} GotosAppend(a: seq<Event>, b: seq<Event>)
    ensures Gotos(a + b) == Gotos(a) + Gotos(b)
  {
    if a == [] {
      assert a + b == b;
    } else {
      assert (a + b)[1..] == a[1..] + b;
      GotosAppend(a[1..], b);
    }
  }

  lemma {:induction false} GotosNone(es: seq<Event>)
    requires forall i :: 0 <= i < |es| ==> !es[i].Goto?
    ensures Gotos(es) == 0
  {
    if es != [] {
      GotosNone(es[1..]);
    }
  }

  /**
   * Log in.  Already signed in: dismiss dialogs and succeed without
   * navigating.  Otherwise open the login page; if that shows the session is
   * valid after all, succeed the same way.  Otherwise fill in user id and
   * password, press Login, dismiss dialogs, and report whether the sign-out
   * control is now present.
   */
  function Login(page: Page, cred: Credentials, t: seq<Event>): (r: Step)
    ensures t <= r.trace && |r.trace| > |t|
    ensures page.signOutShown(t) ==> r.ok && r.trace == t + [DismissModals]
    ensures !page.signOutShown(t) ==> r.trace[|t|] == Goto(LoginUrl(cred))
    ensures Gotos(r.trace[|t|..]) <= 1
    ensures Fill(PasswordInput, cred.password) in r.trace[|t|..] <==>
              !page.signOutShown(t) && !page.signOutShown(t + [Goto(LoginUrl(cred))])
    ensures !r.ok ==> Fill(PasswordInput, cred.password) in r.trace[|t|..] && !page.signOutShown(r.trace)
    ensures Fill(PasswordInput, cred.password) in r.trace[|t|..] ==> (r.ok <==> page.signOutShown(r.trace))
    ensures !page.signOutShown(t) && page.signOutShown(t + [Goto(LoginUrl(cred))]) ==>
              r.ok && r.trace == t + [Goto(LoginUrl(cred)), DismissModals]
    ensures !page.signOutShown(t) && !page.signOutShown(t + [Goto(LoginUrl(cred))]) ==>
              r.trace == t + [Goto(LoginUrl(cred)), Fill(TextInput, cred.userId), Fill(PasswordInput, cred.password),
                              ClickLogin, DismissModals]
  {
    if page.signOutShown(t) then
      assert (t + [DismissModals])[|t|..] == [DismissModals];
      Step(t + [DismissModals], true)
    else
      var t1 := t + [Goto(LoginUrl(cred))];
      if page.signOutShown(t1) then
        assert (t1 + [DismissModals])[|t|..] == [Goto(LoginUrl(cred)), DismissModals];
        Step(t1 + [DismissModals], true)
      else
        var t2 := t1 + SubmitForm(cred);
        assert t2[|t|..] == [Goto(LoginUrl(cred))] + SubmitForm(cred);
        GotosAppend([Goto(LoginUrl(cred))], SubmitForm(cred));
        GotosNone(SubmitForm(cred));
        Step(t2, page.signOutShown(t2))
  }

  /** Login returns true only when the sign-out control was seen at one of its three checks. */
  lemma LoginTrueOnlyWhenSignedIn(page: Page, cred: Credentials, t: seq<Event>)
    ensures Login(page, cred, t).ok ==>
              page.signOutShown(t)
              || page.signOutShown(t + [Goto(LoginUrl(cred))])
              || page.signOutShown(Login(page, cred, t).trace)
  {
  }

  /** The URL shows the portal redirected to its login page. */
  predicate AtLoginPage(url: string) {
    Contains(url, LoginPath)
  }

  /**
   * The redirect test is a substring test: the login path followed by a
   * query string, anywhere in the URL, counts as the login page.
   */
  lemma LoginRedirectDetected(cred: Credentials, query: string)
    ensures AtLoginPage(LoginUrl(cred) + query)
  {
    var u := LoginUrl(cred) + query;
    assert u[|cred.portalUrl|..|cred.portalUrl| + |LoginPath|] == LoginPath;
    ContainsAt(u, LoginPath, |cred.portalUrl|);
  }

  /**
   * Bring the session to `portalUrl + path`: navigate; if the portal
   * redirected to its login page, log in (a failed login ends the routine
   * with false) and navigate again; then dismiss dialogs and succeed.
   */
  function EnsureOn(page: Page, cred: Credentials, path: string, t: seq<Event>): (r: Step)
    ensures t <= r.trace && |r.trace| > |t|
    ensures r.trace[|t|] == Goto(cred.portalUrl + path)
    ensures !AtLoginPage(page.url(t + [Goto(cred.portalUrl + path)])) ==>
              r.ok && r.trace == t + [Goto(cred.portalUrl + path), DismissModals]
    ensures AtLoginPage(page.url(t + [Goto(cred.portalUrl + path)])) ==>
              (r.ok <==> Login(page, cred, t + [Goto(cred.portalUrl + path)]).ok)
    ensures AtLoginPage(page.url(t + [Goto(cred.portalUrl + path)])) && r.ok ==>
              r.trace == Login(page, cred, t + [Goto(cred.portalUrl + path)]).trace
                         + [Goto(cred.portalUrl + path), DismissModals]
    ensures !r.ok ==> r.trace == Login(page, cred, t + [Goto(cred.portalUrl + path)]).trace
    ensures r.ok ==> r.trace[|r.trace| - 1] == DismissModals
  {
    var target := cred.portalUrl + path;
    var t1 := t + [Goto(target)];
    if AtLoginPage(page.url(t1)) then
      var l := Login(page, cred, t1);
      if !l.ok then Step(l.trace, false)
      else Step(l.trace + [Goto(target), DismissModals], true)
    else
      Step(t1 + [DismissModals], true)
  }

  /**
   * A routine never calls `page.goto` more than three times: the target, the login
   * page, the target again.
   */
  lemma EnsureOnGotos(page: Page, cred: Credentials, path: string, t: seq<Event>)
    ensures Gotos(EnsureOn(page, cred, path, t).trace[|t|..]) <= 3
  {
    var target := cred.portalUrl + path;
    var t1 := t + [Goto(target)];
    var r := EnsureOn(page, cred, path, t);
    if AtLoginPage(page.url(t1)) {
      var l := Login(page, cred, t1);
      assert l.trace[|t|..] == [Goto(target)] + l.trace[|t1|..];
      GotosAppend([Goto(target)], l.trace[|t1|..]);
      if r.ok {
        assert r.trace[|t|..] == l.trace[|t|..] + [Goto(target), DismissModals];
        GotosAppend(l.trace[|t|..], [Goto(target), DismissModals]);
      }
    } else {
      assert r.trace[|t|..] == [Goto(target)] + [DismissModals];
      GotosAppend([Goto(target)], [DismissModals]);
      GotosNone([DismissModals]);
    }
  }

  /**
   * The released-documents listing reaches its page through the same
   * routine: first `goto` to the history page, at most three `goto` calls,
   * and a ready page ends with the dialog dismissal.
   */
  lemma ReleasedPageRoutine(page: Page, cred: Credentials, t: seq<Event>)
    ensures var r := EnsureOn(page, cred, HistoryPath, t);
            && r.trace[|t|] == Goto(cred.portalUrl + "/Klient/Beleg/BelegHistory")
            && Gotos(r.trace[|t|..]) <= 3
            && (r.ok ==> r.trace[|r.trace| - 1] == DismissModals)
  {
    EnsureOnGotos(page, cred, HistoryPath, t);
  }

  /**
   * The download command reaches its page through the same routine: first
   * `goto` to the document page, at most three `goto` calls, and a ready
   * page ends with the dialog dismissal.
   */
  lemma DownloadPageRoutine(page: Page, cred: Credentials, t: seq<Event>)
    ensures var r := EnsureOn(page, cred, DownloadPath, t);
            && r.trace[|t|] == Goto(cred.portalUrl + "/Klient/Beleg/BelegTransfer/noupload")
            && Gotos(r.trace[|t|..]) <= 3
            && (r.ok ==> r.trace[|r.trace| - 1] == DismissModals)
  {
    EnsureOnGotos(page, cred, DownloadPath, t);
  }

  /**
   * An expired session with working credentials costs exactly one login and
   * one repeated navigation to the target: the trace is the first
   * navigation, the login's actions, the second navigation and the dialog
   * dismissal, and nothing else.
   */
  lemma ExpiredSessionRecovers(page: Page, cred: Credentials, path: string, t: seq<Event>)
    requires AtLoginPage(page.url(t + [Goto(cred.portalUrl + path)]))
    requires Login(page, cred, t + [Goto(cred.portalUrl + path)]).ok
    ensures EnsureOn(page, cred, path, t).ok
    ensures var t1 := t + [Goto(cred.portalUrl + path)];
            var l := Login(page, cred, t1);
            EnsureOn(page, cred, path, t).trace == t1 + l.trace[|t1|..] + [Goto(cred.portalUrl + path), DismissModals]
  {
    var t1 := t + [Goto(cred.portalUrl + path)];
    var l := Login(page, cred, t1);
    assert l.trace == t1 + l.trace[|t1|..];
  }

  /**
   * After logging in and navigating again the URL is not re-checked: a page
   * that keeps showing its login URL while also showing the sign-out control
   * is treated as ready.
   */
  lemma ReadyWithoutRecheck(cred: Credentials, path: string)
    ensures var page := Page(t => true, t => LoginPath, t => false, t => false);
            var r := EnsureOn(page, cred, path, []);
            r.ok && AtLoginPage(page.url(r.trace))
  {
    assert LoginPath <= LoginPath;
  }
}
