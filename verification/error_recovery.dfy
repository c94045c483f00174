/**
 * The `ErrorRecovery` panel (src/components/ui/ErrorRecovery.tsx): the
 * classification of an error text into one of four kinds, the fixed advice
 * for each kind, the non-reentrant recovery button, and which controls the
 * panel shows.
 */
module ErrorRecovery {
  import opened Options
  import opened Strings
  import opened FirebaseErrors

  datatype ErrorType = Connection | Security | Navigation | General

  const AdBlockerMarker: string := "ad blocker"
  const BrowserSecurityMarker: string := "browser security"
  const NavigationMarker: string := "navigation"
  const ConnectionMarker: string := "connection"
  const FirebaseMarker: string := "Firebase"

  /** A text naming a blocked request or a browser security policy. */
  predicate MentionsSecurity(m: string) {
    || Contains(m, BlockedMarker) || Contains(m, AdBlockerMarker)
    || Contains(m, OpenerPolicyMarker) || Contains(m, BrowserSecurityMarker)
  }

  /** A text naming a cancelled route or navigation. */
  predicate MentionsNavigation(m: string) {
    Contains(m, CancelledMarker) || Contains(m, NavigationMarker)
  }

  /** A text naming the connection or the backend. */
  predicate MentionsConnection(m: string) {
    Contains(m, ConnectionMarker) || Contains(m, FirebaseMarker)
  }

  /** `getErrorType`: security markers first, then navigation, then connection, else general. */
  function GetErrorType(m: string): (t: ErrorType)
    ensures t == Security <==> MentionsSecurity(m)
    ensures t == Navigation <==> !MentionsSecurity(m) && MentionsNavigation(m)
    ensures t == Connection <==> !MentionsSecurity(m) && !MentionsNavigation(m) && MentionsConnection(m)
    ensures t == General <==> !MentionsSecurity(m) && !MentionsNavigation(m) && !MentionsConnection(m)
  {
    if Contains(m, BlockedMarker) || Contains(m, AdBlockerMarker) then Security
    else if Contains(m, OpenerPolicyMarker) || Contains(m, BrowserSecurityMarker) then Security
    else if Contains(m, CancelledMarker) || Contains(m, NavigationMarker) then Navigation
    else if Contains(m, ConnectionMarker) || Contains(m, FirebaseMarker) then Connection
    else General
  }

  /**
   * Priority survives surrounding text: once a text mentions security, no
   * text put before or after it changes its kind; the same holds for a
   * navigation text joined with one that mentions no security marker.
   */
  lemma SecurityDominates(a: string, b: string)
    requires MentionsSecurity(a)
    ensures GetErrorType(a + b) == Security && GetErrorType(b + a) == Security
  {
    if Contains(a, BlockedMarker) {
      ContainsInConcat(a, b, BlockedMarker);
    } else if Contains(a, AdBlockerMarker) {
      ContainsInConcat(a, b, AdBlockerMarker);
    } else if Contains(a, OpenerPolicyMarker) {
      ContainsInConcat(a, b, OpenerPolicyMarker);
    } else {
      ContainsInConcat(a, b, BrowserSecurityMarker);
    }
  }

  /** A navigation text stays a navigation text next to any text that mentions no security marker. */
  lemma NavigationOverConnection(a: string, b: string)
    requires MentionsNavigation(a) && !MentionsSecurity(a + b)
    ensures GetErrorType(a + b) == Navigation
  {
    if Contains(a, CancelledMarker) {
      ContainsInConcat(a, b, CancelledMarker);
    } else {
      ContainsInConcat(a, b, NavigationMarker);
    }
  }

  /** Each marker on its own falls in its own kind. */
  lemma MarkersClassify()
    ensures GetErrorType(NavigationMarker) == Navigation
    ensures GetErrorType(BrowserSecurityMarker) == Security
  {
    ContainsSelf(NavigationMarker);
    ContainsSelf(BrowserSecurityMarker);
  }

  /** "Navigation" with a capital letter mentions no security marker. */
  lemma CapitalNavigationNotSecurity()
    ensures !MentionsSecurity("Navigation")
  {
    NotContainsForMissingChar("Navigation", BlockedMarker, 'E');
    NotContainsForMissingChar("Navigation", AdBlockerMarker, 'b');
    NotContainsForMissingChar("Navigation", OpenerPolicyMarker, 'C');
    NotContainsForMissingChar("Navigation", BrowserSecurityMarker, 'b');
  }

  /** "Navigation" with a capital letter is not the lower-case marker. */
  lemma CapitalNavigationNotNavigation()
    ensures !MentionsNavigation("Navigation")
  {
    NotContainsForMissingChar("Navigation", CancelledMarker, 'R');
    ContainsSameLength("Navigation", NavigationMarker);
  }

  /** "Navigation" mentions neither the connection nor the backend. */
  lemma CapitalNavigationNotConnection()
    ensures !MentionsConnection("Navigation")
  {
    NotContainsForMissingChar("Navigation", ConnectionMarker, 'c');
    NotContainsForMissingChar("Navigation", FirebaseMarker, 'F');
  }

  /** Matching is case-sensitive: "Navigation" with a capital letter is a general error. */
  lemma CapitalNavigationIsGeneral()
    ensures GetErrorType("Navigation") == General
  {
    CapitalNavigationNotSecurity();
    CapitalNavigationNotNavigation();
    CapitalNavigationNotConnection();
  }

  /** "Browser security" with a capital letter is not the lower-case marker, nor any other security marker. */
  lemma CapitalBrowserSecurityNotSecurity()
    ensures !MentionsSecurity("Browser security")
  {
    NotContainsForMissingChar("Browser security", BlockedMarker, 'E');
    NotContainsForMissingChar("Browser security", AdBlockerMarker, 'a');
    NotContainsForMissingChar("Browser security", OpenerPolicyMarker, 'C');
    ContainsSameLength("Browser security", BrowserSecurityMarker);
  }

  /** "Browser security" mentions no navigation, connection or backend marker. */
  lemma CapitalBrowserSecurityNotOther()
    ensures !MentionsNavigation("Browser security") && !MentionsConnection("Browser security")
  {
    NotContainsForMissingChar("Browser security", CancelledMarker, 'R');
    NotContainsForMissingChar("Browser security", NavigationMarker, 'n');
    NotContainsForMissingChar("Browser security", ConnectionMarker, 'n');
    NotContainsForMissingChar("Browser security", FirebaseMarker, 'F');
  }

  /** Matching is case-sensitive: "Browser security" with a capital letter is a general error. */
  lemma CapitalBrowserSecurityIsGeneral()
    ensures GetErrorType("Browser security") == General
  {
    CapitalBrowserSecurityNotSecurity();
    CapitalBrowserSecurityNotOther();
  }

  /** `getSolutions`: four pieces of advice per kind, the last list serving as the default. */
  function GetSolutions(t: ErrorType): (r: seq<string>)
    ensures |r| == 4
    ensures forall k :: 0 <= k < |r| ==> r[k] != ""
    ensures forall j, k :: 0 <= j < k < |r| ==> r[j] != r[k]
  {
    match t
    case Security => [
      "Disable ad blockers or security extensions temporarily",
      "Add Firebase domains to your security software whitelist",
      "Check browser privacy and security settings",
      "Try using incognito/private browsing mode"]
    case Connection => [
      "Check your internet connection",
      "Refresh the page and try again",
      "Clear browser cache and cookies",
      "Try a different browser or device"]
    case Navigation => [
      "Wait a moment and try again",
      "Refresh the page",
      "Use browser back/forward buttons",
      "Check if the page is still loading"]
    case General => [
      "Refresh the page",
      "Clear browser cache",
      "Try again in a few moments",
      "Contact support if the issue persists"]
  }

  /** Different kinds get different advice. */
  lemma SolutionsDistinguishKinds(t: ErrorType, u: ErrorType)
    requires t != u
    ensures GetSolutions(t) != GetSolutions(u)
  {
    assert GetSolutions(t)[0] != GetSolutions(u)[0];
  }

  /** The panel heading for each kind. */
  function Heading(t: ErrorType): (h: string)
    ensures h != ""
  {
    match t
    case Security => "Security Policy Error"
    case Connection => "Connection Error"
    case Navigation => "Navigation Error"
    case General => "Error Occurred"
  }

  /** The heading tells the kind: no two kinds share one. */
  lemma HeadingInjective(t: ErrorType, u: ErrorType)
    requires Heading(t) == Heading(u)
    ensures t == u
  {
    assert Heading(t)[0] == Heading(u)[0];
    if Heading(t)[0] == 'E' || Heading(t)[0] == 'S' {
    } else {
      assert Heading(t)[1] == Heading(u)[1];
    }
  }

  /** What the parent passed: whether `onRecover` and `onDismiss` are supplied. */
  datatype Props = Props(error: string, hasOnRecover: bool, hasOnDismiss: bool)

  /** The component's two pieces of state. */
  datatype UiState = UiState(isRecovering: bool, showSolutions: bool)

  const InitialUi: UiState := UiState(false, false)

  /** How the awaited `attemptConnectionRecovery` settled. */
  datatype RecoveryResult = Recovered | NotRecovered | RecoveryThrew

  datatype UiEvent =
    | RecoverClicked
    | RecoveryFinished(result: RecoveryResult)
    | ToggleSolutions

  datatype UiEffect = StartRecovery | CallOnRecover

  /**
   * `handleRecovery` and the solutions toggle. A click while recovering does
   * nothing; otherwise it starts one recovery attempt. When the attempt
   * settles the flag is cleared on every path, and `onRecover` runs only if
   * the attempt reported success and the callback was supplied.
   */
  function UiStep(p: Props, s: UiState, ev: UiEvent): (r: (UiState, seq<UiEffect>))
    ensures ev.RecoverClicked? && s.isRecovering ==> r == (s, [])
    ensures ev.RecoveryFinished? ==> !r.0.isRecovering
    ensures CallOnRecover in r.1 <==> ev == RecoveryFinished(Recovered) && p.hasOnRecover
    ensures StartRecovery in r.1 <==> ev.RecoverClicked? && !s.isRecovering
    ensures r.0.showSolutions == (if ev.ToggleSolutions? then !s.showSolutions else s.showSolutions)
  {
    match ev
    case RecoverClicked =>
      if s.isRecovering then (s, []) else (s.(isRecovering := true), [StartRecovery])
    case RecoveryFinished(result) =>
      (s.(isRecovering := false),
       if result == Recovered && p.hasOnRecover then [CallOnRecover] else [])
    case ToggleSolutions => (s.(showSolutions := !s.showSolutions), [])
  }

  /** Clicks while a recovery is under way start no second one. */
  lemma {:induction false} NoReentrantRecovery(p: Props, s: UiState, evs: seq<UiEvent>)
    requires s.isRecovering
    requires forall k :: 0 <= k < |evs| ==> !evs[k].RecoveryFinished?
    ensures StartRecovery !in UiRun(p, s, evs).1
    ensures UiRun(p, s, evs).0.isRecovering
    decreases |evs|
  {
    if evs != [] {
      assert !evs[0].RecoveryFinished?;
      NoReentrantRecovery(p, UiStep(p, s, evs[0]).0, evs[1..]);
    }
  }

  /** The state after a sequence of UI events, and the effects they produced. */
  function UiRun(p: Props, s: UiState, evs: seq<UiEvent>): (UiState, seq<UiEffect>)
    decreases |evs|
  {
    if evs == [] then (s, [])
    else
      var first := UiStep(p, s, evs[0]);
      var rest := UiRun(p, first.0, evs[1..]);
      (rest.0, first.1 + rest.1)
  }

  /** The recovery button: its caption and whether it is disabled. */
  datatype Button = Button(caption: string, disabled: bool)

  /** What the panel renders besides the error text. */
  datatype Controls = Controls(
    heading: string,
    toggleLabel: string,
    recover: Option<Button>,
    dismiss: bool,
    solutions: seq<string>,
    quickFix: bool)

  /** The rendered controls for some props and state. */
  function Render(p: Props, s: UiState): (c: Controls)
    ensures c.heading == Heading(GetErrorType(p.error))
    ensures c.recover.Some? <==> p.hasOnRecover
    ensures c.recover.Some? ==> c.recover.value.disabled == s.isRecovering
    ensures c.dismiss == p.hasOnDismiss
    ensures c.solutions == (if s.showSolutions then GetSolutions(GetErrorType(p.error)) else [])
    ensures c.quickFix <==> s.showSolutions && MentionsSecurity(p.error)
  {
    var t := GetErrorType(p.error);
    Controls(
      Heading(t),
      if s.showSolutions then "Hide Solutions" else "Show Solutions",
      if p.hasOnRecover then Some(Button(if s.isRecovering then "Recovering..." else "Try Recovery", s.isRecovering))
      else None,
      p.hasOnDismiss,
      if s.showSolutions then GetSolutions(t) else [],
      s.showSolutions && t == Security)
  }

  /** While a recovery is under way the button is disabled and says so. */
  lemma RecoveringButton(p: Props, s: UiState)
    requires p.hasOnRecover && s.isRecovering
    ensures Render(p, s).recover == Some(Button("Recovering...", true))
  {
  }
}
