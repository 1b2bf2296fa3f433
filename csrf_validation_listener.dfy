/**
 * The request listener of the Angular CSRF bundle: on every kernel request it decides whether
 * the request is subject to CSRF protection and, if it is, whether the token the client sent
 * (in a header or in a cookie, depending on configuration) is present and accepted by the
 * token manager.
 *
 * The listener keeps no mutable state: its configuration and collaborators are captured once
 * by the constructor, so it is a value here, and `onKernelRequest` is a function of the listener
 * and the event.  The two collaborators, the route matcher and the token manager, are opaque and
 * appear as total functions held by the listener.  Besides the outcome, each call reports the
 * collaborator consultations it makes, in order, so that the short-circuit behaviour of the
 * decision can be stated.
 */
module CsrfValidationListener {
  import opened Wrappers

  /** The kernel's request kinds: the top-level request, or a sub-request issued while handling it. */
  datatype RequestType = MasterRequest | SubRequest

  /** What the listener can see of an HTTP request; `path` is only looked at by the route matcher. */
  datatype Request = Request(path: string, headers: map<string, string>, cookies: map<string, string>)

  /** The event the kernel dispatches to the listener. */
  datatype GetResponseEvent = GetResponseEvent(requestType: RequestType, request: Request)

  /**
   * The listener's fields.  `routeMatcher` is the route matcher's `match(request, routes)` and
   * `isTokenValid` the token manager's validity check; neither is specified further.
   */
  datatype Listener = Listener(
    isTokenValid: string -> bool,
    routeMatcher: (Request, seq<string>) -> bool,
    routes: seq<string>,
    headerName: string,
    headerEnabled: bool,
    cookieName: string)

  /** A consultation of a collaborator or of the request, as it happens during one call. */
  datatype Call =
    | MatchRoutes(routes: seq<string>)
    | GetHeader(name: string)
    | GetCookie(name: string)
    | IsTokenValid(token: string)

  /**
   * The three ways a call ends: passing through a request the listener does not guard, throwing
   * an access-denied exception with a message, or returning after the token was accepted.
   */
  datatype Outcome = NotApplicable | Rejected(message: string) | Valid

  /** The outcome of one call together with the consultations it made. */
  datatype Handled = Handled(outcome: Outcome, calls: seq<Call>)

  /** The one message every rejection carries. */
  const BadCsrfToken: string := "Bad CSRF token."

  /**
   * The constructor: each argument is kept, unchanged, in the field of the same name.
   */
  function NewListener(
    isTokenValid: string -> bool,
    routeMatcher: (Request, seq<string>) -> bool,
    routes: seq<string>,
    headerName: string,
    headerEnabled: bool,
    cookieName: string): (l: Listener)
    ensures l.routes == routes && l.headerName == headerName
    ensures l.headerEnabled == headerEnabled && l.cookieName == cookieName
    ensures forall t :: l.isTokenValid(t) == isTokenValid(t)
    ensures forall r, rs :: l.routeMatcher(r, rs) == routeMatcher(r, rs)
  {
    Listener(isTokenValid, routeMatcher, routes, headerName, headerEnabled, cookieName)
  }

  /**
   * PHP's `!$value` for a value that is either `null` or a string: `null`, the empty string and
   * the one-character string "0" are false; every other string, "00", "0.0" and " 0" included,
   * is true.
   */
  predicate IsFalsy(v: Option<string>)
  {
    match v
    case None => true
    case Some(s) => s == "" || s == "0"
  }

  /** The falsy values are the missing value, the empty string and the single character "0"; any longer string is truthy. */
  lemma IsFalsyCharacterization(v: Option<string>)
    ensures IsFalsy(v) <==> v.None? || |v.value| == 0 || (|v.value| == 1 && v.value[0] == '0')
    ensures v.Some? && |v.value| >= 2 ==> !IsFalsy(v)
  {
  }

  /** Whether the request is one the listener guards: a master request on a configured route. */
  predicate Protected(l: Listener, e: GetResponseEvent)
  {
    e.requestType == MasterRequest && l.routeMatcher(e.request, l.routes)
  }

  /** The read the listener makes to find the candidate token. */
  function TokenRead(l: Listener): Call
  {
    if l.headerEnabled then GetHeader(l.headerName) else GetCookie(l.cookieName)
  }

  /**
   * The candidate token: the header named `headerName` when the header is enabled, otherwise
   * the cookie named `cookieName`; `None` when that header or cookie is absent.
   */
  function Candidate(l: Listener, request: Request): (v: Option<string>)
    ensures l.headerEnabled ==> (v.Some? <==> l.headerName in request.headers)
    ensures l.headerEnabled && v.Some? ==> v.value == request.headers[l.headerName]
    ensures !l.headerEnabled ==> (v.Some? <==> l.cookieName in request.cookies)
    ensures !l.headerEnabled && v.Some? ==> v.value == request.cookies[l.cookieName]
  {
    if l.headerEnabled then Get(request.headers, l.headerName) else Get(request.cookies, l.cookieName)
  }

  /**
   * `onKernelRequest`.  A sub-request passes through without consulting anything; a master
   * request consults the route matcher and passes through when its route is not configured;
   * otherwise the candidate token is read, a falsy one is rejected at once, and a truthy one is
   * handed to the token manager, whose verdict decides between rejection and validity.
   */
  function OnKernelRequest(l: Listener, e: GetResponseEvent): (r: Handled)
    // only guarded requests are ever rejected or validated
    ensures r.outcome != NotApplicable <==> Protected(l, e)
    // a request is let through as valid only when the token manager accepted a truthy candidate
    ensures r.outcome == Valid <==>
      Protected(l, e) && !IsFalsy(Candidate(l, e.request)) && l.isTokenValid(Candidate(l, e.request).value)
    // every rejection carries the same message, whatever its cause
    ensures r.outcome.Rejected? ==> r.outcome.message == BadCsrfToken
    // the route matcher is consulted exactly for master requests, and first
    ensures (MatchRoutes(l.routes) in r.calls) <==> e.requestType == MasterRequest
    ensures e.requestType == MasterRequest ==> r.calls[0] == MatchRoutes(l.routes)
    // on a guarded request the candidate is read right after the match
    ensures Protected(l, e) ==> |r.calls| >= 2 && r.calls[1] == TokenRead(l)
    // an unguarded request is decided by the matcher alone, if anything
    ensures !Protected(l, e) ==> r.calls == (if e.requestType == MasterRequest then [MatchRoutes(l.routes)] else [])
    // a truthy candidate on a guarded request always goes to the token manager, last
    ensures Protected(l, e) && !IsFalsy(Candidate(l, e.request)) ==>
      |r.calls| == 3 && r.calls[2] == IsTokenValid(Candidate(l, e.request).value)
    // the token manager is asked only about the truthy candidate, once, as the last consultation
    ensures forall i | 0 <= i < |r.calls| :: r.calls[i].IsTokenValid? ==>
      && i == |r.calls| - 1
      && !IsFalsy(Candidate(l, e.request))
      && r.calls[i].token == Candidate(l, e.request).value
    // nothing is consulted beyond the matcher, one read and one token check
    ensures |r.calls| <= 3
  {
    if e.requestType != MasterRequest then
      Handled(NotApplicable, [])
    else if !l.routeMatcher(e.request, l.routes) then
      Handled(NotApplicable, [MatchRoutes(l.routes)])
    else
      var value := Candidate(l, e.request);
      if IsFalsy(value) then
        Handled(Rejected(BadCsrfToken), [MatchRoutes(l.routes), TokenRead(l)])
      else if !l.isTokenValid(value.value) then
        Handled(Rejected(BadCsrfToken), [MatchRoutes(l.routes), TokenRead(l), IsTokenValid(value.value)])
      else
        Handled(Valid, [MatchRoutes(l.routes), TokenRead(l), IsTokenValid(value.value)])
  }

  /** A sub-request passes through whatever its route, headers, cookies or token, consulting nothing. */
  lemma SubRequestPassesThrough(l: Listener, e: GetResponseEvent)
    requires e.requestType == SubRequest
    ensures OnKernelRequest(l, e) == Handled(NotApplicable, [])
  {
  }

  /** A master request on an unconfigured route passes through after the matcher alone was asked. */
  lemma UnmatchedRoutePassesThrough(l: Listener, e: GetResponseEvent)
    requires e.requestType == MasterRequest && !l.routeMatcher(e.request, l.routes)
    ensures OnKernelRequest(l, e) == Handled(NotApplicable, [MatchRoutes(l.routes)])
  {
  }

  /** On a guarded request the candidate is read from exactly one place, chosen by `headerEnabled`. */
  lemma TokenSourceSelection(l: Listener, e: GetResponseEvent)
    requires Protected(l, e)
    ensures OnKernelRequest(l, e).calls[1] == (if l.headerEnabled then GetHeader(l.headerName) else GetCookie(l.cookieName))
    ensures GetCookie(l.cookieName) in OnKernelRequest(l, e).calls <==> !l.headerEnabled
    ensures GetHeader(l.headerName) in OnKernelRequest(l, e).calls <==> l.headerEnabled
  {
  }

  /** In header mode the cookies play no part: changing them changes nothing the matcher does not see. */
  lemma HeaderModeIgnoresCookies(l: Listener, e: GetResponseEvent, cookies: map<string, string>)
    requires l.headerEnabled
    requires l.routeMatcher(e.request, l.routes) == l.routeMatcher(e.request.(cookies := cookies), l.routes)
    ensures OnKernelRequest(l, e) == OnKernelRequest(l, e.(request := e.request.(cookies := cookies)))
  {
  }

  /** In cookie mode the headers play no part: changing them changes nothing the matcher does not see. */
  lemma CookieModeIgnoresHeaders(l: Listener, e: GetResponseEvent, headers: map<string, string>)
    requires !l.headerEnabled
    requires l.routeMatcher(e.request, l.routes) == l.routeMatcher(e.request.(headers := headers), l.routes)
    ensures OnKernelRequest(l, e) == OnKernelRequest(l, e.(request := e.request.(headers := headers)))
  {
  }

  /** A missing or falsy candidate on a guarded request is rejected without asking the token manager. */
  lemma FalsyCandidateRejected(l: Listener, e: GetResponseEvent)
    requires Protected(l, e) && IsFalsy(Candidate(l, e.request))
    ensures OnKernelRequest(l, e) == Handled(Rejected(BadCsrfToken), [MatchRoutes(l.routes), TokenRead(l)])
  {
  }

  /**
   * The token "0", whether it came in the header or in the cookie, is rejected without asking
   * the token manager, even one that would accept it.
   */
  lemma ZeroTokenRejected(l: Listener, e: GetResponseEvent)
    requires Protected(l, e) && Candidate(l, e.request) == Some("0")
    requires l.isTokenValid("0")
    ensures OnKernelRequest(l, e) == Handled(Rejected(BadCsrfToken), [MatchRoutes(l.routes), TokenRead(l)])
  {
  }

  /** A truthy candidate on a guarded request is valid exactly when the token manager accepts it. */
  lemma TruthyCandidateDecidedByTokenManager(l: Listener, e: GetResponseEvent)
    requires Protected(l, e) && !IsFalsy(Candidate(l, e.request))
    ensures var token := Candidate(l, e.request).value;
      && OnKernelRequest(l, e).outcome == (if l.isTokenValid(token) then Valid else Rejected(BadCsrfToken))
      && OnKernelRequest(l, e).calls == [MatchRoutes(l.routes), TokenRead(l), IsTokenValid(token)]
  {
  }

  /**
   * A missing token and a token the manager refuses end in the same rejection, so the caller
   * cannot tell them apart.
   */
  lemma MissingAndInvalidIndistinguishable(l: Listener, missing: GetResponseEvent, invalid: GetResponseEvent)
    requires Protected(l, missing) && Candidate(l, missing.request) == None
    requires Protected(l, invalid) && !IsFalsy(Candidate(l, invalid.request))
    requires !l.isTokenValid(Candidate(l, invalid.request).value)
    ensures OnKernelRequest(l, missing).outcome == OnKernelRequest(l, invalid).outcome
  {
  }

  /**
   * The decision depends on nothing but the configuration, the event and the answers the two
   * collaborators give to the questions actually asked.
   */
  lemma DecisionDependsOnlyOnAnswers(l1: Listener, l2: Listener, e: GetResponseEvent)
    requires l1.routes == l2.routes && l1.headerName == l2.headerName
    requires l1.headerEnabled == l2.headerEnabled && l1.cookieName == l2.cookieName
    requires e.requestType == MasterRequest ==>
      l1.routeMatcher(e.request, l1.routes) == l2.routeMatcher(e.request, l2.routes)
    requires Protected(l1, e) && !IsFalsy(Candidate(l1, e.request)) ==>
      l1.isTokenValid(Candidate(l1, e.request).value) == l2.isTokenValid(Candidate(l1, e.request).value)
    ensures OnKernelRequest(l1, e) == OnKernelRequest(l2, e)
  {
  }

  /**
   * The listener handling a series of events, one after the other, with the one instance built
   * at start-up.  `onKernelRequest` writes no field, so the listener, and with it the
   * collaborators' answers, are the same for every call: each event is handled as if it were
   * the only one.  This holds by construction of the model, which fixes the collaborators for
   * the listener's lifetime.
   */
  function OnKernelRequests(l: Listener, events: seq<GetResponseEvent>): (rs: seq<Handled>)
    ensures |rs| == |events|
    ensures forall i | 0 <= i < |events| :: rs[i] == OnKernelRequest(l, events[i])
  {
    if events == [] then [] else [OnKernelRequest(l, events[0])] + OnKernelRequests(l, events[1..])
  }

  /**
   * Handling the same event again, after any other events, gives the same result, as long as
   * the collaborators answer the same questions the same way (here: always).
   */
  lemma RepeatedRequestSameOutcome(l: Listener, e: GetResponseEvent, between: seq<GetResponseEvent>)
    ensures var rs := OnKernelRequests(l, [e] + between + [e]);
      rs[0] == rs[|between| + 1]
  {
  }
}
