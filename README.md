# Angular CSRF validation listener — a Dafny model

This project models the request listener of the Angular CSRF bundle
(`AngularCsrfValidationListener`). The bundle protects single-page applications with
double-submit CSRF tokens. The client reads a token from a cookie and echoes it back. On every
kernel request the listener decides between three outcomes:

- it passes the request through untouched, because the request is a sub-request or its route is
  not in the configured protected set;
- it rejects the request with an access-denied error whose message is always "Bad CSRF token.";
- it lets the request proceed because the token is present and accepted.

The candidate token is the header named `headerName` when `headerEnabled` is set, and the cookie
named `cookieName` otherwise. A missing value is rejected at once. So is any value PHP treats as
false: `null`, the empty string, and the string "0". Only a truthy value is shown to the token
manager.

Files:

- `wrappers.dfy` — module `Wrappers`: the `Option` type and map lookup.
- `csrf_validation_listener.dfy` — module `CsrfValidationListener`: the listener as a value
  (`Listener`, built by `NewListener`), the event and request it reads, and `OnKernelRequest`
  with the lemmas about it.

The listener writes no field after construction, so it is a datatype, and `onKernelRequest` is a
function. Its two collaborators are fields of function type, and their behaviour is left
unspecified:

- the route matcher's `match(request, routes)` is `routeMatcher`;
- the token manager's `isTokenValid(token)` is `isTokenValid`.

`OnKernelRequest` returns the outcome together with the list of consultations it made, in order:
the route match, the header or cookie read, and the token check. This list is how the model states
which collaborators were asked and which were not.

## Model

| member | source | states |
|---|---|---|
| `CsrfValidationListener.NewListener` | EventListener/AngularCsrfValidationListener.php:56-70 | the constructor keeps each argument unchanged in its field (routes, header name, header flag, cookie name, and both collaborators) |
| `CsrfValidationListener.IsFalsyCharacterization` | EventListener/AngularCsrfValidationListener.php:91 | PHP's `!$value` on a missing-or-string value is true exactly for a missing value, "" and "0"; every string of two or more characters is truthy |
| `CsrfValidationListener.Candidate` | EventListener/AngularCsrfValidationListener.php:90 | the candidate is present exactly when the header (header mode) or the cookie (cookie mode) is present, and is then its value |
| `CsrfValidationListener.OnKernelRequest` | EventListener/AngularCsrfValidationListener.php:79-94 | rejected or valid exactly on a protected master request; valid iff the token manager accepts a truthy candidate; every rejection carries "Bad CSRF token."; the matcher is asked first and only for master requests; on a protected request the header or cookie read comes second; an unprotected request consults the matcher alone if it is a master request and nothing otherwise; a protected request with a truthy candidate ends with exactly one token check of that candidate; the token manager is asked at most once, last, and only about the truthy candidate |
| `CsrfValidationListener.SubRequestPassesThrough` | EventListener/AngularCsrfValidationListener.php:81-87 | a sub-request passes through and nothing is consulted, whatever its route, headers, cookies or token |
| `CsrfValidationListener.UnmatchedRoutePassesThrough` | EventListener/AngularCsrfValidationListener.php:84-86 | a master request whose route does not match passes through, and only the matcher was asked |
| `CsrfValidationListener.TokenSourceSelection` | EventListener/AngularCsrfValidationListener.php:90 | on a protected request exactly one read happens: the header in header mode, the cookie otherwise |
| `CsrfValidationListener.HeaderModeIgnoresCookies` | EventListener/AngularCsrfValidationListener.php:90 | in header mode, changing the cookies leaves the result unchanged as long as the matcher answers the same |
| `CsrfValidationListener.CookieModeIgnoresHeaders` | EventListener/AngularCsrfValidationListener.php:90 | in cookie mode, changing the headers leaves the result unchanged as long as the matcher answers the same |
| `CsrfValidationListener.FalsyCandidateRejected` | EventListener/AngularCsrfValidationListener.php:91-92 | a missing or falsy candidate on a protected request is rejected after exactly the match and the read; the token manager is not asked |
| `CsrfValidationListener.ZeroTokenRejected` | EventListener/AngularCsrfValidationListener.php:91-92 | the token "0", from the header or the cookie, is rejected after exactly the match and the read, even when the token manager would accept it |
| `CsrfValidationListener.TruthyCandidateDecidedByTokenManager` | EventListener/AngularCsrfValidationListener.php:91-93 | a truthy candidate on a protected request is valid iff the token manager accepts it and rejected otherwise, after exactly the match, the read and one token check |
| `CsrfValidationListener.MissingAndInvalidIndistinguishable` | EventListener/AngularCsrfValidationListener.php:91-92 | a missing token and a refused token produce the same rejection |
| `CsrfValidationListener.DecisionDependsOnlyOnAnswers` | EventListener/AngularCsrfValidationListener.php:79-94 | two listeners with the same configuration give the same result when their collaborators answer the questions actually asked in the same way: the matcher only on a master request, the token manager only on a protected request's truthy candidate |
| `CsrfValidationListener.OnKernelRequests` | EventListener/AngularCsrfValidationListener.php:79-94 | over a series of events handled by one listener, the i-th result equals the result of handling the i-th event alone, as long as the collaborators' answers do not change between calls; this holds by construction, because the call writes no field and the model fixes the collaborators |
| `CsrfValidationListener.RepeatedRequestSameOutcome` | EventListener/AngularCsrfValidationListener.php:79-94 | handling the same event again, after any other events, gives the same outcome and the same consultations, as long as the collaborators' answers do not change between calls |

## Left out

- Symfony event plumbing is not modelled: `GetResponseEvent`, the kernel's request-type constants and the subscriber registration. The request type is a two-valued datatype.
- `AccessDeniedHttpException` and its mapping to HTTP 403 are not modelled. A rejection is the outcome `Rejected("Bad CSRF token.")`, not a thrown exception.
- Route matching and token validation are opaque. The route matcher's pattern semantics and the token manager's generation and comparison are not part of this model. Both are arbitrary total functions.
- Routes are pattern strings that only the matcher interprets. The structure of a configured route entry is not modelled.
- Header and cookie bags are single-valued maps. Header-name normalisation (case folding and turning `_` into `-`), multi-valued headers (`get` returns the first value) and array-valued cookies are not modelled.
- `headerEnabled` is a boolean. The source tests it with PHP truthiness, so a non-boolean configuration value would also be read as true or false; this model does not cover that.
- OnKernelRequests: the token manager and the route matcher are fixed for the listener's lifetime. A real token manager compares against session state, which other requests can change, so the result of a call does not depend on earlier calls only while the collaborators keep answering the same way.
- RepeatedRequestSameOutcome: the same outcome is promised only because the collaborators are fixed functions. With a token manager whose session state changed in between, the second call could differ.
- Concurrency is not modelled. The listener shares no mutable state, so nothing depends on it.
