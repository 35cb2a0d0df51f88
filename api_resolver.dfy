/** pkg/resolver/api_resolver.go: a resolver whose routes come from the MinecraftAdmin HTTP API.
    It logs in for a bearer token, fetches the mapping, and keeps polling; a failed refresh
    keeps the last-known-good routes and is retried a bounded number of times.

    The HTTP client and the context are scripted: `HttpClient` answers requests from a list of
    replies and records the requests it was sent, and `Context` says, each time a loop waits on
    a timer, whether the timer fired or the context was cancelled. */
module ApiResolvers {
  import opened Wrappers
  import opened RouteMaps

  /** `maxRetries`: the number of retry attempts before the process gives up. */
  const MaxRetries: nat := 10
  const StatusOK: int := 200
  const StatusUnauthorized: int := 401
  const LoginPath: string := "/service/login"
  const MappingPath: string := "/service/mapping"

  /** The requests the resolver sends: the login POST with its JSON credentials, and the
      mapping GET with its `Authorization` header. */
  datatype Request =
    | LoginRequest(url: string, accountID: string, secret: string)
    | MappingRequest(url: string, authorization: string)

  /** What `httpClient.Do` gives: a transport error, or a response with its status code and
      what decoding its body gives, read as the login reply (`token`, `""` if the field is
      absent) and as the mapping reply (`routes`); `None` is a decode error. */
  datatype Reply =
    | TransportError
    | Response(status: int, token: Option<string>, routes: Option<RouteMap>)

  datatype ApiError =
    | LoginTransport
    | LoginUnauthorized
    | LoginStatus(status: int)
    | LoginDecode
    | MappingTransport
    | Unauthorized            // `errUnauthorized`, the mapping endpoint answered 401
    | MappingStatus(status: int)
    | MappingDecode
    | ReauthFailed(cause: ApiError)
    | BadApiUrl
    | InitialAuthFailed(cause: ApiError)
    | InitialFetchFailed(cause: ApiError)

  /** What a `select` on the context and a timer yields. */
  datatype Wake = Elapsed | Done

  /** The resolver's fixed settings. */
  datatype Config = Config(baseURL: string, accountID: string, secret: string)

  /** Everything the resolver's operations change: its routes and token, and the client's
      remaining replies and the requests it was sent. */
  datatype State = State(routes: RouteMap, token: string, replies: seq<Reply>, sent: seq<Request>)

  /** The outcome of one operation: the new state and the error it returns. */
  datatype Step = Step(st: State, err: Option<ApiError>)

  /** How `retryRefresh` ends: a refresh succeeded, the context was cancelled, or the last
      attempt failed and `log.Fatal` ends the process. */
  datatype RetryOutcome = Recovered | Cancelled | Exhausted

  /** The end of `retryRefresh`, with the number of the last attempt it made. */
  datatype RetryEnd = RetryEnd(st: State, wakes: seq<Wake>, outcome: RetryOutcome, attempts: nat)

  /** The end of `poll`: cancelled, or `exited` through `log.Fatal`. */
  datatype PollEnd = PollEnd(st: State, wakes: seq<Wake>, exited: bool)

  /** A client whose script has run out fails every request. */
  function NextReply(replies: seq<Reply>): Reply {
    if replies == [] then TransportError else replies[0]
  }

  function LaterReplies(replies: seq<Reply>): seq<Reply> {
    if replies == [] then [] else replies[1..]
  }

  /** A context whose script has run out is cancelled; once cancelled it stays cancelled. */
  function NextWake(wakes: seq<Wake>): Wake {
    if wakes == [] then Done else wakes[0]
  }

  function LaterWakes(wakes: seq<Wake>): seq<Wake> {
    if wakes == [] || wakes[0] == Done then wakes else wakes[1..]
  }

  function Send(st: State, req: Request): State {
    st.(replies := LaterReplies(st.replies), sent := st.sent + [req])
  }

  function LoginRequestOf(c: Config): Request {
    LoginRequest(c.baseURL + LoginPath, c.accountID, c.secret)
  }

  function MappingRequestOf(c: Config, token: string): Request {
    MappingRequest(c.baseURL + MappingPath, "Bearer " + token)
  }

  /** `login`: one POST; the token is replaced only by a 200 reply whose body decodes. */
  function LoginSpec(c: Config, st: State): (r: Step)
    ensures r.st.routes == st.routes
    ensures r.st.sent == st.sent + [LoginRequestOf(c)]
    ensures r.st.replies == LaterReplies(st.replies)
    ensures var reply := NextReply(st.replies);
      r.err.None? <==> reply.Response? && reply.status == StatusOK && reply.token.Some?
    ensures r.st.token == if r.err.None? then NextReply(st.replies).token.value else st.token
    ensures r.err.Some? ==> r.err.value.LoginTransport? || r.err.value.LoginUnauthorized?
                            || r.err.value.LoginStatus? || r.err.value.LoginDecode?
  {
    var reply := NextReply(st.replies);
    var after := Send(st, LoginRequestOf(c));
    if reply.TransportError? then Step(after, Some(LoginTransport))
    else if reply.status == StatusUnauthorized then Step(after, Some(LoginUnauthorized))
    else if reply.status != StatusOK then Step(after, Some(LoginStatus(reply.status)))
    else if reply.token.None? then Step(after, Some(LoginDecode))
    else Step(after.(token := reply.token.value), None)
  }

  /** `fetchMapping`: one GET with the current token; the routes are replaced only by a 200
      reply whose body decodes, and a 401 is reported as `errUnauthorized`. */
  function FetchSpec(c: Config, st: State): (r: Step)
    ensures r.st.token == st.token
    ensures r.st.sent == st.sent + [MappingRequestOf(c, st.token)]
    ensures r.st.replies == LaterReplies(st.replies)
    ensures var reply := NextReply(st.replies);
      && (r.err.None? <==> reply.Response? && reply.status == StatusOK && reply.routes.Some?)
      && (r.err == Some(Unauthorized) <==> reply.Response? && reply.status == StatusUnauthorized)
    ensures r.st.routes == if r.err.None? then NextReply(st.replies).routes.value else st.routes
  {
    var reply := NextReply(st.replies);
    var after := Send(st, MappingRequestOf(c, st.token));
    if reply.TransportError? then Step(after, Some(MappingTransport))
    else if reply.status == StatusUnauthorized then Step(after, Some(Unauthorized))
    else if reply.status != StatusOK then Step(after, Some(MappingStatus(reply.status)))
    else if reply.routes.None? then Step(after, Some(MappingDecode))
    else Step(after.(routes := reply.routes.value), None)
  }

  /** `refresh`: fetch; only on a 401, log in again and fetch once more. A refresh that
      fails keeps the routes it started with; it sends one to three requests. */
  function RefreshSpec(c: Config, st: State): (r: Step)
    ensures r.err.Some? ==> r.st.routes == st.routes
    ensures |st.sent| < |r.st.sent| <= |st.sent| + 3 && r.st.sent[..|st.sent|] == st.sent
  {
    var f := FetchSpec(c, st);
    if f.err != Some(Unauthorized) then f
    else
      var l := LoginSpec(c, f.st);
      if l.err.Some? then Step(l.st, Some(ReauthFailed(l.err.value)))
      else FetchSpec(c, l.st)
  }

  /** The first request of a refresh is a mapping GET with the current token, and it logs in
      again exactly when that GET is answered 401; the login then carries the credentials and
      the second GET the new token. A failed login ends the refresh with its error after two
      requests, with no second GET; a third request is sent exactly when the login succeeds. */
  lemma RefreshReauthenticatesOnlyOn401(c: Config, st: State)
    ensures var r := RefreshSpec(c, st);
      var first := NextReply(st.replies);
      var l := LoginSpec(c, FetchSpec(c, st).st);
      && r.st.sent[|st.sent|] == MappingRequestOf(c, st.token)
      && (|r.st.sent| > |st.sent| + 1 <==> first.Response? && first.status == StatusUnauthorized)
      && (|r.st.sent| > |st.sent| + 1 ==> r.st.sent[|st.sent| + 1] == LoginRequestOf(c))
      && (|r.st.sent| == |st.sent| + 3 <==>
            first.Response? && first.status == StatusUnauthorized && l.err.None?)
      && (|r.st.sent| == |st.sent| + 3 ==> r.st.sent[|st.sent| + 2] == MappingRequestOf(c, l.st.token))
      && (first.Response? && first.status == StatusUnauthorized && l.err.Some? ==>
            r == Step(l.st, Some(ReauthFailed(l.err.value))) && |r.st.sent| == |st.sent| + 2)
      && (first.Response? && first.status == StatusUnauthorized && l.err.None? ==> r == FetchSpec(c, l.st))
      && (!(first.Response? && first.status == StatusUnauthorized) ==> r == FetchSpec(c, st))
  {
    var f := FetchSpec(c, st);
    assert f.st.sent[|st.sent|] == MappingRequestOf(c, st.token);
    if f.err == Some(Unauthorized) {
      var l := LoginSpec(c, f.st);
      assert l.st.sent[|st.sent|] == MappingRequestOf(c, st.token);
      assert l.st.sent[|st.sent| + 1] == LoginRequestOf(c);
      if l.err.None? {
        var g := FetchSpec(c, l.st);
        assert g.st.sent == l.st.sent + [MappingRequestOf(c, l.st.token)];
      }
    }
  }

  /** A refresh that succeeds carries the routes of the reply to its last request, the GET
      that was answered 200 with a mapping: the first reply, or the third after a 401 and a
      login. */
  lemma RefreshSuccessRoutes(c: Config, st: State)
    ensures var r := RefreshSpec(c, st);
      r.err.None? ==>
        var k := |r.st.sent| - |st.sent| - 1;
        && (k == 0 || k == 2) && k < |st.replies|
        && st.replies[k].Response? && st.replies[k].status == StatusOK && st.replies[k].routes.Some?
        && r.st.routes == st.replies[k].routes.value
        && r.st.sent[|r.st.sent| - 1].MappingRequest?
  {
    var r := RefreshSpec(c, st);
    var f := FetchSpec(c, st);
    if r.err.None? && f.err == Some(Unauthorized) {
      var l := LoginSpec(c, f.st);
      assert st.replies != [];
      assert f.st.replies == st.replies[1..];
      assert NextReply(st.replies[1..]).Response?;
      assert l.st.replies == st.replies[2..];
      assert NextReply(st.replies[2..]) == st.replies[2];
    }
  }

  /** The refresh of a resolver with settings `c`, as a value: the retries below are stated
      for whatever one refresh does. */
  function Refresher(c: Config): State -> Step {
    st => RefreshSpec(c, st)
  }

  /** `retryRefresh` from attempt number `attempt` on, with `refresh` for `r.refresh()`: before
      each attempt, wait for the retry interval unless the context is cancelled; stop at the
      first refresh that succeeds; the failure of attempt `MaxRetries` is fatal. */
  function RetrySpec(refresh: State -> Step, st: State, wakes: seq<Wake>, attempt: nat): (r: RetryEnd)
    requires 1 <= attempt <= MaxRetries
    decreases MaxRetries - attempt
  {
    if NextWake(wakes) == Done then RetryEnd(st, wakes, Cancelled, attempt - 1)
    else
      var r := refresh(st);
      var later := wakes[1..];
      if r.err.None? then RetryEnd(r.st, later, Recovered, attempt)
      else if attempt == MaxRetries then RetryEnd(r.st, later, Exhausted, attempt)
      else RetrySpec(refresh, r.st, later, attempt + 1)
  }

  /** The retries use up no more wakes than they are given, end at an attempt between the
      one before `attempt` and `MaxRetries`, leave the context cancelled when they end
      cancelled, and are exhausted only at attempt `MaxRetries`. */
  lemma {:induction false} RetryBounds(refresh: State -> Step, st: State, wakes: seq<Wake>, attempt: nat)
    requires 1 <= attempt <= MaxRetries
    decreases MaxRetries - attempt
    ensures var r := RetrySpec(refresh, st, wakes, attempt);
      && |r.wakes| <= |wakes|
      && attempt - 1 <= r.attempts <= MaxRetries
      && (r.outcome == Cancelled ==> NextWake(r.wakes) == Done)
      && (r.outcome == Exhausted ==> r.attempts == MaxRetries)
  {
    if NextWake(wakes) != Done && refresh(st).err.Some? && attempt < MaxRetries {
      RetryBounds(refresh, refresh(st).st, wakes[1..], attempt + 1);
    }
  }

  /** What the retries rely on in a refresh: one that fails keeps the routes ... */
  ghost predicate KeepsRoutesOnFailure(refresh: State -> Step) {
    forall s: State :: refresh(s).err.Some? ==> refresh(s).st.routes == s.routes
  }

  /** ... and each appends one to three requests to those sent. */
  ghost predicate SendsOneToThree(refresh: State -> Step) {
    forall s: State :: |s.sent| < |refresh(s).st.sent| <= |s.sent| + 3
  }

  lemma RefresherKeepsRoutesOnFailure(c: Config)
    ensures KeepsRoutesOnFailure(Refresher(c)) && SendsOneToThree(Refresher(c))
  {
    forall s: State
      ensures && (Refresher(c)(s).err.Some? ==> Refresher(c)(s).st.routes == s.routes)
              && |s.sent| < |Refresher(c)(s).st.sent| <= |s.sent| + 3
    {
      var r := RefreshSpec(c, s);
    }
  }

  /** Without a recovery the retries leave the last-known-good routes. */
  lemma {:induction false} RetryKeepsRoutes(refresh: State -> Step, st: State, wakes: seq<Wake>, attempt: nat)
    requires 1 <= attempt <= MaxRetries && KeepsRoutesOnFailure(refresh)
    decreases MaxRetries - attempt
    ensures var r := RetrySpec(refresh, st, wakes, attempt);
      r.outcome != Recovered ==> r.st.routes == st.routes
  {
    RetryFirstStep(refresh, st, wakes, attempt);
    if NextWake(wakes) != Done && refresh(st).err.Some? && attempt < MaxRetries {
      RetryKeepsRoutes(refresh, refresh(st).st, wakes[1..], attempt + 1);
    }
  }

  /** Each attempt of the retries sends at most three requests. */
  lemma {:induction false} RetrySendsAtMostThreePerAttempt(refresh: State -> Step, st: State, wakes: seq<Wake>, attempt: nat)
    requires 1 <= attempt <= MaxRetries && SendsOneToThree(refresh)
    decreases MaxRetries - attempt
    ensures var r := RetrySpec(refresh, st, wakes, attempt);
      |st.sent| <= |r.st.sent| <= |st.sent| + 3 * (r.attempts - (attempt - 1))
  {
    RetryFirstStep(refresh, st, wakes, attempt);
    if NextWake(wakes) != Done && refresh(st).err.Some? && attempt < MaxRetries {
      RetrySendsAtMostThreePerAttempt(refresh, refresh(st).st, wakes[1..], attempt + 1);
    }
  }

  /** The first step of the retries, case by case: a cancelled context, a refresh that
      succeeds, a failed last attempt, and a failed attempt before the last. */
  lemma RetryFirstStep(refresh: State -> Step, st: State, wakes: seq<Wake>, attempt: nat)
    requires 1 <= attempt <= MaxRetries
    ensures NextWake(wakes) == Done ==>
      RetrySpec(refresh, st, wakes, attempt) == RetryEnd(st, wakes, Cancelled, attempt - 1)
    ensures NextWake(wakes) != Done && refresh(st).err.None? ==>
      RetrySpec(refresh, st, wakes, attempt) == RetryEnd(refresh(st).st, wakes[1..], Recovered, attempt)
    ensures NextWake(wakes) != Done && refresh(st).err.Some? && attempt == MaxRetries ==>
      RetrySpec(refresh, st, wakes, attempt) == RetryEnd(refresh(st).st, wakes[1..], Exhausted, attempt)
    ensures NextWake(wakes) != Done && refresh(st).err.Some? && attempt < MaxRetries ==>
      RetrySpec(refresh, st, wakes, attempt) == RetrySpec(refresh, refresh(st).st, wakes[1..], attempt + 1)
  {
  }

  /** The first `n` wakes are all timer wakes. */
  predicate AllElapsed(wakes: seq<Wake>, n: nat) {
    |wakes| >= n && forall k :: 0 <= k < n ==> wakes[k] == Elapsed
  }

  /** `n` refreshes one after another, from `st`: the state they leave when every one of them
      fails, `None` as soon as one succeeds. */
  function FailedRefreshes(refresh: State -> Step, st: State, n: nat): (r: Option<State>)
    decreases n
  {
    if n == 0 then Some(st)
    else
      var s := refresh(st);
      if s.err.None? then None else FailedRefreshes(refresh, s.st, n - 1)
  }

  /** The fatal end of the retries: it comes exactly when a timer wake precedes each of the
      remaining attempts and every one of their refreshes fails; the retries then leave the
      state of those failed refreshes and consume exactly those wakes. */
  lemma {:induction false} RetryExhaustedNeedsAllWakes(refresh: State -> Step, st: State, wakes: seq<Wake>, attempt: nat)
    requires 1 <= attempt <= MaxRetries
    decreases MaxRetries - attempt
    ensures var r := RetrySpec(refresh, st, wakes, attempt);
      var m := MaxRetries - attempt + 1;
      && (r.outcome == Exhausted <==> AllElapsed(wakes, m) && FailedRefreshes(refresh, st, m).Some?)
      && (r.outcome == Exhausted ==> r.st == FailedRefreshes(refresh, st, m).value && r.wakes == wakes[m..])
  {
    RetryFirstStep(refresh, st, wakes, attempt);
    if NextWake(wakes) == Done {
      NotAllElapsed(wakes, attempt);
    } else if refresh(st).err.None? {
      NotAllFailed(refresh, st, attempt);
    } else if attempt == MaxRetries {
      ExhaustedAtLast(refresh, st, wakes, RetrySpec(refresh, st, wakes, attempt));
    } else {
      RetryExhaustedNeedsAllWakes(refresh, refresh(st).st, wakes[1..], attempt + 1);
      ExhaustedLater(refresh, st, wakes, attempt, RetrySpec(refresh, refresh(st).st, wakes[1..], attempt + 1));
    }
  }

  /** A cancelled context before the first attempt: not every wake is a timer wake. */
  lemma NotAllElapsed(wakes: seq<Wake>, attempt: nat)
    requires 1 <= attempt <= MaxRetries && NextWake(wakes) == Done
    ensures !AllElapsed(wakes, MaxRetries - attempt + 1)
  {
    if wakes != [] {
      assert wakes[0] == Done;
    }
  }

  /** A first refresh that succeeds: the refreshes do not all fail. */
  lemma NotAllFailed(refresh: State -> Step, st: State, attempt: nat)
    requires 1 <= attempt <= MaxRetries && refresh(st).err.None?
    ensures FailedRefreshes(refresh, st, MaxRetries - attempt + 1) == None
  {
    assert FailedRefreshes(refresh, st, MaxRetries - attempt + 1) == None;
  }

  /** The last attempt, after a timer wake, fails: `r` is exhausted with its state. */
  lemma ExhaustedAtLast(refresh: State -> Step, st: State, wakes: seq<Wake>, r: RetryEnd)
    requires NextWake(wakes) == Elapsed && refresh(st).err.Some?
    requires r == RetryEnd(refresh(st).st, wakes[1..], Exhausted, MaxRetries)
    ensures var m := MaxRetries - MaxRetries + 1;
      && (r.outcome == Exhausted <==> AllElapsed(wakes, m) && FailedRefreshes(refresh, st, m).Some?)
      && (r.outcome == Exhausted ==> r.st == FailedRefreshes(refresh, st, m).value && r.wakes == wakes[m..])
  {
    ElapsedCons(wakes, 0);
    FailedStep(refresh, st, 0);
  }

  /** The first refresh of the retries fails, and `r`, the end of the retries from the next
      attempt on, is exhausted exactly after timer wakes and failed refreshes. */
  lemma ExhaustedLater(refresh: State -> Step, st: State, wakes: seq<Wake>, attempt: nat, r: RetryEnd)
    requires 1 <= attempt < MaxRetries && NextWake(wakes) == Elapsed && refresh(st).err.Some?
    requires var m := MaxRetries - (attempt + 1) + 1;
      && (r.outcome == Exhausted <==> AllElapsed(wakes[1..], m) && FailedRefreshes(refresh, refresh(st).st, m).Some?)
      && (r.outcome == Exhausted ==> r.st == FailedRefreshes(refresh, refresh(st).st, m).value && r.wakes == wakes[1..][m..])
    ensures var m := MaxRetries - attempt + 1;
      && (r.outcome == Exhausted <==> AllElapsed(wakes, m) && FailedRefreshes(refresh, st, m).Some?)
      && (r.outcome == Exhausted ==> r.st == FailedRefreshes(refresh, st, m).value && r.wakes == wakes[m..])
  {
    ElapsedCons(wakes, MaxRetries - attempt);
    FailedStep(refresh, st, MaxRetries - attempt);
  }

  /** The other two ends of the retries, after `j` attempts (`j` counted from `attempt`):
      a cancelled context before an attempt ends the retries with no further request, after
      `j` timer wakes, which are all the retries consume. */
  lemma {:induction false} RetryCancelledSendsNothing(refresh: State -> Step, st: State, wakes: seq<Wake>, attempt: nat)
    requires 1 <= attempt <= MaxRetries
    decreases MaxRetries - attempt
    ensures var r := RetrySpec(refresh, st, wakes, attempt);
      var j := r.attempts - (attempt - 1);
      && (NextWake(wakes) == Done ==> r == RetryEnd(st, wakes, Cancelled, attempt - 1))
      && (r.outcome == Cancelled ==> 0 <= j <= MaxRetries - attempt && AllElapsed(wakes, j) && r.wakes == wakes[j..])
  {
    RetryFirstStep(refresh, st, wakes, attempt);
    if NextWake(wakes) == Done {
      CancelledAtOnce(st, wakes, attempt, RetrySpec(refresh, st, wakes, attempt));
    } else if refresh(st).err.Some? && attempt < MaxRetries {
      RetryCancelledSendsNothing(refresh, refresh(st).st, wakes[1..], attempt + 1);
      CancelledLater(wakes, attempt, RetrySpec(refresh, refresh(st).st, wakes[1..], attempt + 1));
    }
  }

  /** A cancelled context before the first attempt: `r` ends there, after no timer wake. */
  lemma CancelledAtOnce(st: State, wakes: seq<Wake>, attempt: nat, r: RetryEnd)
    requires 1 <= attempt <= MaxRetries && NextWake(wakes) == Done
    requires r == RetryEnd(st, wakes, Cancelled, attempt - 1)
    ensures var j := r.attempts - (attempt - 1);
      && (NextWake(wakes) == Done ==> r == RetryEnd(st, wakes, Cancelled, attempt - 1))
      && (r.outcome == Cancelled ==> 0 <= j <= MaxRetries - attempt && AllElapsed(wakes, j) && r.wakes == wakes[j..])
  {
    assert wakes[0..] == wakes;
  }

  /** `r`, the end of the retries from the attempt after a timer wake, is cancelled after
      the timer wakes it consumed. */
  lemma CancelledLater(wakes: seq<Wake>, attempt: nat, r: RetryEnd)
    requires 1 <= attempt < MaxRetries && NextWake(wakes) == Elapsed
    requires var j := r.attempts - (attempt + 1 - 1);
      r.outcome == Cancelled ==> 0 <= j <= MaxRetries - (attempt + 1) && AllElapsed(wakes[1..], j) && r.wakes == wakes[1..][j..]
    ensures var j := r.attempts - (attempt - 1);
      r.outcome == Cancelled ==> 0 <= j <= MaxRetries - attempt && AllElapsed(wakes, j) && r.wakes == wakes[j..]
  {
    if r.outcome == Cancelled {
      ElapsedCons(wakes, r.attempts - attempt);
    }
  }

  /** A cancelled end of the retries after `j` attempts comes after exactly `j` failed
      refreshes, and leaves the state they leave. */
  lemma {:induction false} RetryCancelledAfterFailures(refresh: State -> Step, st: State, wakes: seq<Wake>, attempt: nat)
    requires 1 <= attempt <= MaxRetries
    decreases MaxRetries - attempt
    ensures var r := RetrySpec(refresh, st, wakes, attempt);
      r.outcome == Cancelled ==>
        r.attempts >= attempt - 1 && FailedRefreshes(refresh, st, r.attempts - (attempt - 1)) == Some(r.st)
  {
    RetryFirstStep(refresh, st, wakes, attempt);
    if NextWake(wakes) == Done {
      CancelledAfterNoRefresh(refresh, st, attempt, RetrySpec(refresh, st, wakes, attempt));
    } else if refresh(st).err.Some? && attempt < MaxRetries {
      RetryCancelledAfterFailures(refresh, refresh(st).st, wakes[1..], attempt + 1);
      CancelledAfterFailure(refresh, st, attempt, RetrySpec(refresh, refresh(st).st, wakes[1..], attempt + 1));
    }
  }

  /** `r` is cancelled before any refresh, with the state it started from. */
  lemma CancelledAfterNoRefresh(refresh: State -> Step, st: State, attempt: nat, r: RetryEnd)
    requires 1 <= attempt && r.st == st && r.attempts == attempt - 1
    ensures r.outcome == Cancelled ==>
      r.attempts >= attempt - 1 && FailedRefreshes(refresh, st, r.attempts - (attempt - 1)) == Some(r.st)
  {
    assert FailedRefreshes(refresh, st, 0) == Some(st);
  }

  /** The first refresh of the retries fails, and `r`, the end of the retries from the next
      attempt on, is cancelled after failed refreshes. */
  lemma CancelledAfterFailure(refresh: State -> Step, st: State, attempt: nat, r: RetryEnd)
    requires refresh(st).err.Some? && 1 <= attempt
    requires r.outcome == Cancelled ==>
      r.attempts >= attempt + 1 - 1 && FailedRefreshes(refresh, refresh(st).st, r.attempts - (attempt + 1 - 1)) == Some(r.st)
    ensures r.outcome == Cancelled ==>
      r.attempts >= attempt - 1 && FailedRefreshes(refresh, st, r.attempts - (attempt - 1)) == Some(r.st)
  {
    if r.outcome == Cancelled {
      FailedStep(refresh, st, r.attempts - attempt);
      assert r.attempts - (attempt - 1) == r.attempts - attempt + 1;
    }
  }

  /** If the retries from attempt `attempt` over `wakes` ended in `r` by recovering, recovery
      came at the `j`-th attempt, `j` timer wakes in, which are all the retries consumed. */
  predicate RecoveredAfterWakes(wakes: seq<Wake>, attempt: nat, r: RetryEnd) {
    var j := r.attempts - (attempt - 1);
    r.outcome == Recovered ==>
      1 <= j <= MaxRetries - attempt + 1 && AllElapsed(wakes, j) && r.wakes == wakes[j..]
  }

  lemma {:induction false} RetryStopsAtFirstSuccess(refresh: State -> Step, st: State, wakes: seq<Wake>, attempt: nat)
    requires 1 <= attempt <= MaxRetries
    decreases MaxRetries - attempt
    ensures RecoveredAfterWakes(wakes, attempt, RetrySpec(refresh, st, wakes, attempt))
  {
    RetryFirstStep(refresh, st, wakes, attempt);
    if NextWake(wakes) != Done {
      if refresh(st).err.None? {
        StopsNow(wakes, attempt, RetrySpec(refresh, st, wakes, attempt));
      } else if attempt < MaxRetries {
        RetryStopsAtFirstSuccess(refresh, refresh(st).st, wakes[1..], attempt + 1);
        StopsLater(wakes, attempt, RetrySpec(refresh, refresh(st).st, wakes[1..], attempt + 1));
      }
    }
  }

  /** `r` recovers at attempt `attempt`, after one timer wake. */
  lemma StopsNow(wakes: seq<Wake>, attempt: nat, r: RetryEnd)
    requires 1 <= attempt <= MaxRetries && NextWake(wakes) == Elapsed
    requires r.outcome == Recovered && r.attempts == attempt && r.wakes == wakes[1..]
    ensures RecoveredAfterWakes(wakes, attempt, r)
  {
    ElapsedCons(wakes, 0);
  }

  /** `r`, the end of the retries from the attempt after a timer wake, recovers after the
      timer wakes it consumed. */
  lemma StopsLater(wakes: seq<Wake>, attempt: nat, r: RetryEnd)
    requires 1 <= attempt < MaxRetries && NextWake(wakes) == Elapsed
    requires RecoveredAfterWakes(wakes[1..], attempt + 1, r)
    ensures RecoveredAfterWakes(wakes, attempt, r)
  {
    if r.outcome == Recovered {
      ElapsedCons(wakes, r.attempts - attempt);
    }
  }

  /** Recovery at attempt `r.attempts` follows the failed refreshes of the attempts before it,
      from `attempt` on, and is the first refresh that succeeds; the retries leave that
      refresh's state. */
  lemma {:induction false} RetryRecoversAtFirstSuccess(refresh: State -> Step, st: State, wakes: seq<Wake>, attempt: nat)
    requires 1 <= attempt <= MaxRetries
    decreases MaxRetries - attempt
    ensures var r := RetrySpec(refresh, st, wakes, attempt);
      r.outcome == Recovered ==>
        && r.attempts >= attempt && FailedRefreshes(refresh, st, r.attempts - attempt).Some?
        && refresh(FailedRefreshes(refresh, st, r.attempts - attempt).value) == Step(r.st, None)
  {
    RetryFirstStep(refresh, st, wakes, attempt);
    if NextWake(wakes) != Done {
      if refresh(st).err.None? {
        RecoversNow(refresh, st, attempt, RetrySpec(refresh, st, wakes, attempt));
      } else if attempt < MaxRetries {
        RetryRecoversAtFirstSuccess(refresh, refresh(st).st, wakes[1..], attempt + 1);
        RecoversLater(refresh, st, attempt, RetrySpec(refresh, refresh(st).st, wakes[1..], attempt + 1));
      }
    }
  }


  /** `r` recovers at attempt `attempt` with the state of a first refresh that succeeds. */
  lemma RecoversNow(refresh: State -> Step, st: State, attempt: nat, r: RetryEnd)
    requires refresh(st).err.None? && r.st == refresh(st).st && r.outcome == Recovered && r.attempts == attempt
    ensures r.outcome == Recovered ==>
      && r.attempts >= attempt && FailedRefreshes(refresh, st, r.attempts - attempt).Some?
      && refresh(FailedRefreshes(refresh, st, r.attempts - attempt).value) == Step(r.st, None)
  {
    assert FailedRefreshes(refresh, st, 0) == Some(st);
  }

  /** The first refresh of the retries fails, and `r`, the end of the retries from the next
      attempt on, recovers after failed refreshes. */
  lemma RecoversLater(refresh: State -> Step, st: State, attempt: nat, r: RetryEnd)
    requires refresh(st).err.Some?
    requires r.outcome == Recovered ==>
      && r.attempts >= attempt + 1
      && FailedRefreshes(refresh, refresh(st).st, r.attempts - (attempt + 1)).Some?
      && refresh(FailedRefreshes(refresh, refresh(st).st, r.attempts - (attempt + 1)).value) == Step(r.st, None)
    ensures r.outcome == Recovered ==>
      && r.attempts >= attempt && FailedRefreshes(refresh, st, r.attempts - attempt).Some?
      && refresh(FailedRefreshes(refresh, st, r.attempts - attempt).value) == Step(r.st, None)
  {
    if r.outcome == Recovered {
      var n := r.attempts - (attempt + 1);
      FailedStep(refresh, st, n);
      assert r.attempts - attempt == n + 1;
    }
  }

  /** A failed refresh in front of `n` more. */
  lemma FailedStep(refresh: State -> Step, st: State, n: nat)
    requires refresh(st).err.Some?
    ensures FailedRefreshes(refresh, st, n + 1) == FailedRefreshes(refresh, refresh(st).st, n)
  {
  }

  /** A timer wake in front of `n` more. */
  lemma ElapsedCons(wakes: seq<Wake>, n: nat)
    requires NextWake(wakes) == Elapsed
    ensures AllElapsed(wakes, n + 1) <==> AllElapsed(wakes[1..], n)
    ensures |wakes| >= n + 1 ==> wakes[1..][n..] == wakes[n + 1..]
  {
    if AllElapsed(wakes[1..], n) {
      forall k | 0 <= k < n + 1
        ensures wakes[k] == Elapsed
      {
        if k > 0 {
          assert wakes[k] == wakes[1..][k - 1];
        }
      }
    }
    if AllElapsed(wakes, n + 1) {
      forall k | 0 <= k < n
        ensures wakes[1..][k] == Elapsed
      {
        assert wakes[1..][k] == wakes[k + 1];
      }
    }
  }

  /** `poll`, with `refresh` for `r.refresh()`: on every timer wake refresh, and after a
      failed refresh run the retries; stop when the context is cancelled or the retries end
      the process. */
  function PollSpec(refresh: State -> Step, st: State, wakes: seq<Wake>): (r: PollEnd)
    decreases |wakes|
    ensures |r.wakes| <= |wakes|
    ensures r.exited || NextWake(r.wakes) == Done
  {
    if NextWake(wakes) == Done then PollEnd(st, wakes, false)
    else
      var r := refresh(st);
      if r.err.None? then PollSpec(refresh, r.st, wakes[1..])
      else
        var q := RetrySpec(refresh, r.st, wakes[1..], 1);
        RetryBounds(refresh, r.st, wakes[1..], 1);
        if q.outcome == Exhausted then PollEnd(q.st, q.wakes, true)
        else PollSpec(refresh, q.st, q.wakes)
  }

  /** The poll ends as `e` right after a refresh that failed from some state and the retries
      that followed it ran out, leaving `e`'s state and wakes. */
  ghost predicate ExitsAfterExhaustedRetry(refresh: State -> Step, e: PollEnd)
  {
    exists s: State, w: seq<Wake> ::
      && refresh(s).err.Some?
      && var q := RetrySpec(refresh, refresh(s).st, w, 1);
        q.outcome == Exhausted && q.st == e.st && q.wakes == e.wakes
  }

  /** A cancelled context stops the polling before any request; the polling ends the process
      only through an exhausted retry after a failed refresh, whose state and remaining wakes
      it keeps, so after at least one timer wake for the failed refresh and one for each of
      the `MaxRetries` attempts. */
  lemma {:induction false} PollExitNeedsExhaustedRetry(refresh: State -> Step, st: State, wakes: seq<Wake>)
    decreases |wakes|
    ensures var r := PollSpec(refresh, st, wakes);
      && (NextWake(wakes) == Done ==> r == PollEnd(st, wakes, false))
      && (r.exited ==> |wakes| - |r.wakes| >= 1 + MaxRetries)
      && (r.exited ==> ExitsAfterExhaustedRetry(refresh, r))
  {
    if NextWake(wakes) != Done {
      var s := refresh(st);
      if s.err.None? {
        PollExitNeedsExhaustedRetry(refresh, s.st, wakes[1..]);
      } else {
        var q := RetrySpec(refresh, s.st, wakes[1..], 1);
        RetryExhaustedNeedsAllWakes(refresh, s.st, wakes[1..], 1);
        RetryBounds(refresh, s.st, wakes[1..], 1);
        if q.outcome != Exhausted {
          PollExitNeedsExhaustedRetry(refresh, q.st, q.wakes);
        } else {
          assert ExitsAfterExhaustedRetry(refresh, PollEnd(q.st, q.wakes, true)) by {
            assert refresh(st).err.Some?;
          }
        }
      }
    }
  }

  /** `NewApiResolver` once the URL has parsed: log in, then refresh; either failure is
      wrapped and returned. */
  function NewSpec(c: Config, st: State): (r: Step)
    ensures r.err.Some? ==> r.st.routes == st.routes
    ensures |r.st.sent| > |st.sent| && r.st.sent[..|st.sent| + 1] == st.sent + [LoginRequestOf(c)]
    ensures r.err.Some? ==> r.err.value.InitialAuthFailed? || r.err.value.InitialFetchFailed?
    ensures r.err.Some? && r.err.value.InitialAuthFailed? ==> |r.st.sent| == |st.sent| + 1
    ensures var l := LoginSpec(c, st);
      && (l.err.Some? ==> r.err == Some(InitialAuthFailed(l.err.value)))
      && (l.err.None? ==> (r.err.Some? <==> RefreshSpec(c, l.st).err.Some?))
      && (r.err.None? ==> r.st == RefreshSpec(c, l.st).st)
  {
    var l := LoginSpec(c, st);
    if l.err.Some? then Step(l.st, Some(InitialAuthFailed(l.err.value)))
    else
      var f := RefreshSpec(c, l.st);
      if f.err.Some? then Step(f.st, Some(InitialFetchFailed(f.err.value)))
      else f
  }

  /** `strings.TrimRight(s, "/")`. */
  function TrimRightSlash(s: string): (t: string)
    ensures |t| <= |s| && t == s[..|t|]
    ensures t == [] || t[|t| - 1] != '/'
    ensures forall k :: |t| <= k < |s| ==> s[k] == '/'
  {
    if |s| > 0 && s[|s| - 1] == '/' then TrimRightSlash(s[..|s| - 1]) else s
  }

  /** The HTTP client: it answers from a script and records every request. */
  class HttpClient {
    var replies: seq<Reply>
    var sent: seq<Request>

    constructor (replies: seq<Reply>)
      ensures this.replies == replies && sent == []
    {
      this.replies := replies;
      sent := [];
    }

    /** `httpClient.Do(req)`. */
    method Do(req: Request) returns (reply: Reply)
      modifies this
      ensures reply == NextReply(old(replies))
      ensures replies == LaterReplies(old(replies)) && sent == old(sent) + [req]
    {
      reply := NextReply(replies);
      replies := LaterReplies(replies);
      sent := sent + [req];
    }
  }

  /** The context, seen through the `select` statements that wait on it and on a timer. */
  class Context {
    var wakes: seq<Wake>

    constructor (wakes: seq<Wake>)
      ensures this.wakes == wakes
    {
      this.wakes := wakes;
    }

    method Wait() returns (w: Wake)
      modifies this
      ensures w == NextWake(old(wakes)) && wakes == LaterWakes(old(wakes))
    {
      w := NextWake(wakes);
      wakes := LaterWakes(wakes);
    }
  }

  class ApiResolver {
    const baseURL: string
    const accountID: string
    const secret: string
    const client: HttpClient
    var routes: RouteMap
    var token: string

    function Cfg(): Config {
      Config(baseURL, accountID, secret)
    }

    function Snapshot(): State
      reads this, client
    {
      State(routes, token, client.replies, client.sent)
    }

    /** The `&ApiResolver{...}` literal: empty routes, no token yet. */
    constructor (baseURL: string, accountID: string, secret: string, client: HttpClient)
      ensures this.baseURL == baseURL && this.accountID == accountID && this.secret == secret
      ensures this.client == client && routes == map[] && token == ""
    {
      this.baseURL := baseURL;
      this.accountID := accountID;
      this.secret := secret;
      this.client := client;
      routes := map[];
      token := "";
    }

    /** `ResolveHostname`: a lookup in the current routes. */
    function ResolveHostname(hostname: string): (r: (string, bool))
      reads this
      ensures r.1 <==> hostname in routes
      ensures r.1 ==> r.0 == routes[hostname]
      ensures !r.1 ==> r.0 == ""
    {
      Lookup(routes, hostname)
    }

    method Login() returns (err: Option<ApiError>)
      modifies this, client
      ensures Snapshot() == LoginSpec(Cfg(), old(Snapshot())).st
      ensures err == LoginSpec(Cfg(), old(Snapshot())).err
    {
      var reply := client.Do(LoginRequest(baseURL + LoginPath, accountID, secret));
      if reply.TransportError? {
        return Some(LoginTransport);
      }
      if reply.status == StatusUnauthorized {
        return Some(LoginUnauthorized);
      }
      if reply.status != StatusOK {
        return Some(LoginStatus(reply.status));
      }
      if reply.token.None? {
        return Some(LoginDecode);
      }
      token := reply.token.value;
      return None;
    }

    method FetchMapping() returns (err: Option<ApiError>)
      modifies this, client
      ensures Snapshot() == FetchSpec(Cfg(), old(Snapshot())).st
      ensures err == FetchSpec(Cfg(), old(Snapshot())).err
    {
      var reply := client.Do(MappingRequest(baseURL + MappingPath, "Bearer " + token));
      if reply.TransportError? {
        return Some(MappingTransport);
      }
      if reply.status == StatusUnauthorized {
        return Some(Unauthorized);
      }
      if reply.status != StatusOK {
        return Some(MappingStatus(reply.status));
      }
      if reply.routes.None? {
        return Some(MappingDecode);
      }
      routes := reply.routes.value;
      return None;
    }

    method Refresh() returns (err: Option<ApiError>)
      modifies this, client
      ensures Snapshot() == RefreshSpec(Cfg(), old(Snapshot())).st
      ensures err == RefreshSpec(Cfg(), old(Snapshot())).err
    {
      err := FetchMapping();
      if err != Some(Unauthorized) {
        return;
      }
      var loginErr := Login();
      if loginErr.Some? {
        return Some(ReauthFailed(loginErr.value));
      }
      err := FetchMapping();
    }

    method RetryRefresh(ctx: Context) returns (outcome: RetryOutcome)
      modifies this, client, ctx
      ensures var spec := RetrySpec(Refresher(Cfg()), old(Snapshot()), old(ctx.wakes), 1);
        outcome == spec.outcome && Snapshot() == spec.st && ctx.wakes == spec.wakes
    {
      ghost var spec := RetrySpec(Refresher(Cfg()), Snapshot(), ctx.wakes, 1);
      var attempt := 1;
      while true
        invariant 1 <= attempt <= MaxRetries
        invariant RetrySpec(Refresher(Cfg()), Snapshot(), ctx.wakes, attempt) == spec
        decreases MaxRetries - attempt
      {
        var w := ctx.Wait();
        if w == Done {
          return Cancelled;
        }
        var err := Refresh();
        if err.None? {
          return Recovered;
        }
        if attempt == MaxRetries {
          return Exhausted;
        }
        attempt := attempt + 1;
      }
    }

    /** Returns whether the retries ended the process. */
    method Poll(ctx: Context) returns (exited: bool)
      modifies this, client, ctx
      ensures var spec := PollSpec(Refresher(Cfg()), old(Snapshot()), old(ctx.wakes));
        exited == spec.exited && Snapshot() == spec.st && ctx.wakes == spec.wakes
    {
      ghost var spec := PollSpec(Refresher(Cfg()), Snapshot(), ctx.wakes);
      while true
        invariant PollSpec(Refresher(Cfg()), Snapshot(), ctx.wakes) == spec
        decreases |ctx.wakes|
      {
        var w := ctx.Wait();
        if w == Done {
          return false;
        }
        var err := Refresh();
        if err.Some? {
          RetryBounds(Refresher(Cfg()), Snapshot(), ctx.wakes, 1);
          var outcome := RetryRefresh(ctx);
          if outcome == Exhausted {
            return true;
          }
        }
      }
    }
  }

  /** `NewApiResolver`: `urlParses` is what `url.Parse(apiURL)` decides. The resolver starts
      with empty routes, logs in and refreshes once before it is returned. */
  method NewApiResolver(apiURL: string, urlParses: bool, accountID: string, secret: string,
                        client: HttpClient)
    returns (r: Result<ApiResolver, ApiError>)
    modifies client
    ensures !urlParses ==> r == Failure(BadApiUrl) && unchanged(client)
    ensures urlParses ==>
      var c := Config(TrimRightSlash(apiURL), accountID, secret);
      var spec := NewSpec(c, State(map[], "", old(client.replies), old(client.sent)));
      && client.replies == spec.st.replies && client.sent == spec.st.sent
      && (r.Success? <==> spec.err.None?)
      && (r.Failure? ==> r.error == spec.err.value)
      && (r.Success? ==> fresh(r.value) && r.value.client == client
                         && r.value.Cfg() == c && r.value.Snapshot() == spec.st)
  {
    if !urlParses {
      return Failure(BadApiUrl);
    }
    var resolver := new ApiResolver(TrimRightSlash(apiURL), accountID, secret, client);
    var err := resolver.Login();
    if err.Some? {
      return Failure(InitialAuthFailed(err.value));
    }
    err := resolver.Refresh();
    if err.Some? {
      return Failure(InitialFetchFailed(err.value));
    }
    return Success(resolver);
  }
}
