/**
 The request driver `execute`: fetch, refresh once on 401, retry network errors
 with back-off. The environment answers the n-th fetch and the n-th refresh.
 Headers and the content of error payloads are dropped.

 Two details matter here. A refresh is awaited inside the try
 block, so a network error in it is retried like one in the request, with the
 refresh still to do. A recursive call and the error normaliser are returned
 without await, so what they throw is not caught again.
 */
module ApiDriver {
  import opened Options

  datatype Body = Parsed | Malformed | Interrupted

  /** A fetch ends in a response, in a network error (a TypeError) or in another exception such as an abort. */
  datatype FetchOutcome = Response(status: nat, body: Body) | NetworkError | OtherError

  datatype RefreshOutcome = Refreshed | RefreshNetworkError | RefreshFailed

  datatype Env = Env(fetches: nat -> FetchOutcome, refreshes: nat -> RefreshOutcome)

  datatype RequestOptions = RequestOptions(skipAuth: bool, skipRetry: bool)

  datatype Action = Fetch(attempt: nat, refreshed: bool) | Refresh | Wait(ms: nat) | ClearAuth

  datatype Result = Value | NoContent | ApiError(status: nat) | ThrownNetworkError | ThrownOther

  datatype Run = Run(actions: seq<Action>, result: Result)

  const BACKOFF: seq<nat> := [1000, 2000, 4000]

  predicate IsOk(status: nat) {
    200 <= status <= 299
  }

  /** How one round of the try block ends: with a result, with a refresh done, or in a network error. */
  datatype Verdict = Done(result: Result) | Again | Network

  datatype Round = Round(actions: seq<Action>, verdict: Verdict)

  /** One round: the fetch, its answer, and the refresh that a 401 asks for. */
  function RoundOf(o: RequestOptions, answer: FetchOutcome, refresh: RefreshOutcome, attempt: nat, refreshed: bool): (t: Round)
    ensures t.verdict.Again? ==> !refreshed && !o.skipAuth
  {
    var fetch := Fetch(attempt, refreshed);
    match answer
    case NetworkError => Round([fetch], Network)
    case OtherError => Round([fetch], Done(ThrownOther))
    case Response(status, body) =>
      if status == 401 && !o.skipAuth then
        if refreshed then Round([fetch, ClearAuth], Done(ApiError(status)))
        else Round([fetch, Refresh],
                   match refresh
                   case Refreshed => Again
                   case RefreshNetworkError => Network
                   case RefreshFailed => Done(ThrownOther))
      else if !IsOk(status) then Round([fetch], Done(ApiError(status)))
      else if status == 204 then Round([fetch], Done(NoContent))
      else Round([fetch],
                 match body
                 case Parsed => Done(Value)
                 case Malformed => Done(ThrownOther)
                 case Interrupted => Network)
  }

  function Prefixed(actions: seq<Action>, run: Run): Run {
    Run(actions + run.actions, run.result)
  }

  /** The recursive call that follows a round, after the actions in between. */
  datatype Next = Stop(result: Result) | Go(between: seq<Action>, attempt: nat, refreshed: bool, refreshes: nat)

  function NextOf(o: RequestOptions, t: Round, attempt: nat, refreshed: bool, r: nat): (n: Next)
    ensures n.Go? && n.attempt == attempt ==> n.refreshed && n.between == [] && t.verdict.Again?
    ensures n.Go? && n.attempt != attempt ==>
              n.attempt == attempt + 1 <= 3 && n.refreshed == refreshed && !o.skipRetry && n.between == [Wait(BACKOFF[attempt])]
  {
    var r' := if Refresh in t.actions then r + 1 else r;
    match t.verdict
    case Done(result) => Stop(result)
    case Again => Go([], attempt, true, r')
    case Network =>
      if !o.skipRetry && attempt < |BACKOFF| then Go([Wait(BACKOFF[attempt])], attempt + 1, refreshed, r')
      else Stop(ThrownNetworkError)
  }

  /** The part of a call that starts with the given attempt, when f fetches and r refreshes came before. */
  function Execute(o: RequestOptions, env: Env, attempt: nat, refreshed: bool, f: nat, r: nat): Run
    decreases if attempt < 3 then 3 - attempt else 0, if refreshed then 0 else 1
  {
    var t := RoundOf(o, env.fetches(f), env.refreshes(r), attempt, refreshed);
    match NextOf(o, t, attempt, refreshed, r)
    case Stop(result) => Run(t.actions, result)
    case Go(between, a, d, q) => Prefixed(t.actions + between, Execute(o, env, a, d, f + 1, q))
  }

  // ---------- Measures over the actions of a call ----------

  function Weight(a: Action): (w: (nat, nat, nat)) {
    match a
    case Fetch(_, _) => (1, 0, 0)
    case Refresh => (0, 1, 0)
    case Wait(ms) => (0, 0, ms)
    case ClearAuth => (0, 0, 0)
  }

  /** How many fetches and refreshes the actions hold, and how long they wait. */
  function Totals(actions: seq<Action>): (nat, nat, nat) {
    if actions == [] then (0, 0, 0)
    else
      var w, rest := Weight(actions[0]), Totals(actions[1..]);
      (w.0 + rest.0, w.1 + rest.1, w.2 + rest.2)
  }

  lemma {:induction false} TotalsAdd(a: seq<Action>, b: seq<Action>)
    ensures var ta, tb := Totals(a), Totals(b);
            Totals(a + b) == (ta.0 + tb.0, ta.1 + tb.1, ta.2 + tb.2)
    decreases |a|
  {
    if a == [] {
      assert a + b == b;
    } else {
      assert (a + b)[1..] == a[1..] + b;
      TotalsAdd(a[1..], b);
    }
  }

  function RetriesLeft(o: RequestOptions, attempt: nat): nat {
    if o.skipRetry || attempt >= 3 then 0 else 3 - attempt
  }

  function WaitLeft(o: RequestOptions, attempt: nat): nat
    decreases 3 - attempt
  {
    if o.skipRetry || attempt >= 3 then 0 else BACKOFF[attempt] + WaitLeft(o, attempt + 1)
  }

  lemma RoundTotals(o: RequestOptions, answer: FetchOutcome, refresh: RefreshOutcome, attempt: nat, refreshed: bool)
    ensures var t := RoundOf(o, answer, refresh, attempt, refreshed);
            Totals(t.actions) == (1, if Refresh in t.actions then 1 else 0, 0)
            && (Refresh in t.actions ==> !refreshed && !o.skipAuth)
  {
    var fetch := Fetch(attempt, refreshed);
    assert [fetch][1..] == [] && [fetch, Refresh][1..] == [Refresh] && [fetch, ClearAuth][1..] == [ClearAuth];
    assert [Refresh][1..] == [] && [ClearAuth][1..] == [];
    assert Refresh !in [fetch] && Refresh !in [fetch, ClearAuth];
  }

  lemma BetweenTotals(n: Next)
    requires n.Go? && (n.between == [] || (|n.between| == 1 && n.between[0].Wait?))
    ensures Totals(n.between) == (0, 0, if n.between == [] then 0 else n.between[0].ms)
    ensures Visits(n.between) == []
  {
    if n.between != [] {
      assert n.between[1..] == [];
    }
  }

  function Waited(n: Next): nat {
    if n.Go? && n.between != [] && n.between[0].Wait? then n.between[0].ms else 0
  }

  /** The totals of a call are those of its first round plus those of the call that follows. */
  lemma {:induction false} TotalsUnfold(o: RequestOptions, env: Env, attempt: nat, refreshed: bool, f: nat, r: nat)
    ensures var t := RoundOf(o, env.fetches(f), env.refreshes(r), attempt, refreshed);
            var n := NextOf(o, t, attempt, refreshed, r);
            var all := Totals(Execute(o, env, attempt, refreshed, f, r).actions);
            var rest := if n.Go? then Totals(Execute(o, env, n.attempt, n.refreshed, f + 1, n.refreshes).actions) else (0, 0, 0);
            all == (1 + rest.0, (if Refresh in t.actions then 1 else 0) + rest.1, Waited(n) + rest.2)
  {
    RoundTotals(o, env.fetches(f), env.refreshes(r), attempt, refreshed);
    var t := RoundOf(o, env.fetches(f), env.refreshes(r), attempt, refreshed);
    var n := NextOf(o, t, attempt, refreshed, r);
    if n.Go? {
      GoTotals(t.actions, n, Execute(o, env, n.attempt, n.refreshed, f + 1, n.refreshes).actions);
    }
  }

  lemma {:induction false} GoTotals(first: seq<Action>, n: Next, rest: seq<Action>)
    requires n.Go? && (n.between == [] || (|n.between| == 1 && n.between[0].Wait?))
    ensures var a, b := Totals(first), Totals(rest);
            Totals(first + n.between + rest) == (a.0 + b.0, a.1 + b.1, a.2 + Waited(n) + b.2)
  {
    BetweenTotals(n);
    TotalsOfThree(first, n.between, rest);
  }

  lemma {:induction false} TotalsOfThree(a: seq<Action>, b: seq<Action>, c: seq<Action>)
    ensures var ta, tb, tc := Totals(a), Totals(b), Totals(c);
            Totals(a + b + c) == (ta.0 + tb.0 + tc.0, ta.1 + tb.1 + tc.1, ta.2 + tb.2 + tc.2)
  {
    TotalsAdd(a, b);
    TotalsAdd(a + b, c);
  }

  lemma {:induction false} BoundsFrom(o: RequestOptions, env: Env, attempt: nat, refreshed: bool, f: nat, r: nat)
    ensures var t := Totals(Execute(o, env, attempt, refreshed, f, r).actions);
            && t.0 <= 1 + RetriesLeft(o, attempt) + (if refreshed || o.skipAuth then 0 else 1)
            && t.1 <= (if refreshed || o.skipAuth then 0 else 1 + RetriesLeft(o, attempt))
            && t.2 <= WaitLeft(o, attempt)
    decreases if attempt < 3 then 3 - attempt else 0, if refreshed then 0 else 1
  {
    RoundTotals(o, env.fetches(f), env.refreshes(r), attempt, refreshed);
    TotalsUnfold(o, env, attempt, refreshed, f, r);
    var t := RoundOf(o, env.fetches(f), env.refreshes(r), attempt, refreshed);
    var n := NextOf(o, t, attempt, refreshed, r);
    if n.Go? {
      BoundsFrom(o, env, n.attempt, n.refreshed, f + 1, n.refreshes);
    }
  }

  /**
   Whatever the environment answers, one call issues at most 5 fetches and 4
   refreshes and waits at most 7 seconds; without retries, at most 2 fetches, 1
   refresh and no wait; without authentication, no refresh and 4 fetches.
   */
  lemma CallIsBounded(o: RequestOptions, env: Env)
    ensures var t := Totals(Execute(o, env, 0, false, 0, 0).actions);
            && t.0 <= 5 && t.1 <= 4 && t.2 <= 7000
            && (o.skipRetry ==> t.0 <= 2 && t.1 <= 1 && t.2 == 0)
            && (o.skipAuth ==> t.0 <= 4 && t.1 == 0)
  {
    BoundsFrom(o, env, 0, false, 0, 0);
    assert WaitLeft(o, 1) <= 6000 && WaitLeft(o, 2) <= 4000;
  }

  // ---------- No step is repeated ----------

  /** The fetches of a call, in order. */
  function Visits(actions: seq<Action>): seq<Action> {
    if actions == [] then [] else (if actions[0].Fetch? then [actions[0]] else []) + Visits(actions[1..])
  }

  predicate Before(a: Action, b: Action)
    requires a.Fetch? && b.Fetch?
  {
    a.attempt < b.attempt || (a.attempt == b.attempt && !a.refreshed && b.refreshed)
  }

  ghost predicate Ascending(v: seq<Action>) {
    && (forall i :: 0 <= i < |v| ==> v[i].Fetch?)
    && (forall i, j :: 0 <= i < j < |v| ==> Before(v[i], v[j]))
  }

  lemma {:induction false} VisitsAdd(a: seq<Action>, b: seq<Action>)
    ensures Visits(a + b) == Visits(a) + Visits(b)
    decreases |a|
  {
    if a == [] {
      assert a + b == b;
    } else {
      assert (a + b)[1..] == a[1..] + b;
      VisitsAdd(a[1..], b);
    }
  }

  lemma RoundVisits(o: RequestOptions, answer: FetchOutcome, refresh: RefreshOutcome, attempt: nat, refreshed: bool)
    ensures Visits(RoundOf(o, answer, refresh, attempt, refreshed).actions) == [Fetch(attempt, refreshed)]
  {
    var fetch := Fetch(attempt, refreshed);
    assert [fetch][1..] == [] && [fetch, Refresh][1..] == [Refresh] && [fetch, ClearAuth][1..] == [ClearAuth];
    assert [Refresh][1..] == [] && [ClearAuth][1..] == [];
  }

  /** The (attempt, refreshed) pairs of a call strictly ascend, so none is visited twice, and the first is the one given. */
  lemma {:induction false} VisitsAscend(o: RequestOptions, env: Env, attempt: nat, refreshed: bool, f: nat, r: nat)
    ensures var v := Visits(Execute(o, env, attempt, refreshed, f, r).actions);
            Ascending(v) && |v| > 0 && v[0] == Fetch(attempt, refreshed)
    decreases if attempt < 3 then 3 - attempt else 0, if refreshed then 0 else 1
  {
    RoundVisits(o, env.fetches(f), env.refreshes(r), attempt, refreshed);
    var t := RoundOf(o, env.fetches(f), env.refreshes(r), attempt, refreshed);
    var n := NextOf(o, t, attempt, refreshed, r);
    if n.Go? {
      VisitsAscend(o, env, n.attempt, n.refreshed, f + 1, n.refreshes);
      VisitsUnfold(o, env, attempt, refreshed, f, r);
      AscendingCons(Fetch(attempt, refreshed), Visits(Execute(o, env, n.attempt, n.refreshed, f + 1, n.refreshes).actions));
    }
  }

  lemma {:induction false} VisitsUnfold(o: RequestOptions, env: Env, attempt: nat, refreshed: bool, f: nat, r: nat)
    requires NextOf(o, RoundOf(o, env.fetches(f), env.refreshes(r), attempt, refreshed), attempt, refreshed, r).Go?
    ensures var n := NextOf(o, RoundOf(o, env.fetches(f), env.refreshes(r), attempt, refreshed), attempt, refreshed, r);
            Visits(Execute(o, env, attempt, refreshed, f, r).actions) ==
              [Fetch(attempt, refreshed)] + Visits(Execute(o, env, n.attempt, n.refreshed, f + 1, n.refreshes).actions)
  {
    var t := RoundOf(o, env.fetches(f), env.refreshes(r), attempt, refreshed);
    var n := NextOf(o, t, attempt, refreshed, r);
    RoundVisits(o, env.fetches(f), env.refreshes(r), attempt, refreshed);
    BetweenTotals(n);
    VisitsAdd(t.actions, n.between);
    VisitsAdd(t.actions + n.between, Execute(o, env, n.attempt, n.refreshed, f + 1, n.refreshes).actions);
  }

  lemma AscendingCons(a: Action, v: seq<Action>)
    requires a.Fetch? && Ascending(v) && |v| > 0 && Before(a, v[0])
    ensures Ascending([a] + v)
  {
  }

  // ---------- What a result says ----------

  /** The last fetch of a call. */
  function LastFetch(run: Run): Option<Action> {
    var v := Visits(run.actions);
    if v == [] then None else Some(v[|v| - 1])
  }

  /** The answer it got, when f fetches came before the call. */
  function LastAnswer(env: Env, run: Run, f: nat): FetchOutcome {
    env.fetches(f + (if Totals(run.actions).0 == 0 then 0 else Totals(run.actions).0 - 1))
  }

  /** Whether a fetch with this answer calls for a refresh: a 401 that counts, and no refresh done yet. */
  predicate RefreshDue(o: RequestOptions, fetch: Option<Action>, answer: FetchOutcome) {
    answer.Response? && answer.status == 401 && !o.skipAuth && fetch.Some? && fetch.value.Fetch? && !fetch.value.refreshed
  }

  /** The answer to the refresh that the last fetch called for, when r refreshes came before the call. */
  function LastReply(o: RequestOptions, env: Env, run: Run, f: nat, r: nat): RefreshOutcome {
    var refreshes := Totals(run.actions).1;
    env.refreshes(if RefreshDue(o, LastFetch(run), LastAnswer(env, run, f)) && refreshes > 0 then r + refreshes - 1 else r + refreshes)
  }

  /** The answer carries a body to read. */
  predicate HasBody(answer: FetchOutcome) {
    answer.Response? && IsOk(answer.status) && answer.status != 204
  }

  /** Which result comes from which last answer, and from which answer to a refresh that it called for. */
  ghost predicate Explains(o: RequestOptions, fetch: Option<Action>, answer: FetchOutcome, reply: RefreshOutcome, run: Run) {
    var due := RefreshDue(o, fetch, answer);
    && fetch.Some? && fetch.value.Fetch?
    && (run.result == Value <==> HasBody(answer) && answer.body.Parsed?)
    && (run.result == NoContent <==> answer.Response? && answer.status == 204)
    && (run.result.ApiError? <==> answer.Response? && !IsOk(answer.status) && !due)
    && (run.result.ApiError? ==> run.result.status == answer.status)
    && (run.result == ThrownNetworkError <==>
          answer.NetworkError? || (HasBody(answer) && answer.body.Interrupted?) || (due && reply.RefreshNetworkError?))
    && (run.result == ThrownNetworkError ==> o.skipRetry || fetch.value.attempt >= 3)
    && (run.result == ThrownOther <==>
          answer.OtherError? || (HasBody(answer) && answer.body.Malformed?) || (due && reply.RefreshFailed?))
    && (ClearAuth in run.actions <==> run.result == ApiError(401) && !o.skipAuth)
    && (ClearAuth in run.actions ==> fetch.value.refreshed)
  }

  lemma RoundExplains(o: RequestOptions, answer: FetchOutcome, refresh: RefreshOutcome, attempt: nat, refreshed: bool, r: nat)
    ensures var t := RoundOf(o, answer, refresh, attempt, refreshed);
            var n := NextOf(o, t, attempt, refreshed, r);
            && (n.Stop? ==> Explains(o, Some(Fetch(attempt, refreshed)), answer, refresh, Run(t.actions, n.result)))
            && (n.Go? ==> ClearAuth !in t.actions + n.between)
            && (Refresh in t.actions <==> RefreshDue(o, Some(Fetch(attempt, refreshed)), answer))
  {
  }

  /** When a run is one round and then the rest, its last fetch, and the answers to it, are those of the rest. */
  lemma {:induction false} LastRoundLater(o: RequestOptions, env: Env, run: Run, rest: Run, first: Action, f: nat, r: nat, r': nat)
    requires Visits(run.actions) == [first] + Visits(rest.actions) && Visits(rest.actions) != []
    requires Totals(run.actions).0 == 1 + Totals(rest.actions).0 && Totals(rest.actions).0 >= 1
    requires r <= r' && r + Totals(run.actions).1 == r' + Totals(rest.actions).1
    ensures LastFetch(run) == LastFetch(rest) && LastAnswer(env, run, f) == LastAnswer(env, rest, f + 1)
    ensures Totals(rest.actions).1 > 0 || !RefreshDue(o, LastFetch(rest), LastAnswer(env, rest, f + 1)) ==>
              LastReply(o, env, run, f, r) == LastReply(o, env, rest, f + 1, r')
  {
    var v, w := Visits(run.actions), Visits(rest.actions);
    assert v[|v| - 1] == w[|w| - 1];
  }

  /**
   Every result of a call is determined by the answer to its last fetch and to the refresh that
   fetch called for. The store is cleared exactly on a 401 that counts, and then the last fetch
   came after a refresh.
   */
  lemma {:induction false} ResultReflectsLastFetch(o: RequestOptions, env: Env, attempt: nat, refreshed: bool, f: nat, r: nat)
    ensures var run := Execute(o, env, attempt, refreshed, f, r);
            && Totals(run.actions).0 >= 1
            && (RefreshDue(o, LastFetch(run), LastAnswer(env, run, f)) ==> Totals(run.actions).1 >= 1)
            && Explains(o, LastFetch(run), LastAnswer(env, run, f), LastReply(o, env, run, f, r), run)
    decreases if attempt < 3 then 3 - attempt else 0, if refreshed then 0 else 1
  {
    TotalsUnfold(o, env, attempt, refreshed, f, r);
    RoundExplains(o, env.fetches(f), env.refreshes(r), attempt, refreshed, r);
    var run := Execute(o, env, attempt, refreshed, f, r);
    var t := RoundOf(o, env.fetches(f), env.refreshes(r), attempt, refreshed);
    var n := NextOf(o, t, attempt, refreshed, r);
    if n.Go? {
      var rest := Execute(o, env, n.attempt, n.refreshed, f + 1, n.refreshes);
      ResultReflectsLastFetch(o, env, n.attempt, n.refreshed, f + 1, n.refreshes);
      VisitsUnfold(o, env, attempt, refreshed, f, r);
      VisitsAscend(o, env, n.attempt, n.refreshed, f + 1, n.refreshes);
      LastRoundLater(o, env, run, rest, Fetch(attempt, refreshed), f, r, n.refreshes);
      assert ClearAuth in run.actions <==> ClearAuth in rest.actions;
    } else {
      RoundVisits(o, env.fetches(f), env.refreshes(r), attempt, refreshed);
    }
  }

  // ---------- The bounds are reached ----------

  const REFRESH_UNREACHABLE := Env(n => Response(401, Parsed), n => RefreshNetworkError)

  const LATE_REJECTION := Env(n => if n < 3 then NetworkError else Response(401, Parsed), n => Refreshed)

  lemma RefreshErrorCosts(o: RequestOptions, attempt: nat, later: (nat, nat, nat))
    requires o == RequestOptions(false, false) && attempt < 3
    requires later == Totals(Execute(o, REFRESH_UNREACHABLE, attempt + 1, false, attempt + 1, attempt + 1).actions)
    ensures Totals(Execute(o, REFRESH_UNREACHABLE, attempt, false, attempt, attempt).actions)
         == (1 + later.0, 1 + later.1, BACKOFF[attempt] + later.2)
  {
    TotalsUnfold(o, REFRESH_UNREACHABLE, attempt, false, attempt, attempt);
    var t := RoundOf(o, Response(401, Parsed), RefreshNetworkError, attempt, false);
    assert t == Round([Fetch(attempt, false), Refresh], Network);
    assert t.actions[1] == Refresh;
    assert NextOf(o, t, attempt, false, attempt) == Go([Wait(BACKOFF[attempt])], attempt + 1, false, attempt + 1);
  }

  lemma LastRefreshErrorCosts(o: RequestOptions)
    requires o == RequestOptions(false, false)
    ensures Totals(Execute(o, REFRESH_UNREACHABLE, 3, false, 3, 3).actions) == (1, 1, 0)
  {
    TotalsUnfold(o, REFRESH_UNREACHABLE, 3, false, 3, 3);
    var t := RoundOf(o, Response(401, Parsed), RefreshNetworkError, 3, false);
    assert t.actions == [Fetch(3, false), Refresh] && t.actions[1] == Refresh;
  }

  /** Network errors in every refresh cost 4 fetches, 4 refreshes and 7 seconds. */
  lemma RefreshBoundIsReached(o: RequestOptions)
    requires o == RequestOptions(false, false)
    ensures Totals(Execute(o, REFRESH_UNREACHABLE, 0, false, 0, 0).actions) == (4, 4, 7000)
  {
    LastRefreshErrorCosts(o);
    RefreshErrorCosts(o, 2, (1, 1, 0));
    RefreshErrorCosts(o, 1, (2, 2, 4000));
    RefreshErrorCosts(o, 0, (3, 3, 6000));
  }

  lemma {:induction false} NetworkErrorCosts(o: RequestOptions, env: Env, attempt: nat, f: nat, later: (nat, nat, nat))
    requires env.fetches(f) == NetworkError && attempt < 3 && !o.skipRetry
    requires later == Totals(Execute(o, env, attempt + 1, false, f + 1, 0).actions)
    ensures Totals(Execute(o, env, attempt, false, f, 0).actions) == (1 + later.0, later.1, BACKOFF[attempt] + later.2)
  {
    TotalsUnfold(o, env, attempt, false, f, 0);
    NetworkErrorRound(o, env.refreshes(0), attempt);
  }

  lemma NetworkErrorRound(o: RequestOptions, reply: RefreshOutcome, attempt: nat)
    requires attempt < 3 && !o.skipRetry
    ensures var t := RoundOf(o, NetworkError, reply, attempt, false);
            && Refresh !in t.actions
            && NextOf(o, t, attempt, false, 0) == Go([Wait(BACKOFF[attempt])], attempt + 1, false, 0)
  {
  }

  lemma RejectedTwice(o: RequestOptions, env: Env)
    requires !o.skipAuth && env == LATE_REJECTION
    ensures Totals(Execute(o, env, 3, false, 3, 0).actions) == (2, 1, 0)
  {
    TotalsUnfold(o, env, 3, true, 4, 1);
    TotalsUnfold(o, env, 3, false, 3, 0);
  }

  /** One more fetch than attempts: the last of four tries is refused, and refused again after the refresh. */
  lemma FetchBoundIsReached(o: RequestOptions)
    requires o == RequestOptions(false, false)
    ensures Totals(Execute(o, LATE_REJECTION, 0, false, 0, 0).actions) == (5, 1, 7000)
  {
    var env := LATE_REJECTION;
    RejectedTwice(o, env);
    NetworkErrorCosts(o, env, 2, 2, (2, 1, 0));
    NetworkErrorCosts(o, env, 1, 1, (3, 1, 4000));
    NetworkErrorCosts(o, env, 0, 0, (4, 1, 6000));
  }

  // ---------- The waits, in order ----------

  function Waits(actions: seq<Action>): seq<nat> {
    if actions == [] then [] else (if actions[0].Wait? then [actions[0].ms] else []) + Waits(actions[1..])
  }

  lemma {:induction false} WaitsAdd(a: seq<Action>, b: seq<Action>)
    ensures Waits(a + b) == Waits(a) + Waits(b)
    decreases |a|
  {
    if a == [] {
      assert a + b == b;
    } else {
      assert (a + b)[1..] == a[1..] + b;
      WaitsAdd(a[1..], b);
    }
  }

  lemma RoundWaits(o: RequestOptions, answer: FetchOutcome, refresh: RefreshOutcome, attempt: nat, refreshed: bool)
    ensures Waits(RoundOf(o, answer, refresh, attempt, refreshed).actions) == []
  {
    var fetch := Fetch(attempt, refreshed);
    assert [fetch][1..] == [] && [fetch, Refresh][1..] == [Refresh] && [fetch, ClearAuth][1..] == [ClearAuth];
    assert [Refresh][1..] == [] && [ClearAuth][1..] == [];
  }

  /** From attempt a on, the waits are the table's from there, in order, as many as there are retries. */
  lemma {:induction false} WaitsFrom(o: RequestOptions, env: Env, attempt: nat, refreshed: bool, f: nat, r: nat)
    requires attempt <= 3
    ensures var run := Execute(o, env, attempt, refreshed, f, r);
            var table: seq<nat> := [1000, 2000, 4000];
            Waits(run.actions) <= table[attempt..] && (o.skipRetry ==> Waits(run.actions) == [])
    decreases if attempt < 3 then 3 - attempt else 0, if refreshed then 0 else 1
  {
    RoundWaits(o, env.fetches(f), env.refreshes(r), attempt, refreshed);
    var t := RoundOf(o, env.fetches(f), env.refreshes(r), attempt, refreshed);
    var n := NextOf(o, t, attempt, refreshed, r);
    if n.Go? {
      var rest := Execute(o, env, n.attempt, n.refreshed, f + 1, n.refreshes).actions;
      WaitsFrom(o, env, n.attempt, n.refreshed, f + 1, n.refreshes);
      WaitsAdd(t.actions, n.between);
      WaitsAdd(t.actions + n.between, rest);
      WaitsPrepend(attempt, n, Waits(rest));
    }
  }

  lemma WaitsPrepend(attempt: nat, n: Next, rest: seq<nat>)
    requires n.Go? && attempt <= 3
    requires (n.attempt == attempt && n.between == []) || (n.attempt == attempt + 1 <= 3 && n.between == [Wait(BACKOFF[attempt])])
    requires var table: seq<nat> := [1000, 2000, 4000]; rest <= table[n.attempt..]
    ensures var table: seq<nat> := [1000, 2000, 4000]; Waits(n.between) + rest <= table[attempt..]
  {
    var table: seq<nat> := [1000, 2000, 4000];
    if n.between != [] {
      assert n.between[1..] == [];
      assert table[attempt..] == [table[attempt]] + table[attempt + 1..];
    }
  }

  /** So a call waits one second, then two, then four, and no more; with skipRetry not at all. */
  lemma WaitsInOrder(o: RequestOptions, env: Env)
    ensures Waits(Execute(o, env, 0, false, 0, 0).actions) <= [1000, 2000, 4000]
    ensures o.skipRetry ==> Waits(Execute(o, env, 0, false, 0, 0).actions) == []
  {
    WaitsFrom(o, env, 0, false, 0, 0);
    var table: seq<nat> := [1000, 2000, 4000];
    assert table[0..] == table;
  }
}
