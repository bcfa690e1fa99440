/**
 The browser's shared token refresh: one module variable holds the refresh in
 flight, and every caller that arrives meanwhile joins it. JavaScript runs one
 step at a time, so a step here is what happens between two awaits: a call, the
 reply to a POST, or a caller resuming after its promise has settled.
 */
module AuthRefresh {
  import opened Options

  datatype TokenPair = TokenPair(accessToken: string, refreshToken: string)

  datatype Store = Store(user: Option<string>, accessToken: Option<string>, refreshToken: Option<string>, isAuthenticated: bool)

  function SetTokens(st: Store, t: TokenPair): Store {
    st.(accessToken := Some(t.accessToken), refreshToken := Some(t.refreshToken),
        isAuthenticated := st.user.Some? || |t.accessToken| > 0)
  }

  function SetAuth(user: string, t: TokenPair): Store {
    Store(Some(user), Some(t.accessToken), Some(t.refreshToken), true)
  }

  const SIGNED_OUT := Store(None, None, None, false)

  datatype Outcome = Pending | Stored(pair: TokenPair) | Rejected

  /** A refresh: the token it posted, if it got that far, and how it ended. */
  datatype Refresh = Refresh(posted: Option<string>, outcome: Outcome)

  /** A caller leads the refresh it started or follows one it joined; a resumed caller has its answer. */
  datatype Caller = Leading(refresh: nat) | Following(refresh: nat) | Resumed(refresh: nat, outcome: Outcome)

  datatype State = State(store: Store, inflight: Option<nat>, refreshes: seq<Refresh>, callers: seq<Caller>)

  datatype Event =
    | Call
    | ReplyStored(refresh: nat, pair: TokenPair)
    | ReplyRefused(refresh: nat)
    | ReplyLost(refresh: nat)
    | Resume(caller: nat)
    | SignIn(user: string, pair: TokenPair)
    | SignOut

  /** A missing or empty refresh token is never posted. */
  function Postable(st: Store): Option<string> {
    if st.refreshToken.Some? && st.refreshToken.value != "" then st.refreshToken else None
  }

  /** The refresh tokens whose POST has had its reply stored: the server has replaced them. */
  ghost function Replaced(s: State): set<string> {
    set i | 0 <= i < |s.refreshes| && s.refreshes[i].posted.Some? && s.refreshes[i].outcome.Stored? :: s.refreshes[i].posted.value
  }

  /** The environment's part: replies belong to a POST in flight, and a replaced token is never issued again. */
  ghost predicate Enabled(s: State, e: Event) {
    match e
    case Call => true
    case ReplyStored(r, pair) =>
      && r < |s.refreshes| && s.refreshes[r].outcome.Pending? && s.refreshes[r].posted.Some?
      && pair.refreshToken !in Replaced(s) && pair.refreshToken != s.refreshes[r].posted.value
    case ReplyRefused(r) => r < |s.refreshes| && s.refreshes[r].outcome.Pending?
    case ReplyLost(r) => r < |s.refreshes| && s.refreshes[r].outcome.Pending?
    case Resume(c) =>
      && c < |s.callers| && !s.callers[c].Resumed? && s.callers[c].refresh < |s.refreshes|
      && !s.refreshes[s.callers[c].refresh].outcome.Pending?
    case SignIn(_, pair) => pair.refreshToken !in Replaced(s)
    case SignOut => true
  }

  function Settled(s: State, r: nat, outcome: Outcome): State
    requires r < |s.refreshes|
  {
    s.(refreshes := s.refreshes[r := s.refreshes[r].(outcome := outcome)])
  }

  /** Starting a refresh: a POST goes out, or with nothing to post the user is signed out at once. */
  function Started(s: State): State {
    var token := Postable(s.store);
    var r := |s.refreshes|;
    s.(inflight := Some(r), callers := s.callers + [Leading(r)],
       refreshes := s.refreshes + [Refresh(token, if token.Some? then Pending else Rejected)],
       store := if token.Some? then s.store else SIGNED_OUT)
  }

  ghost function Step(s: State, e: Event): State
    requires Enabled(s, e)
  {
    match e
    case Call =>
      if s.inflight.Some? then s.(callers := s.callers + [Following(s.inflight.value)]) else Started(s)
    case ReplyStored(r, pair) => Settled(s, r, Stored(pair)).(store := SetTokens(s.store, pair))
    case ReplyRefused(r) => Settled(s, r, Rejected).(store := SIGNED_OUT)
    case ReplyLost(r) => Settled(s, r, Rejected)
    case Resume(c) =>
      var caller := s.callers[c];
      var resumed := s.(callers := s.callers[c := Resumed(caller.refresh, s.refreshes[caller.refresh].outcome)]);
      if caller.Leading? then resumed.(inflight := None) else resumed
    case SignIn(user, pair) => s.(store := SetAuth(user, pair))
    case SignOut => s.(store := SIGNED_OUT)
  }

  class RefreshModule {
    var store: Store
    var inflight: Option<nat>
    var refreshes: seq<Refresh>
    var callers: seq<Caller>

    ghost function View(): State
      reads this
    {
      State(store, inflight, refreshes, callers)
    }

    constructor (initial: Store)
      ensures View() == State(initial, None, [], [])
    {
      store, inflight, refreshes, callers := initial, None, [], [];
    }

    method RefreshAccessToken()
      modifies this
      ensures View() == Step(old(View()), Call)
    {
      if inflight.Some? {
        callers := callers + [Following(inflight.value)];
        return;
      }
      inflight := Some(|refreshes|);
      callers := callers + [Leading(|refreshes|)];
      if store.refreshToken.None? || store.refreshToken.value == "" {
        store := SIGNED_OUT;
        refreshes := refreshes + [Refresh(None, Rejected)];
      } else {
        refreshes := refreshes + [Refresh(store.refreshToken, Pending)];
      }
    }

    method OnReply(r: nat, ok: bool, pair: TokenPair)
      requires Enabled(View(), if ok then ReplyStored(r, pair) else ReplyRefused(r))
      modifies this
      ensures View() == Step(old(View()), if ok then ReplyStored(r, pair) else ReplyRefused(r))
    {
      if !ok {
        store := SIGNED_OUT;
        refreshes := refreshes[r := refreshes[r].(outcome := Rejected)];
        return;
      }
      store := SetTokens(store, pair);
      refreshes := refreshes[r := refreshes[r].(outcome := Stored(pair))];
    }

    method OnResume(c: nat)
      requires Enabled(View(), Resume(c))
      modifies this
      ensures View() == Step(old(View()), Resume(c))
    {
      var caller := callers[c];
      callers := callers[c := Resumed(caller.refresh, refreshes[caller.refresh].outcome)];
      if caller.Leading? {
        inflight := None;
      }
    }
  }

  // ---------- Runs ----------

  ghost predicate Legal(s: State, es: seq<Event>)
    decreases |es|, 0
  {
    es == [] || (Legal(s, es[..|es| - 1]) && Enabled(After(s, es[..|es| - 1]), es[|es| - 1]))
  }

  ghost function After(s: State, es: seq<Event>): State
    requires Legal(s, es)
    decreases |es|, 1
  {
    if es == [] then s else Step(After(s, es[..|es| - 1]), es[|es| - 1])
  }

  ghost predicate Initial(s: State) {
    s.inflight.None? && s.refreshes == [] && s.callers == []
  }

  /** A refresh that has not settled, or whose leader has not resumed, is the one in flight. */
  ghost predicate SingleFlight(s: State) {
    && (forall r :: 0 <= r < |s.refreshes| && s.refreshes[r].outcome.Pending? ==> s.inflight == Some(r))
    && (forall c :: 0 <= c < |s.callers| && s.callers[c].Leading? ==> s.inflight == Some(s.callers[c].refresh))
    && (s.inflight.Some? ==> s.inflight.value == |s.refreshes| - 1)
    && (forall c :: 0 <= c < |s.callers| ==> s.callers[c].refresh < |s.refreshes|)
    && (forall c, d :: 0 <= c < d < |s.callers| && s.callers[c].Leading? ==> !s.callers[d].Leading?)
  }

  lemma StepKeepsSingleFlight(s: State, e: Event)
    requires Enabled(s, e) && SingleFlight(s)
    ensures SingleFlight(Step(s, e))
  {
  }

  /** At most one POST is outstanding in every run, and no leader clears a refresh other than its own. */
  lemma {:induction false} AtMostOneRefresh(s: State, es: seq<Event>)
    requires Initial(s) && Legal(s, es)
    ensures SingleFlight(After(s, es))
    decreases |es|
  {
    if es != [] {
      AtMostOneRefresh(s, es[..|es| - 1]);
      StepKeepsSingleFlight(After(s, es[..|es| - 1]), es[|es| - 1]);
    }
  }

  ghost predicate Answered(s: State) {
    forall c :: 0 <= c < |s.callers| && s.callers[c].Resumed? ==>
      && s.callers[c].refresh < |s.refreshes| && !s.callers[c].outcome.Pending?
      && s.callers[c].outcome == s.refreshes[s.callers[c].refresh].outcome
  }

  /** Every caller of one refresh, its leader or not, whenever it resumes, gets the same outcome. */
  lemma {:induction false} CallersAgree(s: State, es: seq<Event>)
    requires Initial(s) && Legal(s, es)
    ensures Answered(After(s, es))
    decreases |es|
  {
    if es != [] {
      CallersAgree(s, es[..|es| - 1]);
      AtMostOneRefresh(s, es[..|es| - 1]);
    }
  }

  ghost predicate TokensUnreplaced(s: State) {
    && (s.store.refreshToken.Some? ==> s.store.refreshToken.value !in Replaced(s))
    && (forall r, q :: 0 <= r < q < |s.refreshes| && s.refreshes[r].posted.Some? && s.refreshes[r].outcome.Stored? ==>
          s.refreshes[q].posted != s.refreshes[r].posted)
  }

  /** Only a stored reply replaces a token. */
  lemma ReplacedGrows(s: State, e: Event)
    requires Enabled(s, e) && SingleFlight(s)
    ensures Replaced(Step(s, e)) == Replaced(s) + if e.ReplyStored? then {s.refreshes[e.refresh].posted.value} else {}
  {
    var s' := Step(s, e);
    forall i | 0 <= i < |s.refreshes|
      ensures s'.refreshes[i] == s.refreshes[i] || s.refreshes[i].outcome.Pending?
    {
    }
    forall t | t in Replaced(s)
      ensures t in Replaced(s')
    {
      var i :| 0 <= i < |s.refreshes| && s.refreshes[i].posted.Some? && s.refreshes[i].outcome.Stored? && s.refreshes[i].posted.value == t;
      assert s'.refreshes[i] == s.refreshes[i];
    }
    if e.ReplyStored? {
      assert s'.refreshes[e.refresh].outcome.Stored?;
    }
  }

  /**
   Once a reply is stored, the refresh token it replaced is never posted again, and is
   never in the store, for a server that does not reissue it.
   */
  lemma {:induction false} ReplacedTokenNeverPosted(s: State, es: seq<Event>)
    requires Initial(s) && Legal(s, es)
    ensures TokensUnreplaced(After(s, es))
    decreases |es|
  {
    if es != [] {
      var before := After(s, es[..|es| - 1]);
      var e := es[|es| - 1];
      ReplacedTokenNeverPosted(s, es[..|es| - 1]);
      AtMostOneRefresh(s, es[..|es| - 1]);
      ReplacedGrows(before, e);
      var after := Step(before, e);
      forall r, q | 0 <= r < q < |after.refreshes| && after.refreshes[r].posted.Some? && after.refreshes[r].outcome.Stored?
        ensures after.refreshes[q].posted != after.refreshes[r].posted
      {
        if q == |before.refreshes| {
          assert before.refreshes[r].posted.value in Replaced(before);
        }
      }
    }
  }

  // ---------- Signing out during a refresh ----------

  ghost predicate PostOutstanding(s: State) {
    exists r :: 0 <= r < |s.refreshes| && s.refreshes[r].outcome.Pending? && s.refreshes[r].posted.Some?
  }

  ghost predicate NoSignIn(es: seq<Event>) {
    forall i :: 0 <= i < |es| ==> !es[i].SignIn?
  }

  lemma {:induction false} SignedOutStays(s: State, es: seq<Event>)
    requires s.store == SIGNED_OUT && !PostOutstanding(s) && Legal(s, es) && NoSignIn(es)
    ensures After(s, es).store == SIGNED_OUT && !PostOutstanding(After(s, es))
    decreases |es|
  {
    if es != [] {
      SignedOutStays(s, es[..|es| - 1]);
    }
  }

  lemma {:induction false} LongerThanAll(used: set<string>) returns (t: string)
    ensures forall u :: u in used ==> |u| < |t|
    decreases |used|
  {
    if used == {} {
      t := "";
    } else {
      var u :| u in used;
      t := LongerThanAll(used - {u});
      t := if |u| < |t| then t else u + "+";
    }
  }

  /** The reply to an outstanding POST puts tokens back after a sign-out. */
  lemma ReplyUndoesSignOut(s: State) returns (es: seq<Event>)
    requires s.store == SIGNED_OUT && PostOutstanding(s)
    ensures Legal(s, es) && NoSignIn(es) && After(s, es).store.isAuthenticated
  {
    var r :| 0 <= r < |s.refreshes| && s.refreshes[r].outcome.Pending? && s.refreshes[r].posted.Some?;
    var t := LongerThanAll(Replaced(s) + {s.refreshes[r].posted.value});
    es := [ReplyStored(r, TokenPair("access", t))];
    assert es[..0] == [] && After(s, []) == s;
    assert Enabled(s, es[0]);
  }

  lemma Extend(s: State, es: seq<Event>, e: Event)
    requires Legal(s, es) && Enabled(After(s, es), e)
    ensures Legal(s, es + [e]) && After(s, es + [e]) == Step(After(s, es), e)
  {
    assert (es + [e])[..|es|] == es;
  }

  const START := State(SIGNED_OUT, None, [], [])

  /** Signing in, refreshing and signing out leaves a POST outstanding. */
  lemma SignOutDuringRefresh(es: seq<Event>)
    requires es == [SignIn("ann", TokenPair("a1", "r1")), Call, SignOut]
    ensures Initial(START) && Legal(START, es)
    ensures After(START, es).store == SIGNED_OUT && PostOutstanding(After(START, es))
    ensures After(START, es).refreshes == [Refresh(Some("r1"), Pending)]
  {
    Extend(START, [], es[0]);
    assert [] + [es[0]] == es[..1];
    assert After(START, es[..1]).store == Store(Some("ann"), Some("a1"), Some("r1"), true);
    Extend(START, es[..1], Call);
    assert es[..1] + [Call] == es[..2];
    assert After(START, es[..2]).refreshes == [Refresh(Some("r1"), Pending)];
    Extend(START, es[..2], SignOut);
    assert es[..2] + [SignOut] == es;
    assert After(START, es).refreshes[0] == Refresh(Some("r1"), Pending);
  }

  /** So a whole run exists in which the reply signs the browser in again, with no sign-in after the sign-out. */
  lemma SignOutCanBeUndone() returns (es: seq<Event>)
    ensures Initial(START) && Legal(START, es) && |es| == 4 && es[2] == SignOut && es[3].ReplyStored?
    ensures After(START, es).store.isAuthenticated
  {
    es := [SignIn("ann", TokenPair("a1", "r1")), Call, SignOut];
    SignOutDuringRefresh(es);
    assert Replaced(After(START, es)) == {};
    Extend(START, es, ReplyStored(0, TokenPair("a2", "r2")));
    es := es + [ReplyStored(0, TokenPair("a2", "r2"))];
  }

  /** Signing out lasts, short of a new sign-in, exactly when no POST is outstanding at that moment. */
  lemma SignOutLastsIff(s: State)
    requires s.store == SIGNED_OUT
    ensures (forall es :: Legal(s, es) && NoSignIn(es) ==> After(s, es).store == SIGNED_OUT) <==> !PostOutstanding(s)
  {
    if PostOutstanding(s) {
      var es := ReplyUndoesSignOut(s);
      assert After(s, es).store != SIGNED_OUT;
    } else {
      forall es | Legal(s, es) && NoSignIn(es)
        ensures After(s, es).store == SIGNED_OUT
      {
        SignedOutStays(s, es);
      }
    }
  }

  // ---------- What the store holds ----------

  /**
   In plain terms: a reply stores both its tokens and keeps the user, who counts as signed in with
   a user or an access token; signing in stores user and tokens; signing out, a refusal, and a
   refresh with nothing to post clear everything; nothing else writes.
   */
  lemma StoreExactly(s: State, e: Event)
    requires Enabled(s, e)
    ensures var store, user := Step(s, e).store, s.store.user;
            match e
            case ReplyStored(_, pair) =>
              store == Store(user, Some(pair.accessToken), Some(pair.refreshToken), user.Some? || pair.accessToken != "")
            case SignIn(u, pair) => store == Store(Some(u), Some(pair.accessToken), Some(pair.refreshToken), true)
            case SignOut => store == Store(None, None, None, false)
            case ReplyRefused(_) => store == Store(None, None, None, false)
            case Call =>
              store == if s.inflight.None? && (s.store.refreshToken == None || s.store.refreshToken == Some(""))
                       then Store(None, None, None, false) else s.store
            case _ => store == s.store
  {
  }

  /** A call posts the stored refresh token exactly when no refresh is in flight and there is one that is not empty. */
  lemma PostExactly(s: State, token: string)
    ensures Step(s, Call).refreshes == s.refreshes + [Refresh(Some(token), Pending)]
       <==> s.inflight.None? && s.store.refreshToken == Some(token) && token != ""
    ensures s.inflight.Some? ==> Step(s, Call).refreshes == s.refreshes && Step(s, Call).callers == s.callers + [Following(s.inflight.value)]
  {
    assert Refresh(Some(token), Pending) == (s.refreshes + [Refresh(Some(token), Pending)])[|s.refreshes|];
  }

  /** The tokens in the store after a run: those of the last reply or sign-in, unless they were cleared since. */
  ghost function LatestPair(s: State, es: seq<Event>): Option<TokenPair>
    requires Legal(s, es)
    decreases |es|
  {
    if es == [] then None
    else
      match es[|es| - 1]
      case ReplyStored(_, pair) => Some(pair)
      case SignIn(_, pair) => Some(pair)
      case SignOut => None
      case ReplyRefused(_) => None
      case Call =>
        var latest := LatestPair(s, es[..|es| - 1]);
        if After(s, es[..|es| - 1]).inflight.None? && (latest.None? || latest.value.refreshToken == "") then None else latest
      case _ => LatestPair(s, es[..|es| - 1])
  }

  lemma {:induction false} StoreHoldsLatest(s: State, es: seq<Event>)
    requires s.store == Store(None, None, None, false) && Legal(s, es)
    ensures var store, latest := After(s, es).store, LatestPair(s, es);
            && store.accessToken == (if latest.Some? then Some(latest.value.accessToken) else None)
            && store.refreshToken == (if latest.Some? then Some(latest.value.refreshToken) else None)
    decreases |es|
  {
    if es != [] {
      StoreHoldsLatest(s, es[..|es| - 1]);
      StoreExactly(After(s, es[..|es| - 1]), es[|es| - 1]);
    }
  }
}
