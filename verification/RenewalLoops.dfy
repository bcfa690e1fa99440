/**
 The life of the background renewal loops: how many can run, what stops them,
 and what `Close` does and does not end. Loops are goroutines, numbered in the
 order they were started; their steps interleave with those of other callers.
 Only the fields that decide whether a loop runs are kept.
 */
module RenewalLoops {
  import opened Options

  /**
   Where a loop is: about to look at the token, asleep, waiting for a renewal reply, or
   finished. A renewal sent after the loop's context was cancelled cannot succeed.
   */
  datatype Phase = Looking | Sleeping | Renewing(inTime: bool) | Finished

  datatype State = State(ttl: int, failures: nat, cancel: Option<nat>, loops: seq<Phase>, cancelled: set<nat>)

  datatype Grant = Grant(ttl: int, renewable: bool)

  datatype Event =
    | Authenticated(ttl: int, renewable: bool)
    | LookedUp(ttl: int)
    | Look(loop: nat)
    | Wake(loop: nat)
    | SeeCancel(loop: nat)
    | RenewalRefused(loop: nat)
    | RenewalGranted(loop: nat, grant: Option<Grant>)
    | Close

  /** Storing a lifetime; a renewable one starts a loop unless one is registered already. */
  function Applied(s: State, ttl: int, renewable: bool): State {
    if renewable && s.cancel.None?
    then s.(ttl := ttl, cancel := Some(|s.loops|), loops := s.loops + [Looking])
    else s.(ttl := ttl)
  }

  function Moved(s: State, loop: nat, phase: Phase): State
    requires loop < |s.loops|
  {
    s.(loops := s.loops[loop := phase])
  }

  predicate Enabled(s: State, e: Event) {
    match e
    case Authenticated(_, _) => true
    case LookedUp(_) => true
    case Look(l) => l < |s.loops| && s.loops[l].Looking?
    case Wake(l) => l < |s.loops| && s.loops[l].Sleeping?
    case SeeCancel(l) => l < |s.loops| && s.loops[l].Sleeping? && l in s.cancelled
    case RenewalRefused(l) => l < |s.loops| && s.loops[l].Renewing?
    case RenewalGranted(l, _) => l < |s.loops| && s.loops[l].Renewing? && s.loops[l].inTime
    case Close => true
  }

  function Step(s: State, e: Event): State
    requires Enabled(s, e)
  {
    match e
    case Authenticated(ttl, renewable) => Applied(s, ttl, renewable)
    case LookedUp(ttl) => if ttl <= 0 then s else Applied(s, ttl, true)
    case Look(l) => Moved(s, l, if s.ttl <= 0 then Finished else Sleeping)
    case Wake(l) => Moved(s, l, Renewing(l !in s.cancelled))
    case SeeCancel(l) => Moved(s, l, Finished)
    case RenewalRefused(l) => Moved(s, l, Looking).(failures := s.failures + 1)
    case RenewalGranted(l, grant) =>
      var renewed := Moved(s, l, Looking).(failures := 0);
      if grant.None? then renewed else Applied(renewed, grant.value.ttl, grant.value.renewable)
    case Close =>
      if s.cancel.None? then s
      else s.(cancelled := s.cancelled + {s.cancel.value}, cancel := None)
  }

  const FRESH := State(0, 0, None, [], {})

  ghost predicate Legal(s: State, es: seq<Event>)
    decreases |es|, 0
  {
    es == [] || (Legal(s, es[..|es| - 1]) && Enabled(After(s, es[..|es| - 1]), es[|es| - 1]))
  }

  ghost function After(s: State, es: seq<Event>): State
    requires Legal(s, es)
    decreases |es|, 1
  {
    if es == [] then s else Step(After(s, es[..|es| - 1]), es[|es| - 1])
  }

  /** The provider's own methods, on its fields. */
  class Registry {
    var ttl: int
    var failures: nat
    var cancel: Option<nat>
    var loops: seq<Phase>
    var cancelled: set<nat>

    function View(): State
      reads this
    {
      State(ttl, failures, cancel, loops, cancelled)
    }

    constructor ()
      ensures View() == FRESH
    {
      ttl, failures, cancel, loops, cancelled := 0, 0, None, [], {};
    }

    method ApplyTtl(lifetime: int, renewable: bool)
      modifies this
      ensures View() == Applied(old(View()), lifetime, renewable)
    {
      ttl := lifetime;
      if renewable {
        StartRenewalLoop();
      }
    }

    method StartRenewalLoop()
      modifies this`cancel, this`loops
      ensures old(cancel).Some? ==> cancel == old(cancel) && loops == old(loops)
      ensures old(cancel).None? ==> cancel == Some(|old(loops)|) && loops == old(loops) + [Looking]
    {
      if cancel.Some? {
        return;
      }
      cancel := Some(|loops|);
      loops := loops + [Looking];
    }

    method CloseProvider()
      modifies this
      ensures View() == Step(old(View()), Close)
    {
      if cancel.Some? {
        cancelled := cancelled + {cancel.value};
        cancel := None;
      }
    }
  }

  // ---------- At most one ----------

  ghost predicate Registered(s: State) {
    && (forall l :: 0 <= l < |s.loops| && l !in s.cancelled ==> s.cancel == Some(l))
    && (forall l :: l in s.cancelled ==> l < |s.loops| && s.cancel != Some(l))
    && (s.cancel.Some? ==> s.cancel.value < |s.loops|)
  }

  /** In every run at most one loop has a context that is not cancelled, and it is the registered one. */
  lemma {:induction false} AtMostOneLoop(es: seq<Event>)
    requires Legal(FRESH, es)
    ensures Registered(After(FRESH, es))
    decreases |es|
  {
    if es != [] {
      AtMostOneLoop(es[..|es| - 1]);
    }
  }

  // ---------- A registered loop that has finished ----------

  /** The registered loop has returned, so nothing renews the token, yet no new loop may start. */
  predicate Stranded(s: State) {
    s.cancel.Some? && s.cancel.value < |s.loops| && s.loops[s.cancel.value].Finished?
  }

  /** Running loops that still heed no cancellation. */
  ghost predicate NoLiveLoop(s: State) {
    forall l :: 0 <= l < |s.loops| && l !in s.cancelled ==> s.loops[l].Finished?
  }

  /** Such a state is reached by an authentication whose lifetime is zero. */
  lemma StrandingHappens(es: seq<Event>)
    requires es == [Authenticated(0, true), Look(0)]
    ensures Legal(FRESH, es) && Stranded(After(FRESH, es))
  {
    var first := [Authenticated(0, true)];
    Extend(FRESH, [], first[0]);
    assert [] + first == first && After(FRESH, first) == State(0, 0, Some(0), [Looking], {});
    Extend(FRESH, first, Look(0));
    assert first + [Look(0)] == es;
  }

  /** Until `Close`, no authentication whatever restarts renewal for a provider whose registered loop returned. */
  lemma {:induction false} StrandedUntilClose(s: State, es: seq<Event>)
    requires Registered(s) && Stranded(s) && Legal(s, es)
    requires forall i :: 0 <= i < |es| ==> !es[i].Close?
    ensures Registered(After(s, es)) && Stranded(After(s, es)) && NoLiveLoop(After(s, es))
    decreases |es|
  {
    if es != [] {
      StrandedUntilClose(s, es[..|es| - 1]);
    }
  }

  /** A step strands the provider exactly when its registered loop looks at a lifetime that is not positive. */
  lemma StrandedExactlyWhen(s: State, e: Event)
    requires Registered(s) && Enabled(s, e) && !Stranded(s)
    ensures Stranded(Step(s, e)) <==> e.Look? && s.cancel == Some(e.loop) && s.ttl <= 0
  {
  }

  // ---------- Close ----------

  lemma Extend(s: State, es: seq<Event>, e: Event)
    requires Legal(s, es) && Enabled(After(s, es), e)
    ensures Legal(s, es + [e]) && After(s, es + [e]) == Step(After(s, es), e)
  {
    assert (es + [e])[..|es|] == es;
  }

  /** `Close` is not final: a renewal reply already under way starts a new, uncancelled loop after it. */
  lemma CloseCanBeUndone() returns (es: seq<Event>)
    ensures Legal(FRESH, es) && |es| == 5 && es[3] == Close
    ensures var s := After(FRESH, es); |s.loops| == 2 && 1 !in s.cancelled && s.loops[1].Looking?
  {
    es := [] + [Authenticated(100, true)];
    Extend(FRESH, [], Authenticated(100, true));
    assert After(FRESH, es) == State(100, 0, Some(0), [Looking], {});
    Extend(FRESH, es, Look(0));
    es := es + [Look(0)];
    assert After(FRESH, es) == State(100, 0, Some(0), [Sleeping], {});
    Extend(FRESH, es, Wake(0));
    es := es + [Wake(0)];
    assert After(FRESH, es) == State(100, 0, Some(0), [Renewing(true)], {});
    Extend(FRESH, es, Close);
    es := es + [Close];
    assert After(FRESH, es) == State(100, 0, None, [Renewing(true)], {0});
    Extend(FRESH, es, RenewalGranted(0, Some(Grant(100, true))));
    es := es + [RenewalGranted(0, Some(Grant(100, true)))];
  }

  ghost predicate NoAuthentication(es: seq<Event>) {
    forall i :: 0 <= i < |es| ==> !es[i].Authenticated? && !es[i].LookedUp?
  }

  /** A renewal was sent before its loop was cancelled and has not been answered. */
  ghost predicate RenewalUnderWay(s: State) {
    exists l :: 0 <= l < |s.loops| && s.loops[l] == Renewing(true)
  }

  lemma {:induction false} ClosedStays(s: State, es: seq<Event>)
    requires Registered(s) && s.cancel.None? && !RenewalUnderWay(s) && Legal(s, es) && NoAuthentication(es)
    ensures After(s, es).cancel.None? && Registered(After(s, es)) && !RenewalUnderWay(After(s, es))
    decreases |es|
  {
    if es != [] {
      ClosedStays(s, es[..|es| - 1]);
    }
  }

  lemma ReplyRestarts(s: State, l: nat) returns (es: seq<Event>)
    requires l < |s.loops| && s.loops[l] == Renewing(true) && s.cancel.None?
    ensures Legal(s, es) && NoAuthentication(es) && After(s, es).cancel.Some?
  {
    es := [RenewalGranted(l, Some(Grant(100, true)))];
    assert es[..0] == [] && After(s, []) == s;
  }

  /**
   Once `Close` has run, and with no authentication after it, no loop is ever started
   again exactly when no renewal was under way: then every loop stays cancelled.
   */
  lemma CloseIsFinalIff(s: State)
    requires Registered(s) && s.cancel.None?
    ensures (forall es :: Legal(s, es) && NoAuthentication(es) ==> After(s, es).cancel.None?) <==> !RenewalUnderWay(s)
  {
    if l :| 0 <= l < |s.loops| && s.loops[l] == Renewing(true) {
      var es := ReplyRestarts(s, l);
    } else {
      forall es | Legal(s, es) && NoAuthentication(es)
        ensures After(s, es).cancel.None?
      {
        ClosedStays(s, es);
      }
    }
  }
}
