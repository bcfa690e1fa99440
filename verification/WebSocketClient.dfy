/**
 The reconnecting WebSocket client. The browser's sockets are part of the state:
 each is connecting, open, failed or closed, in that order, and delivers its
 events accordingly. Handlers are identified by numbers. Subscribe messages that
 reach a socket are recorded; other traffic is not.
 */
module WebSocketClient {
  import opened Options

  datatype ConnectionState = Disconnected | Connecting | Connected | Reconnecting

  datatype SocketPhase = Opening | Open | Failed | Closed

  datatype State = State(
    socket: Option<nat>,
    subscriptions: map<string, set<nat>>,
    timer: Option<int>,
    attempt: nat,
    state: ConnectionState,
    sockets: seq<SocketPhase>,
    sent: set<(nat, string)>)

  datatype Event =
    | Opened(socket: nat)
    | Errored(socket: nat)
    | SocketClosed(socket: nat)
    | TimerFired
    | Subscribe(channel: string, handler: nat)
    | Observe(channel: string, handler: nat)
    | Unsubscribe(channel: string, handler: nat)

  const DELAYS: seq<int> := [1000, 2000, 4000, 8000, 16000, 30000]

  /** The delay before reconnection attempt number `attempt`. */
  function DelayFor(attempt: nat): int {
    DELAYS[if attempt < |DELAYS| - 1 then attempt else |DELAYS| - 1]
  }

  /** Opening a socket, unless a live one is already connected or connecting. */
  function ConnectSpec(s: State): State {
    if s.socket.Some? && (s.state.Connected? || s.state.Connecting?) then s
    else s.(state := if s.attempt > 0 then Reconnecting else Connecting,
            socket := Some(|s.sockets|),
            sockets := s.sockets + [Opening])
  }

  function ReconnectScheduled(s: State): State {
    if s.timer.Some? then s else s.(timer := Some(DelayFor(s.attempt)))
  }

  function WithHandler(subs: map<string, set<nat>>, channel: string, handler: nat): map<string, set<nat>> {
    subs[channel := (if channel in subs then subs[channel] else {}) + {handler}]
  }

  function WithoutHandler(subs: map<string, set<nat>>, channel: string, handler: nat): map<string, set<nat>> {
    if channel !in subs then subs
    else if subs[channel] - {handler} == {} then subs - {channel}
    else subs[channel := subs[channel] - {handler}]
  }

  /** What the browser allows: a socket opens at most once, fails at most once, and closes last. */
  predicate Enabled(s: State, e: Event) {
    match e
    case Opened(i) => i < |s.sockets| && s.sockets[i].Opening?
    case Errored(i) => i < |s.sockets| && (s.sockets[i].Opening? || s.sockets[i].Open?)
    case SocketClosed(i) => i < |s.sockets| && !s.sockets[i].Closed?
    case TimerFired => s.timer.Some?
    case _ => true
  }

  function Step(s: State, e: Event): State
    requires Enabled(s, e)
  {
    match e
    case Opened(i) =>
      s.(sockets := s.sockets[i := Open], attempt := 0, state := Connected,
         sent := if s.socket.None? then s.sent
                 else s.sent + set c | c in s.subscriptions :: (s.socket.value, c))
    case Errored(i) => s.(sockets := s.sockets[i := Failed], state := Disconnected)
    case SocketClosed(i) =>
      ReconnectScheduled(s.(sockets := s.sockets[i := Closed], socket := None, state := Disconnected))
    case TimerFired => ConnectSpec(s.(timer := None, attempt := s.attempt + 1))
    case Subscribe(c, h) =>
      s.(subscriptions := WithHandler(s.subscriptions, c, h),
         sent := if s.state.Connected? && s.socket.Some? then s.sent + {(s.socket.value, c)} else s.sent)
    case Observe(c, h) => s.(subscriptions := WithHandler(s.subscriptions, c, h))
    case Unsubscribe(c, h) => s.(subscriptions := WithoutHandler(s.subscriptions, c, h))
  }

  const FRESH := State(None, map[], None, 0, Disconnected, [], {})

  class Client {
    var socket: Option<nat>
    var subscriptions: map<string, set<nat>>
    var timer: Option<int>
    var attempt: nat
    var state: ConnectionState
    var sockets: seq<SocketPhase>
    var sent: set<(nat, string)>

    function View(): State
      reads this
    {
      State(socket, subscriptions, timer, attempt, state, sockets, sent)
    }

    constructor ()
      ensures View() == FRESH
    {
      socket, subscriptions, timer, attempt := None, map[], None, 0;
      state, sockets, sent := Disconnected, [], {};
    }

    method Connect()
      modifies this
      ensures View() == ConnectSpec(old(View()))
    {
      if socket.Some? && (state.Connected? || state.Connecting?) {
        return;
      }
      state := if attempt > 0 then Reconnecting else Connecting;
      socket := Some(|sockets|);
      sockets := sockets + [Opening];
    }

    method Send(channel: string)
      modifies this`sent
      ensures sent == if socket.Some? && state.Connected? then old(sent) + {(socket.value, channel)} else old(sent)
    {
      if socket.None? || !state.Connected? {
        return;
      }
      sent := sent + {(socket.value, channel)};
    }

    method OnOpen(i: nat)
      requires Enabled(View(), Opened(i))
      modifies this
      ensures View() == Step(old(View()), Opened(i))
    {
      sockets := sockets[i := Open];
      attempt := 0;
      state := Connected;
      var pending := subscriptions.Keys;
      while pending != {}
        invariant pending <= subscriptions.Keys
        invariant sent == if socket.None? then old(sent)
                          else old(sent) + set c | c in subscriptions && c !in pending :: (socket.value, c)
        invariant unchanged(this`socket, this`subscriptions, this`timer)
        invariant attempt == 0 && state == Connected && sockets == old(sockets)[i := Open]
        decreases pending
      {
        var channel :| channel in pending;
        Send(channel);
        pending := pending - {channel};
      }
    }

    method OnError(i: nat)
      requires Enabled(View(), Errored(i))
      modifies this
      ensures View() == Step(old(View()), Errored(i))
    {
      sockets := sockets[i := Failed];
      state := Disconnected;
    }

    method OnClose(i: nat)
      requires Enabled(View(), SocketClosed(i))
      modifies this
      ensures View() == Step(old(View()), SocketClosed(i))
    {
      sockets := sockets[i := Closed];
      socket := None;
      state := Disconnected;
      ScheduleReconnect();
    }

    method ScheduleReconnect()
      modifies this
      ensures View() == ReconnectScheduled(old(View()))
    {
      if timer.Some? {
        return;
      }
      timer := Some(DELAYS[if attempt < |DELAYS| - 1 then attempt else |DELAYS| - 1]);
    }

    method OnTimer()
      requires Enabled(View(), TimerFired)
      modifies this
      ensures View() == Step(old(View()), TimerFired)
    {
      timer := None;
      attempt := attempt + 1;
      Connect();
    }

    method SubscribeTo(channel: string, handler: nat)
      modifies this
      ensures View() == Step(old(View()), Subscribe(channel, handler))
    {
      var handlers := if channel in subscriptions then subscriptions[channel] else {};
      subscriptions := subscriptions[channel := handlers + {handler}];
      if state.Connected? {
        Send(channel);
      }
    }

    method ObserveOn(channel: string, handler: nat)
      modifies this
      ensures View() == Step(old(View()), Observe(channel, handler))
    {
      var handlers := if channel in subscriptions then subscriptions[channel] else {};
      subscriptions := subscriptions[channel := handlers + {handler}];
    }

    method UnsubscribeFrom(channel: string, handler: nat)
      modifies this
      ensures View() == Step(old(View()), Unsubscribe(channel, handler))
    {
      if channel !in subscriptions {
        return;
      }
      var handlers := subscriptions[channel] - {handler};
      if handlers == {} {
        subscriptions := subscriptions - {channel};
      } else {
        subscriptions := subscriptions[channel := handlers];
      }
    }
  }

  // ---------- Runs: one connect() by the application, then events ----------

  ghost predicate Legal(es: seq<Event>)
    decreases |es|, 0
  {
    es == [] || (Legal(es[..|es| - 1]) && Enabled(After(es[..|es| - 1]), es[|es| - 1]))
  }

  ghost function After(es: seq<Event>): State
    requires Legal(es)
    decreases |es|, 1
  {
    if es == [] then ConnectSpec(FRESH) else Step(After(es[..|es| - 1]), es[|es| - 1])
  }

  /** Either the client's socket is the one live socket, or there is none and a reconnection is pending. */
  ghost predicate OneLink(s: State) {
    && (s.timer.Some? <==> s.socket.None?)
    && (s.socket.Some? ==> s.socket.value < |s.sockets| && !s.sockets[s.socket.value].Closed?)
    && (forall i :: 0 <= i < |s.sockets| && !s.sockets[i].Closed? ==> s.socket == Some(i))
    && (s.state.Connected? <==> s.socket.Some? && s.sockets[s.socket.value].Open?)
  }

  lemma StepKeepsLink(s: State, e: Event)
    requires Enabled(s, e) && OneLink(s)
    ensures OneLink(Step(s, e))
  {
  }

  /** In every run exactly one of a live socket and a pending timer exists, and connected means an open socket. */
  lemma {:induction false} OneLinkAlways(es: seq<Event>)
    requires Legal(es)
    ensures OneLink(After(es))
    decreases |es|
  {
    if es != [] {
      OneLinkAlways(es[..|es| - 1]);
      StepKeepsLink(After(es[..|es| - 1]), es[|es| - 1]);
    }
  }

  // ---------- Connected means subscribed ----------

  /** The handlers the application has subscribed, and not since unsubscribed, per the events alone. */
  ghost function Wanted(es: seq<Event>): set<(string, nat)> {
    if es == [] then {}
    else
      var before := Wanted(es[..|es| - 1]);
      match es[|es| - 1]
      case Subscribe(c, h) => before + {(c, h)}
      case Unsubscribe(c, h) => before - {(c, h)}
      case _ => before
  }

  /** The handlers registered by either call, per the events alone. */
  ghost function Listening(es: seq<Event>): set<(string, nat)> {
    if es == [] then {}
    else
      var before := Listening(es[..|es| - 1]);
      match es[|es| - 1]
      case Subscribe(c, h) => before + {(c, h)}
      case Observe(c, h) => before + {(c, h)}
      case Unsubscribe(c, h) => before - {(c, h)}
      case _ => before
  }

  /** The channels a subscribe message is due for on the current connection: those registered when it
      opened and those subscribed since. */
  ghost function Due(es: seq<Event>): set<string> {
    if es == [] then {}
    else
      var before := es[..|es| - 1];
      match es[|es| - 1]
      case Opened(_) => set p | p in Listening(before) :: p.0
      case Subscribe(c, _) => Due(before) + {c}
      case _ => Due(before)
  }

  predicate Registers(subs: map<string, set<nat>>, c: string, h: nat) {
    c in subs && h in subs[c]
  }

  ghost predicate SubscriptionsMatch(s: State, es: seq<Event>) {
    && (forall c :: c in s.subscriptions ==> s.subscriptions[c] != {})
    && (forall c, h: nat :: (c, h) in Listening(es) <==> Registers(s.subscriptions, c, h))
  }

  lemma HandlerAdded(subs: map<string, set<nat>>, channel: string, handler: nat, c: string, h: nat)
    ensures Registers(WithHandler(subs, channel, handler), c, h) <==> Registers(subs, c, h) || (c, h) == (channel, handler)
  {
  }

  lemma HandlerRemoved(subs: map<string, set<nat>>, channel: string, handler: nat, c: string, h: nat)
    ensures Registers(WithoutHandler(subs, channel, handler), c, h) <==> Registers(subs, c, h) && (c, h) != (channel, handler)
  {
    if channel in subs && c == channel && h in subs[c] {
      assert h == handler || h in subs[channel] - {handler};
    }
  }

  lemma {:induction false} RegistryIsExact(es: seq<Event>)
    requires Legal(es)
    ensures SubscriptionsMatch(After(es), es)
    decreases |es|
  {
    if es != [] {
      var before := es[..|es| - 1];
      RegistryIsExact(before);
      var s, s' := After(before), After(es);
      match es[|es| - 1]
      case Subscribe(channel, handler) =>
        forall c, h: nat ensures (c, h) in Listening(es) <==> Registers(s'.subscriptions, c, h) {
          HandlerAdded(s.subscriptions, channel, handler, c, h);
        }
      case Observe(channel, handler) =>
        forall c, h: nat ensures (c, h) in Listening(es) <==> Registers(s'.subscriptions, c, h) {
          HandlerAdded(s.subscriptions, channel, handler, c, h);
        }
      case Unsubscribe(channel, handler) =>
        forall c, h: nat ensures (c, h) in Listening(es) <==> Registers(s'.subscriptions, c, h) {
          HandlerRemoved(s.subscriptions, channel, handler, c, h);
        }
      case _ =>
    }
  }

  lemma ChannelsOfListening(s: State, es: seq<Event>)
    requires SubscriptionsMatch(s, es)
    ensures s.subscriptions.Keys == set p | p in Listening(es) :: p.0
  {
    var channels := set p | p in Listening(es) :: p.0;
    forall c | c in s.subscriptions.Keys
      ensures c in channels
    {
      var h :| h in s.subscriptions[c];
      assert Registers(s.subscriptions, c, h);
      assert (c, h) in Listening(es) && (c, h).0 == c;
    }
    forall c | c in channels
      ensures c in s.subscriptions.Keys
    {
      var p :| p in Listening(es) && p.0 == c;
      assert (p.0, p.1) in Listening(es);
    }
  }

  /** While connected, the messages sent on the current socket are exactly the ones that are due. */
  ghost predicate SentExactly(s: State, es: seq<Event>) {
    && (forall i, c :: (i, c) in s.sent ==> i < |s.sockets| && !s.sockets[i].Opening?)
    && (s.state.Connected? && s.socket.Some? ==> forall c :: (s.socket.value, c) in s.sent <==> c in Due(es))
  }

  lemma StepKeepsSent(s: State, before: seq<Event>, es: seq<Event>)
    requires es != [] && before == es[..|es| - 1] && Enabled(s, es[|es| - 1])
    requires OneLink(s) && SubscriptionsMatch(s, before) && SentExactly(s, before)
    ensures SentExactly(Step(s, es[|es| - 1]), es)
  {
    match es[|es| - 1]
    case Opened(i) => ChannelsOfListening(s, before);
    case _ =>
  }

  lemma {:induction false} MessagesAreExact(es: seq<Event>)
    requires Legal(es)
    ensures SentExactly(After(es), es)
    decreases |es|
  {
    if es != [] {
      var before := es[..|es| - 1];
      MessagesAreExact(before);
      OneLinkAlways(before);
      RegistryIsExact(before);
      StepKeepsSent(After(before), before, es);
    }
  }

  lemma {:induction false} WantedIsDue(es: seq<Event>)
    requires Legal(es)
    ensures Wanted(es) <= Listening(es)
    ensures After(es).state.Connected? ==> forall p :: p in Wanted(es) ==> p.0 in Due(es)
    decreases |es|
  {
    if es != [] {
      var before := es[..|es| - 1];
      WantedIsDue(before);
      OneLinkAlways(before);
      if After(es).state.Connected? {
        forall p | p in Wanted(es)
          ensures p.0 in Due(es)
        {
          if es[|es| - 1].Opened? {
            assert p in Listening(before);
          }
        }
      }
    }
  }

  /**
   Whenever the client reports "connected", every channel that has a subscribed
   handler has had a subscribe message on the current socket.
   */
  lemma ConnectedMeansSubscribed(es: seq<Event>, channel: string, handler: nat)
    requires Legal(es) && After(es).state.Connected? && (channel, handler) in Wanted(es)
    ensures After(es).socket.Some? && (After(es).socket.value, channel) in After(es).sent
  {
    OneLinkAlways(es);
    MessagesAreExact(es);
    WantedIsDue(es);
    assert (channel, handler).0 in Due(es);
  }

  /** For handlers added by `observe` alone it can fail: a channel first observed while connected gets no message. */
  lemma ObservedChannelCanBeSilent() returns (es: seq<Event>)
    ensures Legal(es) && After(es).state.Connected? && After(es).socket == Some(0)
    ensures ("alerts", 7) in Listening(es) && (0, "alerts") !in After(es).sent
  {
    es := [Opened(0), Observe("alerts", 7)];
    assert es[..1] == [Opened(0)] && es[..1][..0] == [];
    assert Legal([Opened(0)]);
  }

  /** Exactly when: a channel with a handler is silent on the current socket iff no message was due for it. */
  lemma SilentExactlyWhen(es: seq<Event>, channel: string)
    requires Legal(es) && After(es).state.Connected?
    ensures After(es).socket.Some?
    ensures (After(es).socket.value, channel) in After(es).sent <==> channel in Due(es)
  {
    OneLinkAlways(es);
    MessagesAreExact(es);
  }

  // ---------- Backoff ----------

  /** Sockets closed since one last opened. */
  ghost function ClosesSinceOpen(es: seq<Event>): nat {
    if es == [] then 0
    else
      match es[|es| - 1]
      case Opened(_) => 0
      case SocketClosed(_) => ClosesSinceOpen(es[..|es| - 1]) + 1
      case _ => ClosesSinceOpen(es[..|es| - 1])
  }

  function Pow2(k: nat): nat {
    if k == 0 then 1 else 2 * Pow2(k - 1)
  }

  lemma {:induction false} Pow2Grows(k: nat)
    requires k >= 5
    ensures Pow2(k) >= 32
    decreases k
  {
    if k == 5 {
      assert Pow2(5) == 2 * Pow2(4) && Pow2(3) == 8;
    } else {
      Pow2Grows(k - 1);
    }
  }

  /** The table is exponential growth from one second, capped at thirty. */
  lemma DelayClosedForm(k: nat)
    ensures DelayFor(k) == if 1000 * Pow2(k) < 30000 then 1000 * Pow2(k) else 30000
  {
    if k >= 5 {
      Pow2Grows(k);
    } else {
      assert Pow2(3) == 8 && Pow2(4) == 16;
    }
  }

  ghost predicate BackoffInv(s: State, es: seq<Event>) {
    ClosesSinceOpen(es) == Closes(s) && (s.timer.Some? ==> s.timer.value == DelayFor(s.attempt))
  }

  lemma {:induction false} BackoffAlways(es: seq<Event>)
    requires Legal(es)
    ensures BackoffInv(After(es), es)
    decreases |es|
  {
    if es != [] {
      BackoffAlways(es[..|es| - 1]);
      OneLinkAlways(es[..|es| - 1]);
      BackoffStep(After(es[..|es| - 1]), es[|es| - 1]);
    }
  }

  /** How one event moves the attempt counter and the timer. */
  lemma BackoffStep(s: State, e: Event)
    requires Enabled(s, e) && OneLink(s) && (s.timer.Some? ==> s.timer.value == DelayFor(s.attempt))
    ensures var s' := Step(s, e);
            var closes, closes' := Closes(s), Closes(s');
            && (s'.timer.Some? ==> s'.timer.value == DelayFor(s'.attempt))
            && closes' == match e case Opened(_) => 0 case SocketClosed(_) => closes + 1 case _ => closes
  {
  }

  /** The closes in a row that the counter and the timer stand for. */
  function Closes(s: State): nat {
    if s.timer.Some? then s.attempt + 1 else s.attempt
  }

  /** A pending reconnection after k + 1 closes in a row waits min(1000 * 2^k, 30000) milliseconds. */
  lemma BackoffForm(es: seq<Event>)
    requires Legal(es) && After(es).timer.Some?
    ensures ClosesSinceOpen(es) >= 1
    ensures var exponential := 1000 * Pow2(ClosesSinceOpen(es) - 1);
            After(es).timer.value == if exponential < 30000 then exponential else 30000
  {
    BackoffAlways(es);
    DelayClosedForm(ClosesSinceOpen(es) - 1);
  }

  // ---------- The reported state ----------

  /** The last event of a socket or of the timer, if there was one. */
  ghost function LastLinkEvent(es: seq<Event>): Option<Event> {
    if es == [] then None
    else
      match es[|es| - 1]
      case Subscribe(_, _) => LastLinkEvent(es[..|es| - 1])
      case Observe(_, _) => LastLinkEvent(es[..|es| - 1])
      case Unsubscribe(_, _) => LastLinkEvent(es[..|es| - 1])
      case e => Some(e)
  }

  /**
   In every run the reported state is that of the last socket or timer event: connecting before
   any, reconnecting after the timer, connected after an open, disconnected after an error or a
   close; and the attempts since the last open are counted by the timer.
   */
  lemma {:induction false} StateIsOfLastEvent(es: seq<Event>)
    requires Legal(es)
    ensures After(es).state == match LastLinkEvent(es)
                               case None => Connecting
                               case Some(Opened(_)) => Connected
                               case Some(TimerFired) => Reconnecting
                               case Some(_) => Disconnected
    ensures After(es).attempt == TimersSinceOpen(es)
    decreases |es|
  {
    if es != [] {
      StateIsOfLastEvent(es[..|es| - 1]);
      OneLinkAlways(es[..|es| - 1]);
    }
  }

  ghost function TimersSinceOpen(es: seq<Event>): nat {
    if es == [] then 0
    else
      match es[|es| - 1]
      case Opened(_) => 0
      case TimerFired => TimersSinceOpen(es[..|es| - 1]) + 1
      case _ => TimersSinceOpen(es[..|es| - 1])
  }

  /** Sockets are opened by the application's connect and by the timer, one each. */
  lemma {:induction false} SocketsCount(es: seq<Event>)
    requires Legal(es)
    ensures |After(es).sockets| == 1 + Timers(es)
    decreases |es|
  {
    if es != [] {
      SocketsCount(es[..|es| - 1]);
      OneLinkAlways(es[..|es| - 1]);
    }
  }

  ghost function Timers(es: seq<Event>): nat {
    if es == [] then 0 else Timers(es[..|es| - 1]) + if es[|es| - 1].TimerFired? then 1 else 0
  }
}
