/**
 The mock OpenID Connect provider: one-time authorization codes and expiring
 tokens kept in three dictionaries that the threads of the server share. A request
 begins by purging the dictionaries with one reading of the clock (seconds, as a real
 number) and is answered at a later instant; requests of other threads come in between.
 Only the purge looks at expiry. Random identifiers are inputs that were never issued
 before.
 */
module MockOidc {
  import opened Options
  import opened Text

  const CODE_TTL: real := 300.0
  const TOKEN_TTL: real := 3600.0

  /** What a code or token carries over from the authorize request. */
  datatype Grant = Grant(hint: string, clientId: string, nonce: string, expiresAt: real)

  type Dict = map<string, Grant>

  /** The subject of a user: taken from the seed file, or derived from the lower-cased login. */
  datatype Subject = Seeded(sub: string) | Derived(login: string)

  type Seeds = map<string, string>

  predicate IsAlnum(c: char) {
    'A' <= c <= 'Z' || 'a' <= c <= 'z' || '0' <= c <= '9'
  }

  predicate IsDynamicLogin(s: string) {
    && 1 <= |s| <= 81 && IsAlnum(s[0])
    && forall i :: 1 <= i < |s| ==> IsAlnum(s[i]) || s[i] == '_' || s[i] == '.' || s[i] == '-'
  }

  function ResolveSeed(seeds: Seeds, hint: string): Option<Subject> {
    if hint in seeds then Some(Seeded(seeds[hint]))
    else if IsDynamicLogin(hint) then Some(Derived(Lower(hint)))
    else None
  }

  /** Purging removes what has expired, the expiry instant included. */
  function Purged(d: Dict, now: real): Dict {
    map k | k in d && d[k].expiresAt > now :: d[k]
  }

  datatype Record =
    | Authorized(code: string, hint: string, clientId: string, nonce: string, at: real)
    | Exchanged(code: string, access: string, id: string, purgedAt: real, at: real)
    | IdReported(id: string, aud: string, nonce: string, sub: Subject, purgedAt: real, at: real)
    | UserReported(access: string, sub: Subject, purgedAt: real, at: real)
    | Refused(at: real)

  datatype Request =
    | Authorize(hint: string, clientId: string, nonce: string, code: string)
    | Token(code: string, access: string, id: string)
    | TokenInfo(id: string)
    | UserInfo(access: string)
    | Other

  /** A request that has purged and is not answered yet. */
  datatype Pending = Pending(request: Request, purgedAt: real)

  datatype State = State(codes: Dict, access: Dict, ids: Dict, pending: map<nat, Pending>, now: real, log: seq<Record>)

  datatype Event = Begin(thread: nat, request: Request, at: real) | Finish(thread: nat, at: real)

  predicate NewIn(log: seq<Record>, x: string) {
    forall i :: 0 <= i < |log| ==>
      && (log[i].Authorized? ==> log[i].code != x)
      && (log[i].Exchanged? ==> log[i].access != x && log[i].id != x)
  }

  /** The clock does not go back, a thread serves one request at a time, and random identifiers are new. */
  predicate Enabled(s: State, e: Event) {
    && s.now <= e.at
    && match e
       case Begin(thread, _, _) => thread !in s.pending
       case Finish(thread, _) =>
         && thread in s.pending
         && var request := s.pending[thread].request;
            && (request.Authorize? ==> NewIn(s.log, request.code))
            && (request.Token? ==> NewIn(s.log, request.access) && NewIn(s.log, request.id))
  }

  function PurgedState(s: State, at: real): State {
    s.(codes := Purged(s.codes, at), access := Purged(s.access, at), ids := Purged(s.ids, at), now := at)
  }

  /** The answer to a request, given at `at` from the dictionaries as they then are. */
  function Answer(seeds: Seeds, s: State, q: Pending, at: real): Record {
    match q.request
    case Authorize(hint, clientId, nonce, code) =>
      if ResolveSeed(seeds, hint).None? then Refused(at) else Authorized(code, hint, clientId, nonce, at)
    case Token(code, access, id) =>
      if code !in s.codes then Refused(at) else Exchanged(code, access, id, q.purgedAt, at)
    case TokenInfo(id) =>
      if id !in s.ids || ResolveSeed(seeds, s.ids[id].hint).None? then Refused(at)
      else IdReported(id, s.ids[id].clientId, s.ids[id].nonce, ResolveSeed(seeds, s.ids[id].hint).value, q.purgedAt, at)
    case UserInfo(token) =>
      if token !in s.access || ResolveSeed(seeds, s.access[token].hint).None? then Refused(at)
      else UserReported(token, ResolveSeed(seeds, s.access[token].hint).value, q.purgedAt, at)
    case Other => Refused(at)
  }

  /** What an answer leaves behind: a new code, or two new tokens in place of a code. */
  function Applied(p: State, r: Record): State
    requires r.Exchanged? ==> r.code in p.codes
  {
    var q := p.(log := p.log + [r]);
    match r
    case Authorized(code, hint, clientId, nonce, at) =>
      q.(codes := p.codes[code := Grant(hint, clientId, nonce, at + CODE_TTL)])
    case Exchanged(code, access, id, _, at) =>
      var grant := p.codes[code].(expiresAt := at + TOKEN_TTL);
      q.(codes := p.codes - {code}, access := p.access[access := grant], ids := p.ids[id := grant])
    case _ => q
  }

  /** The state in which a thread's answer is applied. */
  function Answering(s: State, thread: nat, at: real): State {
    s.(pending := s.pending - {thread}, now := at)
  }

  function Step(seeds: Seeds, s: State, e: Event): (s': State)
    requires Enabled(s, e)
    ensures s'.log == if e.Begin? then s.log else s.log + [Answer(seeds, s, s.pending[e.thread], e.at)]
  {
    match e
    case Begin(thread, request, at) => PurgedState(s, at).(pending := s.pending[thread := Pending(request, at)])
    case Finish(thread, at) => Applied(Answering(s, thread, at), Answer(seeds, s, s.pending[thread], at))
  }

  class Server {
    const seeds: Seeds
    var codes: Dict
    var access: Dict
    var ids: Dict
    var pending: map<nat, Pending>
    var now: real
    var log: seq<Record>

    function View(): State
      reads this
    {
      State(codes, access, ids, pending, now, log)
    }

    constructor (seeds: Seeds, start: real)
      ensures this.seeds == seeds && View() == State(map[], map[], map[], map[], start, [])
    {
      this.seeds := seeds;
      codes, access, ids, pending, now, log := map[], map[], map[], map[], start, [];
    }

    /** Removing the expired entries of one dictionary, one by one. */
    method Cleanup(d: Dict, at: real) returns (kept: Dict)
      ensures kept == Purged(d, at)
    {
      kept := d;
      var expired := set k | k in d && d[k].expiresAt <= at;
      ghost var gone: set<string> := {};
      while expired != {}
        invariant gone + expired == (set k | k in d && d[k].expiresAt <= at) && gone !! expired
        invariant kept == d - gone
        decreases expired
      {
        var k :| k in expired;
        kept := kept - {k};
        gone, expired := gone + {k}, expired - {k};
      }
    }

    method Start(thread: nat, request: Request, at: real)
      requires Enabled(View(), Begin(thread, request, at))
      modifies this
      ensures View() == Step(seeds, old(View()), Begin(thread, request, at))
    {
      codes := Cleanup(codes, at);
      access := Cleanup(access, at);
      ids := Cleanup(ids, at);
      pending := pending[thread := Pending(request, at)];
      now := at;
    }

    method Respond(thread: nat, at: real)
      requires Enabled(View(), Finish(thread, at))
      modifies this
      ensures View() == Step(seeds, old(View()), Finish(thread, at))
    {
      var q := pending[thread];
      pending := pending - {thread};
      now := at;
      var answer := Refused(at);
      match q.request {
        case Authorize(hint, clientId, nonce, code) =>
          if ResolveSeed(seeds, hint).Some? {
            codes := codes[code := Grant(hint, clientId, nonce, at + CODE_TTL)];
            answer := Authorized(code, hint, clientId, nonce, at);
          }
        case Token(code, newAccess, newId) =>
          if code in codes {
            var payload := codes[code];
            codes := codes - {code};
            access := access[newAccess := Grant(payload.hint, payload.clientId, payload.nonce, at + TOKEN_TTL)];
            ids := ids[newId := Grant(payload.hint, payload.clientId, payload.nonce, at + TOKEN_TTL)];
            answer := Exchanged(code, newAccess, newId, q.purgedAt, at);
          }
        case TokenInfo(id) =>
          if id in ids {
            var seed := ResolveSeed(seeds, ids[id].hint);
            if seed.Some? {
              answer := IdReported(id, ids[id].clientId, ids[id].nonce, seed.value, q.purgedAt, at);
            }
          }
        case UserInfo(token) =>
          if token in access {
            var seed := ResolveSeed(seeds, access[token].hint);
            if seed.Some? {
              answer := UserReported(token, seed.value, q.purgedAt, at);
            }
          }
        case Other =>
      }
      log := log + [answer];
    }

    /** A request that no other comes between. */
    method Handle(thread: nat, request: Request, purgedAt: real, at: real)
      requires Enabled(View(), Begin(thread, request, purgedAt))
      requires Enabled(Step(seeds, View(), Begin(thread, request, purgedAt)), Finish(thread, at))
      modifies this
      ensures View() == Step(seeds, Step(seeds, old(View()), Begin(thread, request, purgedAt)), Finish(thread, at))
    {
      Start(thread, request, purgedAt);
      Respond(thread, at);
    }
  }

  // ---------- Runs ----------

  ghost predicate Legal(seeds: Seeds, s: State, es: seq<Event>)
    decreases |es|, 0
  {
    es == [] || (Legal(seeds, s, es[..|es| - 1]) && Enabled(After(seeds, s, es[..|es| - 1]), es[|es| - 1]))
  }

  ghost function After(seeds: Seeds, s: State, es: seq<Event>): State
    requires Legal(seeds, s, es)
    decreases |es|, 1
  {
    if es == [] then s else Step(seeds, After(seeds, s, es[..|es| - 1]), es[|es| - 1])
  }

  ghost predicate Initial(s: State) {
    s.codes == map[] && s.access == map[] && s.ids == map[] && s.pending == map[] && s.log == []
  }

  /** Record i authorised the code with exactly what the grant carries. */
  predicate Backs(log: seq<Record>, i: int, code: string, g: Grant) {
    0 <= i < |log| && log[i].Authorized? && log[i].code == code
    && log[i].hint == g.hint && log[i].clientId == g.clientId && log[i].nonce == g.nonce
  }

  ghost predicate Unused(log: seq<Record>, code: string) {
    forall i :: 0 <= i < |log| && log[i].Exchanged? ==> log[i].code != code
  }

  ghost predicate CodeOk(log: seq<Record>, code: string, g: Grant) {
    Unused(log, code) && exists i :: Backs(log, i, code, g) && g.expiresAt == log[i].at + CODE_TTL
  }

  /** The token stems from the exchange in record j of the code authorised in record i. */
  predicate Stems(log: seq<Record>, i: int, j: int, token: string, isId: bool, g: Grant) {
    && 0 <= i < j < |log| && log[j].Exchanged? && (if isId then log[j].id else log[j].access) == token
    && Backs(log, i, log[j].code, g)
  }

  ghost predicate TokenOk(log: seq<Record>, token: string, isId: bool, g: Grant) {
    exists i, j :: Stems(log, i, j, token, isId, g) && g.expiresAt == log[j].at + TOKEN_TTL
  }

  /** What every record of the log means, in terms of the records before it. */
  ghost predicate Sound(seeds: Seeds, log: seq<Record>, k: int)
    requires 0 <= k < |log|
  {
    match log[k]
    case Exchanged(code, _, _, purgedAt, _) =>
      && Unused(log[..k], code)
      && exists i :: 0 <= i < k && log[i].Authorized? && log[i].code == code && purgedAt < log[i].at + CODE_TTL
    case IdReported(id, aud, nonce, sub, purgedAt, _) =>
      exists g: Grant, i, j :: Stems(log[..k], i, j, id, true, g) && purgedAt < log[j].at + TOKEN_TTL
        && aud == g.clientId && nonce == g.nonce && ResolveSeed(seeds, g.hint) == Some(sub)
    case UserReported(access, sub, purgedAt, _) =>
      exists g: Grant, i, j :: Stems(log[..k], i, j, access, false, g) && purgedAt < log[j].at + TOKEN_TTL
        && ResolveSeed(seeds, g.hint) == Some(sub)
    case _ => true
  }

  ghost predicate Inv(seeds: Seeds, s: State) {
    && (forall c :: c in s.codes ==> CodeOk(s.log, c, s.codes[c]))
    && (forall t :: t in s.access ==> TokenOk(s.log, t, false, s.access[t]))
    && (forall t :: t in s.ids ==> TokenOk(s.log, t, true, s.ids[t]))
    && (forall k :: 0 <= k < |s.log| ==> Sound(seeds, s.log, k))
    && (forall thread :: thread in s.pending ==> Live(s, s.pending[thread].purgedAt))
  }

  lemma TokenPersists(log: seq<Record>, r: Record, token: string, isId: bool, g: Grant)
    requires TokenOk(log, token, isId, g)
    ensures TokenOk(log + [r], token, isId, g)
  {
    var i, j :| Stems(log, i, j, token, isId, g) && g.expiresAt == log[j].at + TOKEN_TTL;
    assert Stems(log + [r], i, j, token, isId, g);
  }

  lemma CodePersists(log: seq<Record>, r: Record, code: string, g: Grant)
    requires CodeOk(log, code, g) && (r.Exchanged? ==> r.code != code)
    ensures CodeOk(log + [r], code, g)
  {
    var i :| Backs(log, i, code, g) && g.expiresAt == log[i].at + CODE_TTL;
    assert Backs(log + [r], i, code, g);
  }

  lemma SoundPersists(seeds: Seeds, log: seq<Record>, r: Record, k: int)
    requires 0 <= k < |log| && Sound(seeds, log, k)
    ensures Sound(seeds, log + [r], k)
  {
    assert (log + [r])[..k] == log[..k] && (log + [r])[k] == log[k];
    match log[k]
    case Exchanged(code, _, _, purgedAt, _) =>
      var i :| 0 <= i < k && log[i].Authorized? && log[i].code == code && purgedAt < log[i].at + CODE_TTL;
      assert (log + [r])[i] == log[i];
    case IdReported(id, aud, nonce, sub, purgedAt, _) =>
      var g: Grant, i, j :| Stems(log[..k], i, j, id, true, g) && purgedAt < log[j].at + TOKEN_TTL
        && aud == g.clientId && nonce == g.nonce && ResolveSeed(seeds, g.hint) == Some(sub);
      assert (log + [r])[j] == log[j];
    case UserReported(access, sub, purgedAt, _) =>
      var g: Grant, i, j :| Stems(log[..k], i, j, access, false, g) && purgedAt < log[j].at + TOKEN_TTL
        && ResolveSeed(seeds, g.hint) == Some(sub);
      assert (log + [r])[j] == log[j];
    case _ =>
  }

  /** The instant is past, and nothing in the dictionaries had expired by then. */
  ghost predicate Live(s: State, at: real) {
    && at <= s.now
    && (forall c :: c in s.codes ==> s.codes[c].expiresAt > at)
    && (forall t :: t in s.access ==> s.access[t].expiresAt > at)
    && (forall t :: t in s.ids ==> s.ids[t].expiresAt > at)
  }

  lemma BeginKeepsInv(seeds: Seeds, s: State, e: Event)
    requires Inv(seeds, s) && Enabled(s, e) && e.Begin?
    ensures Inv(seeds, Step(seeds, s, e))
  {
  }

  lemma ExchangeIsSound(seeds: Seeds, p: State, r: Record)
    requires Inv(seeds, p) && r.Exchanged? && r.code in p.codes && p.codes[r.code].expiresAt > r.purgedAt
    ensures Sound(seeds, p.log + [r], |p.log|)
  {
    var log' := p.log + [r];
    assert log'[..|p.log|] == p.log;
    assert CodeOk(p.log, r.code, p.codes[r.code]);
    var i :| Backs(p.log, i, r.code, p.codes[r.code]) && p.codes[r.code].expiresAt == p.log[i].at + CODE_TTL;
    assert log'[i] == p.log[i];
  }

  lemma IdReportIsSound(seeds: Seeds, p: State, r: Record)
    requires Inv(seeds, p) && r.IdReported? && r.id in p.ids && p.ids[r.id].expiresAt > r.purgedAt
    requires r.aud == p.ids[r.id].clientId && r.nonce == p.ids[r.id].nonce && ResolveSeed(seeds, p.ids[r.id].hint) == Some(r.sub)
    ensures Sound(seeds, p.log + [r], |p.log|)
  {
    var log' := p.log + [r];
    assert log'[..|p.log|] == p.log;
    assert TokenOk(p.log, r.id, true, p.ids[r.id]);
    var i, j :| Stems(p.log, i, j, r.id, true, p.ids[r.id]) && p.ids[r.id].expiresAt == p.log[j].at + TOKEN_TTL;
    assert log'[j] == p.log[j];
  }

  lemma UserReportIsSound(seeds: Seeds, p: State, r: Record)
    requires Inv(seeds, p) && r.UserReported? && r.access in p.access && p.access[r.access].expiresAt > r.purgedAt
    requires ResolveSeed(seeds, p.access[r.access].hint) == Some(r.sub)
    ensures Sound(seeds, p.log + [r], |p.log|)
  {
    var log' := p.log + [r];
    assert log'[..|p.log|] == p.log;
    assert TokenOk(p.log, r.access, false, p.access[r.access]);
    var i, j :| Stems(p.log, i, j, r.access, false, p.access[r.access]) && p.access[r.access].expiresAt == p.log[j].at + TOKEN_TTL;
    assert log'[j] == p.log[j];
  }

  lemma AnswerIsSound(seeds: Seeds, s: State, q: Pending, at: real)
    requires Inv(seeds, s) && Live(s, q.purgedAt)
    ensures Sound(seeds, s.log + [Answer(seeds, s, q, at)], |s.log|)
  {
    var r := Answer(seeds, s, q, at);
    match r
    case Exchanged(_, _, _, _, _) => ExchangeIsSound(seeds, s, r);
    case IdReported(_, _, _, _, _, _) => IdReportIsSound(seeds, s, r);
    case UserReported(_, _, _, _) => UserReportIsSound(seeds, s, r);
    case _ =>
  }

  /** A code that was never issued was never exchanged. */
  lemma NeverExchangedBefore(seeds: Seeds, s: State, c: string)
    requires Inv(seeds, s) && NewIn(s.log, c)
    ensures Unused(s.log, c)
  {
    forall i | 0 <= i < |s.log| && s.log[i].Exchanged?
      ensures s.log[i].code != c
    {
      assert Sound(seeds, s.log, i);
    }
  }

  lemma CodesStayOk(seeds: Seeds, p: State, r: Record, c: string)
    requires Inv(seeds, p) && (r.Exchanged? ==> r.code in p.codes) && (r.Authorized? ==> NewIn(p.log, r.code))
    requires c in Applied(p, r).codes
    ensures CodeOk(p.log + [r], c, Applied(p, r).codes[c])
  {
    if r.Authorized? && r.code == c {
      NeverExchangedBefore(seeds, p, c);
      assert Backs(p.log + [r], |p.log|, c, Applied(p, r).codes[c]);
    } else {
      CodePersists(p.log, r, c, p.codes[c]);
    }
  }

  lemma NewTokenOk(seeds: Seeds, p: State, r: Record, isId: bool)
    requires Inv(seeds, p) && r.Exchanged? && r.code in p.codes
    ensures TokenOk(p.log + [r], if isId then r.id else r.access, isId, p.codes[r.code].(expiresAt := r.at + TOKEN_TTL))
  {
    var g := p.codes[r.code];
    assert CodeOk(p.log, r.code, g);
    var i :| Backs(p.log, i, r.code, g) && g.expiresAt == p.log[i].at + CODE_TTL;
    assert Stems(p.log + [r], i, |p.log|, if isId then r.id else r.access, isId, g.(expiresAt := r.at + TOKEN_TTL));
  }

  lemma AnsweringKeepsInv(seeds: Seeds, s: State, thread: nat, at: real)
    requires Inv(seeds, s) && s.now <= at
    ensures Inv(seeds, Answering(s, thread, at))
  {
  }

  lemma StepKeepsInv(seeds: Seeds, s: State, e: Event)
    requires Inv(seeds, s) && Enabled(s, e)
    ensures Inv(seeds, Step(seeds, s, e))
  {
    if e.Begin? {
      BeginKeepsInv(seeds, s, e);
    } else {
      var r := Answer(seeds, s, s.pending[e.thread], e.at);
      AnswerIsSound(seeds, s, s.pending[e.thread], e.at);
      AnsweringKeepsInv(seeds, s, e.thread, e.at);
      ApplyKeepsInv(seeds, Answering(s, e.thread, e.at), r);
    }
  }

  /** New entries expire later than any instant past. */
  lemma ApplyKeepsLive(p: State, r: Record, at: real)
    requires Live(p, at) && (r.Exchanged? ==> r.code in p.codes) && (r.Authorized? || r.Exchanged? ==> r.at >= p.now)
    ensures Live(Applied(p, r), at)
  {
  }

  lemma ApplyKeepsInv(seeds: Seeds, p: State, r: Record)
    requires Inv(seeds, p) && (r.Exchanged? ==> r.code in p.codes) && (r.Authorized? ==> NewIn(p.log, r.code))
    requires (r.Authorized? || r.Exchanged? ==> r.at >= p.now) && Sound(seeds, p.log + [r], |p.log|)
    ensures Inv(seeds, Applied(p, r))
  {
    var after := Applied(p, r);
    forall c | c in after.codes ensures CodeOk(after.log, c, after.codes[c]) {
      CodesStayOk(seeds, p, r, c);
    }
    forall t | t in after.access ensures TokenOk(after.log, t, false, after.access[t]) {
      if r.Exchanged? && t == r.access { NewTokenOk(seeds, p, r, false); } else { TokenPersists(p.log, r, t, false, p.access[t]); }
    }
    forall t | t in after.ids ensures TokenOk(after.log, t, true, after.ids[t]) {
      if r.Exchanged? && t == r.id { NewTokenOk(seeds, p, r, true); } else { TokenPersists(p.log, r, t, true, p.ids[t]); }
    }
    forall k | 0 <= k < |after.log| ensures Sound(seeds, after.log, k) {
      if k < |p.log| { SoundPersists(seeds, p.log, r, k); }
    }
    forall thread | thread in after.pending ensures Live(after, after.pending[thread].purgedAt) {
      ApplyKeepsLive(p, r, p.pending[thread].purgedAt);
    }
  }

  lemma {:induction false} InvAlongRun(seeds: Seeds, s: State, es: seq<Event>)
    requires Initial(s) && Legal(seeds, s, es)
    ensures Inv(seeds, After(seeds, s, es))
    decreases |es|
  {
    if es != [] {
      InvAlongRun(seeds, s, es[..|es| - 1]);
      StepKeepsInv(seeds, After(seeds, s, es[..|es| - 1]), es[|es| - 1]);
    }
  }

  // ---------- One-time codes ----------

  /** Record k is the answer that some event m gave. */
  ghost predicate AnsweredBy(seeds: Seeds, s: State, es: seq<Event>, k: nat, m: nat)
    requires Legal(seeds, s, es) && k < |After(seeds, s, es).log|
  {
    && m < |es| && Legal(seeds, s, es[..m]) && es[m].Finish?
    && var before := After(seeds, s, es[..m]);
       && Enabled(before, es[m]) && before.log == After(seeds, s, es).log[..k]
       && After(seeds, s, es).log[k] == Answer(seeds, before, before.pending[es[m].thread], es[m].at)
  }

  lemma {:induction false} LogIsAnswers(seeds: Seeds, s: State, es: seq<Event>, k: nat) returns (m: nat)
    requires Initial(s) && Legal(seeds, s, es) && k < |After(seeds, s, es).log|
    ensures AnsweredBy(seeds, s, es, k, m)
    decreases |es|
  {
    var shorter := es[..|es| - 1];
    var before := After(seeds, s, shorter);
    if k < |before.log| {
      m := LogIsAnswers(seeds, s, shorter, k);
      assert shorter[..m] == es[..m] && shorter[m] == es[m];
      LogPrefix(before.log, After(seeds, s, es).log, k);
    } else {
      m := |es| - 1;
    }
  }

  lemma LogPrefix(log: seq<Record>, log': seq<Record>, k: nat)
    requires k < |log| <= |log'| && log'[..|log|] == log
    ensures log'[..k] == log[..k] && log'[k] == log[k]
  {
    assert log'[k] == log'[..|log|][k];
    assert log'[..k] == log'[..|log|][..k];
  }

  /** A waiting request purged when it began. */
  lemma {:induction false} PurgedWhenBegun(seeds: Seeds, s: State, es: seq<Event>, thread: nat) returns (b: nat)
    requires Initial(s) && Legal(seeds, s, es) && thread in After(seeds, s, es).pending
    ensures var q := After(seeds, s, es).pending[thread]; b < |es| && es[b] == Begin(thread, q.request, q.purgedAt)
    decreases |es|
  {
    if es[|es| - 1].Begin? && es[|es| - 1].thread == thread {
      b := |es| - 1;
    } else {
      b := PurgedWhenBegun(seeds, s, es[..|es| - 1], thread);
    }
  }

  lemma UsedOnce(log: seq<Record>, a: nat, b: nat)
    requires a < |log| && b < |log| && log[a].Exchanged? && log[b].Exchanged? && Unused(log[..b], log[b].code)
    ensures a < b ==> log[a].code != log[b].code
  {
    assert a < b ==> log[..b][a] == log[a];
  }

  /** In every run each code is exchanged at most once. */
  lemma CodesAreOneTime(seeds: Seeds, s: State, es: seq<Event>, a: nat, b: nat)
    requires Initial(s) && Legal(seeds, s, es)
    requires a < |After(seeds, s, es).log| && b < |After(seeds, s, es).log|
    requires After(seeds, s, es).log[a].Exchanged? && After(seeds, s, es).log[b].Exchanged?
    requires After(seeds, s, es).log[a].code == After(seeds, s, es).log[b].code
    ensures a == b
  {
    InvAlongRun(seeds, s, es);
    var log := After(seeds, s, es).log;
    assert Sound(seeds, log, a) && Sound(seeds, log, b);
    UsedOnce(log, a, b);
    UsedOnce(log, b, a);
  }

  /** The records issue the same code, or the same token. */
  predicate SameIssue(a: Record, b: Record) {
    || (a.Authorized? && b.Authorized? && a.code == b.code)
    || (a.Exchanged? && b.Exchanged? && (a.id == b.id || a.access == b.access))
  }

  lemma NewIssue(seeds: Seeds, s: State, e: Event, i: nat)
    requires Enabled(s, e) && e.Finish? && i < |s.log|
    ensures !SameIssue(s.log[i], Answer(seeds, s, s.pending[e.thread], e.at))
  {
  }

  /** In every run a code or token is issued once, so the request it stems from is the only one. */
  lemma IssuedOnce(seeds: Seeds, s: State, es: seq<Event>, a: nat, b: nat)
    requires Initial(s) && Legal(seeds, s, es) && a < b < |After(seeds, s, es).log|
    ensures !SameIssue(After(seeds, s, es).log[a], After(seeds, s, es).log[b])
  {
    var m := LogIsAnswers(seeds, s, es, b);
    NewIssue(seeds, After(seeds, s, es[..m]), es[m], a);
    assert After(seeds, s, es).log[..b][a] == After(seeds, s, es).log[a];
  }

  // ---------- Lifetimes ----------

  /**
   Every exchange purged less than 300 s after the code was issued. It answers within the
   300 s exactly when the code would also have survived a purge at the instant of the answer;
   otherwise it is late by no more than the time it took.
   */
  lemma ExchangedInTimeIff(seeds: Seeds, s: State, es: seq<Event>, k: nat) returns (i: int, m: nat)
    requires Initial(s) && Legal(seeds, s, es)
    requires k < |After(seeds, s, es).log| && After(seeds, s, es).log[k].Exchanged?
    ensures var log := After(seeds, s, es).log;
            && 0 <= i < k && log[i].Authorized? && log[i].code == log[k].code
            && AnsweredBy(seeds, s, es, k, m) && log[k].at == es[m].at
            && log[k].at < log[i].at + 300.0 + (log[k].at - log[k].purgedAt)
            && (log[k].at < log[i].at + 300.0 <==> log[k].code in Purged(After(seeds, s, es[..m]).codes, es[m].at))
  {
    m := LogIsAnswers(seeds, s, es, k);
    InvAlongRun(seeds, s, es[..m]);
    var before, log, code := After(seeds, s, es[..m]), After(seeds, s, es).log, After(seeds, s, es).log[k].code;
    assert CodeOk(before.log, code, before.codes[code]);
    i :| Backs(before.log, i, code, before.codes[code]) && before.codes[code].expiresAt == before.log[i].at + CODE_TTL;
    assert log[..k][i] == log[i];
  }

  /** Where a token comes from: the exchange in record j of the code authorised in record i. */
  lemma TokenOrigin(seeds: Seeds, s: State, es: seq<Event>, k: nat, m: nat, token: string, isId: bool) returns (i: int, j: int)
    requires Initial(s) && Legal(seeds, s, es) && k < |After(seeds, s, es).log| && AnsweredBy(seeds, s, es, k, m)
    requires token in if isId then After(seeds, s, es[..m]).ids else After(seeds, s, es[..m]).access
    ensures var log, before := After(seeds, s, es).log, After(seeds, s, es[..m]);
            var g := if isId then before.ids[token] else before.access[token];
            && 0 <= i < j < k && Stems(log, i, j, token, isId, g) && g.expiresAt == log[j].at + TOKEN_TTL
            && before.pending[es[m].thread].purgedAt < g.expiresAt
  {
    InvAlongRun(seeds, s, es[..m]);
    var before, log := After(seeds, s, es[..m]), After(seeds, s, es).log;
    var g := if isId then before.ids[token] else before.access[token];
    assert TokenOk(before.log, token, isId, g);
    i, j :| Stems(before.log, i, j, token, isId, g) && g.expiresAt == before.log[j].at + TOKEN_TTL;
    StemsLater(before.log, log, k, i, j, token, isId, g);
    assert Live(before, before.pending[es[m].thread].purgedAt);
  }

  lemma StemsLater(log: seq<Record>, log': seq<Record>, k: nat, i: int, j: int, token: string, isId: bool, g: Grant)
    requires k <= |log'| && log == log'[..k] && Stems(log, i, j, token, isId, g)
    ensures Stems(log', i, j, token, isId, g) && j < k && log'[j] == log[j]
  {
  }

  /**
   In every run the audience, nonce and subject reported for an id token are those of the
   authorize request whose code was exchanged for it. The report purged less than 3600 s after
   that exchange, and answers within them exactly when the token would also have survived a
   purge at the instant of the answer.
   */
  lemma ReportsAreAuthentic(seeds: Seeds, s: State, es: seq<Event>, k: nat) returns (i: int, j: int, m: nat)
    requires Initial(s) && Legal(seeds, s, es)
    requires k < |After(seeds, s, es).log| && After(seeds, s, es).log[k].IdReported?
    ensures var log := After(seeds, s, es).log;
            && 0 <= i < j < k && log[i].Authorized? && log[j].Exchanged?
            && log[j].code == log[i].code && log[j].id == log[k].id
            && log[k].aud == log[i].clientId && log[k].nonce == log[i].nonce
            && ResolveSeed(seeds, log[i].hint) == Some(log[k].sub)
            && AnsweredBy(seeds, s, es, k, m) && log[k].at == es[m].at
            && log[k].at < log[j].at + 3600.0 + (log[k].at - log[k].purgedAt)
            && (log[k].at < log[j].at + 3600.0 <==> log[k].id in Purged(After(seeds, s, es[..m]).ids, es[m].at))
  {
    m := LogIsAnswers(seeds, s, es, k);
    i, j := TokenOrigin(seeds, s, es, k, m, After(seeds, s, es).log[k].id, true);
  }

  /** Likewise for an access token, whose report gives the subject alone. */
  lemma UserInfoIsAuthentic(seeds: Seeds, s: State, es: seq<Event>, k: nat) returns (i: int, j: int, m: nat)
    requires Initial(s) && Legal(seeds, s, es)
    requires k < |After(seeds, s, es).log| && After(seeds, s, es).log[k].UserReported?
    ensures var log := After(seeds, s, es).log;
            && 0 <= i < j < k && log[i].Authorized? && log[j].Exchanged?
            && log[j].code == log[i].code && log[j].access == log[k].access
            && ResolveSeed(seeds, log[i].hint) == Some(log[k].sub)
            && AnsweredBy(seeds, s, es, k, m) && log[k].at == es[m].at
            && log[k].at < log[j].at + 3600.0 + (log[k].at - log[k].purgedAt)
            && (log[k].at < log[j].at + 3600.0 <==> log[k].access in Purged(After(seeds, s, es[..m]).access, es[m].at))
  {
    m := LogIsAnswers(seeds, s, es, k);
    i, j := TokenOrigin(seeds, s, es, k, m, After(seeds, s, es).log[k].access, false);
  }

  // ---------- Nothing is refused without reason ----------

  /** When the dictionaries were last purged: at the last begin of a request. */
  ghost function LastPurge(s: State, es: seq<Event>): real {
    if es == [] then s.now else if es[|es| - 1].Begin? then es[|es| - 1].at else LastPurge(s, es[..|es| - 1])
  }

  /** Every code not used, and every token, that had not expired at the last purge is held. */
  ghost predicate Complete(seeds: Seeds, s: State, last: real) {
    && last <= s.now
    && (forall i :: 0 <= i < |s.log| ==> RecordHeld(seeds, s, last, i))
    && (forall c :: c in s.codes ==> s.codes[c].expiresAt > last)
    && (forall t :: t in s.access ==> s.access[t].expiresAt > last)
    && (forall t :: t in s.ids ==> s.ids[t].expiresAt > last)
  }

  ghost predicate RecordHeld(seeds: Seeds, s: State, last: real, i: int)
    requires 0 <= i < |s.log|
  {
    match s.log[i]
    case Authorized(code, hint, _, _, at) =>
      && ResolveSeed(seeds, hint).Some?
      && (Unused(s.log, code) && last < at + 300.0 ==> code in s.codes && s.codes[code].expiresAt == at + 300.0)
    case Exchanged(_, access, id, _, at) =>
      last < at + 3600.0 ==>
        && access in s.access && s.access[access].expiresAt == at + 3600.0
        && id in s.ids && s.ids[id].expiresAt == at + 3600.0
    case _ => true
  }

  lemma BeginKeepsComplete(seeds: Seeds, s: State, e: Event, last: real)
    requires Enabled(s, e) && e.Begin? && Complete(seeds, s, last)
    ensures Complete(seeds, Step(seeds, s, e), e.at)
  {
    var s' := Step(seeds, s, e);
    forall i | 0 <= i < |s'.log|
      ensures RecordHeld(seeds, s', e.at, i)
    {
      assert RecordHeld(seeds, s, last, i);
    }
  }

  /** A record stays held when another is added. */
  lemma HeldStays(seeds: Seeds, s: State, r: Record, last: real, i: int)
    requires 0 <= i < |s.log| && RecordHeld(seeds, s, last, i) && (r.Exchanged? ==> r.code in s.codes)
    requires r.Authorized? ==> NewIn(s.log, r.code)
    requires r.Exchanged? ==> NewIn(s.log, r.access) && NewIn(s.log, r.id)
    ensures RecordHeld(seeds, Applied(s, r), last, i)
  {
    var s' := Applied(s, r);
    assert s'.log[i] == s.log[i];
    if s.log[i].Authorized? && Unused(s'.log, s.log[i].code) {
      assert forall j :: 0 <= j < |s.log| ==> s'.log[j] == s.log[j];
      assert Unused(s.log, s.log[i].code);
      assert r.Exchanged? ==> s'.log[|s.log|] == r && r.code != s.log[i].code;
    }
  }

  /** The record may be added: what it issues is new, and what it uses is there. */
  ghost predicate Fits(seeds: Seeds, p: State, r: Record) {
    && (r.Exchanged? ==> r.code in p.codes && NewIn(p.log, r.access) && NewIn(p.log, r.id) && r.at == p.now)
    && (r.Authorized? ==> ResolveSeed(seeds, r.hint).Some? && NewIn(p.log, r.code) && r.at == p.now)
  }

  lemma AnswerFits(seeds: Seeds, s: State, thread: nat, at: real)
    requires Enabled(s, Finish(thread, at))
    ensures Fits(seeds, Answering(s, thread, at), Answer(seeds, s, s.pending[thread], at))
  {
  }

  lemma NewRecordHeld(seeds: Seeds, p: State, r: Record, last: real)
    requires Fits(seeds, p, r)
    ensures RecordHeld(seeds, Applied(p, r), last, |p.log|)
  {
  }

  lemma AppliedKeepsComplete(seeds: Seeds, p: State, r: Record, last: real)
    requires Fits(seeds, p, r) && Complete(seeds, p, last)
    ensures Complete(seeds, Applied(p, r), last)
  {
    var s' := Applied(p, r);
    forall i | 0 <= i < |s'.log|
      ensures RecordHeld(seeds, s', last, i)
    {
      if i < |p.log| {
        assert RecordHeld(seeds, p, last, i);
        HeldStays(seeds, p, r, last, i);
      } else {
        NewRecordHeld(seeds, p, r, last);
      }
    }
  }

  lemma AnsweringKeepsComplete(seeds: Seeds, s: State, thread: nat, at: real, last: real)
    requires Complete(seeds, s, last) && s.now <= at
    ensures Complete(seeds, Answering(s, thread, at), last)
  {
    forall i | 0 <= i < |s.log|
      ensures RecordHeld(seeds, Answering(s, thread, at), last, i)
    {
      assert RecordHeld(seeds, s, last, i);
    }
  }

  lemma FinishKeepsComplete(seeds: Seeds, s: State, e: Event, last: real)
    requires Enabled(s, e) && e.Finish? && Complete(seeds, s, last)
    ensures Complete(seeds, Step(seeds, s, e), last)
  {
    AnsweringKeepsComplete(seeds, s, e.thread, e.at, last);
    AnswerFits(seeds, s, e.thread, e.at);
    AppliedKeepsComplete(seeds, Answering(s, e.thread, e.at), Answer(seeds, s, s.pending[e.thread], e.at), last);
  }

  lemma {:induction false} CompleteAlongRun(seeds: Seeds, s: State, es: seq<Event>)
    requires Initial(s) && Legal(seeds, s, es)
    ensures Complete(seeds, After(seeds, s, es), LastPurge(s, es))
    decreases |es|
  {
    if es != [] {
      var before := After(seeds, s, es[..|es| - 1]);
      CompleteAlongRun(seeds, s, es[..|es| - 1]);
      if es[|es| - 1].Begin? {
        BeginKeepsComplete(seeds, before, es[|es| - 1], LastPurge(s, es[..|es| - 1]));
      } else {
        FinishKeepsComplete(seeds, before, es[|es| - 1], LastPurge(s, es[..|es| - 1]));
      }
    }
  }

  /** A code in the log that could still be exchanged. */
  ghost predicate CodeOpen(log: seq<Record>, code: string, last: real) {
    Unused(log, code) && exists i :: 0 <= i < |log| && log[i].Authorized? && log[i].code == code && last < log[i].at + 300.0
  }

  /** A token in the log that could still be reported on. */
  ghost predicate TokenOpen(log: seq<Record>, token: string, isId: bool, last: real) {
    exists j :: 0 <= j < |log| && log[j].Exchanged? && (if isId then log[j].id else log[j].access) == token && last < log[j].at + 3600.0
  }

  /**
   In every run a code is exchanged exactly when an authorize request issued it, no exchange has
   used it, and no request has begun 300 s or more after it was issued.
   */
  lemma ExchangeIff(seeds: Seeds, s: State, es: seq<Event>, thread: nat, at: real)
    requires Initial(s) && Legal(seeds, s, es) && Enabled(After(seeds, s, es), Finish(thread, at))
    requires After(seeds, s, es).pending[thread].request.Token?
    ensures var m := After(seeds, s, es);
            Answer(seeds, m, m.pending[thread], at).Exchanged? <==> CodeOpen(m.log, m.pending[thread].request.code, LastPurge(s, es))
  {
    var m, last := After(seeds, s, es), LastPurge(s, es);
    var code := m.pending[thread].request.code;
    InvAlongRun(seeds, s, es);
    CompleteAlongRun(seeds, s, es);
    if code in m.codes {
      assert CodeOk(m.log, code, m.codes[code]);
      var i :| Backs(m.log, i, code, m.codes[code]) && m.codes[code].expiresAt == m.log[i].at + CODE_TTL;
      assert CodeOpen(m.log, code, last);
    }
    if CodeOpen(m.log, code, last) {
      var i :| 0 <= i < |m.log| && m.log[i].Authorized? && m.log[i].code == code && last < m.log[i].at + 300.0;
      assert RecordHeld(seeds, m, last, i);
    }
  }

  lemma TokenHeldIff(seeds: Seeds, m: State, last: real, token: string, isId: bool)
    requires Inv(seeds, m) && Complete(seeds, m, last)
    ensures token in (if isId then m.ids else m.access) <==> TokenOpen(m.log, token, isId, last)
    ensures token in (if isId then m.ids else m.access) ==> ResolveSeed(seeds, (if isId then m.ids else m.access)[token].hint).Some?
  {
    var d := if isId then m.ids else m.access;
    if token in d {
      assert TokenOk(m.log, token, isId, d[token]);
      var i, j :| Stems(m.log, i, j, token, isId, d[token]) && d[token].expiresAt == m.log[j].at + TOKEN_TTL;
      assert RecordHeld(seeds, m, last, i);
      assert TokenOpen(m.log, token, isId, last);
    }
    if TokenOpen(m.log, token, isId, last) {
      var j :| 0 <= j < |m.log| && m.log[j].Exchanged? && (if isId then m.log[j].id else m.log[j].access) == token && last < m.log[j].at + 3600.0;
      assert RecordHeld(seeds, m, last, j);
    }
  }

  /** Likewise a token of either kind is reported on exactly when it was issued and no request has begun 3600 s or more after. */
  lemma ReportIff(seeds: Seeds, s: State, es: seq<Event>, thread: nat, at: real)
    requires Initial(s) && Legal(seeds, s, es) && Enabled(After(seeds, s, es), Finish(thread, at))
    ensures var m := After(seeds, s, es);
            match m.pending[thread].request
            case TokenInfo(id) => Answer(seeds, m, m.pending[thread], at).IdReported? <==> TokenOpen(m.log, id, true, LastPurge(s, es))
            case UserInfo(token) => Answer(seeds, m, m.pending[thread], at).UserReported? <==> TokenOpen(m.log, token, false, LastPurge(s, es))
            case _ => true
  {
    InvAlongRun(seeds, s, es);
    CompleteAlongRun(seeds, s, es);
    var m := After(seeds, s, es);
    match m.pending[thread].request
    case TokenInfo(id) => TokenHeldIff(seeds, m, LastPurge(s, es), id, true);
    case UserInfo(token) => TokenHeldIff(seeds, m, LastPurge(s, es), token, false);
    case _ =>
  }

  // ---------- Logins ----------

  /**
   A login names a seeded user, or, if it is of 1 to 81 letters, digits, underscores, dots and
   hyphens and begins with a letter or digit, a user derived from it in lower case; or nobody.
   */
  lemma LoginExactly(seeds: Seeds, hint: string)
    ensures hint in seeds ==> ResolveSeed(seeds, hint) == Some(Seeded(seeds[hint]))
    ensures hint !in seeds ==>
      var wellFormed := 1 <= |hint| <= 81
        && ('A' <= hint[0] <= 'Z' || 'a' <= hint[0] <= 'z' || '0' <= hint[0] <= '9')
        && (forall i :: 1 <= i < |hint| ==>
              'A' <= hint[i] <= 'Z' || 'a' <= hint[i] <= 'z' || '0' <= hint[i] <= '9'
              || hint[i] == '_' || hint[i] == '.' || hint[i] == '-');
      if wellFormed then ResolveSeed(seeds, hint) == Some(Derived(Lower(hint))) else ResolveSeed(seeds, hint) == None
    ensures |Lower(hint)| == |hint|
    ensures forall i :: 0 <= i < |hint| ==>
              Lower(hint)[i] == if 'A' <= hint[i] <= 'Z' then (hint[i] as int + 32) as char else hint[i]
  {
    LowerIs(hint);
  }

  /** An authorize request is granted, with its own client and nonce, exactly when its login names somebody. */
  lemma AuthorizedIff(seeds: Seeds, s: State, q: Pending, at: real)
    requires q.request.Authorize?
    ensures var r := q.request;
            Answer(seeds, s, q, at) == if ResolveSeed(seeds, r.hint) == None then Refused(at)
                                       else Authorized(r.code, r.hint, r.clientId, r.nonce, at)
  {
  }

  // ---------- Late answers ----------

  lemma Extend(seeds: Seeds, s: State, es: seq<Event>, e: Event)
    requires Legal(seeds, s, es) && Enabled(After(seeds, s, es), e)
    ensures Legal(seeds, s, es + [e]) && After(seeds, s, es + [e]) == Step(seeds, After(seeds, s, es), e)
  {
    assert (es + [e])[..|es|] == es;
  }

  /** A request that no other comes between. */
  lemma Served(seeds: Seeds, s: State, es: seq<Event>, q: Pending, at: real) returns (more: seq<Event>)
    requires Legal(seeds, s, es) && After(seeds, s, es).pending == map[]
    requires After(seeds, s, es).now <= q.purgedAt <= at
    requires q.request.Authorize? ==> NewIn(After(seeds, s, es).log, q.request.code)
    requires q.request.Token? ==> NewIn(After(seeds, s, es).log, q.request.access) && NewIn(After(seeds, s, es).log, q.request.id)
    ensures Legal(seeds, s, more)
    ensures var p := PurgedState(After(seeds, s, es), q.purgedAt);
            After(seeds, s, more) == Applied(p.(now := at), Answer(seeds, p, q, at))
  {
    var p := PurgedState(After(seeds, s, es), q.purgedAt);
    Extend(seeds, s, es, Begin(0, q.request, q.purgedAt));
    more := es + [Begin(0, q.request, q.purgedAt)];
    FinishAlone(seeds, p, q, at);
    Extend(seeds, s, more, Finish(0, at));
    more := more + [Finish(0, at)];
  }

  lemma FinishAlone(seeds: Seeds, p: State, q: Pending, at: real)
    requires p.pending == map[] && p.now <= at
    requires q.request.Authorize? ==> NewIn(p.log, q.request.code)
    requires q.request.Token? ==> NewIn(p.log, q.request.access) && NewIn(p.log, q.request.id)
    ensures var waiting := p.(pending := p.pending[0 := q]);
            Enabled(waiting, Finish(0, at)) && Step(seeds, waiting, Finish(0, at)) == Applied(p.(now := at), Answer(seeds, p, q, at))
  {
    var waiting := p.(pending := p.pending[0 := q]);
    assert Answering(waiting, 0, at) == p.(now := at);
    assert Answer(seeds, waiting, q, at) == Answer(seeds, p, q, at);
  }

  const SEEDS: Seeds := map["ann" := "subject"]

  const START := State(map[], map[], map[], map[], 0.0, [])

  const ASK := Authorize("ann", "app", "nonce", "code")

  const ASKED := State(map["code" := Grant("ann", "app", "nonce", 300.0)], map[], map[], map[], 0.0,
                       [Authorized("code", "ann", "app", "nonce", 0.0)])

  function Swapped(at: real): State {
    var g := Grant("ann", "app", "nonce", at + TOKEN_TTL);
    State(map[], map["access" := g], map["id" := g], map[], at, ASKED.log + [Exchanged("code", "access", "id", 1.0, at)])
  }

  /** A code is issued at 0 s. */
  lemma Asking() returns (es: seq<Event>)
    ensures Legal(SEEDS, START, es) && After(SEEDS, START, es) == ASKED
  {
    assert PurgedState(START, 0.0) == START && ResolveSeed(SEEDS, "ann").Some?;
    es := Served(SEEDS, START, [], Pending(ASK, 0.0), 0.0);
  }

  lemma SwapEffect(at: real)
    ensures var p, q := PurgedState(ASKED, 1.0), Pending(Token("code", "access", "id"), 1.0);
            Applied(p.(now := at), Answer(SEEDS, p, q, at)) == Swapped(at)
  {
    assert PurgedState(ASKED, 1.0) == ASKED.(now := 1.0) && ASKED.codes - {"code"} == map[];
  }

  /** It is exchanged by a request that purges at 1 s and answers at `at`. */
  lemma Swapping(at: real) returns (es: seq<Event>)
    requires at >= 1.0
    ensures Legal(SEEDS, START, es) && After(SEEDS, START, es) == Swapped(at)
  {
    es := Asking();
    es := Served(SEEDS, START, es, Pending(Token("code", "access", "id"), 1.0), at);
    SwapEffect(at);
  }

  /** A slow request body: the code is exchanged 1001 s after it was issued. */
  lemma ExchangeCanBeLate() returns (es: seq<Event>)
    ensures Initial(START) && Legal(SEEDS, START, es) && |After(SEEDS, START, es).log| == 2
    ensures var log := After(SEEDS, START, es).log;
            log[0].Authorized? && log[1].Exchanged? && log[1].code == log[0].code && log[1].at == log[0].at + 1001.0
  {
    es := Swapping(1001.0);
  }

  lemma ReportEffect(isId: bool)
    ensures var p, q := PurgedState(Swapped(1.0), 2.0), Pending(if isId then TokenInfo("id") else UserInfo("access"), 2.0);
            var r := Answer(SEEDS, p, q, 4000.0);
            && Applied(p.(now := 4000.0), r).log == Swapped(1.0).log + [r]
            && r.at == 4000.0 && if isId then r.IdReported? && r.id == "id" else r.UserReported? && r.access == "access"
  {
    assert PurgedState(Swapped(1.0), 2.0) == Swapped(1.0).(now := 2.0) && ResolveSeed(SEEDS, "ann").Some?;
  }

  /** Likewise a token of either kind is honoured after 3600 s by a request that purged before and answers after. */
  lemma ReportCanBeLate(isId: bool) returns (es: seq<Event>)
    ensures Initial(START) && Legal(SEEDS, START, es) && |After(SEEDS, START, es).log| == 3
    ensures var log := After(SEEDS, START, es).log;
            && log[1].Exchanged? && log[2].at > log[1].at + 3600.0
            && (if isId then log[2].IdReported? && log[2].id == log[1].id
                else log[2].UserReported? && log[2].access == log[1].access)
  {
    es := Swapping(1.0);
    es := Served(SEEDS, START, es, Pending(if isId then TokenInfo("id") else UserInfo("access"), 2.0), 4000.0);
    ReportEffect(isId);
  }
}
