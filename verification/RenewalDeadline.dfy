/**
 The timing of the token renewal loop. Times are integer nanoseconds. The margin
 is computed in floating point: real arithmetic with a rounding after each step.
 Replies arrive at once, so the clock advances only while the loop sleeps.
 */
module RenewalDeadline {
  import opened Options

  const SECOND: int := 1_000_000_000

  function Truncated(x: real): int {
    if x < 0.0 then -((-x).Floor) else x.Floor
  }

  /** The renewal threshold, and how the machine rounds a real number to a floating-point one. */
  datatype Ratio = Ratio(value: real, round: real -> real)

  const TWO_53: int := 0x20_0000_0000_0000

  ghost function Half(h: int): real {
    h as real / 2.0
  }

  ghost predicate Exact(ratio: Ratio, x: real) {
    ratio.round(x) == x
  }

  /**
   What the 64-bit format of IEEE 754 grants: rounding keeps the order, and whole and half
   numbers with a numerator of at most 2^53 are not rounded.
   */
  ghost predicate Ieee(ratio: Ratio) {
    && (forall x, y :: x <= y ==> ratio.round(x) <= ratio.round(y))
    && (forall h {:trigger Half(h)} :: -TWO_53 <= h <= TWO_53 ==> Exact(ratio, Half(h)) && Exact(ratio, h as real))
  }

  function Effective(ratio: Ratio): real {
    if ratio.value <= 0.0 || ratio.value >= 1.0 then 0.5 else ratio.value
  }

  /** The floating-point product of a lifetime and the ratio. */
  function Product(duration: int, ratio: Ratio): real {
    ratio.round(ratio.round(duration as real) * Effective(ratio))
  }

  /** The part of a lifetime that is kept as a margin, in whole nanoseconds. */
  function DurationRatio(duration: int, ratio: Ratio): int {
    Truncated(Product(duration, ratio))
  }

  /** The margin reaches a positive whole number exactly when the product does. */
  lemma MarginIs(duration: int, ratio: Ratio, n: int)
    requires n >= 1
    ensures DurationRatio(duration, ratio) >= n <==> Product(duration, ratio) >= n as real
  {
  }

  lemma WholeIsExact(ratio: Ratio, n: int)
    requires Ieee(ratio) && -TWO_53 <= n <= TWO_53
    ensures ratio.round(n as real) == n as real
  {
    assert Exact(ratio, Half(n)) && Exact(ratio, n as real);
  }

  /** The product lies on the same side of any whole number as the real share does, or on it. */
  lemma ProductNearShare(duration: int, ratio: Ratio, n: int)
    requires Ieee(ratio) && 0 <= duration <= TWO_53 && -TWO_53 <= n <= TWO_53
    ensures var share := duration as real * Effective(ratio);
            && (share >= n as real ==> Product(duration, ratio) >= n as real)
            && (share <= n as real ==> Product(duration, ratio) <= n as real)
  {
    WholeIsExact(ratio, duration);
    WholeIsExact(ratio, n);
  }

  /** For lifetimes of up to 2^53 nanoseconds, some 104 days, the margin lies between 0 and the lifetime. */
  lemma MarginBounds(duration: int, ratio: Ratio)
    requires Ieee(ratio) && 0 <= duration <= TWO_53
    ensures 0 <= DurationRatio(duration, ratio) <= duration
  {
    Scaling(duration as real, Effective(ratio));
    ProductNearShare(duration, ratio, 0);
    ProductNearShare(duration, ratio, duration);
    TruncatedBetween(duration, Product(duration, ratio));
  }

  /**
   In plain terms: the margin of a lifetime d is within rounding of d times the ratio itself, or
   of half of d when the ratio is not between 0 and 1. A whole number that does not exceed that
   share does not exceed the margin, and one that the share does not exceed, the margin does not.
   */
  lemma MarginIsTheShare(d: int, ratio: Ratio, n: int)
    requires Ieee(ratio) && 0 <= d <= 0x20_0000_0000_0000 && 0 <= n <= 0x20_0000_0000_0000
    ensures var share := if 0.0 < ratio.value < 1.0 then d as real * ratio.value else d as real / 2.0;
            && (n as real <= share ==> n <= DurationRatio(d, ratio))
            && (share <= n as real ==> DurationRatio(d, ratio) <= n)
  {
    ProductNearShare(d, ratio, n);
    MarginBounds(d, ratio);
    TruncatedAround(Product(d, ratio), n);
    assert d as real * 0.5 == d as real / 2.0;
  }

  lemma TruncatedAround(x: real, n: int)
    requires n >= 0
    ensures n as real <= x ==> n <= Truncated(x)
    ensures x <= n as real ==> Truncated(x) <= n
  {
  }

  lemma TruncatedBetween(d: int, x: real)
    requires 0.0 <= x <= d as real
    ensures 0 <= Truncated(x) <= d
  {
  }

  lemma Scaling(d: real, r: real)
    requires 0.0 < r < 1.0
    ensures d >= 0.0 ==> 0.0 <= d * r <= d
    ensures d > 0.0 ==> d * r < d
  {
    if d > 0.0 {
      assert d * r < d * 1.0;
    }
  }

  /** The token fields of the provider; expiryAt is None before the first lifetime is known. */
  datatype Token = Token(ttl: int, expiryAt: Option<int>, failures: nat)

  /** A renewal succeeds, with or without a lifetime, or fails; the re-authentication it may lead to may grant a lifetime. */
  datatype Reply = Renewed(ttl: Option<int>) | Refused(reauthGrants: Option<int>)

  datatype Attempt = Attempt(at: int, reauthenticates: bool)

  function Granted(tok: Token, ttl: int, now: int): Token {
    tok.(ttl := ttl, expiryAt := Some(now + ttl))
  }

  function Max(a: int, b: int): int {
    if a < b then b else a
  }

  /** The loop gives up for good when no positive lifetime is known. */
  predicate Stops(tok: Token) {
    tok.ttl <= 0 || tok.expiryAt.None?
  }

  /** When the loop, about to sleep at `now`, will try to renew. */
  function WakeTime(tok: Token, ratio: Ratio, now: int): int
    requires !Stops(tok)
  {
    Max(now + SECOND, tok.expiryAt.value - DurationRatio(tok.ttl, ratio))
  }

  /** The token after a reply that arrives at `now`. */
  function Answered(tok: Token, reply: Reply, now: int): Token {
    match reply
    case Renewed(ttl) =>
      var renewed := tok.(failures := 0);
      if ttl.Some? then Granted(renewed, ttl.value, now) else renewed
    case Refused(grant) =>
      var failed := tok.(failures := tok.failures + 1);
      if failed.failures >= 3 && grant.Some? then Granted(failed, grant.value, now) else failed
  }

  function Tried(tok: Token, reply: Reply, at: int): Attempt {
    Attempt(at, reply.Refused? && tok.failures + 1 >= 3)
  }

  /** The renewal attempts of a loop that starts at `now` and is given these replies. */
  function Attempts(tok: Token, ratio: Ratio, now: int, replies: seq<Reply>): (log: seq<Attempt>)
    ensures |log| <= |replies|
    decreases |replies|
  {
    if replies == [] || Stops(tok) then []
    else
      var at := WakeTime(tok, ratio, now);
      [Tried(tok, replies[0], at)] + Attempts(Answered(tok, replies[0], at), ratio, at, replies[1..])
  }

  lemma AttemptsUnfold(log: seq<Attempt>, tok: Token, ratio: Ratio, now: int, replies: seq<Reply>, i: nat)
    requires i < |replies| && !Stops(tok)
    ensures var at := WakeTime(tok, ratio, now);
            log + Attempts(tok, ratio, now, replies[i..]) ==
              log + [Tried(tok, replies[i], at)] + Attempts(Answered(tok, replies[i], at), ratio, at, replies[i + 1..])
  {
    assert replies[i..][1..] == replies[i + 1..];
  }

  class TokenState {
    var ttl: int
    var expiryAt: Option<int>
    var failures: nat
    const ratio: Ratio

    function View(): Token
      reads this
    {
      Token(ttl, expiryAt, failures)
    }

    constructor (ratio: Ratio)
      ensures View() == Token(0, None, 0) && this.ratio == ratio
    {
      ttl, expiryAt, failures, this.ratio := 0, None, 0, ratio;
    }

    method ApplyTtl(lifetime: int, now: int)
      modifies this
      ensures View() == Granted(old(View()), lifetime, now)
    {
      ttl := lifetime;
      expiryAt := Some(now + lifetime);
    }

    /** What the loop does with the reply to a renewal. */
    method TakeReply(reply: Reply, now: int) returns (attempt: Attempt)
      modifies this
      ensures View() == Answered(old(View()), reply, now) && attempt == Tried(old(View()), reply, now)
    {
      match reply {
        case Refused(grant) =>
          failures := failures + 1;
          attempt := Attempt(now, failures >= 3);
          if failures >= 3 && grant.Some? {
            ApplyTtl(grant.value, now);
          }
        case Renewed(lifetime) =>
          failures := 0;
          attempt := Attempt(now, false);
          if lifetime.Some? {
            ApplyTtl(lifetime.value, now);
          }
      }
    }

    /** The loop, run for as long as it is given replies. */
    method RenewalLoop(start: int, replies: seq<Reply>) returns (log: seq<Attempt>)
      modifies this
      ensures log == Attempts(old(View()), ratio, start, replies)
    {
      var now := start;
      var i := 0;
      log := [];
      while i < |replies|
        invariant 0 <= i <= |replies|
        invariant log + Attempts(View(), ratio, now, replies[i..]) == Attempts(old(View()), ratio, start, replies)
      {
        if ttl <= 0 || expiryAt.None? {
          return;
        }
        AttemptsUnfold(log, View(), ratio, now, replies, i);
        var delay := expiryAt.value - DurationRatio(ttl, ratio) - now;
        if delay < SECOND {
          delay := SECOND;
        }
        now := now + delay;
        ghost var before := View();
        var attempt := TakeReply(replies[i], now);
        log := log + [attempt];
        i := i + 1;
        assert now == WakeTime(before, ratio, now - delay);
      }
    }
  }

  // ---------- The deadline ----------

  /** The instant by which a loop started at s for a token of this lifetime has re-authenticated. */
  function Deadline(s: int, ttl: int, ratio: Ratio): int {
    Max(s + SECOND, s + ttl - DurationRatio(ttl, ratio)) + 2 * SECOND
  }

  /**
   A loop that starts at s for a fresh lifetime and whose renewals are all refused
   re-authenticates exactly when the third refusal in a row comes, two seconds
   after the first attempt, and not before.
   */
  lemma ReauthenticatesOnTime(tok: Token, ratio: Ratio, s: int, replies: seq<Reply>)
    requires !Stops(tok) && tok.expiryAt == Some(s + tok.ttl) && tok.failures == 0
    requires |replies| >= 3 && replies[0].Refused? && replies[1].Refused? && replies[2].Refused?
    ensures var log := Attempts(tok, ratio, s, replies);
            && |log| >= 3
            && !log[0].reauthenticates && !log[1].reauthenticates
            && log[2] == Attempt(Deadline(s, tok.ttl, ratio), true)
            && (log[2].at == s + 3_000_000_000 || log[2].at == s + tok.ttl - DurationRatio(tok.ttl, ratio) + 2_000_000_000)
            && log[2].at >= s + 3_000_000_000 && log[2].at >= s + tok.ttl - DurationRatio(tok.ttl, ratio) + 2_000_000_000
  {
    var w := WakeTime(tok, ratio, s);
    var t1 := Answered(tok, replies[0], w);
    var t2 := Answered(t1, replies[1], w + SECOND);
    assert WakeTime(t1, ratio, w) == w + SECOND;
    assert WakeTime(t2, ratio, w + SECOND) == w + 2 * SECOND;
    var r1, r2 := replies[1..], replies[1..][1..];
    assert r1[0] == replies[1] && r2[0] == replies[2];
    assert Attempts(t2, ratio, w + SECOND, r2)[0] == Tried(t2, r2[0], w + 2 * SECOND);
    assert Attempts(t1, ratio, w, r1) == [Tried(t1, r1[0], w + SECOND)] + Attempts(t2, ratio, w + SECOND, r2);
  }

  /**
   The first renewal of a loop that starts at s for a fresh lifetime: it comes when the share of
   the lifetime that the ratio itself gives is left, to within rounding, and no sooner than a
   second after the start.
   */
  lemma FirstRenewalAt(tok: Token, ratio: Ratio, s: int, replies: seq<Reply>, n: int)
    requires Ieee(ratio) && 0 < tok.ttl <= 0x20_0000_0000_0000 && tok.expiryAt == Some(s + tok.ttl) && replies != []
    requires 0 <= n <= 0x20_0000_0000_0000
    ensures var log := Attempts(tok, ratio, s, replies);
            var share := if 0.0 < ratio.value < 1.0 then tok.ttl as real * ratio.value else tok.ttl as real / 2.0;
            && log != [] && log[0].at >= s + 1_000_000_000
            && (n as real <= share ==> log[0].at <= s + tok.ttl - n || log[0].at == s + 1_000_000_000)
            && (share <= n as real ==> log[0].at >= s + tok.ttl - n)
  {
    MarginIsTheShare(tok.ttl, ratio, n);
  }

  /** What a refused renewal leaves: the third in a row, and each after it, takes the lifetime that re-authentication grants. */
  lemma RefusedExactly(tok: Token, grant: Option<int>, now: int)
    ensures Answered(tok, Refused(grant), now)
         == if tok.failures >= 2 && grant.Some? then Token(grant.value, Some(now + grant.value), tok.failures + 1)
            else Token(tok.ttl, tok.expiryAt, tok.failures + 1)
  {
  }

  /** Refusals left over from before the lifetime was granted only bring the attempt forward. */
  lemma EarlierFailuresHasten(tok: Token, ratio: Ratio, s: int, replies: seq<Reply>)
    requires !Stops(tok) && tok.expiryAt == Some(s + tok.ttl)
    requires |replies| >= 3 && replies[0].Refused? && replies[1].Refused? && replies[2].Refused?
    ensures var log := Attempts(tok, ratio, s, replies);
            exists i :: 0 <= i < |log| && i < 3 && log[i].reauthenticates && log[i].at <= Deadline(s, tok.ttl, ratio)
  {
    var w := WakeTime(tok, ratio, s);
    var log := Attempts(tok, ratio, s, replies);
    assert log[0] == Tried(tok, replies[0], w);
    if tok.failures == 0 {
      ReauthenticatesOnTime(tok, ratio, s, replies);
      assert log[2].reauthenticates;
    } else if tok.failures == 1 {
      var t1 := Answered(tok, replies[0], w);
      assert WakeTime(t1, ratio, w) == w + SECOND;
      assert Attempts(t1, ratio, w, replies[1..])[0] == Tried(t1, replies[1], w + SECOND);
      assert log[1].reauthenticates;
    } else {
      assert log[0].reauthenticates;
    }
  }

  /**
   That instant lies before the token expires exactly when the lifetime exceeds three
   seconds and the floating-point product exceeds two by a nanosecond or more.
   */
  lemma BeforeExpiryIff(s: int, ttl: int, ratio: Ratio)
    ensures Deadline(s, ttl, ratio) < s + ttl
        <==> ttl > 3 * SECOND && Product(ttl, ratio) >= (2 * SECOND + 1) as real
  {
    MarginIs(ttl, ratio, 2 * SECOND + 1);
  }

  /**
   In terms of the ratio itself: a share of the lifetime of two seconds and a nanosecond is enough,
   if the lifetime exceeds three; two seconds, or a lifetime of three, are not.
   */
  lemma BeforeExpiryByShare(s: int, ttl: int, ratio: Ratio)
    requires Ieee(ratio) && 0 < ttl <= 0x20_0000_0000_0000
    ensures var share := if 0.0 < ratio.value < 1.0 then ttl as real * ratio.value else ttl as real / 2.0;
            && (ttl > 3_000_000_000 && share >= 2_000_000_001.0 ==> Deadline(s, ttl, ratio) < s + ttl)
            && (ttl <= 3_000_000_000 || share <= 2_000_000_000.0 ==> Deadline(s, ttl, ratio) >= s + ttl)
  {
    MarginIsTheShare(ttl, ratio, 2_000_000_001);
    MarginIsTheShare(ttl, ratio, 2_000_000_000);
  }

  /** Nor is any share above two seconds: half of 4.000000001 s is not, and it is an exact floating-point number. */
  lemma TwoSecondsAreNotEnough(s: int, ratio: Ratio)
    requires Ieee(ratio) && ratio.value == 0.5
    ensures var ttl := 4_000_000_001;
            && ttl > 3_000_000_000 && ttl as real * ratio.value > 2_000_000_000.0
            && Deadline(s, ttl, ratio) >= s + ttl
  {
    var ttl := 4 * SECOND + 1;
    WholeIsExact(ratio, ttl);
    assert Exact(ratio, Half(ttl));
    assert Product(ttl, ratio) == Half(ttl);
    BeforeExpiryIff(s, ttl, ratio);
  }

  // ---------- Whole runs ----------

  /** The loop state reached after a number of replies. */
  ghost function StateAfter(tok: Token, ratio: Ratio, now: int, replies: seq<Reply>): (Token, int)
    decreases |replies|
  {
    if replies == [] || Stops(tok) then (tok, now)
    else
      var at := WakeTime(tok, ratio, now);
      StateAfter(Answered(tok, replies[0], at), ratio, at, replies[1..])
  }

  lemma {:induction false} AttemptsSplit(tok: Token, ratio: Ratio, now: int, first: seq<Reply>, rest: seq<Reply>)
    requires |Attempts(tok, ratio, now, first)| == |first|
    ensures var m := StateAfter(tok, ratio, now, first);
            Attempts(tok, ratio, now, first + rest) == Attempts(tok, ratio, now, first) + Attempts(m.0, ratio, m.1, rest)
    decreases |first|
  {
    if first == [] {
      assert first + rest == rest;
    } else {
      var at := WakeTime(tok, ratio, now);
      assert (first + rest)[1..] == first[1..] + rest;
      AttemptsSplit(Answered(tok, first[0], at), ratio, at, first[1..], rest);
    }
  }

  lemma {:induction false} LastGrant(tok: Token, ratio: Ratio, now: int, replies: seq<Reply>, ttl: int)
    requires |Attempts(tok, ratio, now, replies)| == |replies| && replies != [] && replies[|replies| - 1] == Renewed(Some(ttl))
    ensures var m := StateAfter(tok, ratio, now, replies);
            m.0 == Token(ttl, Some(m.1 + ttl), 0)
            && m.1 == Attempts(tok, ratio, now, replies)[|replies| - 1].at
    decreases |replies|
  {
    var at := WakeTime(tok, ratio, now);
    var t := Answered(tok, replies[0], at);
    if |replies| > 1 {
      assert replies[1..][|replies| - 2] == Renewed(Some(ttl));
      LastGrant(t, ratio, at, replies[1..], ttl);
    } else {
      assert replies[1..] == [];
      assert StateAfter(t, ratio, at, []) == (t, at);
    }
  }

  /**
   Wherever in a run a renewal succeeds, with any replies before it, three refused
   renewals after it make the loop re-authenticate by the deadline of that lifetime.
   */
  lemma EveryLifetimeIsGuarded(tok: Token, ratio: Ratio, now: int, first: seq<Reply>, ttl: int, rest: seq<Reply>)
    requires first != [] && first[|first| - 1] == Renewed(Some(ttl)) && ttl > 0
    requires |Attempts(tok, ratio, now, first)| == |first|
    requires |rest| >= 3 && rest[0].Refused? && rest[1].Refused? && rest[2].Refused?
    ensures var log := Attempts(tok, ratio, now, first + rest);
            && |log| >= |first| + 3
            && log[|first| + 2] == Attempt(Deadline(log[|first| - 1].at, ttl, ratio), true)
            && !log[|first|].reauthenticates && !log[|first| + 1].reauthenticates
  {
    AttemptsSplit(tok, ratio, now, first, rest);
    LastGrant(tok, ratio, now, first, ttl);
    var m := StateAfter(tok, ratio, now, first);
    ReauthenticatesOnTime(m.0, ratio, m.1, rest);
  }
}
