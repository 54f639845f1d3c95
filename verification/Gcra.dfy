/** internal/platform/ratelimit: the Generic Cell Rate Algorithm as a Redis script over one
    expiring key. Instants and intervals are in microseconds unless a name says otherwise.

    Redis is assumed to keep a clock that does not go back and never to drop a key before its
    TTL has elapsed; afterwards the key may vanish at any moment, or not at all. */
module Gcra {
  import opened GoInts
  import opened Results

  // ---------- the quota and its two integer divisions ----------

  /** `period` is a time.Duration, in nanoseconds. */
  datatype Config = Config(limit: int, period: int, burst: int)

  datatype ConfigError = LimitNotPositive | PeriodNotPositive | BurstNotPositive

  datatype Quota = Quota(emission: int, tolerance: int)

  function EmissionInterval(c: Config): int {
    if c.limit <= 0 then 0 else Quo(c.period, c.limit)
  }

  function DelayTolerance(c: Config): int {
    Wrap64(EmissionInterval(c) * c.burst)
  }

  function Microseconds(nanoseconds: int): int {
    Quo(nanoseconds, 1000)
  }

  function NewRedis(c: Config): Result<Quota, ConfigError> {
    if c.limit <= 0 then Err(LimitNotPositive)
    else if c.period <= 0 then Err(PeriodNotPositive)
    else if c.burst <= 0 then Err(BurstNotPositive)
    else Ok(Quota(Microseconds(EmissionInterval(c)), Microseconds(DelayTolerance(c))))
  }

  // ---------- the script ----------

  /** `remaining` is None where the script divides by zero: Redis then makes some integer of an
      infinity or a NaN. */
  datatype Decision = Decision(allowed: bool, retryAfter: int, remaining: Option<int>)

  /** What Redis holds under one key; it may drop a present key from `dropAfter` on. */
  datatype Key = Absent | Present(tat: int, dropAfter: int)

  function Max(a: int, b: int): int {
    if a < b then b else a
  }

  /** The theoretical arrival time the script works from. */
  function Tat(k: Key, now: int): int {
    if k.Absent? then now else Max(k.tat, now)
  }

  function CeilMillis(us: int): int {
    (us + 999) / 1000
  }

  function Quotient(a: int, b: int): Option<int> {
    if b == 0 then None else Some(a / b)
  }

  function Script(q: Quota, k: Key, now: int): (Decision, Key)
    requires q.emission >= 0
  {
    var newTat := Tat(k, now) + q.emission;
    var diff := now - (newTat - q.tolerance);
    if diff < 0 then (Decision(false, -diff, Some(0)), k)
    else
      (Decision(true, 0, Quotient(diff, q.emission)),
       Present(newTat, now + 1000 * Max(1, CeilMillis(newTat - now))))
  }

  /** The schedule's next slot: where the stored one is, or now if it has passed or there is none. */
  predicate NextSlot(stored: Option<int>, now: int, slot: int) {
    if stored.Some? && stored.value > now then slot == stored.value else slot == now
  }

  /** A request is admitted exactly if its slot and one more interval begin no later than the
      tolerance from now; if not, by how much they do is when to come back. What remains is how
      many whole intervals of the tolerance are left. */
  ghost predicate Decides(q: Quota, stored: Option<int>, now: int, d: Decision) {
    forall slot :: NextSlot(stored, now, slot) ==>
      var left := now + q.tolerance - (slot + q.emission);
      && (d.allowed <==> left >= 0)
      && d.retryAfter == (if left >= 0 then 0 else -left)
      && (!d.allowed ==> d.remaining == Some(0))
      && (d.allowed && q.emission > 0 ==>
            && d.remaining.Some? && d.remaining.value >= 0
            && q.emission * d.remaining.value <= left < q.emission * (d.remaining.value + 1))
  }

  /** An admission moves the schedule on by one interval. The key lives as long as the schedule is
      ahead, rounded up to whole milliseconds, and one millisecond at least. */
  ghost predicate Schedules(q: Quota, stored: Option<int>, now: int, value: Option<int>, dropAfter: int) {
    forall slot :: NextSlot(stored, now, slot) ==>
      var next := slot + q.emission;
      && value == Some(next)
      && (dropAfter - now) % 1000 == 0 && dropAfter - now >= 1000 && dropAfter >= next
      && (dropAfter - now > 1000 ==> dropAfter - 1000 < next)
  }

  lemma ScriptDecides(q: Quota, k: Key, now: int)
    requires q.emission >= 0
    ensures var (d, k') := Script(q, k, now);
            var stored := if k.Present? then Some(k.tat) else None;
            && Decides(q, stored, now, d)
            && if d.allowed then k'.Present? && Schedules(q, stored, now, Some(k'.tat), k'.dropAfter) else k' == k
  {
    var stored := if k.Present? then Some(k.tat) else None;
    var slot := Tat(k, now);
    assert forall other :: NextSlot(stored, now, other) <==> other == slot;
    var left := now + q.tolerance - (slot + q.emission);
    assert Script(q, k, now).0.allowed <==> left >= 0;
    if q.emission > 0 && left >= 0 {
      WholeIntervals(left, q.emission, left / q.emission);
    }
  }

  lemma WholeIntervals(left: int, emission: int, n: int)
    requires left >= 0 && emission > 0 && n == left / emission
    ensures n >= 0 && emission * n <= left < emission * (n + 1)
  {
    QuotientBounds(left, emission, 0);
    assert left == emission * n + left % emission;
    assert emission * (n + 1) == emission * n + emission;
  }

  /** One key on the server and the script run against it. */
  class RedisKey {
    var value: Option<int>
    var dropAfter: int

    constructor ()
      ensures View() == Absent
    {
      value := None;
      dropAfter := 0;
    }

    function View(): Key
      reads this
    {
      if value.None? then Absent else Present(value.value, dropAfter)
    }

    method Allow(q: Quota, now: int) returns (d: Decision)
      requires q.emission >= 0
      modifies this
      ensures (d, View()) == Script(q, old(View()), now)
      ensures Decides(q, old(value), now, d)
      ensures if d.allowed then Schedules(q, old(value), now, value, dropAfter)
              else value == old(value) && dropAfter == old(dropAfter)
    {
      ScriptDecides(q, View(), now);
      var tat := if value.None? then now else value.value;
      if tat < now {
        tat := now;
      }
      var newTat := tat + q.emission;
      var allowAt := newTat - q.tolerance;
      var diff := now - allowAt;
      if diff < 0 {
        return Decision(false, -diff, Some(0));
      }
      var ttl := CeilMillis(newTat - now);
      if ttl < 1 {
        ttl := 1;
      }
      value, dropAfter := Some(newTat), now + 1000 * ttl;
      return Decision(true, 0, Quotient(diff, q.emission));
    }

    /** Redis reclaims the key, if its TTL allows. */
    method Expire(now: int)
      modifies this
      ensures View() == Expired(old(View()), now)
      ensures dropAfter == old(dropAfter)
      ensures value == if now < dropAfter then old(value) else None
    {
      if value.Some? && now >= dropAfter {
        value := None;
      }
    }
  }

  function Expired(k: Key, now: int): Key {
    if k.Present? && now >= k.dropAfter then Absent else k
  }

  /** A key's TTL covers its theoretical arrival time. */
  predicate Covered(k: Key) {
    k.Present? ==> k.tat <= k.dropAfter
  }

  lemma ScriptKeepsCovered(q: Quota, k: Key, now: int)
    requires q.emission >= 0 && Covered(k)
    ensures Covered(Script(q, k, now).1)
  {
  }

  // ---------- runs ----------

  datatype Event = Request(at: int) | Reclaim(at: int)

  predicate Ordered(es: seq<Event>) {
    forall i, j :: 0 <= i < j < |es| ==> es[i].at <= es[j].at
  }

  predicate NotBefore(es: seq<Event>, t: int) {
    forall i :: 0 <= i < |es| ==> t <= es[i].at
  }

  function Step(q: Quota, k: Key, e: Event): Key
    requires q.emission >= 0
  {
    match e
    case Request(at) => Script(q, k, at).1
    case Reclaim(at) => Expired(k, at)
  }

  function After(q: Quota, k: Key, es: seq<Event>): Key
    requires q.emission >= 0
    decreases es
  {
    if es == [] then k else After(q, Step(q, k, es[0]), es[1..])
  }

  /** Every answer given during a run. */
  function Answers(q: Quota, k: Key, es: seq<Event>): seq<Decision>
    requires q.emission >= 0
    decreases es
  {
    if es == [] then []
    else
      (if es[0].Request? then [Script(q, k, es[0].at).0] else []) +
      Answers(q, Step(q, k, es[0]), es[1..])
  }

  // ---------- the reference: virtual scheduling with a TAT kept forever ----------

  /** GCRA(increment, limit) as ITU-T I.371, Annex A, and section 4.4.2 of the ATM Forum
      Traffic Management Specification 4.0 give it: does a cell arriving at `now` conform,
      and what is the next theoretical arrival time? */
  function VirtualScheduling(increment: int, limit: int, tat: int, now: int): (bool, int) {
    if tat < now then (limit >= 0, if limit >= 0 then now + increment else tat)
    else if tat > now + limit then (false, tat)
    else (true, tat + increment)
  }

  /** The answers of a limiter that keeps its TAT forever and never sees Reclaim. The
      first request starts the schedule. */
  function Reference(q: Quota, tat: Option<int>, es: seq<Event>): seq<Decision>
    requires q.emission >= 0
    decreases es
  {
    if es == [] then []
    else if es[0].Reclaim? then Reference(q, tat, es[1..])
    else
      var (d, next) := ReferenceStep(q, tat, es[0].at);
      [d] + Reference(q, next, es[1..])
  }

  function ReferenceStep(q: Quota, tat: Option<int>, now: int): (Decision, Option<int>)
    requires q.emission >= 0
  {
    var from := if tat.None? then now else tat.value;
    var (conforms, next) := VirtualScheduling(q.emission, q.tolerance - q.emission, from, now);
    var slack := now + q.tolerance - q.emission - Max(from, now);
    (if conforms then Decision(true, 0, Quotient(slack, q.emission)) else Decision(false, -slack, Some(0)),
     if tat.None? && !conforms then None else Some(next))
  }

  /** What the expiring key and the kept TAT must agree on from `now` onwards. */
  predicate Agrees(k: Key, tat: Option<int>, now: int) {
    || (k.Absent? && (tat.None? || tat.value <= now))
    || (k.Present? && tat == Some(k.tat))
  }

  /** Expiry is invisible: whenever Redis reclaims the key, and however often, every request
      of every run gets the answer it would get from a TAT kept forever. */
  lemma {:induction false} ExpiryIsInvisible(q: Quota, k: Key, tat: Option<int>, es: seq<Event>)
    requires q.emission >= 0 && Ordered(es) && Covered(k)
    requires es != [] ==> Agrees(k, tat, es[0].at)
    ensures Answers(q, k, es) == Reference(q, tat, es)
    decreases es
  {
    if es != [] {
      ScriptKeepsCovered(q, k, es[0].at);
      var rest := es[1..];
      if es[0].Reclaim? {
        ExpiryIsInvisible(q, Step(q, k, es[0]), tat, rest);
        assert Answers(q, k, es) == Answers(q, Step(q, k, es[0]), rest);
      } else {
        SameAnswer(q, k, tat, es[0].at, if rest == [] then es[0].at else rest[0].at);
        ExpiryIsInvisible(q, Step(q, k, es[0]), ReferenceStep(q, tat, es[0].at).1, rest);
      }
    }
  }

  lemma SameAnswer(q: Quota, k: Key, tat: Option<int>, now: int, later: int)
    requires q.emission >= 0 && Covered(k) && Agrees(k, tat, now) && now <= later
    ensures Script(q, k, now).0 == ReferenceStep(q, tat, now).0
    ensures Agrees(Script(q, k, now).1, ReferenceStep(q, tat, now).1, later)
  {
    var from := if tat.None? then now else tat.value;
    assert Max(from, now) == Tat(k, now);
  }

  /** The same statement from a fresh key. */
  lemma FreshKeyFollowsTheStandard(q: Quota, es: seq<Event>)
    requires q.emission >= 0 && Ordered(es)
    ensures Answers(q, Absent, es) == Reference(q, None, es)
  {
    ExpiryIsInvisible(q, Absent, None, es);
  }

  // ---------- the window bound ----------

  /** How many requests of a run are admitted between the instants lo and hi, inclusive. */
  function Admitted(q: Quota, k: Key, es: seq<Event>, lo: int, hi: int): nat
    requires q.emission >= 0
    decreases es
  {
    if es == [] then 0
    else
      (if es[0].Request? && lo <= es[0].at <= hi && Script(q, k, es[0].at).0.allowed then 1 else 0) +
      Admitted(q, Step(q, k, es[0]), es[1..], lo, hi)
  }

  /** No window of a run admits more than floor((width + tolerance) / emission) requests,
      whatever the key held before and however rejected requests are interleaved. */
  lemma WindowBound(q: Quota, k: Key, es: seq<Event>, lo: int, hi: int)
    requires q.emission > 0 && q.tolerance >= 0 && lo <= hi
    requires Ordered(es) && Covered(k)
    ensures Admitted(q, k, es, lo, hi) <= (hi - lo + q.tolerance) / q.emission
  {
    WindowWork(q, k, es, lo, hi);
    QuotientBounds(hi - lo + q.tolerance, q.emission, Admitted(q, k, es, lo, hi));
  }

  lemma {:induction false} WindowWork(q: Quota, k: Key, es: seq<Event>, lo: int, hi: int)
    requires q.emission > 0 && q.tolerance >= 0 && lo <= hi
    requires Ordered(es) && Covered(k)
    ensures Admitted(q, k, es, lo, hi) * q.emission <= hi - lo + q.tolerance
    decreases es
  {
    if es != [] {
      if es[0].at < lo {
        ScriptKeepsCovered(q, k, es[0].at);
        WindowWork(q, Step(q, k, es[0]), es[1..], lo, hi);
      } else {
        WorkAfter(q, k, es, lo, hi, lo);
      }
    }
  }

  /** Each admission moves the schedule on by one emission interval, and no admission
      happens once it is more than the tolerance past the end of the window. */
  lemma {:induction false} WorkAfter(q: Quota, k: Key, es: seq<Event>, lo: int, hi: int, base: int)
    requires q.emission > 0
    requires Ordered(es) && Covered(k)
    requires NotBefore(es, base) || (k.Present? && k.tat >= base)
    ensures Admitted(q, k, es, lo, hi) * q.emission <= Max(0, hi + q.tolerance - base)
    decreases es
  {
    if es != [] {
      ScriptKeepsCovered(q, k, es[0].at);
      var k' := Step(q, k, es[0]);
      var later := Admitted(q, k', es[1..], lo, hi);
      if es[0].Request? && lo <= es[0].at <= hi && Script(q, k, es[0].at).0.allowed {
        assert k'.tat >= base + q.emission;
        WorkAfter(q, k', es[1..], lo, hi, base + q.emission);
        Distribute(1, later, q.emission);
      } else {
        StepKeepsBase(q, k, es, base);
        WorkAfter(q, k', es[1..], lo, hi, base);
      }
    }
  }

  lemma StepKeepsBase(q: Quota, k: Key, es: seq<Event>, base: int)
    requires q.emission > 0 && es != [] && Ordered(es) && Covered(k)
    requires NotBefore(es, base) || (k.Present? && k.tat >= base)
    ensures var k' := Step(q, k, es[0]);
            NotBefore(es[1..], base) || (k'.Present? && k'.tat >= base)
  {
    if es[0].Reclaim? && Step(q, k, es[0]) == Absent && k.Present? && k.tat >= base {
      assert es[0].at >= base;
      assert NotBefore(es[1..], es[0].at);
    }
  }

  /** n requests, each arriving the moment it is admitted, on a schedule already `ahead`
      of lo. */
  function Busiest(q: Quota, lo: int, ahead: int, n: nat): seq<Event>
    decreases n
  {
    if n == 0 then []
    else
      var next := ahead + q.emission;
      [Request(lo + Max(0, next - q.tolerance))] + Busiest(q, lo, next, n - 1)
  }

  lemma {:induction false} BusiestIsAdmitted(q: Quota, k: Key, lo: int, hi: int, ahead: int, n: nat)
    requires 0 < q.emission <= q.tolerance && lo <= hi && 0 <= ahead
    requires n * q.emission <= hi - lo + q.tolerance - ahead
    requires if ahead == 0 then k == Absent else k.Present? && k.tat == lo + ahead
    ensures Admitted(q, k, Busiest(q, lo, ahead, n), lo, hi) == n
    decreases n
  {
    if n > 0 {
      var es := Busiest(q, lo, ahead, n);
      Distribute(1, n - 1, q.emission);
      NonNegativeProduct(n - 1, q.emission);
      BusiestIsAdmitted(q, Script(q, k, es[0].at).1, lo, hi, ahead + q.emission, n - 1);
      assert es[1..] == Busiest(q, lo, ahead + q.emission, n - 1);
    }
  }

  lemma {:induction false} BusiestIsOrdered(q: Quota, lo: int, ahead: int, n: nat)
    requires 0 < q.emission
    ensures Ordered(Busiest(q, lo, ahead, n))
    ensures NotBefore(Busiest(q, lo, ahead, n), lo + Max(0, ahead + q.emission - q.tolerance))
    decreases n
  {
    if n > 0 {
      BusiestIsOrdered(q, lo, ahead + q.emission, n - 1);
    }
  }

  /** The window bound cannot be improved: some run attains it, in every window. */
  lemma WindowBoundIsAttained(q: Quota, lo: int, hi: int) returns (es: seq<Event>)
    requires 0 < q.emission <= q.tolerance && lo <= hi
    ensures Ordered(es)
    ensures Admitted(q, Absent, es, lo, hi) == (hi - lo + q.tolerance) / q.emission
  {
    var n := (hi - lo + q.tolerance) / q.emission;
    QuotientBounds(hi - lo + q.tolerance, q.emission, 0);
    QuotientBounds(hi - lo + q.tolerance, q.emission, n);
    es := Busiest(q, lo, 0, n);
    BusiestIsAdmitted(q, Absent, lo, hi, 0, n);
    BusiestIsOrdered(q, lo, 0, n);
  }

  // ---------- exact advice ----------

  predicate NoAdmission(q: Quota, k: Key, es: seq<Event>)
    requires q.emission >= 0
  {
    forall d :: d in Answers(q, k, es) ==> !d.allowed
  }

  /** Between a rejection at `now` and the instant `t`, with nothing admitted, the key is
      what it was, unless it has run out and been reclaimed. */
  lemma {:induction false} RejectionsChangeNothing(q: Quota, k: Key, es: seq<Event>, t: int)
    requires q.emission >= 0 && Covered(k) && Ordered(es) && NoAdmission(q, k, es)
    requires forall i :: 0 <= i < |es| ==> es[i].at <= t
    ensures After(q, k, es) == k || (After(q, k, es) == Absent && k.Present? && k.tat <= t)
    decreases es
  {
    if es != [] {
      var tail := Answers(q, Step(q, k, es[0]), es[1..]);
      if es[0].Request? {
        assert Answers(q, k, es)[0] == Script(q, k, es[0].at).0;
        assert Answers(q, k, es) == [Script(q, k, es[0].at).0] + tail;
      } else {
        assert Answers(q, k, es) == tail;
      }
      assert forall d :: d in tail ==> d in Answers(q, k, es);
      RejectionsChangeNothing(q, Step(q, k, es[0]), es[1..], t);
    }
  }

  /** A rejection's RetryAfter is exact, for every quota that admits anything at all: with no
      admission in between, a request at t is admitted if and only if at least RetryAfter has
      passed. A quota whose tolerance does not cover one interval never keeps the promise. */
  lemma {:induction false} RetryAfterIsExact(q: Quota, k: Key, now: int, between: seq<Event>, t: int)
    requires 0 <= q.emission && Covered(k)
    requires !Script(q, k, now).0.allowed
    requires now <= t && Ordered(between)
    requires forall i :: 0 <= i < |between| ==> now <= between[i].at <= t
    requires NoAdmission(q, k, between)
    ensures Script(q, After(q, k, between), t).0.allowed
            <==> q.emission <= q.tolerance && t >= now + Script(q, k, now).0.retryAfter
    ensures Script(q, k, now).0.retryAfter > 0
  {
    RejectionsChangeNothing(q, k, between, t);
  }

  // ---------- which quotas are made ----------

  /** The tolerance meant, in microseconds: what Burst truncated intervals come to, and the
      nanoseconds they lost. */
  function ExactTolerance(c: Config): int
    requires c.limit > 0
  {
    var em := c.period / c.limit;
    c.burst * (em / 1000) + ((em % 1000) * c.burst) / 1000
  }

  /** Which configurations are refused, and how: the first of limit, period and burst that is not
      positive. */
  lemma WhichQuotasAreRefused(c: Config)
    ensures NewRedis(c).Ok? <==> c.limit > 0 && c.period > 0 && c.burst > 0
    ensures NewRedis(c) == Err(LimitNotPositive) <==> c.limit <= 0
    ensures NewRedis(c) == Err(PeriodNotPositive) <==> c.limit > 0 && c.period <= 0
    ensures NewRedis(c) == Err(BurstNotPositive) <==> c.limit > 0 && c.period > 0 && c.burst <= 0
    ensures c.limit <= 0 ==> EmissionInterval(c) == 0
  {
  }

  /** The quota of every accepted configuration: the emission interval is the truncated one,
      and the tolerance is the exact one if and only if emission times burst fits a
      time.Duration. Then the quota admits something. */
  lemma QuotaOf(c: Config)
    requires c.limit > 0 && c.period > 0 && c.burst > 0
    ensures NewRedis(c).Ok?
    ensures var q := NewRedis(c).value;
            && q.emission == (c.period / c.limit) / 1000
            && (IsInt64(EmissionInterval(c) * c.burst) <==> q.tolerance == ExactTolerance(c))
            && (q.tolerance == ExactTolerance(c) ==> q.emission <= q.tolerance)
  {
    var em := c.period / c.limit;
    var e := em / 1000;
    assert em >= 0;
    assert em * c.burst >= 0 by { NonNegativeProduct(em, c.burst); }
    ToleranceOfProduct(em, c.burst);
    if em * c.burst > MAX_INT64 {
      WrapShortens(em * c.burst);
    }
    NonNegativeProduct(em % 1000, c.burst);
    Product(e, c.burst);
  }

  lemma ToleranceOfProduct(em: int, burst: int)
    requires em >= 0 && burst > 0
    ensures (em * burst) / 1000 == burst * (em / 1000) + ((em % 1000) * burst) / 1000
  {
    var e := em / 1000;
    assert em * burst == 1000 * (e * burst) + (em % 1000) * burst by {
      assert em == 1000 * e + em % 1000;
      Distribute(1000 * e, em % 1000, burst);
      assert 1000 * e * burst == 1000 * (e * burst);
    }
    AddMultiple((em % 1000) * burst, e * burst, 1000);
  }

  lemma WrapShortens(p: int)
    requires p > MAX_INT64
    ensures Microseconds(Wrap64(p)) < p / 1000
  {
    assert Wrap64(p) <= p - TWO_TO_64;
  }

  lemma Distribute(a: int, b: int, c: int)
    ensures (a + b) * c == a * c + b * c
  {
  }

  /** A quota admits a request of some key at some instant exactly if its tolerance covers one
      interval; below that it admits none, ever. */
  lemma AdmitsAnything(q: Quota)
    requires q.emission >= 0
    ensures (exists k, now :: Script(q, k, now).0.allowed) <==> q.emission <= q.tolerance
  {
    if q.emission <= q.tolerance {
      assert Script(q, Absent, 0).0.allowed;
    }
  }

  /** NewRedis accepts a configuration whose tolerance wraps, and it admits nothing. */
  lemma WrappedToleranceAdmitsNothing()
    ensures var c := Config(1, 0x4000_0000_0000_0000, 2);
            && NewRedis(c).Ok? && NewRedis(c).value.emission > 0
            && forall k, now :: !Script(NewRedis(c).value, k, now).0.allowed
  {
    var c := Config(1, 0x4000_0000_0000_0000, 2);
    assert Wrap64(0x4000_0000_0000_0000 * 2) == MIN_INT64;
    AdmitsAnything(NewRedis(c).value);
  }

  /** An interval below a microsecond is truncated to nothing: from a fresh key such a limiter
      admits every request of every run (or, if its tolerance wraps below zero, none), and it
      reports no number of remaining requests. */
  lemma NothingIsLimitedBelowAMicrosecond(c: Config, es: seq<Event>)
    requires c.limit > 0 && c.period > 0 && c.burst > 0 && Ordered(es)
    ensures var q := NewRedis(c).value;
            && (q.emission == 0 <==> c.period / c.limit < 1000)
            && (q.emission == 0 ==>
                  forall d :: d in Answers(q, Absent, es) ==>
                    d.allowed == (q.tolerance >= 0) && (d.allowed ==> d.remaining == None))
  {
    var q := NewRedis(c).value;
    QuotaOf(c);
    if q.emission == 0 {
      UnlimitedRun(q, Absent, es);
    }
  }

  lemma {:induction false} UnlimitedRun(q: Quota, k: Key, es: seq<Event>)
    requires q.emission == 0 && Ordered(es)
    requires k.Present? ==> NotBefore(es, k.tat)
    ensures forall d :: d in Answers(q, k, es) ==>
              d.allowed == (q.tolerance >= 0) && (d.allowed ==> d.remaining == None)
    decreases es
  {
    if es != [] {
      UnlimitedRun(q, Step(q, k, es[0]), es[1..]);
    }
  }

  // ---------- how many at once ----------

  /** How many of n simultaneous requests are admitted. */
  function Simultaneous(q: Quota, k: Key, now: int, n: nat): nat
    requires q.emission >= 0
    decreases n
  {
    if n == 0 then 0
    else (if Script(q, k, now).0.allowed then 1 else 0) + Simultaneous(q, Script(q, k, now).1, now, n - 1)
  }

  function Min(a: int, b: int): int {
    if a < b then a else b
  }

  /** The number of further requests a key admits at one instant. */
  function Capacity(q: Quota, k: Key, now: int): int
    requires q.emission > 0
  {
    Max(0, (now + q.tolerance - Tat(k, now)) / q.emission)
  }

  lemma {:induction false} SimultaneousIsCapacity(q: Quota, k: Key, now: int, n: nat)
    requires q.emission > 0
    ensures Simultaneous(q, k, now, n) == Min(n, Capacity(q, k, now))
    decreases n
  {
    if n > 0 {
      var k' := Script(q, k, now).1;
      SimultaneousIsCapacity(q, k', now, n - 1);
      var slack := now + q.tolerance - Tat(k, now);
      AddMultiple(slack, -1, q.emission);
      assert q.emission * -1 + slack == slack - q.emission;
      QuotientBounds(slack, q.emission, 1);
    }
  }

  /** Remaining is exact: after an admission, that many more are admitted at the same
      instant, and not one beyond. */
  lemma RemainingIsExact(q: Quota, k: Key, now: int, n: nat)
    requires q.emission > 0 && Script(q, k, now).0.allowed
    ensures Script(q, k, now).0.remaining.Some?
    ensures Simultaneous(q, Script(q, k, now).1, now, n) == Min(n, Script(q, k, now).0.remaining.value)
  {
    var k' := Script(q, k, now).1;
    SimultaneousIsCapacity(q, k', now, n);
    QuotientBounds(now + q.tolerance - Tat(k', now), q.emission, 0);
  }

  /** Of n requests at once an idle key admits floor(tolerance / emission), and none if that is
      negative. If emission times burst fits a time.Duration, that is never less than Burst,
      and it is Burst exactly when the nanoseconds lost by truncating the emission interval do
      not add up to one more interval. An interval below a microsecond admits them all. */
  lemma IdleBurst(c: Config, now: int, n: nat)
    requires c.limit > 0 && c.period > 0 && c.burst > 0
    ensures var q := NewRedis(c).value;
            var lost := ((c.period / c.limit) % 1000 * c.burst) / 1000;
            && q.emission >= 0
            && Simultaneous(q, Absent, now, n)
               == (if q.emission == 0 then if q.tolerance >= 0 then n else 0
                   else Min(n, Max(0, q.tolerance / q.emission)))
            && (q.emission > 0 && IsInt64(EmissionInterval(c) * c.burst) ==>
                  && q.tolerance / q.emission >= c.burst
                  && (q.tolerance / q.emission == c.burst <==> lost < q.emission))
  {
    QuotaOf(c);
    var q := NewRedis(c).value;
    if q.emission > 0 {
      var sub := (c.period / c.limit) % 1000;
      SimultaneousIsCapacity(q, Absent, now, n);
      NonNegativeProduct(sub, c.burst);
      CarriedIntervals(q.emission, c.burst, (sub * c.burst) / 1000);
    } else {
      UnlimitedAtOnce(q, Absent, now, n);
    }
  }

  lemma {:induction false} UnlimitedAtOnce(q: Quota, k: Key, now: int, n: nat)
    requires q.emission == 0 && Tat(k, now) == now
    ensures Simultaneous(q, k, now, n) == if q.tolerance >= 0 then n else 0
    decreases n
  {
    if n > 0 {
      UnlimitedAtOnce(q, Script(q, k, now).1, now, n - 1);
    }
  }

  /** Burst intervals and a remainder hold more than Burst intervals exactly when the
      remainder holds one. */
  lemma CarriedIntervals(emission: int, burst: int, lost: int)
    requires emission > 0 && lost >= 0
    ensures var intervals := (burst * emission + lost) / emission;
            intervals >= burst && (intervals == burst <==> lost < emission)
  {
    AddMultiple(lost, burst, emission);
    assert emission * burst == burst * emission;
    QuotientBounds(lost, emission, 0);
    QuotientBounds(lost, emission, 1);
  }

  /** "exactly Burst requests" is not true of every accepted configuration: 600000 per
      second with a burst of 2 admits 3 at once. */
  lemma BurstCanBeExceeded()
    ensures var c := Config(600_000, 1_000_000_000, 2);
            && NewRedis(c) == Ok(Quota(1, 3))
            && Simultaneous(Quota(1, 3), Absent, 0, 3) == 3
  {
    var q := Quota(1, 3);
    SimultaneousIsCapacity(q, Absent, 0, 3);
  }
}
