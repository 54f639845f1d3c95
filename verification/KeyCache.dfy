/** The JWKS key cache of internal/platform/auth/jwks.go: keyFor, lookup and refresh under
    any number of concurrent callers. Each separately locked section of a call is one step,
    and a run is any interleaving of steps. Keys are numbers; the HTTP fetch is a step whose
    result is free. */
module KeyCacheModel {
  import opened Results

  type Keys = map<string, int>

  datatype Config = Config(minRefresh: int, maxAge: int)

  /** Fifteen minutes, in nanoseconds. */
  const DEFAULT_MAX_AGE: int := 900_000_000_000

  function NewConfig(minRefresh: int, maxAge: int): Config {
    Config(minRefresh, if maxAge == 0 then DEFAULT_MAX_AGE else maxAge)
  }

  /** What the mutex guards. None is Go's zero time. */
  datatype Cache = Cache(keys: Keys, fetchedAt: Option<int>, lastAttempt: Option<int>, warm: bool)

  const Cold: Cache := Cache(map[], None, None, false)

  datatype RefreshError = LimitedWhileCold | FetchFailed | NoUsableKeys

  datatype KeyError = Unavailable(cause: RefreshError) | UnknownAfter(cause: RefreshError) | Unknown

  // ---------- what the sections do ----------

  predicate Fresh(c: Config, cache: Cache, now: int) {
    c.maxAge <= 0 || (cache.fetchedAt.Some? && now - cache.fetchedAt.value < c.maxAge)
  }

  predicate Limited(c: Config, cache: Cache, now: int) {
    c.minRefresh > 0 && cache.lastAttempt.Some? && now - cache.lastAttempt.value < c.minRefresh
  }

  function LimitedOutcome(cache: Cache): Option<RefreshError> {
    if cache.warm then None else Some(LimitedWhileCold)
  }

  function Attempted(cache: Cache, now: int): Cache {
    cache.(lastAttempt := Some(now))
  }

  function Installed(cache: Cache, keys: Keys, now: int): Cache {
    cache.(keys := keys, fetchedAt := Some(now), warm := true)
  }

  function FailureOf(err: Option<RefreshError>, warm: bool): KeyError {
    match err
    case None => Unknown
    case Some(e) => if warm then UnknownAfter(e) else Unavailable(e)
  }

  // ---------- the steps ----------

  /** How far a call has got; `since` is when it turned to refresh. */
  datatype Call =
    | Asking(kid: string)
    | Waiting(kid: string, since: int)
    | Holding(kid: string, since: int)
    | Cleared(kid: string, since: int)
    | Fetching(kid: string, since: int)
    | Fetched(kid: string, since: int, keys: Keys)
    | Refreshed(kid: string, since: int, err: Option<RefreshError>)
    | Unfound(kid: string, since: int, err: Option<RefreshError>)
    | Answered(answer: Result<int, KeyError>)
  {
    predicate HoldsRefreshMu() {
      Holding? || Cleared? || Fetching? || Fetched?
    }

    predicate InFetch() {
      Fetching? || Fetched?
    }
  }

  /** One finished attempt, in the order they finished. */
  datatype Attempt = Failed(start: int, at: int) | Succeeded(start: int, at: int, keys: Keys)

  /** `starts` and `log` remember every fetch begun and every one finished. */
  datatype State = State(now: int, cache: Cache, refreshMu: Option<nat>, calls: map<nat, Call>,
                         starts: seq<int>, log: seq<Attempt>)

  const Start: State := State(0, Cold, None, map[], [], [])

  datatype Action =
    | Tick
    | Ask(i: nat, kid: string)
    | FirstLook(i: nat)
    | Lock(i: nat)
    | CheckLimit(i: nat)
    | Stamp(i: nat)
    | Fetch(i: nat, result: Option<Keys>)
    | Swap(i: nat)
    | SecondLook(i: nat)
    | Report(i: nat)

  function Set(s: State, i: nat, call: Call): State {
    s.(calls := s.calls[i := call])
  }

  /** Back from refresh, releasing its mutex. */
  function Return(s: State, i: nat, call: Call, err: Option<RefreshError>): State
    requires call.HoldsRefreshMu()
  {
    Set(s, i, Refreshed(call.kid, call.since, err)).(refreshMu := None)
  }

  /** The same at the end of an attempt. */
  function Finish(s: State, i: nat, call: Call, a: Attempt, err: Option<RefreshError>): State
    requires call.HoldsRefreshMu()
  {
    var cache := if a.Succeeded? then Installed(s.cache, a.keys, a.at) else s.cache;
    Return(s, i, call, err).(cache := cache, log := s.log + [a])
  }

  function Next(c: Config, s: State, a: Action): State {
    match a
    case Tick => s.(now := s.now + 1)
    case Ask(i, kid) =>
      if i in s.calls && !s.calls[i].Answered? then s else Set(s, i, Asking(kid))
    case FirstLook(i) =>
      if i in s.calls && s.calls[i].Asking? then
        var kid := s.calls[i].kid;
        if kid in s.cache.keys && Fresh(c, s.cache, s.now) then Set(s, i, Answered(Ok(s.cache.keys[kid])))
        else Set(s, i, Waiting(kid, s.now))
      else s
    case Lock(i) =>
      if i in s.calls && s.calls[i].Waiting? && s.refreshMu == None then
        Set(s, i, Holding(s.calls[i].kid, s.calls[i].since)).(refreshMu := Some(i))
      else s
    case CheckLimit(i) =>
      if i in s.calls && s.calls[i].Holding? then
        if Limited(c, s.cache, s.now) then Return(s, i, s.calls[i], LimitedOutcome(s.cache))
        else Set(s, i, Cleared(s.calls[i].kid, s.calls[i].since))
      else s
    case Stamp(i) =>
      if i in s.calls && s.calls[i].Cleared? then
        Set(s, i, Fetching(s.calls[i].kid, s.calls[i].since))
        .(cache := Attempted(s.cache, s.now), starts := s.starts + [s.now])
      else s
    case Fetch(i, result) =>
      if i in s.calls && s.calls[i].Fetching? && s.starts != [] then
        var failed := Failed(s.starts[|s.starts| - 1], s.now);
        match result
        case None => Finish(s, i, s.calls[i], failed, Some(FetchFailed))
        case Some(keys) =>
          if |keys| == 0 then Finish(s, i, s.calls[i], failed, Some(NoUsableKeys))
          else Set(s, i, Fetched(s.calls[i].kid, s.calls[i].since, keys))
      else s
    case Swap(i) =>
      if i in s.calls && s.calls[i].Fetched? && s.starts != [] then
        Finish(s, i, s.calls[i], Succeeded(s.starts[|s.starts| - 1], s.now, s.calls[i].keys), None)
      else s
    case SecondLook(i) =>
      if i in s.calls && s.calls[i].Refreshed? then
        var call := s.calls[i];
        if call.kid in s.cache.keys then Set(s, i, Answered(Ok(s.cache.keys[call.kid])))
        else Set(s, i, Unfound(call.kid, call.since, call.err))
      else s
    case Report(i) =>
      if i in s.calls && s.calls[i].Unfound? then
        Set(s, i, Answered(Err(FailureOf(s.calls[i].err, s.cache.warm))))
      else s
  }

  function Exec(c: Config, s: State, run: seq<Action>): State
    decreases run
  {
    if run == [] then s else Exec(c, Next(c, s, run[0]), run[1..])
  }

  // ---------- what every step keeps ----------

  /** The last successful fetch. */
  function Latest(log: seq<Attempt>): Option<Attempt> {
    if log == [] then None
    else if log[|log| - 1].Succeeded? then Some(log[|log| - 1])
    else Latest(log[..|log| - 1])
  }

  function KeysOf(a: Option<Attempt>): Keys {
    if a.Some? && a.value.Succeeded? then a.value.keys else map[]
  }

  /** The cache holds the set of the last successful fetch, and knows when the last fetch
      began. */
  predicate CacheOk(cache: Cache, starts: seq<int>, log: seq<Attempt>) {
    && cache.lastAttempt == (if starts == [] then None else Some(starts[|starts| - 1]))
    && match Latest(log)
       case None => cache.keys == map[] && cache.fetchedAt == None && !cache.warm
       case Some(a) => a.Succeeded? && cache.keys == a.keys && cache.fetchedAt == Some(a.at) && cache.warm
  }

  /** No less than this apart; a refresh interval of zero or less sets no limit. */
  function Spacing(c: Config): int {
    if c.minRefresh > 0 then c.minRefresh else 0
  }

  predicate Spaced(c: Config, starts: seq<int>) {
    forall i, j :: 0 <= i < j < |starts| ==> starts[i] + Spacing(c) <= starts[j]
  }

  /** Fetches never overlap: each finished one ended before the next began. */
  predicate HistoryOk(c: Config, now: int, starts: seq<int>, log: seq<Attempt>) {
    && |log| <= |starts| <= |log| + 1
    && (forall i :: 0 <= i < |starts| ==> starts[i] <= now)
    && (forall i :: 0 <= i < |log| ==> log[i].start == starts[i] <= log[i].at <= now)
    && (forall i, j :: 0 <= i < |log| && i < j < |starts| ==> log[i].at <= starts[j])
    && Spaced(c, starts)
  }

  predicate Past(c: Config, s: State) {
    CacheOk(s.cache, s.starts, s.log) && HistoryOk(c, s.now, s.starts, s.log)
  }

  /** One holder of the refresh mutex, and a fetch in flight exactly if it is fetching. */
  predicate MutexOk(s: State) {
    && (forall i :: i in s.calls && s.calls[i].HoldsRefreshMu() ==> s.refreshMu == Some(i))
    && (s.refreshMu.Some? ==> s.refreshMu.value in s.calls && s.calls[s.refreshMu.value].HoldsRefreshMu())
    && (|s.starts| > |s.log| <==> s.refreshMu.Some? && s.calls[s.refreshMu.value].InFetch())
  }

  /** A call back from refresh: the set it will look in was fetched after the call turned to
      refresh, or was younger than the refresh interval then, or the last finished attempt
      failed, and it was no older than that interval. */
  predicate Justified(c: Config, fetchedAt: Option<int>, log: seq<Attempt>, since: int) {
    fetchedAt.Some? ==>
      || since <= fetchedAt.value
      || since - fetchedAt.value < c.minRefresh
      || (log != [] && log[|log| - 1].Failed? && since <= log[|log| - 1].start + Spacing(c))
  }

  predicate CallOk(c: Config, s: State, call: Call) {
    match call
    case Waiting(_, since) => since <= s.now
    case Holding(_, since) => since <= s.now
    case Cleared(_, since) => since <= s.now && !Limited(c, s.cache, s.now)
    case Fetching(_, since) => s.starts != [] && since <= s.starts[|s.starts| - 1]
    case Fetched(_, since, keys) => s.starts != [] && since <= s.starts[|s.starts| - 1] && |keys| > 0
    case Refreshed(_, since, err) =>
      since <= s.now && Justified(c, s.cache.fetchedAt, s.log, since) && (err == None ==> s.cache.warm)
    case Unfound(_, _, err) => err == None ==> s.cache.warm
    case _ => true
  }

  predicate CallsOk(c: Config, s: State) {
    forall i :: i in s.calls ==> CallOk(c, s, s.calls[i])
  }

  predicate Inv(c: Config, s: State) {
    Past(c, s) && MutexOk(s) && CallsOk(c, s)
  }

  lemma LatestAfter(log: seq<Attempt>, a: Attempt)
    ensures Latest(log + [a]) == if a.Succeeded? then Some(a) else Latest(log)
  {
    assert (log + [a])[..|log|] == log;
  }

  // ---------- how the invariant survives ----------

  predicate SamePast(s: State, s': State) {
    s'.now == s.now && s'.cache == s.cache && s'.starts == s.starts && s'.log == s.log
  }

  /** A call moves and nothing it looks at does. */
  lemma MoveKeepsCalls(c: Config, s: State, s': State, i: nat)
    requires CallsOk(c, s) && SamePast(s, s') && i in s'.calls && s'.calls == s.calls[i := s'.calls[i]]
    requires CallOk(c, s, s'.calls[i])
    ensures CallsOk(c, s')
  {
    forall j | j in s'.calls ensures CallOk(c, s', s'.calls[j]) {
      assert j != i ==> CallOk(c, s, s.calls[j]);
    }
  }

  /** The move takes or releases no mutex, and begins or ends no fetch. */
  predicate StaysOutside(s: State, i: nat, call: Call) {
    if i in s.calls then
      call.HoldsRefreshMu() == s.calls[i].HoldsRefreshMu() && call.InFetch() == s.calls[i].InFetch()
    else !call.HoldsRefreshMu()
  }

  lemma MoveKeepsMutex(s: State, i: nat, call: Call)
    requires MutexOk(s)
    requires StaysOutside(s, i, call)
    ensures MutexOk(Set(s, i, call))
  {
  }

  lemma MoveKeepsInv(c: Config, s: State, i: nat, call: Call)
    requires Inv(c, s) && CallOk(c, s, call)
    requires StaysOutside(s, i, call)
    ensures Inv(c, Set(s, i, call))
  {
    MoveKeepsMutex(s, i, call);
    MoveKeepsCalls(c, s, Set(s, i, call), i);
  }

  lemma AskKeepsInv(c: Config, s: State, i: nat, kid: string)
    requires Inv(c, s)
    ensures Inv(c, Next(c, s, Ask(i, kid)))
  {
    if !(i in s.calls && !s.calls[i].Answered?) {
      MoveKeepsInv(c, s, i, Asking(kid));
    }
  }

  lemma FirstLookKeepsInv(c: Config, s: State, i: nat)
    requires Inv(c, s) && i in s.calls && s.calls[i].Asking?
    ensures Inv(c, Next(c, s, FirstLook(i)))
  {
    var kid := s.calls[i].kid;
    MoveKeepsInv(c, s, i, if kid in s.cache.keys && Fresh(c, s.cache, s.now) then Answered(Ok(s.cache.keys[kid]))
                          else Waiting(kid, s.now));
  }

  lemma SecondLookKeepsInv(c: Config, s: State, i: nat)
    requires Inv(c, s) && i in s.calls && s.calls[i].Refreshed?
    ensures Inv(c, Next(c, s, SecondLook(i)))
  {
    var call := s.calls[i];
    assert CallOk(c, s, call);
    MoveKeepsInv(c, s, i, if call.kid in s.cache.keys then Answered(Ok(s.cache.keys[call.kid]))
                          else Unfound(call.kid, call.since, call.err));
  }

  lemma LockKeepsInv(c: Config, s: State, i: nat)
    requires Inv(c, s) && i in s.calls && s.calls[i].Waiting? && s.refreshMu == None
    ensures Inv(c, Next(c, s, Lock(i)))
  {
    assert CallOk(c, s, s.calls[i]);
    var s' := Next(c, s, Lock(i));
    MoveKeepsCalls(c, s, s', i);
    assert MutexOk(s');
  }

  /** Rate-limited: the last attempt began less than minRefresh ago, and it is finished. */
  lemma LimitIsJustified(c: Config, s: State, since: int)
    requires Past(c, s) && |s.starts| == |s.log| && since <= s.now && Limited(c, s.cache, s.now)
    ensures Justified(c, s.cache.fetchedAt, s.log, since)
  {
    var last := s.log[|s.log| - 1];
    assert last.start == s.starts[|s.starts| - 1] <= last.at;
  }

  lemma ReleaseKeepsMutex(s: State, i: nat, err: Option<RefreshError>, log: seq<Attempt>, cache: Cache)
    requires MutexOk(s) && i in s.calls && s.calls[i].HoldsRefreshMu() && |log| == |s.starts|
    ensures MutexOk(Return(s, i, s.calls[i], err).(log := log, cache := cache))
  {
  }

  lemma CheckLimitKeepsInv(c: Config, s: State, i: nat)
    requires Inv(c, s) && i in s.calls && s.calls[i].Holding?
    ensures Inv(c, Next(c, s, CheckLimit(i)))
  {
    var call, s' := s.calls[i], Next(c, s, CheckLimit(i));
    assert CallOk(c, s, call);
    if Limited(c, s.cache, s.now) {
      assert |s.starts| == |s.log|;
      LimitIsJustified(c, s, call.since);
      ReleaseKeepsMutex(s, i, LimitedOutcome(s.cache), s.log, s.cache);
      MoveKeepsCalls(c, s, s', i);
    } else {
      MoveKeepsInv(c, s, i, Cleared(call.kid, call.since));
    }
  }

  lemma StampKeepsPast(c: Config, s: State)
    requires Past(c, s) && |s.starts| == |s.log| && !Limited(c, s.cache, s.now)
    ensures Past(c, s.(cache := Attempted(s.cache, s.now), starts := s.starts + [s.now]))
  {
  }

  lemma StampKeepsInv(c: Config, s: State, i: nat)
    requires Inv(c, s) && i in s.calls && s.calls[i].Cleared?
    ensures Inv(c, Next(c, s, Stamp(i)))
  {
    var s' := Next(c, s, Stamp(i));
    assert CallOk(c, s, s.calls[i]);
    assert |s.starts| == |s.log|;
    StampKeepsPast(c, s);
    forall j | j in s'.calls ensures CallOk(c, s', s'.calls[j]) {
      assert j != i ==> CallOk(c, s, s.calls[j]) && !s.calls[j].HoldsRefreshMu();
    }
    assert MutexOk(s');
  }

  /** An attempt ends: the mutex is free and the history one longer. */
  lemma FinishKeepsPast(c: Config, s: State, a: Attempt)
    requires Past(c, s) && |s.starts| == |s.log| + 1
    requires a.start == s.starts[|s.starts| - 1] && a.at == s.now
    ensures var cache := if a.Succeeded? then Installed(s.cache, a.keys, s.now) else s.cache;
            Past(c, s.(cache := cache, log := s.log + [a]))
  {
    LatestAfter(s.log, a);
  }

  /** What justified an earlier return still does, or the new attempt does. */
  lemma FinishKeepsJustified(c: Config, s: State, a: Attempt, since: int)
    requires Past(c, s) && |s.starts| == |s.log| + 1
    requires a.start == s.starts[|s.starts| - 1] && a.at == s.now && since <= s.now
    requires Justified(c, s.cache.fetchedAt, s.log, since) || since <= a.start
    ensures Justified(c, if a.Succeeded? then Some(s.now) else s.cache.fetchedAt, s.log + [a], since)
  {
    if s.log != [] {
      var k := |s.log| - 1;
      assert s.starts[k] + Spacing(c) <= s.starts[|s.starts| - 1];
      assert s.log[k].start == s.starts[k];
    }
  }

  lemma FinishKeepsInv(c: Config, s: State, i: nat, a: Attempt, err: Option<RefreshError>)
    requires Inv(c, s) && i in s.calls && s.calls[i].InFetch() && a.start == s.starts[|s.starts| - 1]
    requires a.at == s.now && (err == None ==> a.Succeeded?)
    ensures Inv(c, Finish(s, i, s.calls[i], a, err))
  {
    assert |s.starts| == |s.log| + 1;
    FinishKeepsPast(c, s, a);
    ReleaseKeepsMutex(s, i, err, s.log + [a], Finish(s, i, s.calls[i], a, err).cache);
    FinishKeepsCalls(c, s, i, a, err);
  }

  lemma FinishKeepsCalls(c: Config, s: State, i: nat, a: Attempt, err: Option<RefreshError>)
    requires Inv(c, s) && i in s.calls && s.calls[i].InFetch() && a.start == s.starts[|s.starts| - 1]
    requires a.at == s.now && (err == None ==> a.Succeeded?)
    ensures CallsOk(c, Finish(s, i, s.calls[i], a, err))
  {
    var s' := Finish(s, i, s.calls[i], a, err);
    assert CallOk(c, s, s.calls[i]);
    FinishKeepsJustified(c, s, a, s.calls[i].since);
    forall j | j in s'.calls && j != i ensures CallOk(c, s', s'.calls[j]) {
      assert CallOk(c, s, s.calls[j]) && !s.calls[j].HoldsRefreshMu();
      if s.calls[j].Refreshed? {
        FinishKeepsJustified(c, s, a, s.calls[j].since);
      }
    }
  }

  lemma FetchKeepsInv(c: Config, s: State, i: nat, result: Option<Keys>)
    requires Inv(c, s) && i in s.calls && s.calls[i].Fetching?
    ensures Inv(c, Next(c, s, Fetch(i, result)))
  {
    assert CallOk(c, s, s.calls[i]);
    if result.Some? && |result.value| > 0 {
      MoveKeepsInv(c, s, i, Fetched(s.calls[i].kid, s.calls[i].since, result.value));
    } else {
      FailedFetchKeepsInv(c, s, i, result);
    }
  }

  lemma FailedFetchKeepsInv(c: Config, s: State, i: nat, result: Option<Keys>)
    requires Inv(c, s) && i in s.calls && s.calls[i].Fetching? && s.starts != []
    requires result.Some? ==> |result.value| == 0
    ensures Inv(c, Next(c, s, Fetch(i, result)))
  {
    var failed := Failed(s.starts[|s.starts| - 1], s.now);
    FinishKeepsInv(c, s, i, failed, Some(if result.None? then FetchFailed else NoUsableKeys));
  }

  lemma SwapKeepsInv(c: Config, s: State, i: nat)
    requires Inv(c, s) && i in s.calls && s.calls[i].Fetched?
    ensures Inv(c, Next(c, s, Swap(i)))
  {
    assert CallOk(c, s, s.calls[i]);
    FinishKeepsInv(c, s, i, Succeeded(s.starts[|s.starts| - 1], s.now, s.calls[i].keys), None);
  }

  lemma TickKeepsInv(c: Config, s: State)
    requires Inv(c, s)
    ensures Inv(c, Next(c, s, Tick))
  {
    var s' := Next(c, s, Tick);
    forall j | j in s'.calls ensures CallOk(c, s', s'.calls[j]) {
      assert CallOk(c, s, s.calls[j]);
    }
  }

  lemma NextKeepsInv(c: Config, s: State, a: Action)
    requires Inv(c, s)
    ensures Inv(c, Next(c, s, a))
  {
    if a == Tick {
      TickKeepsInv(c, s);
    } else if a.Ask? {
      AskKeepsInv(c, s, a.i, a.kid);
    } else if Next(c, s, a) != s {
      match a {
        case FirstLook(i) => FirstLookKeepsInv(c, s, i);
        case Lock(i) => LockKeepsInv(c, s, i);
        case CheckLimit(i) => CheckLimitKeepsInv(c, s, i);
        case Stamp(i) => StampKeepsInv(c, s, i);
        case Fetch(i, result) => FetchKeepsInv(c, s, i, result);
        case Swap(i) => SwapKeepsInv(c, s, i);
        case SecondLook(i) => SecondLookKeepsInv(c, s, i);
        case Report(i) => MoveKeepsInv(c, s, i, Answered(Err(FailureOf(s.calls[i].err, s.cache.warm))));
      }
    }
  }

  lemma {:induction false} RunKeepsInv(c: Config, s: State, run: seq<Action>)
    requires Inv(c, s)
    ensures Inv(c, Exec(c, s, run))
    decreases run
  {
    if run != [] {
      NextKeepsInv(c, s, run[0]);
      RunKeepsInv(c, Next(c, s, run[0]), run[1..]);
    }
  }

  // ---------- one call, in code ----------

  /** What a call comes to when nobody else's sections fall between its own. */
  function RefreshAlone(c: Config, cache: Cache, checkAt: int, stampAt: int, swapAt: int, result: Option<Keys>)
    : (Option<RefreshError>, Cache)
  {
    if Limited(c, cache, checkAt) then (LimitedOutcome(cache), cache)
    else AttemptOutcome(cache, stampAt, swapAt, result)
  }

  function AttemptOutcome(cache: Cache, stampAt: int, swapAt: int, result: Option<Keys>): (Option<RefreshError>,
                          Cache) {
    var tried := Attempted(cache, stampAt);
    match result
    case None => (Some(FetchFailed), tried)
    case Some(keys) => if |keys| == 0 then (Some(NoUsableKeys), tried) else (None, Installed(tried, keys, swapAt))
  }

  function KeyForAlone(c: Config, cache: Cache, kid: string, lookAt: int, checkAt: int, stampAt: int, swapAt: int,
                       result: Option<Keys>): (Result<int, KeyError>, Cache)
  {
    if kid in cache.keys && Fresh(c, cache, lookAt) then (Ok(cache.keys[kid]), cache)
    else
      var (err, after) := RefreshAlone(c, cache, checkAt, stampAt, swapAt, result);
      if kid in after.keys then (Ok(after.keys[kid]), after) else (Err(FailureOf(err, after.warm)), after)
  }

  /** The cache was filled less than maxAge before; a maxAge of zero or less never ends. */
  predicate WithinAge(c: Config, cache: Cache, now: int) {
    c.maxAge <= 0 || (cache.fetchedAt.Some? && now < cache.fetchedAt.value + c.maxAge)
  }

  /** Less than minRefresh has passed since the last attempt; zero or less sets no limit. */
  predicate TooSoon(c: Config, cache: Cache, now: int) {
    c.minRefresh > 0 && cache.lastAttempt.Some? && now < cache.lastAttempt.value + c.minRefresh
  }

  /** What a refresh comes to: nothing happens if it is too soon, which is an error only of a
      cold cache. Otherwise the attempt is stamped, and only a set with keys in it is installed. */
  predicate Refreshes(c: Config, cache: Cache, checkAt: int, stampAt: int, swapAt: int, result: Option<Keys>,
                      err: Option<RefreshError>, cache': Cache)
  {
    if TooSoon(c, cache, checkAt) then
      cache' == cache && err == if cache.warm then None else Some(LimitedWhileCold)
    else
      && cache'.lastAttempt == Some(stampAt)
      && if result.Some? && result.value != map[] then
           err == None && cache'.keys == result.value && cache'.fetchedAt == Some(swapAt) && cache'.warm
         else
           && err == Some(if result.None? then FetchFailed else NoUsableKeys)
           && cache'.keys == cache.keys && cache'.fetchedAt == cache.fetchedAt && cache'.warm == cache.warm
  }

  /** What a call comes to: a key within its age is served and nothing else happens. Otherwise
      there is one refresh, and then the key is served from whatever the cache holds, however
      old, or one of three errors says why it is not there. */
  ghost predicate Answers(c: Config, cache: Cache, kid: string, lookAt: int, checkAt: int, stampAt: int, swapAt: int,
                    result: Option<Keys>, r: Result<int, KeyError>, cache': Cache)
  {
    if kid in cache.keys && WithinAge(c, cache, lookAt) then
      r == Ok(cache.keys[kid]) && cache' == cache
    else
      exists err: Option<RefreshError> ::
        && Refreshes(c, cache, checkAt, stampAt, swapAt, result, err, cache')
        && if kid in cache'.keys then r == Ok(cache'.keys[kid])
           else if err == None then r == Err(Unknown)
           else r == Err(if cache'.warm then UnknownAfter(err.value) else Unavailable(err.value))
  }

  lemma RefreshAloneRefreshes(c: Config, cache: Cache, checkAt: int, stampAt: int, swapAt: int, result: Option<Keys>)
    ensures var (err, cache') := RefreshAlone(c, cache, checkAt, stampAt, swapAt, result);
            Refreshes(c, cache, checkAt, stampAt, swapAt, result, err, cache')
  {
    assert result.Some? ==> (|result.value| == 0 <==> result.value == map[]);
  }

  lemma KeyForAloneAnswers(c: Config, cache: Cache, kid: string, lookAt: int, checkAt: int, stampAt: int, swapAt: int,
                           result: Option<Keys>)
    ensures var (r, cache') := KeyForAlone(c, cache, kid, lookAt, checkAt, stampAt, swapAt, result);
            Answers(c, cache, kid, lookAt, checkAt, stampAt, swapAt, result, r, cache')
  {
    RefreshAloneRefreshes(c, cache, checkAt, stampAt, swapAt, result);
  }

  class KeyCache {
    const minRefresh: int
    const maxAge: int
    var keys: Keys
    var fetchedAt: Option<int>
    var lastAttempt: Option<int>
    var warm: bool

    constructor (minRefresh: int, maxAge: int)
      ensures Limits() == NewConfig(minRefresh, maxAge) && View() == Cold
      ensures this.minRefresh == minRefresh && this.maxAge == if maxAge == 0 then 900_000_000_000 else maxAge
    {
      this.minRefresh := minRefresh;
      this.maxAge := if maxAge == 0 then DEFAULT_MAX_AGE else maxAge;
      keys, fetchedAt, lastAttempt, warm := map[], None, None, false;
    }

    function Limits(): Config {
      Config(minRefresh, maxAge)
    }

    function View(): Cache
      reads this
    {
      Cache(keys, fetchedAt, lastAttempt, warm)
    }

    method Lookup(kid: string, now: int) returns (key: Option<int>, isFresh: bool)
      ensures key == (if kid in keys then Some(keys[kid]) else None) && isFresh == Fresh(Limits(), View(), now)
    {
      key := if kid in keys then Some(keys[kid]) else None;
      isFresh := maxAge <= 0 || (fetchedAt.Some? && now - fetchedAt.value < maxAge);
    }

    method Refresh(checkAt: int, stampAt: int, swapAt: int, result: Option<Keys>) returns (err: Option<RefreshError>)
      modifies this
      ensures (err, View()) == RefreshAlone(Limits(), old(View()), checkAt, stampAt, swapAt, result)
      ensures Refreshes(Limits(), old(View()), checkAt, stampAt, swapAt, result, err, View())
    {
      RefreshAloneRefreshes(Limits(), View(), checkAt, stampAt, swapAt, result);
      var last, wasWarm := lastAttempt, warm;
      if minRefresh > 0 && last.Some? && checkAt - last.value < minRefresh {
        if wasWarm {
          return None;
        }
        return Some(LimitedWhileCold);
      }
      lastAttempt := Some(stampAt);
      if result.None? {
        return Some(FetchFailed);
      }
      if |result.value| == 0 {
        return Some(NoUsableKeys);
      }
      keys, fetchedAt, warm := result.value, Some(swapAt), true;
      return None;
    }

    method KeyFor(kid: string, lookAt: int, checkAt: int, stampAt: int, swapAt: int, secondLookAt: int,
                  result: Option<Keys>)
      returns (r: Result<int, KeyError>)
      modifies this
      ensures (r, View()) == KeyForAlone(Limits(), old(View()), kid, lookAt, checkAt, stampAt, swapAt, result)
      ensures Answers(Limits(), old(View()), kid, lookAt, checkAt, stampAt, swapAt, result, r, View())
    {
      KeyForAloneAnswers(Limits(), View(), kid, lookAt, checkAt, stampAt, swapAt, result);
      var key, isFresh := Lookup(kid, lookAt);
      if key.Some? && isFresh {
        return Ok(key.value);
      }
      var err := Refresh(checkAt, stampAt, swapAt, result);
      key, isFresh := Lookup(kid, secondLookAt);
      if key.Some? {
        return Ok(key.value);
      }
      if err.Some? {
        if !warm {
          return Err(Unavailable(err.value));
        }
        return Err(UnknownAfter(err.value));
      }
      return Err(Unknown);
    }
  }

  lemma {:induction false} ExecAppend(c: Config, s: State, a: seq<Action>, b: seq<Action>)
    ensures Exec(c, s, a + b) == Exec(c, Exec(c, s, a), b)
    decreases a
  {
    if a == [] {
      assert a + b == b;
    } else {
      assert (a + b)[1..] == a[1..] + b;
      ExecAppend(c, Next(c, s, a[0]), a[1..], b);
    }
  }

  ghost predicate Reaches(c: Config, s: State, t: State) {
    exists run :: Exec(c, s, run) == t
  }

  lemma ReachesStep(c: Config, s: State, t: State, a: Action)
    requires Reaches(c, s, t)
    ensures Reaches(c, s, Next(c, t, a))
  {
    var run :| Exec(c, s, run) == t;
    ExecAppend(c, s, run, [a]);
    assert Exec(c, t, [a]) == Exec(c, Next(c, t, a), []);
    assert Exec(c, s, run + [a]) == Next(c, t, a);
  }

  lemma {:induction false} ReachesLater(c: Config, s: State, t: State, wait: nat)
    requires Reaches(c, s, t)
    ensures Reaches(c, s, t.(now := t.now + wait))
    decreases wait
  {
    if wait > 0 {
      ReachesStep(c, s, t, Tick);
      ReachesLater(c, s, Next(c, t, Tick), wait - 1);
    }
  }

  /** The code is a run of the steps: when nobody comes between, the sections of one call
      leave the cache and give the answer that KeyFor does. */
  lemma KeyForIsARun(c: Config, s: State, i: nat, checkIn: nat, stampIn: nat, swapIn: nat, result: Option<Keys>)
    returns (t: State)
    requires i in s.calls && s.calls[i].Asking? && s.refreshMu == None
    ensures Reaches(c, s, t) && i in t.calls && t.calls[i].Answered?
    ensures var checkAt, stampAt := s.now + checkIn, s.now + checkIn + stampIn;
            (t.calls[i].answer, t.cache) ==
            KeyForAlone(c, s.cache, s.calls[i].kid, s.now, checkAt, stampAt, stampAt + swapIn, result)
  {
    assert Exec(c, s, []) == s;
    ReachesStep(c, s, s, FirstLook(i));
    t := Next(c, s, FirstLook(i));
    if t.calls[i].Answered? {
      return;
    }
    t := RefreshIsARun(c, s, t, i, checkIn, stampIn, swapIn, result);
    ReachesStep(c, s, t, SecondLook(i));
    t := Next(c, t, SecondLook(i));
    if t.calls[i].Unfound? {
      ReachesStep(c, s, t, Report(i));
      t := Next(c, t, Report(i));
    }
  }

  lemma RefreshIsARun(c: Config, s: State, from: State, i: nat, checkIn: nat, stampIn: nat, swapIn: nat,
                      result: Option<Keys>)
    returns (t: State)
    requires Reaches(c, s, from) && i in from.calls && from.calls[i].Waiting? && from.refreshMu == None
    ensures Reaches(c, s, t) && i in t.calls
    ensures var checkAt, stampAt := from.now + checkIn, from.now + checkIn + stampIn;
            var done := RefreshAlone(c, from.cache, checkAt, stampAt, stampAt + swapIn, result);
            t.calls[i] == Refreshed(from.calls[i].kid, from.calls[i].since, done.0) && t.cache == done.1
  {
    ReachesStep(c, s, from, Lock(i));
    t := Next(c, from, Lock(i));
    ReachesLater(c, s, t, checkIn);
    t := t.(now := t.now + checkIn);
    ReachesStep(c, s, t, CheckLimit(i));
    t := Next(c, t, CheckLimit(i));
    if t.calls[i].Cleared? {
      t := AttemptIsARun(c, s, t, i, stampIn, swapIn, result);
    }
  }

  lemma AttemptIsARun(c: Config, s: State, from: State, i: nat, stampIn: nat, swapIn: nat, result: Option<Keys>)
    returns (t: State)
    requires Reaches(c, s, from) && i in from.calls && from.calls[i].Cleared?
    ensures Reaches(c, s, t) && i in t.calls
    ensures var stampAt := from.now + stampIn;
            var done := AttemptOutcome(from.cache, stampAt, stampAt + swapIn, result);
            t.calls[i] == Refreshed(from.calls[i].kid, from.calls[i].since, done.0) && t.cache == done.1
  {
    ReachesLater(c, s, from, stampIn);
    t := from.(now := from.now + stampIn);
    ReachesStep(c, s, t, Stamp(i));
    t := Next(c, t, Stamp(i));
    ReachesStep(c, s, t, Fetch(i, result));
    t := Next(c, t, Fetch(i, result));
    if t.calls[i].Fetched? {
      ReachesLater(c, s, t, swapIn);
      t := t.(now := t.now + swapIn);
      ReachesStep(c, s, t, Swap(i));
      t := Next(c, t, Swap(i));
    }
  }

  // ---------- theorems ----------

  lemma ReachableIsInv(c: Config, s: State)
    requires Reaches(c, Start, s)
    ensures Inv(c, s)
  {
    var run :| Exec(c, Start, run) == s;
    RunKeepsInv(c, Start, run);
  }

  /** The key a step hands out to a caller, if it does. */
  predicate HandsOut(c: Config, s: State, a: Action, i: nat, key: int) {
    && i in s.calls && !s.calls[i].Answered?
    && i in Next(c, s, a).calls && Next(c, s, a).calls[i] == Answered(Ok(key))
  }

  /** Over every interleaving: a returned key belongs to the last set fetched successfully.
      Either the cache was within maxAge at the lookup, or the call came back from refresh
      and then: the set was fetched after the call turned to refresh, or it was younger than
      minRefresh at that time, or the last finished attempt failed, having begun no longer
      than minRefresh before. */
  lemma KeysAreAsFreshAsCanBe(c: Config, s: State, a: Action, i: nat, key: int)
    requires Reaches(c, Start, s) && HandsOut(c, s, a, i, key)
    ensures a == FirstLook(i) || a == SecondLook(i)
    ensures var latest := Latest(s.log);
            && latest.Some? && latest.value.Succeeded?
            && (s.calls[i].Asking? || s.calls[i].Refreshed?)
            && s.calls[i].kid in latest.value.keys && latest.value.keys[s.calls[i].kid] == key
            && (s.calls[i].Asking? ==> c.maxAge <= 0 || s.now - latest.value.at < c.maxAge)
            && (s.calls[i].Refreshed? ==>
                  var since := s.calls[i].since;
                  || since <= latest.value.at
                  || since - latest.value.at < c.minRefresh
                  || (s.log[|s.log| - 1].Failed? && since <= s.log[|s.log| - 1].start + Spacing(c)))
  {
    OnlyLooksHandOut(c, s, a, i, key);
    ReachableIsInv(c, s);
    assert CallOk(c, s, s.calls[i]);
  }

  lemma OnlyLooksHandOut(c: Config, s: State, a: Action, i: nat, key: int)
    requires HandsOut(c, s, a, i, key)
    ensures s.calls[i].kid in s.cache.keys && s.cache.keys[s.calls[i].kid] == key
    ensures || (a == FirstLook(i) && s.calls[i].Asking? && Fresh(c, s.cache, s.now))
            || (a == SecondLook(i) && s.calls[i].Refreshed?)
  {
  }

  /** In the terms of an operator: a set older than both limits when the call turned to
      refresh, and not replaced since, is only served through a failing identity provider. */
  lemma StaleKeysMeanAnOutage(c: Config, s: State, i: nat, key: int)
    requires Reaches(c, Start, s) && HandsOut(c, s, SecondLook(i), i, key)
    ensures var latest := Latest(s.log);
            && latest.Some? && latest.value.Succeeded?
            && (latest.value.at + c.maxAge <= s.calls[i].since && latest.value.at + c.minRefresh <= s.calls[i].since
                && latest.value.at < s.calls[i].since ==>
                  s.log[|s.log| - 1].Failed?)
  {
    KeysAreAsFreshAsCanBe(c, s, SecondLook(i), i, key);
  }

  lemma OneMoreInterval(n: int, d: int)
    ensures (n + 1) * d == n * d + d
  {
  }

  /** Fetches start at least minRefresh apart, and never overlap. */
  lemma FetchesAreSpaced(c: Config, s: State, i: int, j: int)
    requires Reaches(c, Start, s) && 0 <= i < j < |s.starts|
    ensures s.starts[i] + (j - i) * Spacing(c) <= s.starts[j]
    ensures i < |s.log| && s.starts[i] <= s.log[i].at <= s.starts[j]
    decreases j - i
  {
    ReachableIsInv(c, s);
    if j > i + 1 {
      FetchesAreSpaced(c, s, i, j - 1);
      assert s.starts[j - 1] + Spacing(c) <= s.starts[j];
      OneMoreInterval(j - 1 - i, Spacing(c));
    }
  }

  lemma OneFetchAtATime(c: Config, s: State, i: nat, j: nat)
    requires Reaches(c, Start, s) && i in s.calls && j in s.calls && s.calls[i].InFetch() && s.calls[j].InFetch()
    ensures i == j
  {
    ReachableIsInv(c, s);
  }

  /** With any number of callers: a call whose key is within its age is answered from the cache
      at its first look, without a lock and without a fetch; any other goes on to refresh. */
  lemma FreshKeysNeedNoFetch(c: Config, s: State, i: nat)
    requires i in s.calls && s.calls[i].Asking?
    ensures var s', kid := Next(c, s, FirstLook(i)), s.calls[i].kid;
            && s' == s.(calls := s.calls[i := s'.calls[i]])
            && if kid in s.cache.keys && WithinAge(c, s.cache, s.now) then
                 s'.calls[i] == Answered(Ok(s.cache.keys[kid]))
               else s'.calls[i] == Waiting(kid, s.now)
  {
  }

  /** A call that holds the refresh mutex begins a fetch exactly if it is not too soon for one,
      and nothing but such a call begins any. */
  lemma FetchesBeginWhenDue(c: Config, s: State, a: Action)
    requires Inv(c, s)
    ensures Next(c, s, a).starts != s.starts <==> a.Stamp? && a.i in s.calls && s.calls[a.i].Cleared?
    ensures Next(c, s, a).starts != s.starts ==>
              Next(c, s, a).starts == s.starts + [s.now] && !TooSoon(c, s.cache, s.now)
    ensures a.CheckLimit? && a.i in s.calls && s.calls[a.i].Holding? ==>
              (Next(c, s, a).calls[a.i].Cleared? <==> !TooSoon(c, s.cache, s.now))
              && (TooSoon(c, s.cache, s.now) ==>
                    Next(c, s, a).calls[a.i] == Refreshed(s.calls[a.i].kid, s.calls[a.i].since,
                                                          if s.cache.warm then None else Some(LimitedWhileCold)))
  {
    if a.Stamp? && a.i in s.calls && s.calls[a.i].Cleared? {
      assert CallOk(c, s, s.calls[a.i]);
    }
  }

  /** Back from refresh, a call succeeds exactly when its key is in the last set fetched
      successfully, whether or not its own refresh worked; and what it reports otherwise is
      Unavailable exactly when no fetch ever succeeded. */
  lemma AnswersAreHonest(c: Config, s: State, i: nat)
    requires Reaches(c, Start, s) && i in s.calls
    ensures s.calls[i].Refreshed? ==>
              (Next(c, s, SecondLook(i)).calls[i].Answered?
               <==> s.calls[i].kid in KeysOf(Latest(s.log)))
    ensures s.calls[i].Unfound? ==>
              var to := Next(c, s, Report(i)).calls[i];
              to.Answered? && to.answer.Err? && (to.answer.error.Unavailable? <==> Latest(s.log) == None)
  {
    ReachableIsInv(c, s);
    assert CallOk(c, s, s.calls[i]);
  }
}
