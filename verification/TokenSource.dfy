/** The cached token source: one call, as code and as a function of the cache. */
module TokenSource {
  import opened Strings

  /** Instants and durations in nanoseconds. */
  type Time = int

  const SECOND: Time := 1_000_000_000
  const MAX_SKEW: Time := 30 * SECOND
  const DEFAULT_TTL: Time := 300 * SECOND

  /** What a fetch brings back. */
  datatype Fetch = Failed | Fetched(token: string, ttl: Time)

  datatype Answer = Served(token: string) | Error

  /** The two guarded fields. "" means nothing is cached yet. */
  datatype Cache = Cache(token: string, exp: Time)

  const EMPTY := Cache("", 0)

  // ---------------------------------------------------------------- arithmetic

  /** Two's-complement wrap-around of a 64-bit product. */
  function Wrap64(x: int): int {
    (x + 0x8000_0000_0000_0000) % 0x1_0000_0000_0000_0000 - 0x8000_0000_0000_0000
  }

  /** The lifetime given to a token whose response says `expiresIn` seconds. */
  function Ttl(expiresIn: int): Time {
    var ttl := Wrap64(expiresIn * SECOND);
    if ttl <= 0 then DEFAULT_TTL else ttl
  }

  /** d is the 64-bit value of the product x. */
  predicate IsProduct64(d: Time, x: int) {
    -0x8000_0000_0000_0000 <= d < 0x8000_0000_0000_0000 && (d - x) % 0x1_0000_0000_0000_0000 == 0
  }

  lemma WrapIsProduct(x: int, d: Time)
    ensures IsProduct64(d, x) <==> d == Wrap64(x)
  {
  }

  /** A token response always yields a positive lifetime: the product's 64-bit value when
      that is positive, five minutes otherwise. Without overflow it is the seconds given,
      and five minutes when the response names none. */
  method ComputeTtl(expiresIn: int) returns (ttl: Time)
    ensures ttl > 0 && ttl == Ttl(expiresIn)
    ensures forall d :: IsProduct64(d, expiresIn * SECOND) ==> ttl == if d > 0 then d else DEFAULT_TTL
    ensures 1 <= expiresIn <= 9223372036 ==> ttl == expiresIn * SECOND
    ensures -9223372036 <= expiresIn <= 0 ==> ttl == 300 * SECOND
  {
    ttl := Wrap64(expiresIn * SECOND);
    if ttl <= 0 { ttl := DEFAULT_TTL; }
    forall d | IsProduct64(d, expiresIn * SECOND) ensures ttl == if d > 0 then d else DEFAULT_TTL {
      WrapIsProduct(expiresIn * SECOND, d);
    }
  }

  /** A duration halved as Go divides: towards zero. */
  function Half(d: Time): Time {
    if d >= 0 then d / 2 else -((-d) / 2)
  }

  /** How long before its end a token is given up. */
  function Skew(ttl: Time): Time {
    if ttl <= MAX_SKEW then Half(ttl) else MAX_SKEW
  }

  /** The stretch for which a stored token is served. */
  function Lifetime(ttl: Time): Time { ttl - Skew(ttl) }

  function HalfSeconds(n: int): Time { n * 500_000_000 }

  // ---------------------------------------------------------------- one call

  /** A stored token may be handed out. */
  predicate Fresh(c: Cache, now: Time) { c.token != "" && now < c.exp }

  /** One pass through the critical section: `now` is the clock when the cache is looked
      at, `end` the clock when a new expiry is computed. `fetch` and `end` matter only when
      the cache is not fresh. */
  datatype Call = Call(now: Time, fetch: Fetch, end: Time)

  predicate Hits(c: Cache, call: Call) { Fresh(c, call.now) }

  predicate Stores(c: Cache, call: Call) { !Hits(c, call) && call.fetch.Fetched? }

  function After(c: Cache, call: Call): Cache {
    if Stores(c, call) then Cache(call.fetch.token, call.end + Lifetime(call.fetch.ttl)) else c
  }

  function AnswerOf(c: Cache, call: Call): Answer {
    if Hits(c, call) then Served(c.token)
    else if call.fetch.Fetched? then Served(call.fetch.token)
    else Error
  }

  class CachedTokenSource {
    var token: string
    var exp: Time

    constructor ()
      ensures View() == EMPTY
    {
      token, exp := "", 0;
    }

    function View(): Cache
      reads this
    {
      Cache(token, exp)
    }

    /** Token, with the lock held: the clock readings and the fetch come from outside. */
    method Token(call: Call) returns (answer: Answer)
      modifies this
      ensures View() == After(old(View()), call)
      ensures answer == AnswerOf(old(View()), call)
      ensures answer.Error? ==> View() == old(View())
    {
      if token != "" && call.now < exp { return Served(token); }
      if call.fetch.Failed? { return Error; }
      var tok, ttl := call.fetch.token, call.fetch.ttl;
      var skew := MAX_SKEW;
      if ttl <= skew { skew := Half(ttl); }
      token := tok;
      exp := call.end + (ttl - skew);
      return Served(tok);
    }
  }
}

/** What any sequence of calls, made one after the other, guarantees. */
module TokenLaws {
  import opened TokenSource

  /** A token response always yields a positive lifetime. It is the seconds given exactly
      while these do not overflow, and five minutes when the response names none; without
      overflow it is a whole number of seconds. */
  lemma TtlRule(expiresIn: int)
    ensures Ttl(expiresIn) > 0
    ensures expiresIn > 0 ==> (Ttl(expiresIn) == expiresIn * SECOND <==> expiresIn <= 9223372036)
    ensures -9223372036 <= expiresIn <= 0 ==> Ttl(expiresIn) == DEFAULT_TTL
    ensures -9223372036 <= expiresIn <= 9223372036 ==> Ttl(expiresIn) % SECOND == 0
  {
  }

  /** A token is served for a positive part of its lifetime, which ends before it does. */
  lemma LifetimeBounds(ttl: Time)
    requires ttl > 0
    ensures 0 < Lifetime(ttl) <= ttl && Lifetime(ttl) + Skew(ttl) == ttl && 0 <= Skew(ttl) < ttl
    ensures ttl <= 30 * SECOND ==> 2 * Skew(ttl) <= ttl < 2 * Skew(ttl) + 2
    ensures ttl > 30 * SECOND ==> Skew(ttl) == 30 * SECOND
    ensures ttl % SECOND == 0 ==> Lifetime(ttl) >= HalfSeconds(1)
  {
  }

  /** Halving a lifetime that is not positive goes towards zero, as Go's division does. */
  lemma NonPositiveLifetime(ttl: Time)
    requires ttl <= 0
    ensures 2 * Skew(ttl) - 2 < ttl <= 2 * Skew(ttl) && ttl - 1 <= 2 * Lifetime(ttl) <= ttl
  {
  }

  /** The cache after a list of calls. */
  function CacheAfter(log: seq<Call>): Cache {
    if log == [] then EMPTY else After(CacheAfter(log[..|log| - 1]), log[|log| - 1])
  }

  function CacheAt(log: seq<Call>, i: nat): Cache
    requires i <= |log|
  {
    CacheAfter(log[..i])
  }

  predicate HitAt(log: seq<Call>, i: nat)
    requires i < |log|
  {
    Hits(CacheAt(log, i), log[i])
  }

  predicate StoreAt(log: seq<Call>, i: nat)
    requires i < |log|
  {
    Stores(CacheAt(log, i), log[i])
  }

  function AnswerAt(log: seq<Call>, i: nat): Answer
    requires i < |log|
  {
    AnswerOf(CacheAt(log, i), log[i])
  }

  /** When the token of store i stops being served. */
  function ExpiryOf(log: seq<Call>, i: nat): Time
    requires i < |log| && log[i].fetch.Fetched?
  {
    log[i].end + Lifetime(log[i].fetch.ttl)
  }

  /** The fetch contract: a token that comes back is not empty and lives for a positive time. */
  predicate GoodFetch(f: Fetch) { f.Fetched? ==> f.token != "" && f.ttl > 0 }

  /** Calls that do not overlap, in the order the lock admitted them. */
  predicate Sequential(log: seq<Call>) {
    && (forall i :: 0 <= i < |log| ==> log[i].now <= log[i].end && GoodFetch(log[i].fetch))
    && (forall i, j :: 0 <= i < j < |log| ==> log[i].end <= log[j].now)
  }

  lemma CacheStep(log: seq<Call>, i: nat)
    requires i < |log|
    ensures CacheAt(log, i + 1) == After(CacheAt(log, i), log[i])
  {
    assert log[..i + 1][..i] == log[..i];
  }

  /** While a stored token is fresh every later call returns it and none fetches. */
  lemma {:induction false} FreshTokenIsServed(log: seq<Call>, i: nat, k: nat)
    requires Sequential(log) && i < k < |log| && StoreAt(log, i)
    requires log[k].now < ExpiryOf(log, i)
    ensures CacheAt(log, k) == Cache(log[i].fetch.token, ExpiryOf(log, i))
    ensures HitAt(log, k) && AnswerAt(log, k) == AnswerAt(log, i)
    decreases k
  {
    if k == i + 1 {
      CacheStep(log, i);
    } else {
      assert log[k - 1].now <= log[k - 1].end <= log[k].now;
      FreshTokenIsServed(log, i, k - 1);
      CacheStep(log, k - 1);
    }
  }

  /** So the fetches of different stores are separated by the earlier token's lifetime. */
  lemma StoresAreSpaced(log: seq<Call>, i: nat, k: nat)
    requires Sequential(log) && i < k < |log| && StoreAt(log, i) && StoreAt(log, k)
    ensures ExpiryOf(log, i) <= log[k].now
  {
    if log[k].now < ExpiryOf(log, i) { FreshTokenIsServed(log, i, k); }
  }

  /** The store whose token the cache holds before call n. */
  function LastStore(log: seq<Call>, n: nat): (r: int)
    requires n <= |log|
    ensures -1 <= r < n
    ensures r >= 0 ==> StoreAt(log, r)
    ensures forall k :: r < k < n ==> !StoreAt(log, k)
  {
    if n == 0 then -1 else if StoreAt(log, n - 1) then n - 1 else LastStore(log, n - 1)
  }

  lemma {:induction false} CacheIsLastStore(log: seq<Call>, n: nat)
    requires n <= |log|
    ensures var j := LastStore(log, n);
      CacheAt(log, n) == if j < 0 then EMPTY else Cache(log[j].fetch.token, ExpiryOf(log, j))
  {
    if n > 0 {
      CacheStep(log, n - 1);
      CacheIsLastStore(log, n - 1);
    }
  }

  /** The store a served token comes from: the call itself, or the last store before it. */
  function Source(log: seq<Call>, i: nat): int
    requires i < |log|
  {
    if StoreAt(log, i) then i else LastStore(log, i)
  }

  /** Every token handed out comes from a store; from the cache only before that store's expiry. */
  lemma ServedFromSource(log: seq<Call>, i: nat)
    requires i < |log| && AnswerAt(log, i).Served?
    ensures 0 <= Source(log, i) <= i && StoreAt(log, Source(log, i))
    ensures AnswerAt(log, i) == Served(log[Source(log, i)].fetch.token)
    ensures HitAt(log, i) ==> log[i].now < ExpiryOf(log, Source(log, i))
  {
    CacheIsLastStore(log, i);
  }

  /** Later calls draw on later stores. */
  lemma SourcesAreOrdered(log: seq<Call>, i: nat, k: nat)
    requires i <= k < |log|
    ensures Source(log, i) <= Source(log, k)
  {
  }

  /** A longer log tells the same about the calls it shares. */
  lemma {:induction false} PrefixTellsTheSame(log: seq<Call>, longer: seq<Call>, n: nat)
    requires log <= longer && n <= |log|
    ensures CacheAt(log, n) == CacheAt(longer, n)
    ensures LastStore(log, n) == LastStore(longer, n)
  {
    assert log[..n] == longer[..n];
    if n > 0 { PrefixTellsTheSame(log, longer, n - 1); }
  }

  lemma SourceInLongerLog(log: seq<Call>, longer: seq<Call>, i: nat)
    requires log <= longer && i < |log|
    ensures Source(log, i) == Source(longer, i)
    ensures forall k: nat :: k < |log| ==> StoreAt(log, k) == StoreAt(longer, k)
  {
    PrefixTellsTheSame(log, longer, i);
    forall k: nat | k < |log| ensures StoreAt(log, k) == StoreAt(longer, k) { PrefixTellsTheSame(log, longer, k); }
  }

  /** The instant at which call i decides to hand out its token. */
  function DecidedAt(log: seq<Call>, i: nat): Time
    requires i < |log|
  {
    if HitAt(log, i) then log[i].now else log[i].end
  }

  /** A token issued no more than the skew before its fetch completed is never handed out
      at or after its end of life. */
  lemma NeverServedExpired(log: seq<Call>, i: nat, issued: Time)
    requires Sequential(log) && i < |log| && AnswerAt(log, i).Served?
    requires 0 <= Source(log, i) < |log| && log[Source(log, i)].fetch.Fetched? ==>
      issued >= log[Source(log, i)].end - Skew(log[Source(log, i)].fetch.ttl)
    ensures var j := Source(log, i);
      0 <= j <= i && log[j].fetch.Fetched? && DecidedAt(log, i) < issued + log[j].fetch.ttl
  {
    ServedFromSource(log, i);
    LifetimeBounds(log[Source(log, i)].fetch.ttl);
  }

  /** ... and that bound is exact: for an earlier issue there is an instant at which the
      cache still serves a token that is past its end. */
  lemma SkewIsExact(end: Time, token: string, ttl: Time, issued: Time)
    requires token != "" && ttl > 0
    ensures var c := After(EMPTY, Call(end, Fetched(token, ttl), end));
      (forall now :: end <= now && Fresh(c, now) ==> now < issued + ttl) <==> issued >= end - Skew(ttl)
  {
    LifetimeBounds(ttl);
    var c := After(EMPTY, Call(end, Fetched(token, ttl), end));
    if issued < end - Skew(ttl) {
      var now := if issued + ttl > end then issued + ttl else end;
      assert end <= now && Fresh(c, now) && now >= issued + ttl;
    }
  }

  // ---------------------------------------------------------------- fetch rate

  /** All lifetimes are whole seconds, as they are when no response overflows. */
  predicate WholeSeconds(log: seq<Call>) {
    forall i :: 0 <= i < |log| && log[i].fetch.Fetched? ==> log[i].fetch.ttl % SECOND == 0
  }

  /** The stores among the first n calls that complete within [from, to]. */
  function StoresWithin(log: seq<Call>, n: nat, from: Time, to: Time): set<nat>
    requires n <= |log|
  {
    set i: nat | i < n && StoreAt(log, i) && from <= log[i].end <= to
  }

  predicate StoreWithin(log: seq<Call>, i: nat, from: Time, to: Time)
    requires i < |log|
  {
    StoreAt(log, i) && from <= log[i].end <= to
  }

  function CountStores(log: seq<Call>, n: nat, from: Time, to: Time): nat
    requires n <= |log|
  {
    if n == 0 then 0 else CountStores(log, n - 1, from, to) + if StoreWithin(log, n - 1, from, to) then 1 else 0
  }

  lemma {:induction false} CountIsSize(log: seq<Call>, n: nat, from: Time, to: Time)
    requires n <= |log|
    ensures |StoresWithin(log, n, from, to)| == CountStores(log, n, from, to)
  {
    hide StoreAt;
    if n > 0 {
      CountIsSize(log, n - 1, from, to);
      var before, all := StoresWithin(log, n - 1, from, to), StoresWithin(log, n, from, to);
      if StoreWithin(log, n - 1, from, to) { assert all == before + {n - 1}; } else { assert all == before; }
    }
  }

  lemma NextStoreIsLater(log: seq<Call>, i: nat, k: nat)
    requires Sequential(log) && WholeSeconds(log) && i < k < |log| && StoreAt(log, i) && StoreAt(log, k)
    ensures log[k].end >= log[i].end + HalfSeconds(1)
  {
    StoresAreSpaced(log, i, k);
    LifetimeBounds(log[i].fetch.ttl);
  }

  /** k stores within a window need at least k - 1 half seconds. */
  lemma {:induction false} StoresTakeTime(log: seq<Call>, n: nat, from: Time, to: Time) returns (last: nat)
    requires Sequential(log) && WholeSeconds(log) && n <= |log|
    requires CountStores(log, n, from, to) > 0
    ensures last < n && StoreWithin(log, last, from, to)
    ensures log[last].end >= from + HalfSeconds(CountStores(log, n, from, to) - 1)
    decreases n
  {
    hide StoreAt, Sequential, WholeSeconds;
    if !StoreWithin(log, n - 1, from, to) {
      last := StoresTakeTime(log, n - 1, from, to);
    } else {
      last := n - 1;
      if CountStores(log, n - 1, from, to) > 0 {
        var previous := StoresTakeTime(log, n - 1, from, to);
        NextStoreIsLater(log, previous, n - 1);
      }
    }
  }

  /** At most one fetch succeeds per half second, plus one, in any window of any length. */
  lemma FetchRate(log: seq<Call>, from: Time, window: Time)
    requires Sequential(log) && WholeSeconds(log) && window >= 0
    ensures |StoresWithin(log, |log|, from, from + window)| <= 1 + window / HalfSeconds(1)
  {
    CountIsSize(log, |log|, from, from + window);
    if CountStores(log, |log|, from, from + window) > 0 {
      hide StoreAt, Sequential, WholeSeconds, CountStores, StoresWithin;
      var last := StoresTakeTime(log, |log|, from, from + window);
      HalfSecondsFit(CountStores(log, |log|, from, from + window), window);
    }
  }

  lemma HalfSecondsFit(n: nat, window: Time)
    requires HalfSeconds(n - 1) <= window
    ensures n <= 1 + window / HalfSeconds(1)
  {
  }
}

/** Many callers, one lock: every interleaving is some sequence of calls. */
module TokenMachine {
  import opened Strings
  import opened TokenSource
  import opened TokenLaws

  type Caller = nat

  /** Where a caller stands in Token. */
  datatype Place =
    | Waiting
    | Inside
    | Fetching(looked: Time)
    | Returned(looked: Time, fetch: Fetch)
    | Leaving(answer: Answer)

  /** `places` holds the callers that are in Token; `log` records the calls that have made
      their decision, in that order. */
  datatype State = State(
    now: Time,
    cache: Cache,
    lock: Option<Caller>,
    places: map<Caller, Place>,
    log: seq<Call>)

  datatype Step =
    | Tick(d: nat)
    | Enter(c: Caller)
    | Lock(c: Caller)
    | Hit(c: Caller)
    | Miss(c: Caller)
    | FetchReturns(c: Caller, fetch: Fetch)
    | Finish(c: Caller)
    | Unlock(c: Caller)

  predicate At(s: State, c: Caller, place: Place) { c in s.places && s.places[c] == place }

  predicate Initial(s: State) {
    s.cache == EMPTY && s.lock.None? && s.places == map[] && s.log == []
  }

  predicate Enabled(s: State, step: Step) {
    match step
    case Tick(d) => true
    case Enter(c) => c !in s.places
    case Lock(c) => At(s, c, Waiting) && s.lock.None?
    case Hit(c) => At(s, c, Inside) && Fresh(s.cache, s.now)
    case Miss(c) => At(s, c, Inside) && !Fresh(s.cache, s.now)
    case FetchReturns(c, fetch) => c in s.places && s.places[c].Fetching? && GoodFetch(fetch)
    case Finish(c) => c in s.places && s.places[c].Returned?
    case Unlock(c) => c in s.places && s.places[c].Leaving?
  }

  /** One atomic step. Time passes only in Tick, and may pass between any two others. */
  function Next(s: State, step: Step): State
    requires Enabled(s, step)
  {
    match step
    case Tick(d) => s.(now := s.now + d)
    case Enter(c) => s.(places := s.places[c := Waiting])
    case Lock(c) => s.(places := s.places[c := Inside], lock := Some(c))
    case Hit(c) =>
      s.(places := s.places[c := Leaving(Served(s.cache.token))], log := s.log + [Call(s.now, Failed, s.now)])
    case Miss(c) => s.(places := s.places[c := Fetching(s.now)])
    case FetchReturns(c, fetch) => s.(places := s.places[c := Returned(s.places[c].looked, fetch)])
    case Finish(c) =>
      var p := s.places[c];
      var logged := s.log + [Call(p.looked, p.fetch, s.now)];
      if p.fetch.Failed? then s.(places := s.places[c := Leaving(Error)], log := logged)
      else
        s.(places := s.places[c := Leaving(Served(p.fetch.token))],
           cache := Cache(p.fetch.token, s.now + Lifetime(p.fetch.ttl)),
           log := logged)
    case Unlock(c) => s.(places := s.places - {c}, lock := None)
  }

  /** Past the lock and not yet out. */
  predicate InSection(s: State, c: Caller) { c in s.places && !s.places[c].Waiting? }

  /** Only the holder of the lock is past it, and a taken lock has a holder past it. */
  predicate Exclusive(s: State) {
    && (forall c :: c in s.places && InSection(s, c) ==> s.lock == Some(c))
    && (s.lock.Some? ==> InSection(s, s.lock.value))
  }

  /** The log is a sequence of non-overlapping calls, the cache is what they leave, and a
      caller on its way out carries the answer the log gives it. */
  predicate Faithful(s: State) {
    && Sequential(s.log)
    && s.cache == CacheAfter(s.log)
    && (s.log != [] ==> s.log[|s.log| - 1].end <= s.now)
    && (forall c :: c in s.places ==> Consistent(s, s.places[c]))
  }

  predicate Consistent(s: State, p: Place) {
    match p
    case Waiting => true
    case Inside => true
    case Fetching(looked) => LookedAt(s, looked)
    case Returned(looked, fetch) => LookedAt(s, looked) && GoodFetch(fetch)
    case Leaving(answer) => s.log != [] && answer == AnswerAt(s.log, |s.log| - 1)
  }

  /** A caller that went on to fetch saw a cache that was not fresh, after the last call. */
  predicate LookedAt(s: State, looked: Time) {
    && looked <= s.now
    && !Fresh(s.cache, looked)
    && (s.log != [] ==> s.log[|s.log| - 1].end <= looked)
  }

  predicate Inv(s: State) { Exclusive(s) && Faithful(s) }

  lemma InitialInv(s: State)
    requires Initial(s)
    ensures Inv(s)
  {
  }

  /** Appending a call that starts no earlier than the last one ended. */
  lemma AppendCall(log: seq<Call>, call: Call)
    requires Sequential(log) && call.now <= call.end && GoodFetch(call.fetch)
    requires log != [] ==> log[|log| - 1].end <= call.now
    ensures Sequential(log + [call])
    ensures CacheAfter(log + [call]) == After(CacheAfter(log), call)
    ensures AnswerAt(log + [call], |log|) == AnswerOf(CacheAfter(log), call)
  {
    AppendKeepsOrder(log, call);
    var longer := log + [call];
    assert longer[..|log|] == log && longer[..|longer| - 1] == log;
    hide Sequential, After, AnswerOf;
  }

  lemma AppendKeepsOrder(log: seq<Call>, call: Call)
    requires Sequential(log) && call.now <= call.end && GoodFetch(call.fetch)
    requires log != [] ==> log[|log| - 1].end <= call.now
    ensures Sequential(log + [call])
  {
    forall i | 0 <= i < |log| ensures log[i].end <= call.now {
      if i < |log| - 1 { assert log[i].end <= log[|log| - 1].now; }
    }
  }

  lemma OthersWait(s: State, c: Caller)
    requires Exclusive(s) && InSection(s, c)
    ensures forall d :: d in s.places && d != c ==> s.places[d].Waiting?
  {
  }

  /** Steps that leave cache and log alone: time passing, and callers coming, locking,
      going on to fetch, hearing back and leaving. */
  lemma QuietStepKeepsInv(s: State, step: Step)
    requires Inv(s) && Enabled(s, step) && !step.Hit? && !step.Finish?
    ensures Inv(Next(s, step))
  {
    var t := Next(s, step);
    if step.Unlock? { OthersWait(s, step.c); }
    forall c | c in t.places ensures Consistent(t, t.places[c]) && (InSection(t, c) ==> t.lock == Some(c)) {
      if c in s.places { assert Consistent(s, s.places[c]) && (InSection(s, c) ==> s.lock == Some(c)); }
    }
  }

  /** Steps that decide a call: the decision is the next call of the sequential log. */
  lemma DecidingStepKeepsInv(s: State, step: Step)
    requires Inv(s) && Enabled(s, step) && (step.Hit? || step.Finish?)
    ensures Inv(Next(s, step))
    ensures s.log <= Next(s, step).log
  {
    var c := step.c;
    assert InSection(s, c) && Consistent(s, s.places[c]);
    OthersWait(s, c);
    if step.Hit? {
      DecisionKeepsInv(s, Next(s, step), c, Call(s.now, Failed, s.now));
    } else {
      DecisionKeepsInv(s, Next(s, step), c, Call(s.places[c].looked, s.places[c].fetch, s.now));
    }
  }

  lemma DecisionKeepsInv(s: State, t: State, c: Caller, call: Call)
    requires Faithful(s) && s.lock == Some(c)
    requires forall d :: d in s.places && d != c ==> s.places[d].Waiting?
    requires call.now <= call.end == s.now && GoodFetch(call.fetch)
    requires s.log != [] ==> s.log[|s.log| - 1].end <= call.now
    requires t == State(s.now, After(s.cache, call), s.lock, s.places[c := Leaving(AnswerOf(s.cache, call))],
                        s.log + [call])
    ensures Inv(t)
  {
    AppendCall(s.log, call);
    assert t.log[..|s.log|] == s.log;
    hide Sequential, CacheAfter, AnswerAt;
  }

  /** What every step of every caller keeps. */
  lemma StepKeepsInv(s: State, step: Step)
    requires Inv(s) && Enabled(s, step)
    ensures Inv(Next(s, step))
    ensures s.log <= Next(s, step).log && s.now <= Next(s, step).now
  {
    if step.Hit? || step.Finish? { DecidingStepKeepsInv(s, step); } else { QuietStepKeepsInv(s, step); }
  }

  /** A run: states linked by steps. */
  predicate IsRun(states: seq<State>, steps: seq<Step>) {
    && |states| == |steps| + 1
    && Initial(states[0])
    && forall i :: 0 <= i < |steps| ==> Enabled(states[i], steps[i]) && states[i + 1] == Next(states[i], steps[i])
  }

  /** Every state of every run is exclusive and faithful to a sequential log that only grows. */
  lemma {:induction false} RunsAreSequential(states: seq<State>, steps: seq<Step>, k: nat)
    requires IsRun(states, steps) && k < |states|
    ensures Inv(states[k])
    ensures forall i :: 0 <= i <= k ==> states[i].log <= states[k].log
    decreases k
  {
    if k == 0 {
      InitialInv(states[0]);
    } else {
      RunsAreSequential(states, steps, k - 1);
      StepKeepsInv(states[k - 1], steps[k - 1]);
    }
  }

  /** In every interleaving at most one fetch is in flight. */
  lemma OneFetchInFlight(states: seq<State>, steps: seq<Step>, k: nat, c: Caller, d: Caller)
    requires IsRun(states, steps) && k < |states|
    requires c in states[k].places && states[k].places[c].Fetching?
    requires d in states[k].places && states[k].places[d].Fetching?
    ensures c == d
  {
    RunsAreSequential(states, steps, k);
    assert InSection(states[k], c) && InSection(states[k], d);
  }

  /** Between its look and its decision: the caller holds the lock and has a fetch going. */
  predicate HoldsFetch(s: State, c: Caller) {
    s.lock == Some(c) && c in s.places && (s.places[c].Fetching? || s.places[c].Returned?)
  }

  lemma StepKeepsHold(s: State, step: Step, c: Caller)
    requires Exclusive(s) && Enabled(s, step) && HoldsFetch(s, c) && step != Finish(c)
    ensures HoldsFetch(Next(s, step), c)
    ensures Next(s, step).cache == s.cache && Next(s, step).log == s.log
  {
    assert InSection(s, c);
    OthersWait(s, c);
  }

  /** While a caller is between its look and its decision nobody touches the cache. */
  lemma {:induction false} FetchingHoldsCache(states: seq<State>, steps: seq<Step>, i: nat, k: nat, c: Caller)
    requires IsRun(states, steps) && i < k < |states| && steps[i] == Miss(c)
    requires forall n :: i < n < k ==> steps[n] != Finish(c)
    ensures HoldsFetch(states[k], c)
    ensures states[k].cache == states[i].cache && states[k].log == states[i].log
    decreases k
  {
    RunsAreSequential(states, steps, k - 1);
    if k == i + 1 {
      assert InSection(states[i], c);
    } else {
      FetchingHoldsCache(states, steps, i, k - 1, c);
      hide Faithful, HoldsFetch, Exclusive;
      StepKeepsHold(states[k - 1], steps[k - 1], c);
    }
  }

  /** A fetch that fails changes neither the token nor its expiry, from the look that
      started it to the error that ends it, whatever the other callers do meanwhile. */
  lemma FailedFetchChangesNothing(states: seq<State>, steps: seq<Step>, i: nat, k: nat, c: Caller)
    requires IsRun(states, steps) && i < k < |steps| && steps[i] == Miss(c) && steps[k] == Finish(c)
    requires forall n :: i < n < k ==> steps[n] != Finish(c)
    requires c in states[k].places && states[k].places[c].Returned? && states[k].places[c].fetch.Failed?
    ensures states[k + 1].cache == states[i].cache
    ensures At(states[k + 1], c, Leaving(Error))
  {
    FetchingHoldsCache(states, steps, i, k, c);
  }

  /** A caller that looks at the cache between a successful fetch and its expiry leaves with
      that fetch's token and starts no fetch. */
  lemma LookBeforeExpiryIsServed(states: seq<State>, steps: seq<Step>, k: nat, c: Caller, i: nat)
    requires IsRun(states, steps) && k < |steps| && At(states[k], c, Inside)
    requires i < |states[k].log| && StoreAt(states[k].log, i) && states[k].now < ExpiryOf(states[k].log, i)
    ensures steps[k] != Miss(c)
    ensures steps[k] == Hit(c) ==> At(states[k + 1], c, Leaving(Served(states[k].log[i].fetch.token)))
  {
    RunsAreSequential(states, steps, k);
    FreshAtTheEnd(states[k], i);
  }

  /** The look decides: a caller inside can be served from the cache exactly while some
      fetch that has succeeded is before its expiry, and goes on to fetch exactly otherwise. */
  lemma LookDecides(states: seq<State>, steps: seq<Step>, k: nat, c: Caller)
    requires IsRun(states, steps) && k < |states| && At(states[k], c, Inside)
    ensures var log := states[k].log;
      Enabled(states[k], Hit(c)) <==> exists i: nat :: i < |log| && StoreAt(log, i) && states[k].now < ExpiryOf(log, i)
    ensures Enabled(states[k], Miss(c)) <==> !Enabled(states[k], Hit(c))
  {
    var s := states[k];
    RunsAreSequential(states, steps, k);
    CacheIsLastStore(s.log, |s.log|);
    assert s.log[..|s.log|] == s.log;
    if Fresh(s.cache, s.now) {
      var j := LastStore(s.log, |s.log|);
      assert StoreAt(s.log, j) && s.now < ExpiryOf(s.log, j);
    }
    if i: nat :| i < |s.log| && StoreAt(s.log, i) && s.now < ExpiryOf(s.log, i) {
      FreshAtTheEnd(s, i);
    }
  }

  lemma FreshAtTheEnd(s: State, i: nat)
    requires Inv(s) && i < |s.log| && StoreAt(s.log, i) && s.now < ExpiryOf(s.log, i)
    ensures Fresh(s.cache, s.now) && s.cache.token == s.log[i].fetch.token
  {
    var call := Call(s.now, Failed, s.now);
    AppendCall(s.log, call);
    var longer := s.log + [call];
    assert longer[..i] == s.log[..i] && longer[i] == s.log[i];
    assert longer[..|s.log|] == s.log;
    FreshTokenIsServed(longer, i, |s.log|);
  }

  /** Tokens leave in fetch order: of two callers served in a run, the one that decided
      earlier has the token of the same or an earlier fetch. */
  lemma ServedInFetchOrder(states: seq<State>, steps: seq<Step>, i: nat, k: nat, c: Caller, d: Caller)
    requires IsRun(states, steps) && i <= k < |states|
    requires LeavesServed(states[i], c) && LeavesServed(states[k], d)
    ensures var log := states[k].log;
      && 0 < |states[i].log| <= |log|
      && var a, b := Source(log, |states[i].log| - 1), Source(log, |log| - 1);
      && 0 <= a <= b && StoreAt(log, a) && StoreAt(log, b)
      && states[i].places[c].answer == Served(log[a].fetch.token)
      && states[k].places[d].answer == Served(log[b].fetch.token)
  {
    hide IsRun, Inv, StoreAt, Source;
    RunsAreSequential(states, steps, i);
    RunsAreSequential(states, steps, k);
    assert states[i].log <= states[k].log;
    LeavesWithSource(states[i], c);
    LeavesWithSource(states[k], d);
    EarlierSource(states[i].log, states[k].log);
  }

  predicate LeavesServed(s: State, c: Caller) {
    c in s.places && s.places[c].Leaving? && s.places[c].answer.Served?
  }

  lemma EarlierSource(early: seq<Call>, log: seq<Call>)
    requires early <= log && early != []
    requires 0 <= Source(early, |early| - 1) < |early| && StoreAt(early, Source(early, |early| - 1))
    ensures Source(early, |early| - 1) == Source(log, |early| - 1) <= Source(log, |log| - 1)
    ensures StoreAt(log, Source(early, |early| - 1))
    ensures log[Source(early, |early| - 1)] == early[Source(early, |early| - 1)]
  {
    SourceInLongerLog(early, log, |early| - 1);
    SourcesAreOrdered(log, |early| - 1, |log| - 1);
    hide StoreAt, Source;
  }

  lemma LeavesWithSource(s: State, c: Caller)
    requires Inv(s) && LeavesServed(s, c)
    ensures s.log != []
    ensures var a := Source(s.log, |s.log| - 1);
      0 <= a < |s.log| && StoreAt(s.log, a) && s.places[c].answer == Served(s.log[a].fetch.token)
  {
    assert Consistent(s, s.places[c]);
    ServedFromSource(s.log, |s.log| - 1);
  }

  /** A token is handed out only while the fetch it came from is being served; and if that
      token was issued no more than the skew before its fetch completed, the decision falls
      before the token's end of life. The clock may run on before the caller is out. */
  lemma LeavingTokenIsLive(states: seq<State>, steps: seq<Step>, k: nat, c: Caller, issued: Time)
    requires IsRun(states, steps) && k < |states| && LeavesServed(states[k], c)
    ensures var log := states[k].log;
      log != [] && var i := |log| - 1; var j := Source(log, i);
      && 0 <= j <= i && StoreAt(log, j)
      && states[k].places[c].answer == Served(log[j].fetch.token)
      && DecidedAt(log, i) < log[j].end + Lifetime(log[j].fetch.ttl)
      && (issued >= log[j].end - Skew(log[j].fetch.ttl) ==> DecidedAt(log, i) < issued + log[j].fetch.ttl)
  {
    RunsAreSequential(states, steps, k);
    assert Consistent(states[k], states[k].places[c]);
    var log := states[k].log;
    ServedFromSource(log, |log| - 1);
    LifetimeBounds(log[Source(log, |log| - 1)].fetch.ttl);
  }

  // ---------------------------------------------------------------- runs that exist

  /** Any enabled step continues a run. */
  lemma Extend(states0: seq<State>, steps0: seq<Step>, step: Step) returns (states: seq<State>, steps: seq<Step>)
    requires IsRun(states0, steps0) && Enabled(states0[|steps0|], step)
    ensures IsRun(states, steps) && states0 <= states && steps == steps0 + [step]
    ensures states[|steps|] == Next(states0[|steps0|], step)
  {
    states, steps := states0 + [Next(states0[|steps0|], step)], steps0 + [step];
  }

  /** The first caller looks at the empty cache and stores what its fetch brings back
      after `latency`. */
  lemma FirstFetchRun(s: State, token: string, ttl: Time, latency: nat) returns (states: seq<State>, steps: seq<Step>)
    requires Initial(s) && token != "" && ttl > 0
    ensures IsRun(states, steps)
    ensures var end := s.now + latency;
      states[|steps|]
      == State(end, Cache(token, end + Lifetime(ttl)), None, map[], [Call(s.now, Fetched(token, ttl), end)])
  {
    states, steps := LookRun(s);
    states, steps := Extend(states, steps, Tick(latency));
    states, steps := StoreRun(states, steps, s.now, token, ttl);
  }

  lemma LookRun(s: State) returns (states: seq<State>, steps: seq<Step>)
    requires Initial(s)
    ensures IsRun(states, steps)
    ensures states[|steps|] == State(s.now, EMPTY, Some(0), map[0 := Fetching(s.now)], [])
  {
    states, steps := [s], [];
    states, steps := Extend(states, steps, Enter(0));
    states, steps := Extend(states, steps, Lock(0));
    states, steps := Extend(states, steps, Miss(0));
  }

  lemma StoreRun(states0: seq<State>, steps0: seq<Step>, looked: Time, token: string, ttl: Time)
    returns (states: seq<State>, steps: seq<Step>)
    requires IsRun(states0, steps0) && token != "" && ttl > 0
    requires var m := states0[|steps0|]; m.places == map[0 := Fetching(looked)] && m.log == []
    ensures IsRun(states, steps)
    ensures states[|steps|] == (var now := states0[|steps0|].now;
      State(now, Cache(token, now + Lifetime(ttl)), None, map[], [Call(looked, Fetched(token, ttl), now)]))
  {
    states, steps := Extend(states0, steps0, FetchReturns(0, Fetched(token, ttl)));
    states, steps := Extend(states, steps, Finish(0));
    states, steps := Extend(states, steps, Unlock(0));
    assert states[|steps|].places == map[];
  }

  lemma HitRun(states0: seq<State>, steps0: seq<Step>, wait: nat) returns (states: seq<State>, steps: seq<Step>)
    requires IsRun(states0, steps0)
    requires var m := states0[|steps0|]; m.places == map[] && m.lock.None? && Fresh(m.cache, m.now + wait)
    ensures IsRun(states, steps)
    ensures var m, s := states0[|steps0|], states[|steps|];
      && s.now == m.now + wait && s.log == m.log + [Call(s.now, Failed, s.now)]
      && At(s, 0, Leaving(Served(m.cache.token)))
  {
    states, steps := Extend(states0, steps0, Tick(wait));
    states, steps := Extend(states, steps, Enter(0));
    states, steps := Extend(states, steps, Lock(0));
    states, steps := Extend(states, steps, Hit(0));
  }

  /** The bound on the issue time is exact for runs too: for a token issued earlier than
      the skew before its fetch completed there is a run in which a second call is served
      that token from the cache when it is already past its end of life. */
  lemma StaleTokenRun(s: State, token: string, ttl: Time, latency: nat, issued: Time)
    returns (states: seq<State>, steps: seq<Step>)
    requires Initial(s) && token != "" && ttl > 0 && issued < s.now + latency - Skew(ttl)
    ensures IsRun(states, steps) && At(states[|steps|], 0, Leaving(Served(token)))
    ensures var log := states[|steps|].log;
      && |log| == 2 && StoreAt(log, 0) && log[0] == Call(s.now, Fetched(token, ttl), s.now + latency)
      && HitAt(log, 1) && Source(log, 1) == 0 && DecidedAt(log, 1) >= issued + ttl
  {
    LifetimeBounds(ttl);
    states, steps := FirstFetchRun(s, token, ttl, latency);
    var first := Call(s.now, Fetched(token, ttl), s.now + latency);
    var wait: nat := if issued + ttl > first.end then issued + ttl - first.end else 0;
    states, steps := HitRun(states, steps, wait);
    StoredThenHit(first, states[|steps|].now);
    hide IsRun;
    assert states[|steps|].log == [first, Call(states[|steps|].now, Failed, states[|steps|].now)];
  }

  /** The answer that caller c takes out of this state is a token with lifetime `ttl` whose
      fetch took `latency` from look to completion; it was issued during that fetch, and is
      handed out at or after its end of life. */
  predicate ServesStale(s: State, c: Caller, ttl: Time, latency: Time, issued: Time) {
    && LeavesServed(s, c) && s.log != []
    && var log, i := s.log, |s.log| - 1;
    && var j := Source(log, i);
    && 0 <= j && log[j].fetch.Fetched? && s.places[c].answer == Served(log[j].fetch.token)
    && log[j].fetch.ttl == ttl && log[j].end - log[j].now == latency
    && log[j].now <= issued <= log[j].end
    && DecidedAt(log, i) >= issued + ttl
  }

  ghost predicate RunServesStale(states: seq<State>, steps: seq<Step>, ttl: Time, latency: Time) {
    IsRun(states, steps) && exists k, c, issued :: 0 <= k < |states| && ServesStale(states[k], c, ttl, latency, issued)
  }

  /** A token issued during a fetch that took no longer than the skew is never handed out
      past its end, in any run. */
  lemma PromptFetchIsLive(states: seq<State>, steps: seq<Step>, k: nat, c: Caller, ttl: Time, latency: Time,
                          issued: Time)
    requires IsRun(states, steps) && k < |states| && latency <= Skew(ttl)
    ensures !ServesStale(states[k], c, ttl, latency, issued)
  {
    if LeavesServed(states[k], c) { LeavingTokenIsLive(states, steps, k, c, issued); }
    hide IsRun, StoreAt, Source, DecidedAt;
  }

  /** Exactly when a token that is issued during its own fetch can be handed out past its
      end of life: when that fetch took longer than the skew. */
  lemma StaleIffFetchIsSlow(ttl: Time, latency: nat)
    requires ttl > 0
    ensures (exists states, steps :: RunServesStale(states, steps, ttl, latency)) <==> latency > Skew(ttl)
  {
    hide StoreAt, Source, DecidedAt, HitAt, Skew;
    if latency > Skew(ttl) {
      var s := State(0, EMPTY, None, map[], []);
      var states, steps := StaleTokenRun(s, "t", ttl, latency, 0);
      assert ServesStale(states[|steps|], 0, ttl, latency, 0);
      assert RunServesStale(states, steps, ttl, latency);
    }
    hide IsRun, ServesStale;
    forall states, steps | RunServesStale(states, steps, ttl, latency) ensures latency > Skew(ttl) {
      var k, c, issued :| 0 <= k < |states| && ServesStale(states[k], c, ttl, latency, issued);
      if latency <= Skew(ttl) { PromptFetchIsLive(states, steps, k, c, ttl, latency, issued); }
    }
  }

  lemma StoredThenHit(first: Call, now: Time)
    requires GoodFetch(first.fetch) && first.fetch.Fetched? && now < first.end + Lifetime(first.fetch.ttl)
    ensures var log := [first, Call(now, Failed, now)];
      StoreAt(log, 0) && HitAt(log, 1) && Source(log, 1) == 0 && DecidedAt(log, 1) == now
  {
    var log := [first, Call(now, Failed, now)];
    assert CacheAt(log, 0) == EMPTY;
    CacheStep(log, 0);
    assert StoreAt(log, 0);
    assert LastStore(log, 1) == 0;
  }

  /** Holding the lock before the expiry is not enough: whenever the cache is fresh and the
      lock free, the run can go on with a caller that takes the lock while the token is
      fresh, and fetches because time passed before it looked. */
  lemma LockBeforeExpiryMayFetch(states0: seq<State>, steps0: seq<Step>, c: Caller, wait: nat)
    returns (states: seq<State>, steps: seq<Step>)
    requires IsRun(states0, steps0)
    requires var s := states0[|steps0|];
      s.lock.None? && c !in s.places && Fresh(s.cache, s.now) && s.cache.exp <= s.now + wait
    ensures IsRun(states, steps) && steps == steps0 + [Enter(c), Lock(c), Tick(wait), Miss(c)]
    ensures var locked := states[|steps0| + 2];
      At(locked, c, Inside) && locked.lock == Some(c) && Fresh(locked.cache, locked.now)
    ensures c in states[|steps|].places && states[|steps|].places[c].Fetching?
  {
    states, steps := Extend(states0, steps0, Enter(c));
    states, steps := Extend(states, steps, Lock(c));
    var locked := states;
    states, steps := Extend(states, steps, Tick(wait));
    states, steps := Extend(states, steps, Miss(c));
    assert states[|steps0| + 2] == locked[|steps0| + 2];
    assert steps == steps0 + [Enter(c), Lock(c), Tick(wait), Miss(c)];
  }

  // ---------------------------------------------------------------- progress

  /** A step of somebody who is in Token. */
  predicate IsProgress(step: Step) { !step.Tick? && !step.Enter? }

  /** Nobody waits for a lock that no one will release: in every run somebody can go on
      exactly while somebody is there. */
  lemma NoDeadlock(states: seq<State>, steps: seq<Step>, k: nat)
    requires IsRun(states, steps) && k < |states|
    ensures (exists step :: IsProgress(step) && Enabled(states[k], step)) <==> states[k].places != map[]
  {
    RunsAreSequential(states, steps, k);
    if states[k].places != map[] { var step := SomeProgress(states[k]); }
  }

  /** What the holder of the lock can do next. */
  function HolderStep(s: State, c: Caller): Step
    requires InSection(s, c)
  {
    match s.places[c]
    case Inside => if Fresh(s.cache, s.now) then Hit(c) else Miss(c)
    case Fetching(_) => FetchReturns(c, Failed)
    case Returned(_, _) => Finish(c)
    case Leaving(_) => Unlock(c)
  }

  function StepsLeft(p: Place): nat {
    match p
    case Waiting => 5
    case Inside => 4
    case Fetching(_) => 3
    case Returned(_, _) => 2
    case Leaving(_) => 1
  }

  lemma SomeProgress(s: State) returns (step: Step)
    requires Exclusive(s) && s.places != map[]
    ensures IsProgress(step) && Enabled(s, step)
  {
    if s.lock.Some? {
      step := HolderStep(s, s.lock.value);
    } else {
      var c :| c in s.places;
      step := Lock(c);
    }
  }

  /** The holder of the lock can leave without anyone else taking a step. */
  lemma HolderLeaves(states0: seq<State>, steps0: seq<Step>, c: Caller) returns (states: seq<State>, steps: seq<Step>)
    requires IsRun(states0, steps0) && InSection(states0[|steps0|], c)
    ensures IsRun(states, steps) && states0 <= states && steps0 <= steps
    ensures states[|steps|].places == states0[|steps0|].places - {c} && states[|steps|].lock.None?
    decreases StepsLeft(states0[|steps0|].places[c])
  {
    var step := HolderStep(states0[|steps0|], c);
    states, steps := Extend(states0, steps0, step);
    if !step.Unlock? { states, steps := HolderLeaves(states, steps, c); }
  }

  /** From every state of every run everybody can still get out. */
  lemma EverybodyCanLeave(states0: seq<State>, steps0: seq<Step>) returns (states: seq<State>, steps: seq<Step>)
    requires IsRun(states0, steps0)
    ensures IsRun(states, steps) && states0 <= states && steps0 <= steps && states[|steps|].places == map[]
    decreases |states0[|steps0|].places|
  {
    states, steps := states0, steps0;
    var s := states[|steps|];
    RunsAreSequential(states, steps, |steps|);
    if s.places != map[] {
      var c :| if s.lock.Some? then c == s.lock.value else c in s.places;
      if s.lock.None? { states, steps := Extend(states, steps, Lock(c)); }
      states, steps := HolderLeaves(states, steps, c);
      states, steps := EverybodyCanLeave(states, steps);
    }
  }

  /** In every run at most one fetch succeeds per half second, plus one, in any window. */
  lemma RunFetchRate(states: seq<State>, steps: seq<Step>, k: nat, from: Time, window: Time)
    requires IsRun(states, steps) && k < |states| && WholeSeconds(states[k].log) && window >= 0
    ensures |StoresWithin(states[k].log, |states[k].log|, from, from + window)| <= 1 + window / HalfSeconds(1)
  {
    RunsAreSequential(states, steps, k);
    FetchRate(states[k].log, from, window);
  }
}
