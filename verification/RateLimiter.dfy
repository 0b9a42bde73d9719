/** The per-key token bucket of the HTTP middleware.

    Time is a count of nanoseconds read from one non-decreasing clock.  Token levels of
    the ideal bucket are scaled by NANOS_PER_MINUTE, so that every quantity is an integer
    and the truncation of the refill is explicit.
 */
module RateLimiter {

  import opened Options

  const NANOS_PER_MINUTE: int := 60_000_000_000

  /** The two numbers a limiter is built with; `rate` is in tokens per minute. */
  datatype Config = Config(capacity: int, rate: int)

  datatype Bucket = Bucket(tokens: int, last: int)

  datatype Call = Call(key: string, now: int)

  type Buckets = map<string, Bucket>

  // ---------------------------------------------------------------- one call

  /** A capacity that is not positive is replaced by the rate. */
  function Effective(capacity: int, perMinute: int): Config {
    Config(if capacity <= 0 then perMinute else capacity, perMinute)
  }

  /** Truncation toward zero of elapsed minutes times the rate. */
  function Refill(rate: int, elapsed: int): int {
    var scaled := elapsed * rate;
    if scaled >= 0 then scaled / NANOS_PER_MINUTE else -((-scaled) / NANOS_PER_MINUTE)
  }

  function Credited(cfg: Config, b: Bucket, now: int): Bucket {
    var refill := Refill(cfg.rate, now - b.last);
    if refill > 0
    then Bucket(if b.tokens + refill > cfg.capacity then cfg.capacity else b.tokens + refill, now)
    else b
  }

  /** The new bucket of the key and whether the call is admitted. */
  function Touch(cfg: Config, known: Option<Bucket>, now: int): (Bucket, bool) {
    match known
    case None => (Bucket(cfg.capacity - 1, now), true)
    case Some(b) =>
      var c := Credited(cfg, b, now);
      if c.tokens <= 0 then (c, false) else (c.(tokens := c.tokens - 1), true)
  }

  // ---------------------------------------------------------------- runs over any keys

  function Lookup(state: Buckets, key: string): Option<Bucket> {
    if key in state then Some(state[key]) else None
  }

  function After(cfg: Config, calls: seq<Call>): Buckets {
    if calls == [] then map[]
    else
      var before := After(cfg, calls[..|calls| - 1]);
      var c := calls[|calls| - 1];
      before[c.key := Touch(cfg, Lookup(before, c.key), c.now).0]
  }

  /** Would a call be admitted after the given calls? */
  predicate Admits(cfg: Config, calls: seq<Call>, call: Call) {
    Touch(cfg, Lookup(After(cfg, calls), call.key), call.now).1
  }

  /** The times at which calls for `key` were admitted, in order. */
  function Admissions(cfg: Config, calls: seq<Call>, key: string): seq<int> {
    if calls == [] then []
    else
      var front := calls[..|calls| - 1];
      var c := calls[|calls| - 1];
      Admissions(cfg, front, key) + (if c.key == key && Admits(cfg, front, c) then [c.now] else [])
  }

  ghost predicate Monotone(calls: seq<Call>) {
    forall i, j :: 0 <= i < j < |calls| ==> calls[i].now <= calls[j].now
  }

  function CountWithin(times: seq<int>, s: int, e: int): nat {
    if times == [] then 0
    else
      CountWithin(times[..|times| - 1], s, e) + (if s <= times[|times| - 1] <= e then 1 else 0)
  }

  // ---------------------------------------------------------------- one key on its own

  /** The history of one key: its bucket, the times it was admitted at, when it was first
      seen, and the tokens credited to it before the cap was applied. */
  datatype KeyRun = Unseen | Seen(bucket: Bucket, times: seq<int>, first: int, credit: int)
  {
    function Known(): Option<Bucket> {
      if Unseen? then None else Some(bucket)
    }

    function Times(): seq<int> {
      if Unseen? then [] else times
    }
  }

  function KeyStep(cfg: Config, r: KeyRun, now: int): KeyRun {
    var (b, ok) := Touch(cfg, r.Known(), now);
    var times := if ok then r.Times() + [now] else r.Times();
    if r.Unseen? then Seen(b, times, now, 0)
    else
      var refill := Refill(cfg.rate, now - r.bucket.last);
      Seen(b, times, r.first, r.credit + if refill > 0 then refill else 0)
  }

  function KeyAfter(cfg: Config, nows: seq<int>): KeyRun {
    if nows == [] then Unseen
    else KeyStep(cfg, KeyAfter(cfg, nows[..|nows| - 1]), nows[|nows| - 1])
  }

  function Only(calls: seq<Call>, key: string): seq<int> {
    if calls == [] then []
    else
      var c := calls[|calls| - 1];
      Only(calls[..|calls| - 1], key) + (if c.key == key then [c.now] else [])
  }

  ghost predicate Ordered(times: seq<int>) {
    forall i, j :: 0 <= i < j < |times| ==> times[i] <= times[j]
  }

  ghost predicate NotAfter(times: seq<int>, now: int) {
    forall i :: 0 <= i < |times| ==> times[i] <= now
  }

  /** The shared map behaves as one independent bucket per key: what happens to a key is
      a function of that key's own calls. */
  lemma {:induction false} KeysAreIndependent(cfg: Config, calls: seq<Call>, key: string)
    ensures Lookup(After(cfg, calls), key) == KeyAfter(cfg, Only(calls, key)).Known()
    ensures Admissions(cfg, calls, key) == KeyAfter(cfg, Only(calls, key)).Times()
  {
    if calls != [] {
      var front := calls[..|calls| - 1];
      var c := calls[|calls| - 1];
      KeysAreIndependent(cfg, front, key);
      if c.key == key {
        assert Only(calls, key)[..|Only(front, key)|] == Only(front, key);
      } else {
        assert Only(calls, key) == Only(front, key);
      }
    }
  }

  lemma {:induction false} OnlyOrdered(calls: seq<Call>, key: string)
    requires Monotone(calls)
    ensures Ordered(Only(calls, key))
    ensures calls != [] ==> NotAfter(Only(calls, key), calls[|calls| - 1].now)
    ensures calls == [] ==> Only(calls, key) == []
  {
    if calls != [] {
      var front := calls[..|calls| - 1];
      OnlyOrdered(front, key);
      assert front != [] ==> front[|front| - 1] == calls[|front| - 1];
    }
  }

  // ---------------------------------------------------------------- the ideal bucket

  /** Level of a bucket that starts full, leaks in continuously at `rate`, is capped at
      `capacity` and gives one token to each admission, just after the last admission. */
  function IdealLevel(cfg: Config, times: seq<int>): int {
    var full := cfg.capacity * NANOS_PER_MINUTE;
    if times == [] then full
    else
      var n := |times| - 1;
      var before := IdealLevel(cfg, times[..n]);
      var grown := if n == 0 then before else before + cfg.rate * (times[n] - times[n - 1]);
      (if grown > full then full else grown) - NANOS_PER_MINUTE
  }

  /** No admission ever takes a token the ideal bucket does not hold. */
  ghost predicate IdealAccepts(cfg: Config, times: seq<int>) {
    forall k :: 0 <= k <= |times| ==> IdealLevel(cfg, times[..k]) >= 0
  }

  lemma RefillBounds(rate: int, elapsed: int)
    requires rate >= 0 && elapsed >= 0
    ensures Refill(rate, elapsed) >= 0
    ensures Refill(rate, elapsed) * NANOS_PER_MINUTE <= rate * elapsed
    ensures rate * elapsed < (Refill(rate, elapsed) + 1) * NANOS_PER_MINUTE
  {
  }

  lemma Split(rate: int, a: int, b: int, c: int)
    ensures rate * (c - a) == rate * (b - a) + rate * (c - b)
  {
  }

  lemma Grows(rate: int, a: int, b: int)
    requires rate >= 0 && a <= b
    ensures rate * (b - a) >= 0
  {
  }

  // ---------------------------------------------------------------- simulation by the ideal bucket

  /** What holds of a known bucket between calls, for a capacity of at least one: it is not
      full, less than one token of time is uncredited at the last admission, and the ideal
      bucket is at least as full. */
  ghost predicate Tracks(cfg: Config, b: Bucket, times: seq<int>) {
    && times != []
    && var t := times[|times| - 1];
    && 0 <= b.tokens <= cfg.capacity - 1
    && b.last <= t
    && cfg.rate * (t - b.last) < NANOS_PER_MINUTE
    && IdealLevel(cfg, times) >= b.tokens * NANOS_PER_MINUTE + cfg.rate * (t - b.last)
  }

  /** Limiters whose bucket can hold a token and never drains by itself. */
  predicate Sound(cfg: Config) {
    cfg.capacity >= 1 && cfg.rate >= 0
  }

  lemma TouchTracks(cfg: Config, b: Bucket, times: seq<int>, now: int)
    requires Sound(cfg) && Tracks(cfg, b, times) && times[|times| - 1] <= now
    ensures var (b', ok) := Touch(cfg, Some(b), now);
            if ok then Tracks(cfg, b', times + [now]) else b' == b
  {
    var t := times[|times| - 1];
    RefillBounds(cfg.rate, now - b.last);
    Split(cfg.rate, b.last, t, now);
    Grows(cfg.rate, t, now);
    var (b', ok) := Touch(cfg, Some(b), now);
    if ok {
      var more := times + [now];
      assert more[..|more| - 1] == times;
      assert cfg.rate * (now - now) == 0;
    }
  }

  lemma FirstTouchTracks(cfg: Config, now: int)
    requires Sound(cfg)
    ensures Touch(cfg, None, now).1 && Tracks(cfg, Touch(cfg, None, now).0, [now])
  {
  }

  ghost predicate RunOk(cfg: Config, r: KeyRun) {
    && IdealAccepts(cfg, r.Times())
    && Ordered(r.Times())
    && (r.Seen? ==> Tracks(cfg, r.bucket, r.times))
  }

  lemma AcceptsMore(cfg: Config, times: seq<int>, now: int)
    requires IdealAccepts(cfg, times) && IdealLevel(cfg, times + [now]) >= 0
    ensures IdealAccepts(cfg, times + [now])
  {
    var more := times + [now];
    forall k | 0 <= k <= |more| ensures IdealLevel(cfg, more[..k]) >= 0 {
      if k <= |times| {
        assert more[..k] == times[..k];
      } else {
        assert more[..k] == more;
      }
    }
  }

  lemma StepOk(cfg: Config, r: KeyRun, now: int)
    requires Sound(cfg) && RunOk(cfg, r) && NotAfter(r.Times(), now)
    ensures RunOk(cfg, KeyStep(cfg, r, now)) && NotAfter(KeyStep(cfg, r, now).Times(), now)
  {
    if r.Unseen? {
      FirstTouchTracks(cfg, now);
      assert r.Times() + [now] == [now];
    } else {
      TouchTracks(cfg, r.bucket, r.times, now);
    }
    if Touch(cfg, r.Known(), now).1 {
      var b := Touch(cfg, r.Known(), now).0;
      assert Tracks(cfg, b, r.Times() + [now]);
      Grows(cfg.rate, b.last, now);
      AcceptsMore(cfg, r.Times(), now);
    }
  }

  lemma {:induction false} KeyRunOk(cfg: Config, nows: seq<int>)
    requires Sound(cfg) && Ordered(nows)
    ensures RunOk(cfg, KeyAfter(cfg, nows))
    ensures nows == [] ==> KeyAfter(cfg, nows).Unseen?
    ensures nows != [] ==> NotAfter(KeyAfter(cfg, nows).Times(), nows[|nows| - 1])
  {
    if nows == [] {
      var none: seq<int> := [];
      assert none[..0] == none;
    } else {
      var front := nows[..|nows| - 1];
      KeyRunOk(cfg, front);
      assert front != [] ==> front[|front| - 1] <= nows[|nows| - 1];
      StepOk(cfg, KeyAfter(cfg, front), nows[|nows| - 1]);
    }
  }

  /** Every trace the limiter admits is accepted by the ideal bucket of the same capacity and rate. */
  lemma AdmittedTraceIsIdeal(cfg: Config, calls: seq<Call>, key: string)
    requires Sound(cfg) && Monotone(calls)
    ensures IdealAccepts(cfg, Admissions(cfg, calls, key)) && Ordered(Admissions(cfg, calls, key))
  {
    KeysAreIndependent(cfg, calls, key);
    OnlyOrdered(calls, key);
    KeyRunOk(cfg, Only(calls, key));
  }

  // ---------------------------------------------------------------- the window bound

  /** Along an ideal run, what the level lost since the window opened pays for the admissions. */
  lemma {:induction false} IdealWindowLedger(cfg: Config, times: seq<int>, s: int, e: int)
    requires cfg.rate >= 0 && Ordered(times)
    ensures times != [] && times[|times| - 1] <= e && CountWithin(times, s, e) > 0 ==>
              && s <= times[|times| - 1]
              && IdealLevel(cfg, times) + CountWithin(times, s, e) * NANOS_PER_MINUTE
                 <= cfg.capacity * NANOS_PER_MINUTE + cfg.rate * (times[|times| - 1] - s)
  {
    if times != [] && times[|times| - 1] <= e {
      var n := |times| - 1;
      var front := times[..n];
      IdealWindowLedger(cfg, front, s, e);
      if s <= times[n] {
        Grows(cfg.rate, s, times[n]);
        if n > 0 && CountWithin(front, s, e) > 0 {
          Split(cfg.rate, s, times[n - 1], times[n]);
        }
      } else if n > 0 {
        assert front[n - 1] <= times[n] < s;
      }
    }
  }

  lemma {:induction false} IdealWindowBound(cfg: Config, times: seq<int>, s: int, e: int)
    requires Sound(cfg) && s <= e && IdealAccepts(cfg, times) && Ordered(times)
    ensures CountWithin(times, s, e) * NANOS_PER_MINUTE
            <= cfg.capacity * NANOS_PER_MINUTE + cfg.rate * (e - s)
  {
    Grows(cfg.rate, s, e);
    if times != [] && CountWithin(times, s, e) > 0 {
      var n := |times| - 1;
      if times[n] <= e {
        IdealWindowLedger(cfg, times, s, e);
        assert times[..|times|] == times;
        Split(cfg.rate, s, times[n], e);
        Grows(cfg.rate, times[n], e);
      } else {
        forall k | 0 <= k <= n ensures IdealLevel(cfg, times[..n][..k]) >= 0 {
          assert times[..n][..k] == times[..k];
        }
        IdealWindowBound(cfg, times[..n], s, e);
      }
    }
  }

  /** Admissions of one key in one closed window stay below capacity + rate * (e - s). */
  ghost predicate WithinBound(cfg: Config, calls: seq<Call>, key: string, s: int, e: int) {
    CountWithin(Admissions(cfg, calls, key), s, e) * NANOS_PER_MINUTE
    <= cfg.capacity * NANOS_PER_MINUTE + cfg.rate * (e - s)
  }

  /** In every run over any keys, in every closed window, the bound holds. */
  lemma WindowBound(cfg: Config, calls: seq<Call>, key: string, s: int, e: int)
    requires Sound(cfg) && Monotone(calls) && s <= e
    ensures WithinBound(cfg, calls, key, s, e)
  {
    AdmittedTraceIsIdeal(cfg, calls, key);
    IdealWindowBound(cfg, Admissions(cfg, calls, key), s, e);
  }

  lemma BoundFails(cfg: Config)
    requires !Sound(cfg)
    ensures exists calls, key, s, e :: Monotone(calls) && s <= e && !WithinBound(cfg, calls, key, s, e)
  {
    var calls := [Call("k", 0)];
    assert calls[..0] == [];
    assert Admissions(cfg, calls, "k") == [0];
    var e := if cfg.capacity >= 1 then cfg.capacity * NANOS_PER_MINUTE else 0;
    assert [0][..0] == [];
    assert CountWithin([0], 0, e) == 1;
    if cfg.capacity >= 1 {
      Grows(-1 - cfg.rate, 0, e);
    }
    assert Monotone(calls) && !WithinBound(cfg, calls, "k", 0, e);
  }

  /** The constructor accepts limits for which the bound fails: a limit of zero or less still
      admits the first call of every key.  The bound holds of all runs exactly for these limits. */
  lemma BoundHoldsExactlyFor(capacity: int, perMinute: int)
    ensures (forall calls, key, s, e :: Monotone(calls) && s <= e ==>
               WithinBound(Effective(capacity, perMinute), calls, key, s, e))
       <==> perMinute >= 0 && (capacity >= 1 || perMinute >= 1)
  {
    var cfg := Effective(capacity, perMinute);
    if Sound(cfg) {
      forall calls, key, s, e | Monotone(calls) && s <= e ensures WithinBound(cfg, calls, key, s, e) {
        WindowBound(cfg, calls, key, s, e);
      }
    } else {
      BoundFails(cfg);
    }
  }

  // ---------------------------------------------------------------- polling and discarded fractions

  lemma MonotonePrefix(calls: seq<Call>, more: seq<Call>)
    requires Monotone(calls + more)
    ensures Monotone(calls)
    ensures calls != [] && more != [] ==> calls[|calls| - 1].now <= more[|more| - 1].now
  {
    var whole := calls + more;
    assert forall i :: 0 <= i < |calls| ==> calls[i] == whole[i];
    assert more != [] ==> more[|more| - 1] == whole[|whole| - 1];
  }

  /** The bucket of a known key tracks its admissions, none of which is later than `now`. */
  lemma KnownTracks(cfg: Config, calls: seq<Call>, key: string, now: int)
    requires Sound(cfg) && Monotone(calls) && key in After(cfg, calls)
    requires calls != [] ==> calls[|calls| - 1].now <= now
    ensures var times := Admissions(cfg, calls, key);
            Tracks(cfg, After(cfg, calls)[key], times) && times[|times| - 1] <= now
  {
    KeysAreIndependent(cfg, calls, key);
    OnlyOrdered(calls, key);
    KeyRunOk(cfg, Only(calls, key));
  }

  /** A refused call changes nothing at all, for any key and any run. */
  lemma RefusalChangesNothing(cfg: Config, calls: seq<Call>, call: Call)
    requires Sound(cfg) && Monotone(calls + [call]) && !Admits(cfg, calls, call)
    ensures After(cfg, calls + [call]) == After(cfg, calls)
  {
    assert (calls + [call])[..|calls|] == calls;
    MonotonePrefix(calls, [call]);
    if call.key in After(cfg, calls) {
      KnownTracks(cfg, calls, call.key, call.now);
      TouchTracks(cfg, After(cfg, calls)[call.key], Admissions(cfg, calls, call.key), call.now);
    }
  }

  /** Calls of the key are refused; those of other keys may be answered in any way. */
  ghost predicate KeyRefused(cfg: Config, calls: seq<Call>, polls: seq<Call>, key: string) {
    forall i :: 0 <= i < |polls| && polls[i].key == key ==> !Admits(cfg, calls + polls[..i], polls[i])
  }

  lemma AfterOne(cfg: Config, calls: seq<Call>, call: Call, key: string)
    requires Sound(cfg) && Monotone(calls + [call]) && (call.key == key ==> !Admits(cfg, calls, call))
    ensures Lookup(After(cfg, calls + [call]), key) == Lookup(After(cfg, calls), key)
  {
    if call.key == key {
      RefusalChangesNothing(cfg, calls, call);
    } else {
      assert (calls + [call])[..|calls|] == calls;
    }
  }

  lemma {:induction false} PollingChangesNothing(cfg: Config, calls: seq<Call>, polls: seq<Call>, key: string)
    requires Sound(cfg) && Monotone(calls + polls) && KeyRefused(cfg, calls, polls, key)
    ensures Lookup(After(cfg, calls + polls), key) == Lookup(After(cfg, calls), key)
  {
    if polls == [] {
      assert calls + polls == calls;
    } else {
      var n := |polls| - 1;
      var some := calls + polls[..n];
      assert calls + polls == some + [polls[n]];
      MonotonePrefix(some, [polls[n]]);
      forall i | 0 <= i < n && polls[..n][i].key == key ensures !Admits(cfg, calls + polls[..n][..i], polls[..n][i]) {
        assert polls[..n][..i] == polls[..i];
      }
      PollingChangesNothing(cfg, calls, polls[..n], key);
      AfterOne(cfg, some, polls[n], key);
    }
  }

  /** A token is left, or one token's worth of time has passed since the last credit. */
  predicate Ripe(cfg: Config, b: Bucket, now: int) {
    b.tokens >= 1 || cfg.rate * (now - b.last) >= NANOS_PER_MINUTE
  }

  lemma RipeExactlyWhenAdmitted(cfg: Config, b: Bucket, times: seq<int>, now: int)
    requires Sound(cfg) && Tracks(cfg, b, times) && times[|times| - 1] <= now
    ensures Touch(cfg, Some(b), now).1 <==> Ripe(cfg, b, now)
  {
  }

  lemma AdmittedExactlyWhenRipe(cfg: Config, calls: seq<Call>, call: Call, b: Bucket)
    requires Sound(cfg) && Monotone(calls + [call]) && Lookup(After(cfg, calls), call.key) == Some(b)
    ensures Admits(cfg, calls, call) <==> Ripe(cfg, b, call.now)
  {
    MonotonePrefix(calls, [call]);
    KnownTracks(cfg, calls, call.key, call.now);
    RipeExactlyWhenAdmitted(cfg, b, Admissions(cfg, calls, call.key), call.now);
  }

  /** However often a refused key polls, and whatever other keys do meanwhile, it is admitted
      exactly when its bucket holds a token or one token's worth of time has passed since the
      bucket was last credited. */
  lemma PollingNeverDelays(cfg: Config, calls: seq<Call>, polls: seq<Call>, call: Call)
    requires Sound(cfg) && Monotone(calls + polls + [call])
    requires KeyRefused(cfg, calls, polls, call.key) && call.key in After(cfg, calls)
    ensures Admits(cfg, calls + polls, call) <==> Ripe(cfg, After(cfg, calls)[call.key], call.now)
  {
    MonotonePrefix(calls + polls, [call]);
    PollingChangesNothing(cfg, calls, polls, call.key);
    AdmittedExactlyWhenRipe(cfg, calls + polls, call, After(cfg, calls)[call.key]);
  }

  ghost predicate CreditOk(cfg: Config, r: KeyRun)
    requires r.Seen?
  {
    var earned := cfg.rate * (r.bucket.last - r.first);
    && r.credit >= 0
    && earned <= 2 * NANOS_PER_MINUTE * r.credit
    && (r.credit > 0 ==> earned < 2 * NANOS_PER_MINUTE * r.credit)
  }

  lemma StepCredit(cfg: Config, r: KeyRun, now: int)
    requires cfg.rate >= 0 && r.Seen? && CreditOk(cfg, r) && r.bucket.last <= now
    ensures CreditOk(cfg, KeyStep(cfg, r, now))
  {
  }

  /** Over any run of a key, more than half of what the time between its first call and its
      last refill earned is credited. */
  lemma {:induction false} MoreThanHalfIsCredited(cfg: Config, nows: seq<int>)
    requires Sound(cfg) && Ordered(nows) && nows != []
    ensures KeyAfter(cfg, nows).Seen? && KeyAfter(cfg, nows).first == nows[0]
    ensures CreditOk(cfg, KeyAfter(cfg, nows))
  {
    var front := nows[..|nows| - 1];
    if front == [] {
      assert KeyAfter(cfg, front) == Unseen;
    } else {
      MoreThanHalfIsCredited(cfg, front);
      KeyRunOk(cfg, front);
      var r := KeyAfter(cfg, front);
      assert r.times[|r.times| - 1] <= front[|front| - 1] <= nows[|nows| - 1];
      StepCredit(cfg, r, nows[|nows| - 1]);
    }
  }

  // ---------------------------------------------------------------- the limiter object

  /** The limiter as the middleware holds it.  The mutex makes `Allow` atomic; `calls` is the
      history of the calls made so far, so that every lemma above speaks about this object. */
  class SimpleTokenBucket {
    const capacity: int
    const rate: int
    var state: map<string, Bucket>
    ghost var calls: seq<Call>

    ghost function Cfg(): Config {
      Config(capacity, rate)
    }

    ghost predicate Valid()
      reads this
    {
      state == After(Cfg(), calls) && Monotone(calls)
    }

    constructor (capacity: int, perMinute: int)
      ensures Valid() && Cfg() == Effective(capacity, perMinute) && calls == []
    {
      var c := capacity;
      if c <= 0 {
        c := perMinute;
      }
      this.capacity := c;
      this.rate := perMinute;
      this.state := map[];
      this.calls := [];
    }

    method Allow(key: string, now: int) returns (ok: bool)
      requires Valid()
      requires calls != [] ==> calls[|calls| - 1].now <= now
      modifies this
      ensures Valid() && calls == old(calls) + [Call(key, now)]
      ensures ok == Admits(Cfg(), old(calls), Call(key, now))
    {
      ghost var before := calls;
      calls := calls + [Call(key, now)];
      assert calls[..|before|] == before;
      ghost var touched := Touch(Cfg(), Lookup(state, key), now);
      assert After(Cfg(), calls) == state[key := touched.0];
      assert Admits(Cfg(), before, Call(key, now)) == touched.1;
      if key !in state {
        state := state[key := Bucket(capacity - 1, now)];
        return true;
      }
      var b := state[key];
      var elapsed := now - b.last;
      var refill := Refill(rate, elapsed);
      if refill > 0 {
        b := b.(tokens := b.tokens + refill);
        if b.tokens > capacity {
          b := b.(tokens := capacity);
        }
        b := b.(last := now);
      }
      if b.tokens <= 0 {
        state := state[key := b];
        return false;
      }
      b := b.(tokens := b.tokens - 1);
      state := state[key := b];
      return true;
    }
  }
}
