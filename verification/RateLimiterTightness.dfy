/** How tight the window bound of the rate limiter is.

    A plan cuts the time of a window into gaps.  What a plan is worth is what an empty bucket is
    credited if it is refilled after each of its gaps.  The most that any run admits in a window
    is a full bucket and the worth of the best plan for it.
 */
module RateLimiterTightness {

  import opened Options
  import opened Sequences
  import opened RateLimiter

  // ---------------------------------------------------------------- plans

  function Length(gaps: seq<int>): int {
    if gaps == [] then 0 else gaps[0] + Length(gaps[1..])
  }

  function Worth(credit: int -> int, gaps: seq<int>): int {
    if gaps == [] then 0 else credit(gaps[0]) + Worth(credit, gaps[1..])
  }

  ghost predicate IsPlan(gaps: seq<int>, window: int) {
    (forall i :: 0 <= i < |gaps| ==> gaps[i] >= 0) && Length(gaps) <= window
  }

  /** What an empty bucket is credited after so much time: at most what it holds. */
  function Credit(cfg: Config, gap: int): int {
    if Refill(cfg.rate, gap) > cfg.capacity then cfg.capacity else Refill(cfg.rate, gap)
  }

  function Credits(cfg: Config): int -> int {
    gap => Credit(cfg, gap)
  }

  ghost predicate NeverTakes(credit: int -> int) {
    forall gap :: gap >= 0 ==> credit(gap) >= 0
  }

  lemma CreditsNeverTake(cfg: Config)
    requires Sound(cfg)
    ensures NeverTakes(Credits(cfg))
  {
    forall gap | gap >= 0 ensures Credits(cfg)(gap) >= 0 {
      RefillBounds(cfg.rate, gap);
    }
  }

  lemma {:induction false} OneMoreGap(credit: int -> int, gaps: seq<int>, gap: int)
    ensures Length(gaps + [gap]) == Length(gaps) + gap
    ensures Worth(credit, gaps + [gap]) == Worth(credit, gaps) + credit(gap)
  {
    if gaps == [] {
      assert [] + [gap] == [gap] && [gap][1..] == [];
    } else {
      assert (gaps + [gap])[1..] == gaps[1..] + [gap];
      OneMoreGap(credit, gaps[1..], gap);
    }
  }

  // ---------------------------------------------------------------- every plan is carried out by some run

  type Admitter = (Bucket, int) -> Option<Bucket>

  /** The bucket after a call that is admitted. */
  function Admitted(cfg: Config): Admitter {
    (b: Bucket, now: int) => var (c, ok) := Touch(cfg, Some(b), now); if ok then Some(c) else None
  }

  /** The bucket after calls that are all admitted; None if one is not. */
  function Play(f: Admitter, b: Bucket, nows: seq<int>): Option<Bucket> {
    if nows == [] then Some(b)
    else
      match Play(f, b, nows[..|nows| - 1])
      case None => None
      case Some(c) => f(c, nows[|nows| - 1])
  }

  /** All that the runs below use of the limiter: a token lets a call in, and an empty bucket
      gets its credit. */
  ghost predicate Serves(f: Admitter, credit: int -> int) {
    && (forall tokens, now :: tokens >= 1 ==> f(Bucket(tokens, now), now) == Some(Bucket(tokens - 1, now)))
    && (forall at, now :: credit(now - at) >= 1 ==>
          f(Bucket(0, at), now) == Some(Bucket(credit(now - at) - 1, now)))
  }

  lemma AdmittedServes(cfg: Config)
    ensures Serves(Admitted(cfg), Credits(cfg))
  {
    forall tokens, now | tokens >= 1
      ensures Admitted(cfg)(Bucket(tokens, now), now) == Some(Bucket(tokens - 1, now))
    {
      assert Refill(cfg.rate, now - now) == 0;
    }
  }

  lemma PlayMore(f: Admitter, b: Bucket, nows: seq<int>, now: int)
    requires Play(f, b, nows).Some?
    ensures Play(f, b, nows + [now]) == f(Play(f, b, nows).value, now)
  {
    assert (nows + [now])[..|nows|] == nows;
  }

  lemma BurstMore(nows: seq<int>, m: nat, now: int)
    requires m >= 1
    ensures nows + Repeat(m, now) == nows + Repeat(m - 1, now) + [now]
  {
  }

  lemma {:induction false} PlayTokens(f: Admitter, credit: int -> int, b: Bucket, nows: seq<int>, tokens: nat, now: int, m: nat)
    requires Serves(f, credit) && Play(f, b, nows) == Some(Bucket(tokens, now)) && m <= tokens
    ensures Play(f, b, nows + Repeat(m, now)) == Some(Bucket(tokens - m, now))
  {
    if m == 0 {
      assert nows + Repeat(m, now) == nows;
    } else {
      PlayTokens(f, credit, b, nows, tokens, now, m - 1);
      BurstMore(nows, m, now);
      PlayMore(f, b, nows + Repeat(m - 1, now), now);
    }
  }

  /** Ordered times of a window that has come to `at`. */
  ghost predicate During(nows: seq<int>, s: int, at: int) {
    Ordered(nows) && forall i :: 0 <= i < |nows| ==> s <= nows[i] <= at
  }

  lemma DuringMore(nows: seq<int>, s: int, at: int, m: nat, now: int)
    requires During(nows, s, at) && s <= at <= now
    ensures During(nows + Repeat(m, now), s, now)
  {
  }

  lemma PlayCredit(f: Admitter, credit: int -> int, b: Bucket, nows: seq<int>, at: int, now: int, k: nat)
    requires Serves(f, credit) && Play(f, b, nows) == Some(Bucket(0, at)) && k == credit(now - at) >= 1
    ensures Play(f, b, nows + Repeat(k, now)) == Some(Bucket(0, now))
  {
    PlayMore(f, b, nows, now);
    PlayTokens(f, credit, b, nows + [now], k - 1, now, k - 1);
    assert nows + Repeat(k, now) == nows + [now] + Repeat(k - 1, now);
  }

  /** An empty bucket is credited after a gap, and as many calls take the tokens at once. */
  lemma PlayGap(f: Admitter, credit: int -> int, b: Bucket, before: seq<int>, s: int, at: int, gap: nat)
    returns (nows: seq<int>)
    requires Serves(f, credit) && s <= at && During(before, s, at)
    requires Play(f, b, before) == Some(Bucket(0, at)) && credit(gap) >= 1
    ensures Play(f, b, nows) == Some(Bucket(0, at + gap)) && During(nows, s, at + gap)
    ensures |nows| == |before| + credit(gap)
  {
    var now, k := at + gap, credit(gap);
    assert now - at == gap;
    PlayCredit(f, credit, b, before, at, now, k);
    DuringMore(before, s, at, k, now);
    nows := before + Repeat(k, now);
  }

  /** Gaps without credit are skipped. */
  lemma {:induction false} PlayPlan(f: Admitter, credit: int -> int, b: Bucket, before: seq<int>, s: int, at: int,
                                    gaps: seq<int>, e: int)
    returns (nows: seq<int>)
    requires Serves(f, credit) && NeverTakes(credit) && s <= at && During(before, s, at)
    requires Play(f, b, before) == Some(Bucket(0, at)) && at <= e && IsPlan(gaps, e - at)
    ensures Play(f, b, nows).Some? && During(nows, s, e) && |nows| == |before| + Worth(credit, gaps)
    decreases |gaps|
  {
    if gaps == [] {
      nows := before;
    } else {
      var gap := gaps[0];
      LengthIsPositive(gaps[1..]);
      if credit(gap) == 0 {
        nows := PlayPlan(f, credit, b, before, s, at, gaps[1..], e);
      } else {
        var more := PlayGap(f, credit, b, before, s, at, gap);
        nows := PlayPlan(f, credit, b, more, s, at + gap, gaps[1..], e);
      }
    }
  }

  lemma {:induction false} LengthIsPositive(gaps: seq<int>)
    requires forall i :: 0 <= i < |gaps| ==> gaps[i] >= 0
    ensures Length(gaps) >= 0
  {
    if gaps != [] {
      LengthIsPositive(gaps[1..]);
    }
  }

  /** The history holds this bucket, and these are its admissions. */
  predicate Shows(r: KeyRun, b: Bucket, times: seq<int>) {
    r.Seen? && r.bucket == b && r.times == times
  }

  /** A history grows with every admission. */
  ghost predicate Follows(run: seq<int> -> KeyRun, f: Admitter) {
    forall nows, now, b, times :: FollowsAt(run, f, nows, now, b, times)
  }

  predicate FollowsAt(run: seq<int> -> KeyRun, f: Admitter, nows: seq<int>, now: int, b: Bucket, times: seq<int>) {
    Shows(run(nows), b, times) && f(b, now).Some? ==> Shows(run(nows + [now]), f(b, now).value, times + [now])
  }

  function Runs(cfg: Config): seq<int> -> KeyRun {
    nows => KeyAfter(cfg, nows)
  }

  lemma RunsFollow(cfg: Config, s: int)
    ensures Follows(Runs(cfg), Admitted(cfg))
    ensures Shows(Runs(cfg)([s]), Bucket(cfg.capacity - 1, s), [s])
  {
    forall nows, now, b, times ensures FollowsAt(Runs(cfg), Admitted(cfg), nows, now, b, times) {
      assert (nows + [now])[..|nows|] == nows;
    }
    assert [s][..0] == [] && [] + [s] == [s];
    assert KeyAfter(cfg, [s]) == KeyStep(cfg, Unseen, s);
  }

  lemma {:induction false} PlayIsRun(run: seq<int> -> KeyRun, f: Admitter, s: int, b: Bucket, nows: seq<int>)
    requires Follows(run, f) && Shows(run([s]), b, [s]) && Play(f, b, nows).Some?
    ensures Shows(run([s] + nows), Play(f, b, nows).value, [s] + nows)
  {
    if nows == [] {
      assert [s] + nows == [s];
    } else {
      var n := |nows| - 1;
      var before, c := [s] + nows[..n], Play(f, b, nows[..n]).value;
      PlayIsRun(run, f, s, b, nows[..n]);
      assert FollowsAt(run, f, before, nows[n], c, before);
      assert [s] + nows == before + [nows[n]];
    }
  }

  lemma {:induction false} AllWithin(times: seq<int>, s: int, e: int)
    requires During(times, s, e)
    ensures CountWithin(times, s, e) == |times|
  {
    if times != [] {
      AllWithin(times[..|times| - 1], s, e);
    }
  }

  function AsCalls(key: string, nows: seq<int>): (calls: seq<Call>)
    ensures |calls| == |nows| && forall i :: 0 <= i < |nows| ==> calls[i] == Call(key, nows[i])
  {
    seq(|nows|, i requires 0 <= i < |nows| => Call(key, nows[i]))
  }

  lemma {:induction false} OnlyAsCalls(key: string, nows: seq<int>)
    ensures Only(AsCalls(key, nows), key) == nows
  {
    if nows != [] {
      var front := nows[..|nows| - 1];
      OnlyAsCalls(key, front);
      assert AsCalls(key, nows)[..|nows| - 1] == AsCalls(key, front);
    }
  }

  lemma DuringFirst(nows: seq<int>, s: int, e: int)
    requires During(nows, s, e) && s <= e
    ensures During([s] + nows, s, e) && |[s] + nows| == |nows| + 1
  {
  }

  lemma PlayWindow(f: Admitter, credit: int -> int, capacity: nat, gaps: seq<int>, s: int, e: int)
    returns (nows: seq<int>)
    requires capacity >= 1 && Serves(f, credit) && NeverTakes(credit) && s <= e && IsPlan(gaps, e - s)
    ensures Play(f, Bucket(capacity - 1, s), nows).Some?
    ensures During([s] + nows, s, e) && |[s] + nows| == capacity + Worth(credit, gaps)
  {
    var b, c := Bucket(capacity - 1, s), capacity - 1;
    PlayTokens(f, credit, b, [], c, s, c);
    assert [] + Repeat(c, s) == Repeat(c, s);
    nows := PlayPlan(f, credit, b, Repeat(c, s), s, s, gaps, e);
    DuringFirst(nows, s, e);
  }

  lemma RunOfPlan(f: Admitter, credit: int -> int, run: seq<int> -> KeyRun, capacity: nat, gaps: seq<int>, s: int, e: int)
    returns (times: seq<int>)
    requires capacity >= 1 && Serves(f, credit) && NeverTakes(credit) && s <= e && IsPlan(gaps, e - s)
    requires Follows(run, f) && Shows(run([s]), Bucket(capacity - 1, s), [s])
    ensures run(times).Times() == times && Ordered(times) && CountWithin(times, s, e) == capacity + Worth(credit, gaps)
  {
    var nows := PlayWindow(f, credit, capacity, gaps, s, e);
    times := [s] + nows;
    PlayIsRun(run, f, s, Bucket(capacity - 1, s), nows);
    AllWithin(times, s, e);
  }

  lemma RunAdmits(cfg: Config, key: string, nows: seq<int>)
    ensures Runs(cfg)(nows).Times() == Admissions(cfg, AsCalls(key, nows), key)
  {
    OnlyAsCalls(key, nows);
    KeysAreIndependent(cfg, AsCalls(key, nows), key);
  }

  /** The limiter, as far as the runs depend on it. */
  lemma Limiter(cfg: Config, key: string, s: int)
    returns (f: Admitter, credit: int -> int, run: seq<int> -> KeyRun)
    requires Sound(cfg)
    ensures Serves(f, credit) && NeverTakes(credit) && credit == Credits(cfg)
    ensures Follows(run, f) && Shows(run([s]), Bucket(cfg.capacity - 1, s), [s])
    ensures forall nows :: run(nows).Times() == Admissions(cfg, AsCalls(key, nows), key)
  {
    f, credit, run := Admitted(cfg), Credits(cfg), Runs(cfg);
    CreditsNeverTake(cfg);
    AdmittedServes(cfg);
    RunsFollow(cfg, s);
    forall nows ensures run(nows).Times() == Admissions(cfg, AsCalls(key, nows), key) {
      RunAdmits(cfg, key, nows);
    }
  }

  /** Some run admits so many calls of the key in the window. */
  ghost predicate CanAdmit(cfg: Config, key: string, s: int, e: int, count: int) {
    exists calls :: Monotone(calls) && CountWithin(Admissions(cfg, calls, key), s, e) == count
  }

  lemma AdmittedBy(cfg: Config, key: string, s: int, e: int, calls: seq<Call>, times: seq<int>)
    requires Monotone(calls) && Admissions(cfg, calls, key) == times
    ensures CanAdmit(cfg, key, s, e, CountWithin(times, s, e))
  {
  }

  /** For every plan of a window some run admits a full bucket and the worth of the plan. */
  lemma PlanIsReached(cfg: Config, key: string, s: int, e: int, gaps: seq<int>)
    requires Sound(cfg) && s <= e && IsPlan(gaps, e - s)
    ensures CanAdmit(cfg, key, s, e, cfg.capacity + Worth(Credits(cfg), gaps))
  {
    var f, credit, run := Limiter(cfg, key, s);
    var times := RunOfPlan(f, credit, run, cfg.capacity, gaps, s, e);
    AdmittedBy(cfg, key, s, e, AsCalls(key, times), times);
  }

  // ---------------------------------------------------------------- no run does better than some plan

  /** What `count` admissions of the window and the tokens left add up to: less than a full bucket
      before the first refill in the window; after it, at most a full bucket and a plan that has
      come as far as the refill. */
  ghost predicate Ledger(cfg: Config, b: Bucket, count: nat, s: int, gaps: seq<int>) {
    if b.last < s then count + b.tokens <= cfg.capacity - 1 && cfg.rate * (s - b.last) < NANOS_PER_MINUTE
    else IsPlan(gaps, b.last - s) && count + b.tokens <= cfg.capacity + Worth(Credits(cfg), gaps)
  }

  /** A refill in the window that counts from before it opened loses at most one token to that. */
  lemma LateCredit(cfg: Config, last: int, s: int, now: int, k: int)
    requires Sound(cfg) && last < s <= now && cfg.rate * (s - last) < NANOS_PER_MINUTE
    requires 1 <= k <= Refill(cfg.rate, now - last) && k <= cfg.capacity
    ensures Credit(cfg, now - s) >= k - 1
  {
    RefillBounds(cfg.rate, now - last);
    RefillBounds(cfg.rate, now - s);
    Split(cfg.rate, last, s, now);
  }

  lemma WorthOfOne(credit: int -> int, gap: int)
    ensures Worth(credit, [gap]) == credit(gap) && Length([gap]) == gap
  {
    assert [gap][1..] == [];
  }

  function Filled(cfg: Config, tokens: int, k: int): int {
    if tokens + k > cfg.capacity then cfg.capacity else tokens + k
  }

  lemma LedgerOpens(cfg: Config, b: Bucket, count: nat, s: int, now: int, k: int)
    requires Sound(cfg) && 0 <= b.tokens <= cfg.capacity - 1 && b.last < s <= now
    requires k == Refill(cfg.rate, now - b.last) >= 1 && Ledger(cfg, b, count, s, [])
    ensures Ledger(cfg, Bucket(Filled(cfg, b.tokens, k) - 1, now), count + 1, s, [now - s])
  {
    LateCredit(cfg, b.last, s, now, Filled(cfg, b.tokens, k) - b.tokens);
    WorthOfOne(Credits(cfg), now - s);
  }

  lemma LedgerGoesOn(cfg: Config, b: Bucket, count: nat, s: int, now: int, k: int, gaps: seq<int>)
    requires Sound(cfg) && 0 <= b.tokens <= cfg.capacity - 1 && s <= b.last <= now
    requires k == Refill(cfg.rate, now - b.last) >= 1 && Ledger(cfg, b, count, s, gaps)
    ensures Ledger(cfg, Bucket(Filled(cfg, b.tokens, k) - 1, now), count + 1, s, gaps + [now - b.last])
  {
    OneMoreGap(Credits(cfg), gaps, now - b.last);
  }

  /** A refill in the window. */
  lemma LedgerRefill(cfg: Config, b: Bucket, count: nat, s: int, now: int, k: int, gaps: seq<int>)
    returns (gaps': seq<int>)
    requires Sound(cfg) && 0 <= b.tokens <= cfg.capacity - 1 && b.last <= now && s <= now
    requires k == Refill(cfg.rate, now - b.last) >= 1 && (count > 0 ==> Ledger(cfg, b, count, s, gaps))
    ensures Ledger(cfg, Bucket(Filled(cfg, b.tokens, k) - 1, now), count + 1, s, gaps')
  {
    if count == 0 {
      gaps' := [];
    } else if b.last < s {
      LedgerOpens(cfg, b, count, s, now, k);
      gaps' := [now - s];
    } else {
      LedgerGoesOn(cfg, b, count, s, now, k, gaps);
      gaps' := gaps + [now - b.last];
    }
  }

  lemma LedgerStep(cfg: Config, b: Bucket, times: seq<int>, now: int, s: int, e: int, gaps: seq<int>)
    returns (gaps': seq<int>)
    requires Sound(cfg) && Tracks(cfg, b, times) && times[|times| - 1] <= now <= e && s <= now
    requires CountWithin(times, s, e) > 0 ==> Ledger(cfg, b, CountWithin(times, s, e), s, gaps)
    ensures var (b', ok) := Touch(cfg, Some(b), now);
            ok ==> Ledger(cfg, b', CountWithin(times, s, e) + 1, s, gaps')
  {
    var k := Refill(cfg.rate, now - b.last);
    RefillBounds(cfg.rate, now - b.last);
    if k >= 1 {
      gaps' := LedgerRefill(cfg, b, CountWithin(times, s, e), s, now, k, gaps);
    } else {
      gaps' := if CountWithin(times, s, e) > 0 then gaps else [];
      Split(cfg.rate, b.last, s, now);
      Grows(cfg.rate, s, now);
    }
  }

  ghost predicate LedgerAt(cfg: Config, b: Bucket, times: seq<int>, s: int, e: int, gaps: seq<int>) {
    CountWithin(times, s, e) > 0 ==> Ledger(cfg, b, CountWithin(times, s, e), s, gaps)
  }

  ghost predicate LedgerOf(cfg: Config, r: KeyRun, s: int, e: int, gaps: seq<int>) {
    r.Seen? ==> LedgerAt(cfg, r.bucket, r.times, s, e, gaps)
  }

  lemma {:induction false} NoneEarlier(times: seq<int>, s: int, e: int)
    requires times != [] ==> times[|times| - 1] < s
    requires Ordered(times)
    ensures CountWithin(times, s, e) == 0
  {
    if times != [] {
      NoneEarlier(times[..|times| - 1], s, e);
    }
  }

  lemma CountOneMore(times: seq<int>, now: int, s: int, e: int)
    requires s <= now <= e
    ensures CountWithin(times + [now], s, e) == CountWithin(times, s, e) + 1
  {
    assert (times + [now])[..|times|] == times;
  }

  lemma TouchLedger(cfg: Config, b: Bucket, times: seq<int>, now: int, s: int, e: int, gaps: seq<int>)
    returns (gaps': seq<int>)
    requires Sound(cfg) && Tracks(cfg, b, times) && times[|times| - 1] <= now <= e && s <= now
    requires LedgerAt(cfg, b, times, s, e, gaps)
    ensures var (b', ok) := Touch(cfg, Some(b), now);
            LedgerAt(cfg, b', if ok then times + [now] else times, s, e, gaps')
  {
    if Touch(cfg, Some(b), now).1 {
      gaps' := LedgerStep(cfg, b, times, now, s, e, gaps);
      CountOneMore(times, now, s, e);
    } else {
      TouchTracks(cfg, b, times, now);
      gaps' := gaps;
    }
  }

  lemma EarlyLedger(cfg: Config, r: KeyRun, now: int, s: int, e: int, gaps: seq<int>)
    requires Ordered(r.Times()) && NotAfter(r.Times(), now) && now < s
    ensures LedgerOf(cfg, KeyStep(cfg, r, now), s, e, gaps)
  {
    NoneEarlier(r.Times(), s, e);
    NoneEarlier(r.Times() + [now], s, e);
  }

  lemma OpeningLedger(cfg: Config, now: int, s: int, e: int)
    requires s <= now <= e
    ensures LedgerOf(cfg, KeyStep(cfg, Unseen, now), s, e, [])
  {
    CountOneMore([], now, s, e);
  }

  lemma KeyStepLedger(cfg: Config, r: KeyRun, now: int, s: int, e: int, gaps: seq<int>) returns (gaps': seq<int>)
    requires Sound(cfg) && RunOk(cfg, r) && NotAfter(r.Times(), now) && now <= e && LedgerOf(cfg, r, s, e, gaps)
    ensures LedgerOf(cfg, KeyStep(cfg, r, now), s, e, gaps')
  {
    gaps' := [];
    if now < s {
      EarlyLedger(cfg, r, now, s, e, gaps');
    } else if r.Unseen? {
      OpeningLedger(cfg, now, s, e);
    } else {
      gaps' := TouchLedger(cfg, r.bucket, r.times, now, s, e, gaps);
    }
  }

  /** The admissions are paid for by a full bucket and the plan. */
  ghost predicate Covers(cfg: Config, times: seq<int>, s: int, e: int, gaps: seq<int>) {
    IsPlan(gaps, e - s) && CountWithin(times, s, e) <= cfg.capacity + Worth(Credits(cfg), gaps)
  }

  lemma LedgerCovers(cfg: Config, r: KeyRun, now: int, s: int, e: int, gaps: seq<int>) returns (plan: seq<int>)
    requires Sound(cfg) && RunOk(cfg, r) && NotAfter(r.Times(), now) && now <= e && s <= e && LedgerOf(cfg, r, s, e, gaps)
    ensures Covers(cfg, r.Times(), s, e, plan)
  {
    plan := if CountWithin(r.Times(), s, e) > 0 && r.bucket.last >= s then gaps else [];
  }

  lemma CountLater(times: seq<int>, now: int, s: int, e: int)
    requires now > e
    ensures CountWithin(times + [now], s, e) == CountWithin(times, s, e)
  {
    assert (times + [now])[..|times|] == times;
  }

  lemma CountUnchanged(cfg: Config, r: KeyRun, now: int, s: int, e: int)
    requires now > e
    ensures CountWithin(KeyStep(cfg, r, now).Times(), s, e) == CountWithin(r.Times(), s, e)
  {
    CountLater(r.Times(), now, s, e);
  }

  /** The calls of one key: the plan that covers them, and the ledger as long as the window lasts. */
  lemma {:induction false} KeyIsCovered(cfg: Config, nows: seq<int>, s: int, e: int)
    returns (plan: seq<int>, gaps: seq<int>)
    requires Sound(cfg) && Ordered(nows) && s <= e
    ensures Covers(cfg, KeyAfter(cfg, nows).Times(), s, e, plan)
    ensures nows == [] || nows[|nows| - 1] <= e ==> LedgerOf(cfg, KeyAfter(cfg, nows), s, e, gaps)
  {
    plan, gaps := [], [];
    if nows != [] {
      var front, now := nows[..|nows| - 1], nows[|nows| - 1];
      plan, gaps := KeyIsCovered(cfg, front, s, e);
      KeyRunOk(cfg, front);
      var r := KeyAfter(cfg, front);
      assert front != [] ==> front[|front| - 1] <= now;
      if now <= e {
        gaps := KeyStepLedger(cfg, r, now, s, e, gaps);
        StepOk(cfg, r, now);
        plan := LedgerCovers(cfg, KeyStep(cfg, r, now), now, s, e, gaps);
      } else {
        CountUnchanged(cfg, r, now, s, e);
      }
    }
  }

  /** No run admits more in a window than a full bucket and the worth of some plan for it. */
  lemma RunIsCovered(cfg: Config, calls: seq<Call>, key: string, s: int, e: int) returns (plan: seq<int>)
    requires Sound(cfg) && Monotone(calls) && s <= e
    ensures Covers(cfg, Admissions(cfg, calls, key), s, e, plan)
  {
    KeysAreIndependent(cfg, calls, key);
    OnlyOrdered(calls, key);
    var gaps;
    plan, gaps := KeyIsCovered(cfg, Only(calls, key), s, e);
  }

  /** A full bucket and some plan for the window come to this number. */
  ghost predicate PlanComesTo(cfg: Config, window: int, count: int) {
    exists plan :: IsPlan(plan, window) && count == cfg.capacity + Worth(Credits(cfg), plan)
  }

  lemma PlanCanBeAdmitted(cfg: Config, key: string, s: int, e: int, count: int)
    requires Sound(cfg) && s <= e && PlanComesTo(cfg, e - s, count)
    ensures CanAdmit(cfg, key, s, e, count)
  {
    var plan :| IsPlan(plan, e - s) && count == cfg.capacity + Worth(Credits(cfg), plan);
    PlanIsReached(cfg, key, s, e, plan);
  }

  lemma SomePlanIsBetter(cfg: Config, key: string, s: int, e: int, count: int) returns (better: int)
    requires Sound(cfg) && s <= e && CanAdmit(cfg, key, s, e, count)
    ensures count <= better && PlanComesTo(cfg, e - s, better)
  {
    var calls :| Monotone(calls) && CountWithin(Admissions(cfg, calls, key), s, e) == count;
    var plan := RunIsCovered(cfg, calls, key, s, e);
    better := cfg.capacity + Worth(Credits(cfg), plan);
  }

  ghost predicate MostAdmitted(cfg: Config, key: string, s: int, e: int, most: int) {
    CanAdmit(cfg, key, s, e, most) && forall n :: CanAdmit(cfg, key, s, e, n) ==> n <= most
  }

  ghost predicate BestPlan(cfg: Config, window: int, most: int) {
    PlanComesTo(cfg, window, most) && forall n :: PlanComesTo(cfg, window, n) ==> n <= most
  }

  lemma MostIsBest(cfg: Config, key: string, s: int, e: int, most: int)
    requires Sound(cfg) && s <= e && MostAdmitted(cfg, key, s, e, most)
    ensures BestPlan(cfg, e - s, most)
  {
    var window := e - s;
    forall n | PlanComesTo(cfg, window, n) ensures n <= most {
      PlanCanBeAdmitted(cfg, key, s, e, n);
    }
    var better := SomePlanIsBetter(cfg, key, s, e, most);
  }

  lemma BestIsMost(cfg: Config, key: string, s: int, e: int, most: int)
    requires Sound(cfg) && s <= e && BestPlan(cfg, e - s, most)
    ensures MostAdmitted(cfg, key, s, e, most)
  {
    PlanCanBeAdmitted(cfg, key, s, e, most);
    forall n | CanAdmit(cfg, key, s, e, n) ensures n <= most {
      var better := SomePlanIsBetter(cfg, key, s, e, n);
    }
  }

  lemma {:induction false} BestFrom(cfg: Config, window: int, n: int, bound: int) returns (most: int)
    requires PlanComesTo(cfg, window, n) && forall m :: PlanComesTo(cfg, window, m) ==> m <= bound
    ensures BestPlan(cfg, window, most)
    decreases bound - n
  {
    most := n;
    if m :| PlanComesTo(cfg, window, m) && n < m {
      most := BestFrom(cfg, window, m, bound);
    }
  }

  /** Every window has a best plan. */
  lemma BestPlanExists(cfg: Config, window: int) returns (most: int)
    requires Sound(cfg) && window >= 0
    ensures BestPlan(cfg, window, most)
  {
    var bound := cfg.capacity * NANOS_PER_MINUTE + cfg.rate * window;
    forall m | PlanComesTo(cfg, window, m) ensures m <= bound {
      PlanCanBeAdmitted(cfg, "k", 0, window, m);
      var calls :| Monotone(calls) && CountWithin(Admissions(cfg, calls, "k"), 0, window) == m;
      WindowBound(cfg, calls, "k", 0, window);
    }
    assert IsPlan([], window);
    assert PlanComesTo(cfg, window, cfg.capacity + Worth(Credits(cfg), []));
    most := BestFrom(cfg, window, cfg.capacity, bound);
  }

  /** The most any run admits in a window is a full bucket and the worth of the best plan for it. */
  lemma WindowMaximum(cfg: Config, key: string, s: int, e: int, most: int)
    requires Sound(cfg) && s <= e
    ensures MostAdmitted(cfg, key, s, e, most) <==> BestPlan(cfg, e - s, most)
  {
    if MostAdmitted(cfg, key, s, e, most) {
      MostIsBest(cfg, key, s, e, most);
    }
    if BestPlan(cfg, e - s, most) {
      BestIsMost(cfg, key, s, e, most);
    }
  }

  // ---------------------------------------------------------------- when the bound is reached

  /** Some run reaches the bound of `WindowBound`, rounded down. */
  ghost predicate Attains(cfg: Config, key: string, s: int, e: int) {
    CanAdmit(cfg, key, s, e, cfg.capacity + Refill(cfg.rate, e - s))
  }

  /** So many tokens, which a full bucket can hold, take a whole number of nanoseconds. */
  predicate WholeTime(cfg: Config, j: int, gap: int) {
    1 <= j <= cfg.capacity && gap >= 1 && cfg.rate * gap == j * NANOS_PER_MINUTE
  }

  lemma RefillShifts(cfg: Config, j: int, gap: int, elapsed: int)
    requires Sound(cfg) && WholeTime(cfg, j, gap) && elapsed >= 0
    ensures Refill(cfg.rate, elapsed + gap) == Refill(cfg.rate, elapsed) + j && Refill(cfg.rate, gap) == j
  {
    var earned := elapsed * cfg.rate;
    assert (elapsed + gap) * cfg.rate == earned + j * NANOS_PER_MINUTE;
    Grows(cfg.rate, 0, elapsed);
  }

  lemma LongerThanGap(cfg: Config, j: int, gap: int, elapsed: int)
    requires Sound(cfg) && WholeTime(cfg, j, gap) && elapsed >= 0 && Refill(cfg.rate, elapsed) > cfg.capacity
    ensures elapsed >= gap
  {
    RefillBounds(cfg.rate, elapsed);
    if elapsed < gap {
      Grows(cfg.rate, elapsed, gap);
      Split(cfg.rate, 0, elapsed, gap);
    }
  }

  lemma {:induction false} FullPlan(cfg: Config, window: int, j: int, gap: int) returns (gaps: seq<int>)
    requires Sound(cfg) && window >= 0 && (Refill(cfg.rate, window) <= cfg.capacity || WholeTime(cfg, j, gap))
    ensures IsPlan(gaps, window) && Worth(Credits(cfg), gaps) == Refill(cfg.rate, window)
    decreases window
  {
    if Refill(cfg.rate, window) <= cfg.capacity {
      gaps := [window];
      WorthOfOne(Credits(cfg), window);
    } else {
      LongerThanGap(cfg, j, gap, window);
      RefillShifts(cfg, j, gap, window - gap);
      var rest := FullPlan(cfg, window - gap, j, gap);
      gaps := [gap] + rest;
      assert gaps[1..] == rest;
    }
  }

  /** The bound is reached in every window that earns at most one full bucket, and in every
      window at all if some tokens that fit in the bucket take a whole number of nanoseconds. */
  lemma BoundIsAttained(cfg: Config, key: string, s: int, e: int, j: int, gap: int)
    requires Sound(cfg) && s <= e && (Refill(cfg.rate, e - s) <= cfg.capacity || WholeTime(cfg, j, gap))
    ensures Attains(cfg, key, s, e)
  {
    var gaps := FullPlan(cfg, e - s, j, gap);
    PlanIsReached(cfg, key, s, e, gaps);
  }

  /** Every refill credits less than the time since the last one has earned. */
  ghost predicate Lossy(cfg: Config) {
    cfg.rate >= 1 && forall j, gap :: !WholeTime(cfg, j, gap)
  }

  /** What is credited is less than what was earned, unless both are nothing. */
  predicate Short(credited: int, earned: int) {
    0 <= credited && credited * NANOS_PER_MINUTE <= earned &&
    (credited > 0 ==> credited * NANOS_PER_MINUTE < earned)
  }

  lemma LossyCredit(cfg: Config, gap: int)
    requires Sound(cfg) && Lossy(cfg) && gap >= 0
    ensures Short(Credit(cfg, gap), cfg.rate * gap)
  {
    RefillBounds(cfg.rate, gap);
    if 1 <= Refill(cfg.rate, gap) <= cfg.capacity {
      assert gap >= 1;
      assert !WholeTime(cfg, Refill(cfg.rate, gap), gap);
    }
  }

  lemma Distribute(rate: int, a: int, b: int)
    ensures rate * (a + b) == rate * a + rate * b
  {
  }

  lemma ShortTogether(rate: int, a: int, b: int, x: int, y: int)
    requires Short(x, rate * a) && Short(y, rate * b)
    ensures Short(x + y, rate * (a + b))
  {
    Distribute(rate, a, b);
  }

  lemma {:induction false} LossyPlan(cfg: Config, gaps: seq<int>)
    requires Sound(cfg) && Lossy(cfg) && forall i :: 0 <= i < |gaps| ==> gaps[i] >= 0
    ensures Short(Worth(Credits(cfg), gaps), cfg.rate * Length(gaps))
  {
    if gaps != [] {
      LossyCredit(cfg, gaps[0]);
      LossyPlan(cfg, gaps[1..]);
      ShortTogether(cfg.rate, gaps[0], Length(gaps[1..]), Credit(cfg, gaps[0]), Worth(Credits(cfg), gaps[1..]));
    }
  }

  lemma GrowsStrictly(rate: int, a: int, b: int)
    requires rate >= 1 && a < b
    ensures rate * (b - a) >= 1
  {
  }

  predicate StrictlyWithin(cfg: Config, times: seq<int>, s: int, e: int) {
    CountWithin(times, s, e) * NANOS_PER_MINUTE < cfg.capacity * NANOS_PER_MINUTE + cfg.rate * (e - s)
  }

  lemma CoveredStrictly(cfg: Config, times: seq<int>, s: int, e: int, plan: seq<int>)
    requires Sound(cfg) && Lossy(cfg) && s < e && Covers(cfg, times, s, e, plan)
    ensures StrictlyWithin(cfg, times, s, e)
  {
    LossyPlan(cfg, plan);
    GrowsStrictly(cfg.rate, s, e);
    Split(cfg.rate, 0, Length(plan), e - s);
    Grows(cfg.rate, Length(plan), e - s);
  }

  /** If no tokens that fit in the bucket take a whole number of nanoseconds, the bound before it
      is rounded down is reached in no window of positive length. */
  lemma StrictBound(cfg: Config, calls: seq<Call>, key: string, s: int, e: int)
    requires Sound(cfg) && Lossy(cfg) && Monotone(calls) && s < e
    ensures StrictlyWithin(cfg, Admissions(cfg, calls, key), s, e)
  {
    var plan := RunIsCovered(cfg, calls, key, s, e);
    CoveredStrictly(cfg, Admissions(cfg, calls, key), s, e, plan);
  }

  lemma MinuteMisses(cfg: Config, times: seq<int>)
    requires StrictlyWithin(cfg, times, 0, NANOS_PER_MINUTE)
    ensures CountWithin(times, 0, NANOS_PER_MINUTE) < cfg.capacity + cfg.rate
  {
  }

  lemma OneMinuteIsMissed(cfg: Config, key: string)
    requires Sound(cfg) && Lossy(cfg)
    ensures !Attains(cfg, key, 0, NANOS_PER_MINUTE)
  {
    assert Refill(cfg.rate, NANOS_PER_MINUTE - 0) == cfg.rate;
    forall calls | Monotone(calls)
      ensures CountWithin(Admissions(cfg, calls, key), 0, NANOS_PER_MINUTE) < cfg.capacity + cfg.rate
    {
      StrictBound(cfg, calls, key, 0, NANOS_PER_MINUTE);
      MinuteMisses(cfg, Admissions(cfg, calls, key));
    }
  }

  /** The bound is reached in every window exactly when no token is ever earned or some tokens
      that fit in the bucket take a whole number of nanoseconds. */
  lemma BoundIsAttainedExactlyFor(cfg: Config)
    requires Sound(cfg)
    ensures (forall key, s, e :: s <= e ==> Attains(cfg, key, s, e))
       <==> cfg.rate == 0 || exists j, gap :: WholeTime(cfg, j, gap)
  {
    if cfg.rate == 0 {
      forall key, s, e | s <= e ensures Attains(cfg, key, s, e) {
        BoundIsAttained(cfg, key, s, e, 1, 1);
      }
    } else if j, gap :| WholeTime(cfg, j, gap) {
      forall key, s, e | s <= e ensures Attains(cfg, key, s, e) {
        BoundIsAttained(cfg, key, s, e, j, gap);
      }
    } else {
      OneMinuteIsMissed(cfg, "k");
    }
  }

  /** A limiter built for N requests per minute lets through 2 * N, and never more, in one closed minute. */
  lemma TwiceTheLimitInOneMinute(perMinute: int, key: string, s: int)
    requires perMinute >= 1
    ensures var cfg := Effective(perMinute, perMinute);
            && (exists calls :: Monotone(calls) &&
                  CountWithin(Admissions(cfg, calls, key), s, s + 60_000_000_000) == 2 * perMinute)
            && (forall calls :: Monotone(calls) ==>
                  CountWithin(Admissions(cfg, calls, key), s, s + 60_000_000_000) <= 2 * perMinute)
  {
    var cfg := Effective(perMinute, perMinute);
    var e := s + 60_000_000_000;
    assert Refill(cfg.rate, e - s) == perMinute;
    BoundIsAttained(cfg, key, s, e, 1, 1);
    forall calls | Monotone(calls)
      ensures CountWithin(Admissions(cfg, calls, key), s, s + 60_000_000_000) <= 2 * perMinute
    {
      WindowBound(cfg, calls, key, s, e);
    }
  }
}
