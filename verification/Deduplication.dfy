/** How far the deduplication window can be trusted when check-ins interleave.

    The query and the insert of a check-in are two statements with no constraint behind them.
    With at most n check-ins of a pair between their query and their insert at any time, a
    window holds at most n events of that pair; with one it holds at most one.
 */
module Deduplication {

  import opened Ordering
  import opened Attendance
  import opened Pipeline

  type byte = QueueCodec.byte

  // ---------------------------------------------------------------- history of the inserts

  predicate Finished(p: Handler) {
    p.Publishing? || p.Answered?
  }

  type Handlers = map<nat, Handler>
  type Births = map<Id, Birth>

  ghost predicate SerialsOk(births: Births) {
    && (forall id :: id in births ==> births[id].serial < |births|)
    && (forall a, b :: a in births && b in births && a != b ==> births[a].serial != births[b].serial)
  }

  /** The author of an insert has finished inserting, and is the author of no other. */
  ghost predicate AuthorsOk(births: Births, handlers: Handlers) {
    && (forall id :: id in births ==> births[id].author in handlers && Finished(handlers[births[id].author]))
    && (forall a, b :: a in births && b in births && a != b ==> births[a].author != births[b].author)
  }

  /** A handler in flight queried in the past, and stamped its event between then and now. */
  predicate ClockOk(p: Handler, now: int) {
    && (p.Cleared? ==> p.queried <= now)
    && (p.Stamped? ==> p.queried <= p.when <= now)
  }

  ghost predicate ClocksOk(handlers: Handlers, now: int) {
    forall h :: h in handlers ==> ClockOk(handlers[h], now)
  }

  /** A handler in flight did not see the insert of a recent event of its pair, so it was a
      rival of that insert. */
  predicate Missed(e: Event, rivals: set<nat>, window: int, p: Handler, h: nat) {
    InFlight(p, e.user, e.device) && e.when >= p.queried - window ==> h in rivals
  }

  ghost predicate AllMissed(rows: Rows, births: Births, handlers: Handlers, window: int) {
    forall id, h :: id in rows && id in births && h in handlers ==>
      Missed(rows[id], births[id].rivals, window, handlers[h], h)
  }

  /** Of two events of a pair within the window, the author of the later insert was a rival of
      the earlier one. */
  predicate Overlapped(e: Event, x: Birth, f: Event, y: Birth, window: int) {
    OfPair(e, f.user, f.device) && x.serial <= y.serial && e.when >= f.when - window ==> y.author in x.rivals
  }

  ghost predicate AllOverlapped(rows: Rows, births: Births, window: int) {
    forall a, b :: a in rows && a in births && b in rows && b in births ==>
      Overlapped(rows[a], births[a], rows[b], births[b], window)
  }

  ghost predicate HistoryOk(s: State, window: int) {
    && s.births.Keys == s.rows.Keys
    && SerialsOk(s.births)
    && AuthorsOk(s.births, s.handlers)
    && ClocksOk(s.handlers, s.now)
    && AllMissed(s.rows, s.births, s.handlers, window)
    && AllOverlapped(s.rows, s.births, window)
  }

  // ---------------------------------------------------------------- steps that insert nothing

  ghost predicate SameIdentity(rows: Rows, rows': Rows) {
    rows'.Keys == rows.Keys && Extends(rows, rows')
  }

  lemma IdentityKeepsHistory(rows: Rows, rows': Rows, births: Births, handlers: Handlers, window: int)
    requires SameIdentity(rows, rows')
    requires AllMissed(rows, births, handlers, window) && AllOverlapped(rows, births, window)
    ensures AllMissed(rows', births, handlers, window) && AllOverlapped(rows', births, window)
  {
  }

  /** How a handler moves without inserting: it is new, it finishes, its query found nothing
      because there was nothing, or it takes the time. */
  ghost predicate Calm(rows: Rows, handlers: Handlers, h: nat, p': Handler, window: int, now: int) {
    || (h !in handlers && p'.Asked?)
    || Finished(p')
    || (h in handlers && handlers[h].Asked? && p'.Cleared? && p'.queried == now &&
        NoneRecent(rows, p'.req.user, p'.req.device, window, now))
    || (h in handlers && handlers[h].Cleared? && p' == Stamped(handlers[h].req, handlers[h].queried, now))
  }

  lemma CalmKeepsMissed(rows: Rows, births: Births, handlers: Handlers, h: nat, p': Handler, window: int, now: int)
    requires AllMissed(rows, births, handlers, window) && Calm(rows, handlers, h, p', window, now)
    ensures AllMissed(rows, births, handlers[h := p'], window)
  {
  }

  lemma CalmKeepsRest(rows: Rows, births: Births, handlers: Handlers, h: nat, p': Handler, window: int, now: int)
    requires AuthorsOk(births, handlers) && ClocksOk(handlers, now) && Calm(rows, handlers, h, p', window, now)
    ensures AuthorsOk(births, handlers[h := p']) && ClocksOk(handlers[h := p'], now)
  {
  }

  lemma CalmKeepsHistory(s: State, h: nat, p': Handler, window: int)
    requires HistoryOk(s, window) && Calm(s.rows, s.handlers, h, p', window, s.now)
    ensures HistoryOk(s.(handlers := s.handlers[h := p']), window)
  {
    CalmKeepsMissed(s.rows, s.births, s.handlers, h, p', window, s.now);
    CalmKeepsRest(s.rows, s.births, s.handlers, h, p', window, s.now);
  }

  predicate Stores(l: Label) {
    l.Handle? && l.hm.Insert? && !l.hm.result.Rejected?
  }

  lemma HandlerIsCalm(window: int, s: State, h: nat, move: HandlerMove)
    requires h in s.handlers && HandlerStep(window, s, h, move).Some? && !Stores(Handle(h, move))
    ensures var s' := HandlerStep(window, s, h, move).value;
            && s'.rows == s.rows && s'.births == s.births && s'.now == s.now && h in s'.handlers
            && s'.handlers == s.handlers[h := s'.handlers[h]]
            && Calm(s.rows, s.handlers, h, s'.handlers[h], window, s.now)
  {
  }

  lemma WorkerIsQuiet(s: State, w: nat, move: WorkerMove)
    requires w in s.workers && WorkerStep(s, w, move).Some?
    ensures var s' := WorkerStep(s, w, move).value;
            && SameIdentity(s.rows, s'.rows) && s'.births == s.births && s'.now == s.now
            && s'.handlers == s.handlers
  {
  }

  lemma QuietKeepsHistory(window: int, s: State, l: Label)
    requires HistoryOk(s, window) && Step(window, s, l).Some? && !Stores(l)
    ensures HistoryOk(Step(window, s, l).value, window)
  {
    var s' := Step(window, s, l).value;
    match l {
      case Tick(_) =>
        assert forall h :: h in s.handlers ==> ClockOk(s.handlers[h], s.now);
      case Arrive(h, _) => CalmKeepsHistory(s, h, s'.handlers[h], window);
      case Handle(h, move) =>
        HandlerIsCalm(window, s, h, move);
        CalmKeepsHistory(s, h, s'.handlers[h], window);
      case Start(_) =>
      case Work(w, move) =>
        WorkerIsQuiet(s, w, move);
        IdentityKeepsHistory(s.rows, s'.rows, s.births, s.handlers, window);
    }
  }

  // ---------------------------------------------------------------- steps that insert

  /** The effect of a handler's insert on the table, the births and the handler. */
  ghost predicate Inserts(s: State, s': State, h: nat, id: Id) {
    && h in s.handlers && s.handlers[h].Stamped? && id !in s.rows
    && var p := s.handlers[h];
    && s'.now == s.now
    && s'.rows == s.rows[id := NewEvent(p.req.user, p.req.device, p.when, p.req.location, p.req.imageUrl)]
    && s'.births == s.births[id := Birth(|s.births|, h, Rivals(s.handlers, p.req.user, p.req.device))]
    && h in s'.handlers && Finished(s'.handlers[h]) && s'.handlers == s.handlers[h := s'.handlers[h]]
  }

  lemma InsertKeepsSerials(births: Births, id: Id, x: Birth)
    requires SerialsOk(births) && id !in births && x.serial == |births|
    ensures SerialsOk(births[id := x])
  {
  }

  lemma InsertKeepsAuthors(births: Births, handlers: Handlers, id: Id, x: Birth, p': Handler)
    requires AuthorsOk(births, handlers) && id !in births
    requires x.author in handlers && !Finished(handlers[x.author]) && Finished(p')
    ensures AuthorsOk(births[id := x], handlers[x.author := p'])
  {
  }

  lemma InsertKeepsMissed(rows: Rows, births: Births, handlers: Handlers, id: Id, e: Event, x: Birth,
                          h: nat, p': Handler, window: int)
    requires AllMissed(rows, births, handlers, window) && h in handlers && Finished(p')
    requires x.rivals == Rivals(handlers, e.user, e.device)
    ensures AllMissed(rows[id := e], births[id := x], handlers[h := p'], window)
  {
  }

  lemma InsertKeepsOverlapped(rows: Rows, births: Births, handlers: Handlers, id: Id, e: Event, x: Birth,
                              p: Handler, window: int)
    requires AllOverlapped(rows, births, window) && AllMissed(rows, births, handlers, window)
    requires x.author in handlers && handlers[x.author] == p && p.Stamped? && p.queried <= p.when == e.when
    requires p.req.user == e.user && p.req.device == e.device && x.rivals == Rivals(handlers, e.user, e.device)
    requires x.serial == |births| && SerialsOk(births)
    ensures AllOverlapped(rows[id := e], births[id := x], window)
  {
  }

  lemma InsertKeepsHistory(window: int, s: State, s': State, h: nat, id: Id)
    requires HistoryOk(s, window) && Inserts(s, s', h, id)
    ensures HistoryOk(s', window)
  {
    var p, p', e, x := s.handlers[h], s'.handlers[h], s'.rows[id], s'.births[id];
    assert ClockOk(p, s.now);
    InsertKeepsSerials(s.births, id, x);
    InsertKeepsAuthors(s.births, s.handlers, id, x, p');
    InsertKeepsMissed(s.rows, s.births, s.handlers, id, e, x, h, p', window);
    InsertKeepsOverlapped(s.rows, s.births, s.handlers, id, e, x, p, window);
  }

  lemma StepKeepsHistory(window: int, s: State, l: Label)
    requires HistoryOk(s, window) && Step(window, s, l).Some?
    ensures HistoryOk(Step(window, s, l).value, window)
  {
    if Stores(l) {
      InsertKeepsHistory(window, s, Step(window, s, l).value, l.h, l.hm.id);
    } else {
      QuietKeepsHistory(window, s, l);
    }
  }

  lemma {:induction false} RunKeepsHistory(window: int, t0: int, ls: seq<Label>)
    requires Exec(window, t0, ls).Some?
    ensures HistoryOk(Exec(window, t0, ls).value, window)
  {
    if ls != [] {
      RunKeepsHistory(window, t0, ls[..|ls| - 1]);
      StepKeepsHistory(window, Exec(window, t0, ls[..|ls| - 1]).value, ls[|ls| - 1]);
    }
  }

  // ---------------------------------------------------------------- the window

  /** At every point of the run at most n check-ins of the pair are between query and insert. */
  ghost predicate AtMost(window: int, t0: int, ls: seq<Label>, user: string, device: string, n: nat) {
    forall k :: 0 <= k <= |ls| && Exec(window, t0, ls[..k]).Some? ==>
      |Rivals(Exec(window, t0, ls[..k]).value.handlers, user, device)| <= n
  }

  ghost predicate FewRivals(rows: Rows, births: Births, user: string, device: string, n: nat) {
    forall id :: id in rows && id in births && OfPair(rows[id], user, device) ==> |births[id].rivals| <= n
  }

  lemma QuietIdentity(window: int, s: State, l: Label)
    requires Step(window, s, l).Some? && !Stores(l)
    ensures SameIdentity(s.rows, Step(window, s, l).value.rows) && Step(window, s, l).value.births == s.births
  {
    match l {
      case Handle(h, move) => HandlerIsCalm(window, s, h, move);
      case Work(w, move) => WorkerIsQuiet(s, w, move);
      case _ =>
    }
  }

  lemma InsertFewRivals(s: State, s': State, h: nat, id: Id, user: string, device: string, n: nat)
    requires FewRivals(s.rows, s.births, user, device, n) && |Rivals(s.handlers, user, device)| <= n
    requires Inserts(s, s', h, id)
    ensures FewRivals(s'.rows, s'.births, user, device, n)
  {
  }

  lemma StepFewRivals(window: int, s: State, l: Label, user: string, device: string, n: nat)
    requires Step(window, s, l).Some?
    requires FewRivals(s.rows, s.births, user, device, n) && |Rivals(s.handlers, user, device)| <= n
    ensures FewRivals(Step(window, s, l).value.rows, Step(window, s, l).value.births, user, device, n)
  {
    if Stores(l) {
      InsertFewRivals(s, Step(window, s, l).value, l.h, l.hm.id, user, device, n);
    } else {
      QuietIdentity(window, s, l);
    }
  }

  lemma {:induction false} RunFewRivals(window: int, t0: int, ls: seq<Label>, user: string, device: string, n: nat)
    requires Exec(window, t0, ls).Some? && AtMost(window, t0, ls, user, device, n)
    ensures FewRivals(Exec(window, t0, ls).value.rows, Exec(window, t0, ls).value.births, user, device, n)
  {
    if ls != [] {
      var front := ls[..|ls| - 1];
      forall k | 0 <= k <= |front| && Exec(window, t0, front[..k]).Some?
        ensures |Rivals(Exec(window, t0, front[..k]).value.handlers, user, device)| <= n
      {
        assert front[..k] == ls[..k];
      }
      RunFewRivals(window, t0, front, user, device, n);
      RunKeepsHistory(window, t0, front);
      assert ls[..|front|] == front;
      StepFewRivals(window, Exec(window, t0, front).value, ls[|ls| - 1], user, device, n);
    }
  }

  /** Events of the pair in the closed window that starts at t. */
  function InWindow(rows: Rows, user: string, device: string, t: int, window: int): set<Id> {
    set id | id in rows && OfPair(rows[id], user, device) && t <= rows[id].when <= t + window
  }

  lemma {:induction false} FirstBorn(ids: set<Id>, births: Births) returns (first: Id)
    requires ids != {} && ids <= births.Keys
    ensures first in ids && forall b :: b in ids ==> births[first].serial <= births[b].serial
  {
    first :| first in ids;
    var rest := ids - {first};
    if rest != {} {
      var other := FirstBorn(rest, births);
      if births[other].serial < births[first].serial {
        first := other;
      }
    }
  }

  /** Distinct events have distinct authors, so there are at least as many authors. */
  lemma {:induction false} AuthorsCount(ids: set<Id>, births: Births, authors: set<nat>)
    requires ids <= births.Keys
    requires forall a, b :: a in ids && b in ids && a != b ==> births[a].author != births[b].author
    requires forall a :: a in ids ==> births[a].author in authors
    ensures |ids| <= |authors|
  {
    if ids != {} {
      var a :| a in ids;
      AuthorsCount(ids - {a}, births, authors - {births[a].author});
    }
  }

  /** In every interleaving, a closed window holds at most n events of a pair. */
  lemma WindowHoldsAtMost(window: int, t0: int, ls: seq<Label>, user: string, device: string, n: nat, t: int)
    requires window > 0 && Exec(window, t0, ls).Some? && AtMost(window, t0, ls, user, device, n)
    ensures |InWindow(Exec(window, t0, ls).value.rows, user, device, t, window)| <= n
  {
    var s := Exec(window, t0, ls).value;
    var ids := InWindow(s.rows, user, device, t, window);
    RunKeepsHistory(window, t0, ls);
    RunFewRivals(window, t0, ls, user, device, n);
    if ids != {} {
      var first := FirstBorn(ids, s.births);
      forall b | b in ids ensures s.births[b].author in s.births[first].rivals {
        assert Overlapped(s.rows[first], s.births[first], s.rows[b], s.births[b], window);
      }
      AuthorsCount(ids, s.births, s.births[first].rivals);
    }
  }

  lemma TwoElements<T>(s: set<T>, a: T, b: T)
    requires a in s && b in s && a != b
    ensures |s| >= 2
  {
    assert |s - {a}| >= 1 by {
      assert b in s - {a};
    }
  }

  /** One check-in of a pair at a time: its events lie strictly more than the window apart. */
  lemma OneAtATimeIsSpaced(window: int, t0: int, ls: seq<Label>, a: Id, b: Id)
    requires window > 0 && Exec(window, t0, ls).Some?
    requires a in Exec(window, t0, ls).value.rows && b in Exec(window, t0, ls).value.rows && a != b
    requires var e, f := Exec(window, t0, ls).value.rows[a], Exec(window, t0, ls).value.rows[b];
             OfPair(e, f.user, f.device) && AtMost(window, t0, ls, f.user, f.device, 1)
    ensures var e, f := Exec(window, t0, ls).value.rows[a], Exec(window, t0, ls).value.rows[b];
            e.when > f.when + window || f.when > e.when + window
  {
    var rows := Exec(window, t0, ls).value.rows;
    var e, f := rows[a], rows[b];
    var t := if e.when < f.when then e.when else f.when;
    WindowHoldsAtMost(window, t0, ls, f.user, f.device, 1, t);
    if e.when <= f.when + window && f.when <= e.when + window {
      TwoElements(InWindow(rows, f.user, f.device, t, window), a, b);
    }
  }

  // ---------------------------------------------------------------- check-ins that race

  /** One check-in for each identifier, all for the same request: `a` have arrived, then `b` have
      queried, then `c` have stamped, then `d` have inserted. */
  function Race(ids: seq<Id>, req: Request, a: nat, b: nat, c: nat, d: nat): seq<Label>
    requires d <= c <= b <= a <= |ids|
  {
    if d > 0 then Race(ids, req, a, b, c, d - 1) + [Handle(d - 1, Insert(ids[d - 1], Stored))]
    else if c > 0 then Race(ids, req, a, b, c - 1, 0) + [Handle(c - 1, Stamp)]
    else if b > 0 then Race(ids, req, a, b - 1, 0, 0) + [Handle(b - 1, Query(Miss))]
    else if a > 0 then Race(ids, req, a - 1, 0, 0, 0) + [Arrive(a - 1, req)]
    else []
  }

  /** Where handler h is by then. */
  function RacerAt(ids: seq<Id>, req: Request, t: int, b: nat, c: nat, d: nat, h: nat): Handler
    requires h < |ids|
  {
    if h < d then Publishing(req, ids[h]) else if h < c then Stamped(req, t, t)
    else if h < b then Cleared(req, t) else Asked(req)
  }

  ghost predicate Racing(s: State, ids: seq<Id>, req: Request, t: int, a: nat, b: nat, c: nat, d: nat)
    requires d <= |ids| && a <= |ids|
  {
    && s.now == t
    && (forall h: nat :: h in s.handlers <==> h < a)
    && (forall h: nat :: h < a ==> s.handlers[h] == RacerAt(ids, req, t, b, c, d, h))
    && (forall id :: id in s.rows <==> id in ids[..d])
    && forall id :: id in s.rows ==> s.rows[id] == NewEvent(req.user, req.device, t, req.location, req.imageUrl)
  }

  lemma RaceArrives(window: int, s: State, ids: seq<Id>, req: Request, t: int, a: nat)
    requires a < |ids| && req.user != "" && req.device != "" && Racing(s, ids, req, t, a, 0, 0, 0)
    ensures var s' := Step(window, s, Arrive(a, req));
            s'.Some? && Racing(s'.value, ids, req, t, a + 1, 0, 0, 0)
  {
  }

  lemma RaceQueries(window: int, s: State, ids: seq<Id>, req: Request, t: int, a: nat, b: nat)
    requires b < a <= |ids| && Racing(s, ids, req, t, a, b, 0, 0)
    ensures var s' := Step(window, s, Handle(b, Query(Miss)));
            s'.Some? && Racing(s'.value, ids, req, t, a, b + 1, 0, 0)
  {
  }

  lemma RaceStamps(window: int, s: State, ids: seq<Id>, req: Request, t: int, a: nat, b: nat, c: nat)
    requires c < b <= a <= |ids| && Racing(s, ids, req, t, a, b, c, 0)
    ensures var s' := Step(window, s, Handle(c, Stamp));
            s'.Some? && Racing(s'.value, ids, req, t, a, b, c + 1, 0)
  {
  }

  ghost predicate FreshIds(ids: seq<Id>) {
    Distinct(ids) && forall i :: 0 <= i < |ids| ==> IsUuid(ids[i])
  }

  lemma RaceInserts(window: int, s: State, ids: seq<Id>, req: Request, t: int, a: nat, b: nat, c: nat, d: nat)
    requires d < c <= b <= a <= |ids| && FreshIds(ids) && Racing(s, ids, req, t, a, b, c, d)
    ensures var s' := Step(window, s, Handle(d, Insert(ids[d], Stored)));
            s'.Some? && Racing(s'.value, ids, req, t, a, b, c, d + 1)
  {
    assert ids[..d + 1] == ids[..d] + [ids[d]];
    assert ids[d] !in ids[..d] && IsUuid(ids[d]);
    assert s.handlers[d] == Stamped(req, t, t);
    var s' := Step(window, s, Handle(d, Insert(ids[d], Stored))).value;
    assert s'.handlers == s.handlers[d := Publishing(req, ids[d])];
    assert forall id :: id in s'.rows <==> id in s.rows || id == ids[d];
  }

  /** The run reaches the given point of the race. */
  ghost predicate RaceReaches(window: int, t: int, ls: seq<Label>, ids: seq<Id>, req: Request,
                              a: nat, b: nat, c: nat, d: nat)
    requires d <= |ids| && a <= |ids|
  {
    Exec(window, t, ls).Some? && Racing(Exec(window, t, ls).value, ids, req, t, a, b, c, d)
  }

  lemma ArriveMore(window: int, t: int, ls: seq<Label>, ids: seq<Id>, req: Request, a: nat)
    requires a < |ids| && req.user != "" && req.device != "" && RaceReaches(window, t, ls, ids, req, a, 0, 0, 0)
    ensures RaceReaches(window, t, ls + [Arrive(a, req)], ids, req, a + 1, 0, 0, 0)
  {
    ExecMore(window, t, ls, Arrive(a, req));
    RaceArrives(window, Exec(window, t, ls).value, ids, req, t, a);
  }

  lemma QueryMore(window: int, t: int, ls: seq<Label>, ids: seq<Id>, req: Request, a: nat, b: nat)
    requires b < a <= |ids| && RaceReaches(window, t, ls, ids, req, a, b, 0, 0)
    ensures RaceReaches(window, t, ls + [Handle(b, Query(Miss))], ids, req, a, b + 1, 0, 0)
  {
    ExecMore(window, t, ls, Handle(b, Query(Miss)));
    RaceQueries(window, Exec(window, t, ls).value, ids, req, t, a, b);
  }

  lemma StampMore(window: int, t: int, ls: seq<Label>, ids: seq<Id>, req: Request, a: nat, b: nat, c: nat)
    requires c < b <= a <= |ids| && RaceReaches(window, t, ls, ids, req, a, b, c, 0)
    ensures RaceReaches(window, t, ls + [Handle(c, Stamp)], ids, req, a, b, c + 1, 0)
  {
    ExecMore(window, t, ls, Handle(c, Stamp));
    RaceStamps(window, Exec(window, t, ls).value, ids, req, t, a, b, c);
  }

  lemma InsertMore(window: int, t: int, ls: seq<Label>, ids: seq<Id>, req: Request, a: nat, b: nat, c: nat, d: nat)
    requires d < c <= b <= a <= |ids| && FreshIds(ids) && RaceReaches(window, t, ls, ids, req, a, b, c, d)
    ensures RaceReaches(window, t, ls + [Handle(d, Insert(ids[d], Stored))], ids, req, a, b, c, d + 1)
  {
    ExecMore(window, t, ls, Handle(d, Insert(ids[d], Stored)));
    RaceInserts(window, Exec(window, t, ls).value, ids, req, t, a, b, c, d);
  }

  lemma {:induction false} RaceRuns(window: int, t: int, ids: seq<Id>, req: Request, a: nat, b: nat, c: nat, d: nat)
    requires d <= c <= b <= a <= |ids| && FreshIds(ids) && req.user != "" && req.device != ""
    ensures RaceReaches(window, t, Race(ids, req, a, b, c, d), ids, req, a, b, c, d)
    decreases d, c, b, a
  {
    if d > 0 {
      RaceRuns(window, t, ids, req, a, b, c, d - 1);
      InsertMore(window, t, Race(ids, req, a, b, c, d - 1), ids, req, a, b, c, d - 1);
    } else if c > 0 {
      RaceRuns(window, t, ids, req, a, b, c - 1, 0);
      StampMore(window, t, Race(ids, req, a, b, c - 1, 0), ids, req, a, b, c - 1);
    } else if b > 0 {
      RaceRuns(window, t, ids, req, a, b - 1, 0, 0);
      QueryMore(window, t, Race(ids, req, a, b - 1, 0, 0), ids, req, a, b - 1);
    } else if a > 0 {
      RaceRuns(window, t, ids, req, a - 1, 0, 0, 0);
      ArriveMore(window, t, Race(ids, req, a - 1, 0, 0, 0), ids, req, a - 1);
    }
  }

  lemma HandlerKeeps(window: int, s: State, h: nat, move: HandlerMove)
    requires h in s.handlers && HandlerStep(window, s, h, move).Some?
    ensures forall g :: g in HandlerStep(window, s, h, move).value.handlers ==> g in s.handlers
  {
  }

  lemma StepArrivals(window: int, s: State, l: Label)
    requires Step(window, s, l).Some?
    ensures forall h :: h in Step(window, s, l).value.handlers ==> h in s.handlers || (l.Arrive? && h == l.h)
  {
    match l {
      case Handle(h, move) => HandlerKeeps(window, s, h, move);
      case Work(w, move) => WorkerIsQuiet(s, w, move);
      case _ =>
    }
  }

  lemma {:induction false} HandlersBounded(window: int, t0: int, ls: seq<Label>, n: nat)
    requires Exec(window, t0, ls).Some?
    requires forall i :: 0 <= i < |ls| && ls[i].Arrive? ==> ls[i].h < n
    ensures forall h :: h in Exec(window, t0, ls).value.handlers ==> h < n
  {
    if ls != [] {
      HandlersBounded(window, t0, ls[..|ls| - 1], n);
      StepArrivals(window, Exec(window, t0, ls[..|ls| - 1]).value, ls[|ls| - 1]);
    }
  }

  lemma {:induction false} RaceArrivals(ids: seq<Id>, req: Request, a: nat, b: nat, c: nat, d: nat, i: nat)
    requires d <= c <= b <= a <= |ids| && i < |Race(ids, req, a, b, c, d)|
    ensures Race(ids, req, a, b, c, d)[i].Arrive? ==> Race(ids, req, a, b, c, d)[i].h < |ids|
    decreases d, c, b, a
  {
    if i < |Race(ids, req, a, b, c, d)| - 1 {
      if d > 0 {
        RaceArrivals(ids, req, a, b, c, d - 1, i);
      } else if c > 0 {
        RaceArrivals(ids, req, a, b, c - 1, 0, i);
      } else if b > 0 {
        RaceArrivals(ids, req, a, b - 1, 0, 0, i);
      } else if a > 0 {
        RaceArrivals(ids, req, a - 1, 0, 0, 0, i);
      }
    }
  }

  function Below(n: nat): (s: set<nat>)
    ensures |s| == n && forall h: nat :: h in s <==> h < n
  {
    if n == 0 then {} else Below(n - 1) + {n - 1}
  }

  lemma RaceIsAtMost(window: int, t: int, ids: seq<Id>, req: Request, n: nat)
    requires |ids| <= n
    ensures AtMost(window, t, Race(ids, req, |ids|, |ids|, |ids|, |ids|), req.user, req.device, n)
  {
    var m := |ids|;
    var r := Race(ids, req, m, m, m, m);
    forall k | 0 <= k <= |r| && Exec(window, t, r[..k]).Some?
      ensures |Rivals(Exec(window, t, r[..k]).value.handlers, req.user, req.device)| <= n
    {
      forall i | 0 <= i < k && r[..k][i].Arrive? ensures r[..k][i].h < m {
        RaceArrivals(ids, req, m, m, m, m, i);
      }
      HandlersBounded(window, t, r[..k], m);
      SubsetSmaller(Rivals(Exec(window, t, r[..k]).value.handlers, req.user, req.device), Below(m));
    }
  }

  lemma {:induction false} DistinctMany<T>(s: seq<T>, members: set<T>)
    requires Distinct(s) && forall x :: x in members <==> x in s
    ensures |members| == |s|
  {
    if s == [] {
      assert members == {};
    } else {
      var n := |s| - 1;
      assert s == s[..n] + [s[n]] && s[n] !in s[..n];
      DistinctMany(s[..n], members - {s[n]});
    }
  }

  /** The bound is exact: as many check-ins as there are identifiers to give out can all miss each
      other, and then one window holds an event of each. */
  lemma WindowBoundIsReached(window: int, t: int, ids: seq<Id>, req: Request)
    requires window > 0 && FreshIds(ids) && req.user != "" && req.device != ""
    ensures var run := Race(ids, req, |ids|, |ids|, |ids|, |ids|);
            && AtMost(window, t, run, req.user, req.device, |ids|)
            && Exec(window, t, run).Some?
            && |InWindow(Exec(window, t, run).value.rows, req.user, req.device, t, window)| == |ids|
  {
    var n := |ids|;
    RaceIsAtMost(window, t, ids, req, n);
    RaceRuns(window, t, ids, req, n, n, n, n);
    assert ids[..n] == ids;
    var rows := Exec(window, t, Race(ids, req, n, n, n, n)).value.rows;
    DistinctMany(ids, InWindow(rows, req.user, req.device, t, window));
  }

  ghost predicate RunIsSpaced(window: int, t0: int, ls: seq<Label>, user: string, device: string) {
    Exec(window, t0, ls).Some? ==>
      var rows := Exec(window, t0, ls).value.rows;
      forall a, b :: a in rows && b in rows && a != b && OfPair(rows[a], user, device) && OfPair(rows[b], user, device) ==>
        rows[a].when > rows[b].when + window || rows[b].when > rows[a].when + window
  }

  lemma SpacedWhenOne(window: int, t0: int, ls: seq<Label>, user: string, device: string, n: nat)
    requires window > 0 && n <= 1 && AtMost(window, t0, ls, user, device, n)
    ensures RunIsSpaced(window, t0, ls, user, device)
  {
    if Exec(window, t0, ls).Some? {
      var rows := Exec(window, t0, ls).value.rows;
      forall a, b | a in rows && b in rows && a != b && OfPair(rows[a], user, device) && OfPair(rows[b], user, device)
        ensures rows[a].when > rows[b].when + window || rows[b].when > rows[a].when + window
      {
        OneAtATimeIsSpaced(window, t0, ls, a, b);
      }
    }
  }

  function AllDigits(d: byte): Id {
    Id(seq(36, i => d))
  }

  /** Deduplication is guaranteed in all runs with at most n check-ins of a pair in flight
      exactly when n is at most one. */
  lemma DeduplicatesExactlyWhen(window: int, n: nat)
    requires window > 0
    ensures (forall t0, ls, user, device :: AtMost(window, t0, ls, user, device, n) ==>
               RunIsSpaced(window, t0, ls, user, device))
       <==> n <= 1
  {
    if n <= 1 {
      forall t0, ls, user, device | AtMost(window, t0, ls, user, device, n)
        ensures RunIsSpaced(window, t0, ls, user, device)
      {
        SpacedWhenOne(window, t0, ls, user, device, n);
      }
    } else {
      var req := Request("u", "d", "", "");
      var ids := [AllDigits(0x30), AllDigits(0x31)];
      assert AllDigits(0x30).text[0] != AllDigits(0x31).text[0];
      RaceIsAtMost(window, 0, ids, req, n);
      RaceRuns(window, 0, ids, req, 2, 2, 2, 2);
      assert ids[..2] == ids;
      var rows := Exec(window, 0, Race(ids, req, 2, 2, 2, 2)).value.rows;
      assert ids[0] in rows && ids[1] in rows;
      assert !RunIsSpaced(window, 0, Race(ids, req, 2, 2, 2, 2), "u", "d");
    }
  }
}
