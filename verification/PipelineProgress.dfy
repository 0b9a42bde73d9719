/** Progress of the pipeline: a bound on the work any run does, and no reachable dead end. */
module PipelineProgress {

  import opened Options
  import opened Attendance
  import opened Pipeline

  // ---------------------------------------------------------------- adding up over a map

  ghost function Pick<V>(m: map<nat, V>): (k: nat)
    requires m.Keys != {}
    ensures k in m
  {
    var k :| k in m.Keys; k
  }

  ghost function Total<V>(f: V -> nat, m: map<nat, V>): nat
    decreases m.Keys
  {
    if m.Keys == {} then 0 else var k := Pick(m); f(m[k]) + Total(f, m - {k})
  }

  lemma {:induction false} TotalMinus<V>(f: V -> nat, m: map<nat, V>, k: nat)
    requires k in m
    ensures Total(f, m) == f(m[k]) + Total(f, m - {k})
    decreases m.Keys
  {
    var j := Pick(m);
    if j != k {
      TotalMinus(f, m - {j}, k);
      TotalMinus(f, m - {k}, j);
      assert m - {j} - {k} == m - {k} - {j};
    }
  }

  lemma TotalUpdate<V>(f: V -> nat, m: map<nat, V>, k: nat, v: V)
    ensures Total(f, m[k := v]) == Total(f, m) + f(v) - (if k in m then f(m[k]) else 0)
  {
    var m' := m[k := v];
    TotalMinus(f, m', k);
    if k in m {
      TotalMinus(f, m, k);
      assert m' - {k} == m - {k};
    } else {
      assert m' - {k} == m;
    }
  }

  // ---------------------------------------------------------------- the work left

  /** Moves a request still has before it: in its handler, the queue, a hand and a worker's loop. */
  function HandlerWork(p: Handler): nat {
    match p
    case Asked(_) => 9
    case Cleared(_, _) => 8
    case Stamped(_, _, _) => 7
    case Publishing(_, _) => 6
    case Answered => 0
  }

  function WorkerWork(k: Worker): nat {
    (if k.hand.Some? then 4 else 0) +
    match k.job {
      case Idle => 0
      case Got(_) => 3
      case Fetched(_) => 2
      case Judged(_, _) => 1
    }
  }

  ghost function WorkLeft(s: State): nat {
    Total(HandlerWork, s.handlers) + 5 * |s.queue| + Total(WorkerWork, s.workers)
  }

  /** The pipeline's own moves, whether they fail or not. */
  predicate IsMove(l: Label) {
    (l.Handle? && !l.hm.Abandon?) || (l.Work? && !l.wm.Die?)
  }

  lemma HandlerMovesOn(window: int, s: State, h: nat, move: HandlerMove)
    requires h in s.handlers && HandlerStep(window, s, h, move).Some?
    ensures var s' := HandlerStep(window, s, h, move).value;
            && h in s'.handlers && s'.handlers == s.handlers[h := s'.handlers[h]] && s'.workers == s.workers
            && HandlerWork(s'.handlers[h]) + 5 * |s'.queue| + (if move.Abandon? then 0 else 1)
               <= HandlerWork(s.handlers[h]) + 5 * |s.queue|
  {
  }

  lemma HandlerUsesWork(window: int, s: State, h: nat, move: HandlerMove)
    requires h in s.handlers && HandlerStep(window, s, h, move).Some?
    ensures WorkLeft(HandlerStep(window, s, h, move).value) + (if move.Abandon? then 0 else 1) <= WorkLeft(s)
  {
    var s' := HandlerStep(window, s, h, move).value;
    HandlerMovesOn(window, s, h, move);
    TotalUpdate(HandlerWork, s.handlers, h, s'.handlers[h]);
  }

  lemma WorkerMovesOn(s: State, w: nat, move: WorkerMove)
    requires w in s.workers && WorkerStep(s, w, move).Some? && !move.Die?
    ensures var s' := WorkerStep(s, w, move).value;
            && w in s'.workers && s'.workers == s.workers[w := s'.workers[w]] && s'.handlers == s.handlers
            && WorkerWork(s'.workers[w]) + 5 * |s'.queue| + 1 <= WorkerWork(s.workers[w]) + 5 * |s.queue|
  {
    if move.Drop? {
      assert s.workers == s.workers[w := s.workers[w]];
    }
  }

  lemma WorkerUsesWork(s: State, w: nat, move: WorkerMove)
    requires w in s.workers && WorkerStep(s, w, move).Some?
    ensures WorkLeft(WorkerStep(s, w, move).value) + (if move.Die? then 0 else 1) <= WorkLeft(s)
  {
    if move.Die? {
      TotalMinus(WorkerWork, s.workers, w);
    } else {
      WorkerMovesOn(s, w, move);
      TotalUpdate(WorkerWork, s.workers, w, WorkerStep(s, w, move).value.workers[w]);
    }
  }

  /** A move uses up work, an arrival adds nine moves, and nothing else adds any. */
  lemma StepUsesWork(window: int, s: State, l: Label)
    requires Step(window, s, l).Some?
    ensures WorkLeft(Step(window, s, l).value) + (if IsMove(l) then 1 else 0)
            <= WorkLeft(s) + (if l.Arrive? then 9 else 0)
  {
    var s' := Step(window, s, l).value;
    match l
    case Tick(_) =>
    case Arrive(h, _) => TotalUpdate(HandlerWork, s.handlers, h, s'.handlers[h]);
    case Handle(h, move) => HandlerUsesWork(window, s, h, move);
    case Start(w) => TotalUpdate(WorkerWork, s.workers, w, s'.workers[w]);
    case Work(w, move) => WorkerUsesWork(s, w, move);
  }

  function Moves(ls: seq<Label>, n: nat): nat
    requires n <= |ls|
  {
    if n == |ls| then 0
    else Moves(ls[..|ls| - 1], n) + if IsMove(ls[|ls| - 1]) then 1 else 0
  }

  function Arrivals(ls: seq<Label>, n: nat): nat
    requires n <= |ls|
  {
    if n == |ls| then 0
    else Arrivals(ls[..|ls| - 1], n) + if ls[|ls| - 1].Arrive? then 1 else 0
  }

  /** From any point of any run on, in whatever interleaving and whatever fails, the moves made and
      the work left are paid for by the work left at that point and nine moves for each arrival. */
  lemma {:induction false} MovesAreBounded(window: int, t0: int, ls: seq<Label>, n: nat)
    requires n <= |ls| && Exec(window, t0, ls).Some?
    ensures Exec(window, t0, ls[..n]).Some?
    ensures Moves(ls, n) + WorkLeft(Exec(window, t0, ls).value)
            <= WorkLeft(Exec(window, t0, ls[..n]).value) + 9 * Arrivals(ls, n)
  {
    if n == |ls| {
      assert ls[..n] == ls;
    } else {
      var front := ls[..|ls| - 1];
      MovesAreBounded(window, t0, front, n);
      assert front[..n] == ls[..n];
      StepUsesWork(window, Exec(window, t0, front).value, ls[|ls| - 1]);
    }
  }

  // ---------------------------------------------------------------- no dead end

  /** The next move of a busy worker; the face service may answer anything. */
  function NextMove(k: Worker, answer: Option<real>): WorkerMove {
    match k.job
    case Idle => if k.hand.Some? then Receive else Pop
    case Got(_) => Fetch(true)
    case Fetched(_) => Embed(answer)
    case Judged(_, _) => Update(true)
  }

  lemma QuietIsDrained(s: State)
    requires forall h :: h in s.handlers ==> !s.handlers[h].Publishing?
    requires s.queue == [] && forall w :: w in s.workers ==> s.workers[w] == Worker(None, Idle)
    ensures Drained(s)
  {
  }

  /** With a worker started, a state that is not drained has a move that is no failure. */
  lemma SomethingMoves(window: int, s: State, answer: Option<real>) returns (l: Label)
    requires !Drained(s) && s.workers.Keys != {}
    ensures IsMove(l) && !IsFailure(l) && Step(window, s, l).Some?
  {
    if h :| h in s.handlers && s.handlers[h].Publishing? {
      l := Handle(h, Publish(true));
    } else if w :| w in s.workers && s.workers[w] != Worker(None, Idle) {
      l := Work(w, NextMove(s.workers[w], answer));
    } else {
      if s.queue == [] {
        QuietIsDrained(s);
      }
      var w := Pick(s.workers);
      l := Work(w, Pop);
    }
  }

  lemma MovesKeepWorkers(window: int, s: State, l: Label)
    requires IsMove(l) && Step(window, s, l).Some?
    ensures Step(window, s, l).value.workers.Keys == s.workers.Keys
  {
  }

  /** One step towards a drained state: start a worker, or make a move. */
  lemma Advances(window: int, s: State, answer: Option<real>) returns (l: Label)
    requires !Drained(s)
    ensures !IsFailure(l) && Step(window, s, l).Some?
    ensures Step(window, s, l).value.workers.Keys != {}
    ensures s.workers.Keys != {} ==> WorkLeft(Step(window, s, l).value) < WorkLeft(s)
  {
    if s.workers.Keys == {} {
      l := Start(0);
      assert 0 in Step(window, s, l).value.workers.Keys;
    } else {
      l := SomethingMoves(window, s, answer);
      MovesKeepWorkers(window, s, l);
      StepUsesWork(window, s, l);
    }
  }

  ghost predicate NoFailures(ls: seq<Label>) {
    forall i :: 0 <= i < |ls| ==> !IsFailure(ls[i])
  }

  /** From every reachable state there is a continuation without failures that drains it. */
  lemma {:induction false} EveryStateCanDrain(window: int, t0: int, ls: seq<Label>, answer: Option<real>)
    returns (more: seq<Label>)
    requires Exec(window, t0, ls).Some?
    ensures NoFailures(more) && Exec(window, t0, ls + more).Some? && Drained(Exec(window, t0, ls + more).value)
    decreases Exec(window, t0, ls).value.workers.Keys == {}, WorkLeft(Exec(window, t0, ls).value)
  {
    var s := Exec(window, t0, ls).value;
    if Drained(s) {
      more := [];
      assert ls + more == ls;
    } else {
      var l := Advances(window, s, answer);
      ExecMore(window, t0, ls, l);
      var rest := EveryStateCanDrain(window, t0, ls + [l], answer);
      more := [l] + rest;
      assert ls + more == ls + [l] + rest;
    }
  }

  /** A run without failures in which no move is left, and a worker is up, has settled every event. */
  lemma StuckRunIsSettled(window: int, t0: int, ls: seq<Label>, id: Id)
    requires Exec(window, t0, ls).Some? && NoFailures(ls)
    requires Exec(window, t0, ls).value.workers.Keys != {} && id in Exec(window, t0, ls).value.rows
    requires forall l :: IsMove(l) ==> Step(window, Exec(window, t0, ls).value, l).None?
    ensures Exec(window, t0, ls).value.rows[id].status != Pending
  {
    var s := Exec(window, t0, ls).value;
    if !Drained(s) {
      var l := SomethingMoves(window, s, None);
    } else {
      DrainedRunHasNoPending(window, t0, ls, id);
    }
  }

  /** Every event of a run without failures can still be settled, whatever the face service answers. */
  lemma EveryEventCanSettle(window: int, t0: int, ls: seq<Label>, id: Id, answer: Option<real>)
    returns (more: seq<Label>)
    requires Exec(window, t0, ls).Some? && NoFailures(ls) && id in Exec(window, t0, ls).value.rows
    ensures NoFailures(more) && Exec(window, t0, ls + more).Some?
    ensures id in Exec(window, t0, ls + more).value.rows
    ensures Exec(window, t0, ls + more).value.rows[id].status != Pending
  {
    more := EveryStateCanDrain(window, t0, ls, answer);
    EventLifecycle(window, t0, ls + more, |ls|);
    assert (ls + more)[..|ls|] == ls;
    DrainedRunHasNoPending(window, t0, ls + more, id);
  }
}
