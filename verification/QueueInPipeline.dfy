/** The queue inside the pipeline is the Redis list of the queue backends, so that what holds of
    the queue holds of the pipeline.

    Each start of a worker is a consumer of its own; a worker that dies leaves its consumer with
    whatever it has in hand.
 */
module QueueInPipeline {

  import opened Options
  import opened QueueCodec
  import opened Attendance
  import opened Pipeline
  import QueueBackends

  // ---------------------------------------------------------------- the list is the queue reversed

  function Reversed<T>(s: seq<T>): (r: seq<T>)
    ensures |r| == |s| && forall i :: 0 <= i < |s| ==> r[i] == s[|s| - 1 - i]
  {
    seq(|s|, i requires 0 <= i < |s| => s[|s| - 1 - i])
  }

  lemma ReversedPush<T>(s: seq<T>, x: T)
    ensures Reversed(s + [x]) == [x] + Reversed(s)
  {
  }

  lemma ReversedPop<T>(s: seq<T>)
    requires s != []
    ensures Reversed(s)[|s| - 1] == s[0] && Reversed(s)[..|s| - 1] == Reversed(s[1..])
  {
  }

  /** The messages in the queue, in the order they are served. */
  function Waiting(queue: seq<Bytes>): seq<Message> {
    if queue == [] then [] else [Parsed(queue[0])] + Waiting(queue[1..])
  }

  lemma {:induction false} ServedReversed(queue: seq<Bytes>)
    ensures QueueBackends.Served(Reversed(queue)) == Waiting(queue)
  {
    if queue != [] {
      ReversedPop(queue);
      ServedReversed(queue[1..]);
    }
  }

  // ---------------------------------------------------------------- the steps of the backend

  /** How many workers have been started, and which consumer each living worker has. */
  datatype Link = Link(started: nat, consumer: map<nat, nat>)

  function NextLink(k: Link, l: Label): Link {
    match l
    case Start(w) => Link(k.started + 1, k.consumer[w := k.started])
    case Work(w, Die) => k.(consumer := k.consumer - {w})
    case _ => k
  }

  function LinkOf(ls: seq<Label>): Link {
    if ls == [] then Link(0, map[]) else NextLink(LinkOf(ls[..|ls| - 1]), ls[|ls| - 1])
  }

  /** What a label does to the backend. */
  function Does(k: Link, s: State, l: Label): seq<QueueBackends.RedisStep> {
    match l
    case Handle(h, Publish(ok)) =>
      if h in s.handlers && s.handlers[h].Publishing?
      then
        var m := Message(CHECKIN, s.handlers[h].id.text);
        [if ok then QueueBackends.Push(m) else QueueBackends.PushFails(m)]
      else []
    case Work(w, Pop) => if w in k.consumer then [QueueBackends.Pop(k.consumer[w])] else []
    case Work(w, Drop) => if w in k.consumer then [QueueBackends.PopLost(k.consumer[w])] else []
    case Work(w, Receive) => if w in k.consumer then [QueueBackends.Hand(k.consumer[w])] else []
    case _ => []
  }

  function Trace(window: int, t0: int, ls: seq<Label>): seq<QueueBackends.RedisStep> {
    if ls == [] then []
    else
      var front := ls[..|ls| - 1];
      Trace(window, t0, front) +
      match Exec(window, t0, front) {
        case None => []
        case Some(s) => Does(LinkOf(front), s, ls[|ls| - 1])
      }
  }

  // ---------------------------------------------------------------- the correspondence

  /** The hands of the living workers are those of their consumers. */
  ghost predicate HandsAgree(workers: map<nat, Worker>, k: Link, held: seq<Option<Message>>) {
    && k.started <= |held| && k.consumer.Keys == workers.Keys
    && (forall w :: w in k.consumer ==> k.consumer[w] < k.started)
    && (forall w, v :: w in k.consumer && v in k.consumer && w != v ==> k.consumer[w] != k.consumer[v])
    && (forall w :: w in workers ==> k.consumer[w] < |held| && held[k.consumer[w]] == workers[w].hand)
    && (forall c :: k.started <= c < |held| ==> held[c] == None)
  }

  ghost predicate Agrees(s: State, k: Link, q: QueueBackends.RedisList, n: nat) {
    q.list == Reversed(s.queue) && |q.held| == n && HandsAgree(s.workers, k, q.held)
  }

  /** The backend after the few steps of one label. */
  function AfterSteps(q: QueueBackends.RedisList, steps: seq<QueueBackends.RedisStep>): Option<QueueBackends.RedisList>
    requires |steps| <= 1
  {
    if steps == [] then Some(q) else QueueBackends.RedisDo(q, steps[0])
  }

  lemma HandChanges(workers: map<nat, Worker>, k: Link, held: seq<Option<Message>>, w: nat, worker: Worker)
    requires HandsAgree(workers, k, held) && w in workers
    ensures HandsAgree(workers[w := worker], k, held[k.consumer[w] := worker.hand])
  {
  }

  lemma HandStays(workers: map<nat, Worker>, k: Link, held: seq<Option<Message>>, w: nat, worker: Worker)
    requires HandsAgree(workers, k, held) && w in workers && worker.hand == workers[w].hand
    ensures HandsAgree(workers[w := worker], k, held)
  {
  }

  lemma WorkerStarts(workers: map<nat, Worker>, k: Link, held: seq<Option<Message>>, w: nat)
    requires HandsAgree(workers, k, held) && w !in workers && k.started < |held|
    ensures HandsAgree(workers[w := Worker(None, Idle)], Link(k.started + 1, k.consumer[w := k.started]), held)
  {
  }

  lemma WorkerDies(workers: map<nat, Worker>, k: Link, held: seq<Option<Message>>, w: nat)
    requires HandsAgree(workers, k, held)
    ensures HandsAgree(workers - {w}, k.(consumer := k.consumer - {w}), held)
  {
  }

  /** What the other moves of a worker leave alone. */
  lemma JobMoves(s: State, w: nat, move: WorkerMove)
    requires w in s.workers && WorkerStep(s, w, move).Some? && (move.Fetch? || move.Embed? || move.Update?)
    ensures var s' := WorkerStep(s, w, move).value;
            && s'.queue == s.queue && w in s'.workers && s'.workers == s.workers[w := s'.workers[w]]
            && s'.workers[w].hand == s.workers[w].hand
  {
  }

  lemma PopAgrees(s: State, k: Link, q: QueueBackends.RedisList, n: nat, w: nat)
    requires Agrees(s, k, q, n) && w in s.workers && WorkerStep(s, w, Pop).Some?
    ensures var q' := QueueBackends.RedisDo(q, QueueBackends.Pop(k.consumer[w]));
            q'.Some? && Agrees(WorkerStep(s, w, Pop).value, k, q'.value, n)
  {
    ReversedPop(s.queue);
    HandChanges(s.workers, k, q.held, w, WorkerStep(s, w, Pop).value.workers[w]);
  }

  lemma DropAgrees(s: State, k: Link, q: QueueBackends.RedisList, n: nat, w: nat)
    requires Agrees(s, k, q, n) && w in s.workers && WorkerStep(s, w, Drop).Some?
    ensures var q' := QueueBackends.RedisDo(q, QueueBackends.PopLost(k.consumer[w]));
            q'.Some? && Agrees(WorkerStep(s, w, Drop).value, k, q'.value, n)
  {
    ReversedPop(s.queue);
  }

  lemma ReceiveAgrees(s: State, k: Link, q: QueueBackends.RedisList, n: nat, w: nat)
    requires Agrees(s, k, q, n) && w in s.workers && WorkerStep(s, w, Receive).Some?
    ensures var q' := QueueBackends.RedisDo(q, QueueBackends.Hand(k.consumer[w]));
            q'.Some? && Agrees(WorkerStep(s, w, Receive).value, k, q'.value, n)
  {
    HandChanges(s.workers, k, q.held, w, WorkerStep(s, w, Receive).value.workers[w]);
  }

  lemma JobAgrees(s: State, k: Link, q: QueueBackends.RedisList, n: nat, w: nat, move: WorkerMove)
    requires Agrees(s, k, q, n) && w in s.workers && WorkerStep(s, w, move).Some?
    requires move.Fetch? || move.Embed? || move.Update?
    ensures Agrees(WorkerStep(s, w, move).value, k, q, n)
  {
    JobMoves(s, w, move);
    HandStays(s.workers, k, q.held, w, WorkerStep(s, w, move).value.workers[w]);
  }

  lemma WorkerAgrees(s: State, k: Link, q: QueueBackends.RedisList, n: nat, w: nat, move: WorkerMove)
    requires Agrees(s, k, q, n) && w in s.workers && WorkerStep(s, w, move).Some?
    ensures var q' := AfterSteps(q, Does(k, s, Work(w, move)));
            q'.Some? && Agrees(WorkerStep(s, w, move).value, NextLink(k, Work(w, move)), q'.value, n)
  {
    match move
    case Pop => PopAgrees(s, k, q, n, w);
    case Drop => DropAgrees(s, k, q, n, w);
    case Receive => ReceiveAgrees(s, k, q, n, w);
    case Die => WorkerDies(s.workers, k, q.held, w);
    case _ => JobAgrees(s, k, q, n, w, move);
  }

  lemma HandlerAgrees(window: int, s: State, k: Link, q: QueueBackends.RedisList, n: nat, h: nat, move: HandlerMove)
    requires Agrees(s, k, q, n) && h in s.handlers && HandlerStep(window, s, h, move).Some?
    ensures var q' := AfterSteps(q, Does(k, s, Handle(h, move)));
            q'.Some? && Agrees(HandlerStep(window, s, h, move).value, k, q'.value, n)
  {
    if move.Publish? && move.ok {
      ReversedPush(s.queue, Wire(s.handlers[h].id));
    }
  }

  lemma StepAgrees(window: int, s: State, k: Link, q: QueueBackends.RedisList, n: nat, l: Label)
    requires Agrees(s, k, q, n) && Step(window, s, l).Some? && NextLink(k, l).started <= n
    ensures var q' := AfterSteps(q, Does(k, s, l));
            q'.Some? && Agrees(Step(window, s, l).value, NextLink(k, l), q'.value, n)
  {
    match l
    case Handle(h, move) => HandlerAgrees(window, s, k, q, n, h, move);
    case Work(w, move) => WorkerAgrees(s, k, q, n, w, move);
    case Start(w) => WorkerStarts(s.workers, k, q.held, w);
    case _ =>
  }

  lemma RunMore(n: nat, before: seq<QueueBackends.RedisStep>, steps: seq<QueueBackends.RedisStep>)
    requires |steps| <= 1 && QueueBackends.RedisRun(n, before).Some?
    ensures QueueBackends.RedisRun(n, before + steps) == AfterSteps(QueueBackends.RedisRun(n, before).value, steps)
  {
    if steps == [] {
      assert before + steps == before;
    } else {
      assert (before + steps)[..|before|] == before;
    }
  }

  lemma StartedGrows(ls: seq<Label>)
    requires ls != []
    ensures LinkOf(ls[..|ls| - 1]).started <= LinkOf(ls).started
  {
  }

  /** Every run of the pipeline is a run of the Redis backend, with as many consumers as workers
      were ever started. */
  lemma {:induction false} PipelineRunsBackend(window: int, t0: int, ls: seq<Label>, n: nat)
    requires Exec(window, t0, ls).Some? && LinkOf(ls).started <= n
    ensures var q := QueueBackends.RedisRun(n, Trace(window, t0, ls));
            q.Some? && Agrees(Exec(window, t0, ls).value, LinkOf(ls), q.value, n)
  {
    if ls != [] {
      var front, l := ls[..|ls| - 1], ls[|ls| - 1];
      StartedGrows(ls);
      PipelineRunsBackend(window, t0, front, n);
      var s := Exec(window, t0, front).value;
      var before := Trace(window, t0, front);
      StepAgrees(window, s, LinkOf(front), QueueBackends.RedisRun(n, before).value, n, l);
      RunMore(n, before, Does(LinkOf(front), s, l));
    }
  }

  // ---------------------------------------------------------------- the laws of the queue

  lemma CheckInIsSendable(id: Id)
    requires IsUuid(id)
    ensures QueueBackends.Sendable(Message(CHECKIN, id.text))
  {
    WireDecodes(id);
    RoundTripExactly(Message(CHECKIN, id.text));
  }

  lemma PushNamesUuid(window: int, t0: int, ls: seq<Label>, l: Label)
    requires Exec(window, t0, ls).Some?
    ensures var steps := Does(LinkOf(ls), Exec(window, t0, ls).value, l);
            steps != [] && steps[0].Push? ==> steps[0].m.kind == CHECKIN && IsUuid(Id(steps[0].m.body))
  {
    var s := Exec(window, t0, ls).value;
    Reachable(window, t0, ls);
    if l.Handle? && l.h in s.handlers {
      assert PublisherOk(s.handlers[l.h], s.rows);
    }
  }

  lemma PushedMore(before: seq<QueueBackends.RedisStep>, steps: seq<QueueBackends.RedisStep>)
    requires |steps| <= 1
    ensures QueueBackends.Pushed(before + steps) ==
            QueueBackends.Pushed(before) + (if steps != [] && steps[0].Push? then [steps[0].m] else [])
  {
    if steps == [] {
      assert before + steps == before;
    } else {
      assert (before + steps)[..|before|] == before;
    }
  }

  ghost predicate AllMeet<T>(s: seq<T>, good: T -> bool) {
    forall i :: 0 <= i < |s| ==> good(s[i])
  }

  lemma AllMeetMore(before: seq<QueueBackends.RedisStep>, steps: seq<QueueBackends.RedisStep>, good: Message -> bool)
    requires |steps| <= 1 && AllMeet(QueueBackends.Pushed(before), good)
    requires steps != [] && steps[0].Push? ==> good(steps[0].m)
    ensures AllMeet(QueueBackends.Pushed(before + steps), good)
  {
    PushedMore(before, steps);
  }

  lemma PushMeets(window: int, t0: int, ls: seq<Label>, l: Label, good: Message -> bool)
    requires Exec(window, t0, ls).Some? && forall id :: IsUuid(id) ==> good(Message(CHECKIN, id.text))
    ensures var steps := Does(LinkOf(ls), Exec(window, t0, ls).value, l);
            steps != [] && steps[0].Push? ==> good(steps[0].m)
  {
    PushNamesUuid(window, t0, ls, l);
    var steps := Does(LinkOf(ls), Exec(window, t0, ls).value, l);
    if steps != [] && steps[0].Push? {
      assert steps[0].m == Message(CHECKIN, Id(steps[0].m.body).text);
    }
  }

  /** Every push of the pipeline is of such a message. */
  lemma {:induction false} PushesMeet(window: int, t0: int, ls: seq<Label>, good: Message -> bool)
    requires Exec(window, t0, ls).Some? && forall id :: IsUuid(id) ==> good(Message(CHECKIN, id.text))
    ensures AllMeet(QueueBackends.Pushed(Trace(window, t0, ls)), good)
  {
    if ls != [] {
      var front, l := ls[..|ls| - 1], ls[|ls| - 1];
      PushesMeet(window, t0, front, good);
      PushMeets(window, t0, front, l, good);
      AllMeetMore(Trace(window, t0, front), Does(LinkOf(front), Exec(window, t0, front).value, l), good);
    }
  }

  lemma PushedIsSendable(window: int, t0: int, ls: seq<Label>)
    requires Exec(window, t0, ls).Some?
    ensures var ms := QueueBackends.Pushed(Trace(window, t0, ls));
            forall i :: 0 <= i < |ms| ==> QueueBackends.Sendable(ms[i])
  {
    forall id | IsUuid(id) ensures QueueBackends.Sendable(Message(CHECKIN, id.text)) {
      CheckInIsSendable(id);
    }
    PushesMeet(window, t0, ls, m => QueueBackends.Sendable(m));
  }

  /** The abstract queue at the end of a run. */
  ghost function QueueOf(window: int, t0: int, ls: seq<Label>, n: nat): Option<QueueBackends.Fifo> {
    QueueBackends.FifoRun(n, QueueBackends.RedisActions(Trace(window, t0, ls)))
  }

  /** What was published is what was taken, in order, followed by what is waiting. */
  ghost predicate PublishedInOrder(published: seq<Message>, q: QueueBackends.Fifo, queue: seq<Bytes>) {
    published == QueueBackends.Messages(q.taken) + Waiting(queue)
  }

  /** In every run of the pipeline the published messages are taken from the queue in the order
      they were published, each once, and the rest are waiting; each worker receives in order what
      it took, and has the last of it in hand. */
  lemma PipelineKeepsOrder(window: int, t0: int, ls: seq<Label>, n: nat)
    requires Exec(window, t0, ls).Some? && LinkOf(ls).started <= n
    ensures QueueOf(window, t0, ls, n).Some?
    ensures QueueBackends.FifoOk(n, QueueOf(window, t0, ls, n).value)
    ensures PublishedInOrder(QueueBackends.Pushed(Trace(window, t0, ls)), QueueOf(window, t0, ls, n).value,
                             Exec(window, t0, ls).value.queue)
    ensures HandsAgree(Exec(window, t0, ls).value.workers, LinkOf(ls), QueueOf(window, t0, ls, n).value.held)
  {
    PipelineRunsBackend(window, t0, ls, n);
    PushedIsSendable(window, t0, ls);
    QueueBackends.RedisKeepsOrder(n, Trace(window, t0, ls));
    QueueBackends.RedisRefinesFifo(n, Trace(window, t0, ls));
    ServedReversed(Exec(window, t0, ls).value.queue);
  }
}
