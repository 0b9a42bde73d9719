/** The check-in pipeline as a step machine: API handlers that query, insert and publish,
    a first-in first-out queue of wire strings, and workers that fetch, embed and update.

    Handlers and workers interleave freely: every statement of theirs is a step of its own.
    There is one non-decreasing clock, and a completed insert is visible to later queries.
    Every failure is a label of the run; a failure that may leave an event unprocessed
    records the event in `lost`.
 */
module Pipeline {

  import opened Options
  import opened QueueCodec
  import opened Attendance

  datatype Request = Request(user: string, device: string, location: string, imageUrl: string)

  /** Where a handler is.  `queried` is when its query found no recent event. */
  datatype Handler =
    | Asked(req: Request)
    | Cleared(req: Request, queried: int)
    | Stamped(req: Request, queried: int, when: int)
    | Publishing(req: Request, id: Id)
    | Answered

  /** Where the worker loop is with its current message. */
  datatype Job = Idle | Got(msg: Message) | Fetched(id: Id) | Judged(id: Id, outcome: Option<real>)

  /** `hand` is the message its consumer goroutine has taken and not yet passed on. */
  datatype Worker = Worker(hand: Option<Message>, job: Job)

  /** History of one insert: its number, who made it, and which handlers of the same pair were
      between their query and their insert at that moment. */
  datatype Birth = Birth(serial: nat, author: nat, rivals: set<nat>)

  datatype State = State(now: int, rows: Rows, births: map<Id, Birth>, handlers: map<nat, Handler>,
                         queue: seq<Bytes>, workers: map<nat, Worker>, lost: set<Id>)

  datatype Answer = Hit(id: Id) | Miss | QueryError

  /** `Unseen`: the row was stored but the handler saw an error. */
  datatype InsertResult = Stored | Rejected | Unseen

  /** A publish is `ok` if the message reached the queue, whatever the handler heard about it. */
  datatype HandlerMove =
    | Query(answer: Answer)
    | Stamp
    | Insert(id: Id, result: InsertResult)
    | Publish(ok: bool)
    | Abandon

  /** `Drop` is a pop whose reply never arrives: the queue has given the message away and no
      worker has it. */
  datatype WorkerMove =
    | Pop
    | Drop
    | Receive
    | Fetch(ok: bool)
    | Embed(outcome: Option<real>)
    | Update(ok: bool)
    | Die

  datatype Label =
    | Tick(d: nat)
    | Arrive(h: nat, req: Request)
    | Handle(h: nat, hm: HandlerMove)
    | Start(w: nat)
    | Work(w: nat, wm: WorkerMove)

  // ---------------------------------------------------------------- messages

  /** The bytes of "checkin". */
  const CHECKIN: Bytes := [0x63, 0x68, 0x65, 0x63, 0x6B, 0x69, 0x6E]

  /** Generated identifiers: 36 characters, hexadecimal digits and dashes. */
  predicate IsUuid(id: Id) {
    |id.text| == 36 &&
    forall i :: 0 <= i < |id.text| ==>
      0x30 <= id.text[i] <= 0x39 || 0x61 <= id.text[i] <= 0x66 || id.text[i] == 0x2D
  }

  function Wire(id: Id): Bytes {
    Serialize(Message(CHECKIN, id.text))
  }

  lemma WireDecodes(id: Id)
    requires IsUuid(id)
    ensures Parsed(Wire(id)) == Message(CHECKIN, id.text)
  {
    AsciiRoundTrip(Message(CHECKIN, id.text));
  }

  // ---------------------------------------------------------------- steps

  function Init(now: int): State {
    State(now, map[], map[], map[], [], map[], {})
  }

  predicate InFlight(p: Handler, user: string, device: string) {
    (p.Cleared? || p.Stamped?) && p.req.user == user && p.req.device == device
  }

  /** Handlers of a pair that are between their query and their insert. */
  function Rivals(handlers: map<nat, Handler>, user: string, device: string): set<nat> {
    set h | h in handlers && InFlight(handlers[h], user, device)
  }

  function QueryStep(window: int, s: State, h: nat, req: Request, answer: Answer): Option<State> {
    match answer
    case Hit(id) =>
      if IsLatest(s.rows, id, req.user, req.device, window, s.now)
      then Some(s.(handlers := s.handlers[h := Publishing(req, id)])) else None
    case Miss =>
      if NoneRecent(s.rows, req.user, req.device, window, s.now)
      then Some(s.(handlers := s.handlers[h := Cleared(req, s.now)])) else None
    case QueryError => Some(s.(handlers := s.handlers[h := Answered]))
  }

  function InsertStep(s: State, h: nat, p: Handler, id: Id, result: InsertResult): Option<State>
    requires p.Stamped?
  {
    if result.Rejected? then Some(s.(handlers := s.handlers[h := Answered]))
    else if !IsUuid(id) || id in s.rows then None
    else
      var r := p.req;
      var stored := s.(rows := s.rows[id := NewEvent(r.user, r.device, p.when, r.location, r.imageUrl)],
                       births := s.births[id := Birth(|s.births|, h, Rivals(s.handlers, r.user, r.device))]);
      if result.Stored? then Some(stored.(handlers := s.handlers[h := Publishing(r, id)]))
      else Some(stored.(handlers := s.handlers[h := Answered], lost := s.lost + {id}))
  }

  function HandlerStep(window: int, s: State, h: nat, move: HandlerMove): Option<State>
    requires h in s.handlers
  {
    var p := s.handlers[h];
    match move
    case Query(answer) => if p.Asked? then QueryStep(window, s, h, p.req, answer) else None
    case Stamp =>
      if p.Cleared? then Some(s.(handlers := s.handlers[h := Stamped(p.req, p.queried, s.now)])) else None
    case Insert(id, result) => if p.Stamped? then InsertStep(s, h, p, id, result) else None
    case Publish(ok) =>
      if !p.Publishing? then None
      else if ok then Some(s.(queue := s.queue + [Wire(p.id)], handlers := s.handlers[h := Answered]))
      else Some(s.(lost := s.lost + {p.id}, handlers := s.handlers[h := Answered]))
    case Abandon =>
      Some(s.(lost := if p.Publishing? then s.lost + {p.id} else s.lost,
              handlers := s.handlers[h := Answered]))
  }

  /** The events a worker has in its hand or its loop. */
  function Load(k: Worker): set<Id> {
    (if k.hand.Some? then {Id(k.hand.value.body)} else {}) +
    match k.job {
      case Idle => {}
      case Got(m) => {Id(m.body)}
      case Fetched(id) => {id}
      case Judged(id, _) => {id}
    }
  }

  function SetJob(s: State, w: nat, j: Job): State
    requires w in s.workers
  {
    s.(workers := s.workers[w := s.workers[w].(job := j)])
  }

  function WorkerStep(s: State, w: nat, move: WorkerMove): Option<State>
    requires w in s.workers
  {
    var k := s.workers[w];
    match move
    case Pop =>
      if k.hand.None? && s.queue != []
      then Some(s.(queue := s.queue[1..], workers := s.workers[w := k.(hand := Some(Parsed(s.queue[0])))]))
      else None
    case Drop =>
      if k.hand.None? && s.queue != []
      then Some(s.(queue := s.queue[1..], lost := s.lost + {Id(Parsed(s.queue[0]).body)}))
      else None
    case Receive =>
      if k.hand.Some? && k.job.Idle?
      then
        var job := if k.hand.value.kind == CHECKIN then Got(k.hand.value) else Idle;
        Some(s.(workers := s.workers[w := Worker(None, job)]))
      else None
    case Fetch(ok) =>
      if !k.job.Got? then None
      else if !ok then Some(SetJob(s, w, Idle).(lost := s.lost + {Id(k.job.msg.body)}))
      else Some(SetJob(s, w, if Id(k.job.msg.body) in s.rows then Fetched(Id(k.job.msg.body)) else Idle))
    case Embed(outcome) =>
      if k.job.Fetched? then Some(SetJob(s, w, Judged(k.job.id, outcome))) else None
    case Update(ok) =>
      if !k.job.Judged? then None
      else if !ok then Some(SetJob(s, w, Idle).(lost := s.lost + {k.job.id}))
      else
        var status := if k.job.outcome.None? then Failed else Processed;
        Some(SetJob(s, w, Idle).(rows := Updated(s.rows, k.job.id, status, k.job.outcome)))
    case Die => Some(s.(lost := s.lost + Load(k), workers := s.workers - {w}))
  }

  function Step(window: int, s: State, l: Label): Option<State> {
    match l
    case Tick(d) => Some(s.(now := s.now + d))
    case Arrive(h, req) =>
      if h in s.handlers then None
      else
        var p := if req.user == "" || req.device == "" then Answered else Asked(req);
        Some(s.(handlers := s.handlers[h := p]))
    case Handle(h, move) => if h in s.handlers then HandlerStep(window, s, h, move) else None
    case Start(w) =>
      if w in s.workers then None else Some(s.(workers := s.workers[w := Worker(None, Idle)]))
    case Work(w, move) => if w in s.workers then WorkerStep(s, w, move) else None
  }

  /** The state a run ends in; None if some label of the run could not happen. */
  function Exec(window: int, t0: int, ls: seq<Label>): Option<State> {
    if ls == [] then Some(Init(t0))
    else
      match Exec(window, t0, ls[..|ls| - 1])
      case None => None
      case Some(s) => Step(window, s, ls[|ls| - 1])
  }

  lemma ExecMore(window: int, t0: int, ls: seq<Label>, l: Label)
    requires Exec(window, t0, ls).Some?
    ensures Exec(window, t0, ls + [l]) == Step(window, Exec(window, t0, ls).value, l)
  {
    assert (ls + [l])[..|ls|] == ls;
  }

  /** Which statements a handler and a worker may make next; each of them with any outcome. */
  lemma EveryOutcomeIsPossible(window: int, s: State, h: nat, w: nat, id: Id, ok: bool, outcome: Option<real>)
    requires h in s.handlers && w in s.workers
    ensures var p := s.handlers[h];
            && (HandlerStep(window, s, h, Query(QueryError)).Some? <==> p.Asked?)
            && (HandlerStep(window, s, h, Stamp).Some? <==> p.Cleared?)
            && (HandlerStep(window, s, h, Insert(id, Rejected)).Some? <==> p.Stamped?)
            && (HandlerStep(window, s, h, Insert(id, Stored)).Some? <==> p.Stamped? && IsUuid(id) && id !in s.rows)
            && (HandlerStep(window, s, h, Insert(id, Unseen)).Some? <==> p.Stamped? && IsUuid(id) && id !in s.rows)
            && (HandlerStep(window, s, h, Publish(ok)).Some? <==> p.Publishing?)
            && HandlerStep(window, s, h, Abandon).Some?
    ensures var k := s.workers[w];
            && (WorkerStep(s, w, Pop).Some? <==> k.hand.None? && s.queue != [])
            && (WorkerStep(s, w, Drop).Some? <==> k.hand.None? && s.queue != [])
            && (WorkerStep(s, w, Receive).Some? <==> k.hand.Some? && k.job.Idle?)
            && (WorkerStep(s, w, Fetch(ok)).Some? <==> k.job.Got?)
            && (WorkerStep(s, w, Embed(outcome)).Some? <==> k.job.Fetched?)
            && (WorkerStep(s, w, Update(ok)).Some? <==> k.job.Judged?)
            && WorkerStep(s, w, Die).Some?
  {
  }

  // ---------------------------------------------------------------- how rows change

  /** How an event may change: never its identity, never back to pending, never losing a score. */
  predicate Evolves(e: Event, e': Event) {
    && e' == e.(status := e'.status, score := e'.score)
    && (e'.status == Pending ==> e.status == Pending)
    && (e.score.Some? ==> e'.score.Some?)
  }

  /** Rows are never removed, and each evolves. */
  ghost predicate Extends(r: Rows, r': Rows) {
    forall id :: id in r ==> id in r' && Evolves(r[id], r'[id])
  }

  lemma HandlerExtends(window: int, s: State, h: nat, move: HandlerMove)
    requires h in s.handlers && HandlerStep(window, s, h, move).Some?
    ensures Extends(s.rows, HandlerStep(window, s, h, move).value.rows)
  {
  }

  lemma WorkerExtends(s: State, w: nat, move: WorkerMove)
    requires w in s.workers && WorkerStep(s, w, move).Some?
    ensures Extends(s.rows, WorkerStep(s, w, move).value.rows)
  {
  }

  lemma StepExtends(window: int, s: State, l: Label)
    requires Step(window, s, l).Some?
    ensures Extends(s.rows, Step(window, s, l).value.rows)
  {
    match l {
      case Handle(h, move) => HandlerExtends(window, s, h, move);
      case Work(w, move) => WorkerExtends(s, w, move);
      case _ =>
    }
  }

  // ---------------------------------------------------------------- everything in transit names a stored event

  ghost predicate IdsOk(rows: Rows) {
    forall id :: id in rows ==> IsUuid(id)
  }

  ghost predicate WireKnown(x: Bytes, rows: Rows) {
    exists id :: id in rows && x == Wire(id)
  }

  ghost predicate QueueOk(queue: seq<Bytes>, rows: Rows) {
    forall i :: 0 <= i < |queue| ==> WireKnown(queue[i], rows)
  }

  ghost predicate WorkerOk(k: Worker, rows: Rows) {
    && (k.hand.Some? ==> k.hand.value.kind == CHECKIN)
    && (k.job.Got? ==> k.job.msg.kind == CHECKIN)
    && forall id :: id in Load(k) ==> id in rows
  }

  ghost predicate WorkersOk(workers: map<nat, Worker>, rows: Rows) {
    forall w :: w in workers ==> WorkerOk(workers[w], rows)
  }

  /** A handler about to publish names a stored event of its own pair. */
  predicate PublisherOk(p: Handler, rows: Rows) {
    p.Publishing? ==> p.id in rows && OfPair(rows[p.id], p.req.user, p.req.device)
  }

  ghost predicate PublishersOk(handlers: map<nat, Handler>, rows: Rows) {
    forall h :: h in handlers ==> PublisherOk(handlers[h], rows)
  }

  ghost predicate TransitOk(s: State) {
    && IdsOk(s.rows)
    && QueueOk(s.queue, s.rows)
    && WorkersOk(s.workers, s.rows)
    && PublishersOk(s.handlers, s.rows)
  }

  /** What any move of a handler does to the parts of the state. */
  ghost predicate HandlerShape(s: State, s': State, h: nat) {
    && h in s.handlers && h in s'.handlers
    && s'.workers == s.workers && s'.handlers == s.handlers[h := s'.handlers[h]]
    && Extends(s.rows, s'.rows) && IdsOk(s'.rows)
    && PublisherOk(s'.handlers[h], s'.rows)
    && (s'.queue == s.queue || (s.handlers[h].Publishing? && s'.queue == s.queue + [Wire(s.handlers[h].id)]))
  }

  lemma InsertHasShape(s: State, h: nat, id: Id, result: InsertResult)
    requires IdsOk(s.rows) && h in s.handlers && s.handlers[h].Stamped?
    requires InsertStep(s, h, s.handlers[h], id, result).Some?
    ensures HandlerShape(s, InsertStep(s, h, s.handlers[h], id, result).value, h)
  {
  }

  lemma HandlerHasShape(window: int, s: State, h: nat, move: HandlerMove)
    requires IdsOk(s.rows) && h in s.handlers && HandlerStep(window, s, h, move).Some?
    ensures HandlerShape(s, HandlerStep(window, s, h, move).value, h)
  {
    if move.Insert? {
      InsertHasShape(s, h, move.id, move.result);
    } else {
      assert HandlerStep(window, s, h, move).value.rows == s.rows;
    }
  }

  lemma HandlerTransit(s: State, s': State, h: nat)
    requires TransitOk(s) && HandlerShape(s, s', h)
    ensures TransitOk(s')
  {
  }

  /** The event the first message in the queue is about. */
  lemma FirstQueued(s: State) returns (first: Id)
    requires TransitOk(s) && s.queue != []
    ensures first in s.rows && IsUuid(first) && s.queue == [Wire(first)] + s.queue[1..]
    ensures Parsed(s.queue[0]) == Message(CHECKIN, first.text)
  {
    assert WireKnown(s.queue[0], s.rows);
    first :| first in s.rows && s.queue[0] == Wire(first);
    WireDecodes(first);
  }

  lemma PopTransit(s: State, w: nat)
    requires TransitOk(s) && w in s.workers && s.workers[w].hand.None? && s.queue != []
    ensures TransitOk(WorkerStep(s, w, Pop).value)
  {
    var id := FirstQueued(s);
    assert WorkerOk(s.workers[w], s.rows);
    assert WorkerOk(s.workers[w].(hand := Some(Message(CHECKIN, id.text))), s.rows);
  }

  lemma DropTransit(s: State, w: nat)
    requires TransitOk(s) && w in s.workers && s.workers[w].hand.None? && s.queue != []
    ensures TransitOk(WorkerStep(s, w, Drop).value)
  {
    var rest := s.queue[1..];
    assert forall i :: 0 <= i < |rest| ==> rest[i] == s.queue[i + 1];
  }

  predicate Takes(move: WorkerMove) {
    move.Pop? || move.Drop?
  }

  /** What any move of a worker but taking from the queue does to the parts of the state. */
  ghost predicate WorkerShape(s: State, s': State, w: nat) {
    && w in s.workers
    && s'.handlers == s.handlers && s'.queue == s.queue
    && Extends(s.rows, s'.rows) && s'.rows.Keys == s.rows.Keys
    && (s'.workers == s.workers - {w} || (w in s'.workers && s'.workers == s.workers[w := s'.workers[w]] &&
                                          WorkerOk(s'.workers[w], s.rows)))
  }

  lemma WorkerSlotOk(s: State, w: nat, move: WorkerMove)
    requires w in s.workers && WorkerOk(s.workers[w], s.rows) && WorkerStep(s, w, move).Some?
    requires !Takes(move) && !move.Die?
    ensures var s' := WorkerStep(s, w, move).value;
            w in s'.workers && s'.workers == s.workers[w := s'.workers[w]] && WorkerOk(s'.workers[w], s.rows)
  {
  }

  lemma WorkerHasShape(s: State, w: nat, move: WorkerMove)
    requires w in s.workers && WorkerOk(s.workers[w], s.rows) && WorkerStep(s, w, move).Some? && !Takes(move)
    ensures WorkerShape(s, WorkerStep(s, w, move).value, w)
  {
    WorkerExtends(s, w, move);
    if !move.Die? {
      WorkerSlotOk(s, w, move);
    }
  }

  lemma WorkerTransit(s: State, s': State, w: nat)
    requires TransitOk(s) && WorkerShape(s, s', w)
    ensures TransitOk(s')
  {
  }

  lemma StepTransit(window: int, s: State, l: Label)
    requires TransitOk(s) && Step(window, s, l).Some?
    ensures TransitOk(Step(window, s, l).value)
  {
    var s' := Step(window, s, l).value;
    match l {
      case Handle(h, move) =>
        HandlerHasShape(window, s, h, move);
        HandlerTransit(s, s', h);
      case Work(w, Pop) => PopTransit(s, w);
      case Work(w, Drop) => DropTransit(s, w);
      case Work(w, move) =>
        WorkerHasShape(s, w, move);
        WorkerTransit(s, s', w);
      case _ =>
    }
  }

  // ---------------------------------------------------------------- no pending event is forgotten

  predicate Publishes(p: Handler, id: Id) {
    p.Publishing? && p.id == id
  }

  /** Some handler is about to publish the event, the queue names it, or a worker has it. */
  ghost predicate Carried(s: State, id: Id) {
    || (exists h :: h in s.handlers && Publishes(s.handlers[h], id))
    || Wire(id) in s.queue
    || (exists w :: w in s.workers && id in Load(s.workers[w]))
  }

  ghost predicate Tracked(s: State, id: Id) {
    id in s.rows && s.rows[id].status == Pending ==> id in s.lost || Carried(s, id)
  }

  ghost predicate Accounted(s: State) {
    forall id :: id in s.rows ==> Tracked(s, id)
  }

  /** A handler that was about to publish has published, or its event is recorded as lost. */
  ghost predicate HandlerLeaves(s: State, s': State, h: nat)
    requires h in s.handlers
  {
    && s.lost <= s'.lost && (forall x :: x in s.queue ==> x in s'.queue)
    && (s.handlers[h].Publishing? ==> s.handlers[h].id in s'.lost || Wire(s.handlers[h].id) in s'.queue)
  }

  lemma HandlerDoesLeave(window: int, s: State, h: nat, move: HandlerMove)
    requires h in s.handlers && HandlerStep(window, s, h, move).Some?
    ensures HandlerLeaves(s, HandlerStep(window, s, h, move).value, h)
  {
  }

  lemma HandlerTracks(s: State, s': State, h: nat, id: Id)
    requires HandlerShape(s, s', h) && HandlerLeaves(s, s', h) && id in s.rows && Tracked(s, id)
    ensures Tracked(s', id)
  {
    if s'.rows[id].status == Pending && id !in s'.lost {
      assert Carried(s, id);
      if g :| g in s.handlers && Publishes(s.handlers[g], id) {
        assert g != h ==> Publishes(s'.handlers[g], id);
      } else if v :| v in s.workers && id in Load(s.workers[v]) {
        assert id in Load(s'.workers[v]);
      }
    }
  }

  lemma NewEventIsTracked(window: int, s: State, h: nat, move: HandlerMove, id: Id)
    requires h in s.handlers && HandlerStep(window, s, h, move).Some?
    requires id !in s.rows && id in HandlerStep(window, s, h, move).value.rows
    ensures Tracked(HandlerStep(window, s, h, move).value, id)
  {
    var s' := HandlerStep(window, s, h, move).value;
    assert id in s'.lost || Publishes(s'.handlers[h], id);
  }

  lemma HandlerAccounted(window: int, s: State, h: nat, move: HandlerMove)
    requires TransitOk(s) && h in s.handlers && HandlerStep(window, s, h, move).Some? && Accounted(s)
    ensures Accounted(HandlerStep(window, s, h, move).value)
  {
    var s' := HandlerStep(window, s, h, move).value;
    HandlerHasShape(window, s, h, move);
    HandlerDoesLeave(window, s, h, move);
    forall id | id in s'.rows ensures Tracked(s', id) {
      if id in s.rows {
        HandlerTracks(s, s', h, id);
      } else {
        NewEventIsTracked(window, s, h, move, id);
      }
    }
  }

  lemma PopTracks(s: State, s': State, w: nat, first: Id, id: Id)
    requires w in s.workers && s.workers[w].hand.None? && IsUuid(first) && IsUuid(id)
    requires s.queue == [Wire(first)] + s'.queue
    requires s'.rows == s.rows && s'.lost == s.lost && s'.handlers == s.handlers
    requires s'.workers == s.workers[w := s.workers[w].(hand := Some(Message(CHECKIN, first.text)))]
    requires id in s.rows && Tracked(s, id)
    ensures Tracked(s', id)
  {
    if s.rows[id].status == Pending && id !in s.lost {
      assert Carried(s, id);
      if h :| h in s.handlers && Publishes(s.handlers[h], id) {
        assert Publishes(s'.handlers[h], id);
      } else if v :| v in s.workers && id in Load(s.workers[v]) {
        assert id in Load(s'.workers[v]);
      } else if Wire(id) == Wire(first) {
        WireDecodes(id);
        WireDecodes(first);
        assert id in Load(s'.workers[w]);
      }
    }
  }

  lemma PopAccounted(s: State, w: nat)
    requires TransitOk(s) && w in s.workers && WorkerStep(s, w, Pop).Some? && Accounted(s)
    ensures Accounted(WorkerStep(s, w, Pop).value)
  {
    var s' := WorkerStep(s, w, Pop).value;
    var first := FirstQueued(s);
    forall id | id in s'.rows ensures Tracked(s', id) {
      PopTracks(s, s', w, first, id);
    }
  }

  lemma DropTracks(s: State, s': State, first: Id, id: Id)
    requires IsUuid(first) && IsUuid(id) && s.queue == [Wire(first)] + s'.queue
    requires s'.rows == s.rows && s'.handlers == s.handlers && s'.workers == s.workers
    requires s'.lost == s.lost + {first} && id in s.rows && Tracked(s, id)
    ensures Tracked(s', id)
  {
    if s.rows[id].status == Pending && id !in s'.lost {
      assert Carried(s, id);
      if h :| h in s.handlers && Publishes(s.handlers[h], id) {
        assert Publishes(s'.handlers[h], id);
      } else if v :| v in s.workers && id in Load(s.workers[v]) {
        assert id in Load(s'.workers[v]);
      } else if Wire(id) == Wire(first) {
        WireDecodes(id);
        WireDecodes(first);
      }
    }
  }

  lemma DropAccounted(s: State, w: nat)
    requires TransitOk(s) && w in s.workers && WorkerStep(s, w, Drop).Some? && Accounted(s)
    ensures Accounted(WorkerStep(s, w, Drop).value)
  {
    var s' := WorkerStep(s, w, Drop).value;
    var first := FirstQueued(s);
    forall id | id in s'.rows ensures Tracked(s', id) {
      DropTracks(s, s', first, id);
    }
  }

  /** A worker still has what it had, or that is lost, or that is no longer pending. */
  ghost predicate WorkerLeaves(s: State, s': State, w: nat)
    requires w in s.workers
  {
    && s.lost <= s'.lost
    && forall id :: id in Load(s.workers[w]) && id in s'.rows && s'.rows[id].status == Pending ==>
         id in s'.lost || (w in s'.workers && id in Load(s'.workers[w]))
  }

  lemma WorkerDoesLeave(s: State, w: nat, move: WorkerMove)
    requires w in s.workers && WorkerOk(s.workers[w], s.rows) && WorkerStep(s, w, move).Some? && !Takes(move)
    ensures WorkerLeaves(s, WorkerStep(s, w, move).value, w)
  {
  }

  lemma WorkerTracks(s: State, s': State, w: nat, id: Id)
    requires WorkerShape(s, s', w) && WorkerLeaves(s, s', w) && id in s.rows && Tracked(s, id)
    ensures Tracked(s', id)
  {
    if s'.rows[id].status == Pending && id !in s'.lost {
      assert Carried(s, id);
      if h :| h in s.handlers && Publishes(s.handlers[h], id) {
        assert Publishes(s'.handlers[h], id);
      } else if v :| v in s.workers && id in Load(s.workers[v]) {
        assert v in s'.workers && id in Load(s'.workers[v]);
      }
    }
  }

  lemma WorkerAccounted(s: State, w: nat, move: WorkerMove)
    requires TransitOk(s) && w in s.workers && WorkerStep(s, w, move).Some? && Accounted(s)
    ensures Accounted(WorkerStep(s, w, move).value)
  {
    var s' := WorkerStep(s, w, move).value;
    if move.Pop? {
      PopAccounted(s, w);
    } else if move.Drop? {
      DropAccounted(s, w);
    } else {
      WorkerHasShape(s, w, move);
      WorkerDoesLeave(s, w, move);
      forall id | id in s'.rows ensures Tracked(s', id) {
        WorkerTracks(s, s', w, id);
      }
    }
  }

  lemma OtherAccounted(window: int, s: State, l: Label)
    requires Accounted(s) && Step(window, s, l).Some? && (l.Tick? || l.Arrive? || l.Start?)
    ensures Accounted(Step(window, s, l).value)
  {
    var s' := Step(window, s, l).value;
    forall id | id in s'.rows ensures Tracked(s', id) {
      assert Tracked(s, id);
      if s.rows[id].status == Pending && id !in s.lost {
        if h :| h in s.handlers && Publishes(s.handlers[h], id) {
          assert Publishes(s'.handlers[h], id);
        } else if v :| v in s.workers && id in Load(s.workers[v]) {
          assert id in Load(s'.workers[v]);
        }
      }
    }
  }

  lemma StepAccounted(window: int, s: State, l: Label)
    requires TransitOk(s) && Accounted(s) && Step(window, s, l).Some?
    ensures Accounted(Step(window, s, l).value)
  {
    match l {
      case Handle(h, move) => HandlerAccounted(window, s, h, move);
      case Work(w, move) => WorkerAccounted(s, w, move);
      case _ => OtherAccounted(window, s, l);
    }
  }

  // ---------------------------------------------------------------- statuses and scores

  /** Pending events have no score, processed ones have one. */
  ghost predicate ScoresOk(rows: Rows) {
    forall id :: id in rows ==>
      && (rows[id].status == Pending ==> rows[id].score.None?)
      && (rows[id].status == Processed ==> rows[id].score.Some?)
  }

  lemma HandlerScores(window: int, s: State, h: nat, move: HandlerMove)
    requires ScoresOk(s.rows) && h in s.handlers && HandlerStep(window, s, h, move).Some?
    ensures ScoresOk(HandlerStep(window, s, h, move).value.rows)
  {
  }

  lemma WorkerScores(s: State, w: nat, move: WorkerMove)
    requires ScoresOk(s.rows) && w in s.workers && WorkerStep(s, w, move).Some?
    ensures ScoresOk(WorkerStep(s, w, move).value.rows)
  {
  }

  lemma StepScores(window: int, s: State, l: Label)
    requires ScoresOk(s.rows) && Step(window, s, l).Some?
    ensures ScoresOk(Step(window, s, l).value.rows)
  {
    match l {
      case Handle(h, move) => HandlerScores(window, s, h, move);
      case Work(w, move) => WorkerScores(s, w, move);
      case _ =>
    }
  }

  // ---------------------------------------------------------------- every run

  /** In every reachable state all of the above holds. */
  lemma {:induction false} Reachable(window: int, t0: int, ls: seq<Label>)
    requires Exec(window, t0, ls).Some?
    ensures var s := Exec(window, t0, ls).value;
            TransitOk(s) && Accounted(s) && ScoresOk(s.rows)
  {
    if ls != [] {
      var front, l := ls[..|ls| - 1], ls[|ls| - 1];
      Reachable(window, t0, front);
      var s := Exec(window, t0, front).value;
      StepTransit(window, s, l);
      StepAccounted(window, s, l);
      StepScores(window, s, l);
    }
  }

  /** Each pending event is carried by someone, or a failure step recorded it as lost. */
  lemma PendingIsAccountedFor(window: int, t0: int, ls: seq<Label>, id: Id)
    requires Exec(window, t0, ls).Some?
    requires id in Exec(window, t0, ls).value.rows && Exec(window, t0, ls).value.rows[id].status == Pending
    ensures var s := Exec(window, t0, ls).value;
            id in s.lost || Carried(s, id)
  {
    Reachable(window, t0, ls);
    assert Tracked(Exec(window, t0, ls).value, id);
  }

  predicate IsFailure(l: Label) {
    match l
    case Handle(_, Insert(_, Unseen)) => true
    case Handle(_, Publish(false)) => true
    case Handle(_, Abandon) => true
    case Work(_, Drop) => true
    case Work(_, Fetch(false)) => true
    case Work(_, Update(false)) => true
    case Work(_, Die) => true
    case _ => false
  }

  lemma StepLosesNothing(window: int, s: State, l: Label)
    requires Step(window, s, l).Some? && !IsFailure(l)
    ensures Step(window, s, l).value.lost == s.lost
  {
  }

  lemma {:induction false} NothingLost(window: int, t0: int, ls: seq<Label>)
    requires Exec(window, t0, ls).Some?
    requires forall i :: 0 <= i < |ls| ==> !IsFailure(ls[i])
    ensures Exec(window, t0, ls).value.lost == {}
  {
    if ls != [] {
      var front := ls[..|ls| - 1];
      NothingLost(window, t0, front);
      StepLosesNothing(window, Exec(window, t0, front).value, ls[|ls| - 1]);
    }
  }

  ghost predicate Drained(s: State) {
    && (forall h :: h in s.handlers ==> !s.handlers[h].Publishing?)
    && s.queue == []
    && (forall w :: w in s.workers ==> Load(s.workers[w]) == {})
  }

  /** A run without failures that has drained has processed, or marked as failed, every event. */
  lemma DrainedRunHasNoPending(window: int, t0: int, ls: seq<Label>, id: Id)
    requires Exec(window, t0, ls).Some? && Drained(Exec(window, t0, ls).value)
    requires forall i :: 0 <= i < |ls| ==> !IsFailure(ls[i])
    requires id in Exec(window, t0, ls).value.rows
    ensures Exec(window, t0, ls).value.rows[id].status != Pending
  {
    Reachable(window, t0, ls);
    NothingLost(window, t0, ls);
    assert Tracked(Exec(window, t0, ls).value, id);
  }

  lemma ExtendsTransitive(a: Rows, b: Rows, c: Rows)
    requires Extends(a, b) && Extends(b, c)
    ensures Extends(a, c)
  {
  }

  /** From any point of a run to its end: no row disappears, none changes its identity, none
      returns to pending, and no score is cleared. */
  lemma {:induction false} EventLifecycle(window: int, t0: int, ls: seq<Label>, k: nat)
    requires k <= |ls| && Exec(window, t0, ls).Some?
    ensures Exec(window, t0, ls[..k]).Some?
    ensures Extends(Exec(window, t0, ls[..k]).value.rows, Exec(window, t0, ls).value.rows)
    decreases |ls|
  {
    if k == |ls| {
      assert ls[..k] == ls;
    } else {
      var front := ls[..|ls| - 1];
      EventLifecycle(window, t0, front, k);
      assert front[..k] == ls[..k];
      StepExtends(window, Exec(window, t0, front).value, ls[|ls| - 1]);
      ExtendsTransitive(Exec(window, t0, ls[..k]).value.rows, Exec(window, t0, front).value.rows,
                        Exec(window, t0, ls).value.rows);
    }
  }

  /** Whatever a worker is about to fetch is stored: the missing-row case never happens. */
  lemma WorkerAlwaysFindsItsRow(window: int, t0: int, ls: seq<Label>, w: nat)
    requires Exec(window, t0, ls).Some?
    requires w in Exec(window, t0, ls).value.workers && Exec(window, t0, ls).value.workers[w].job.Got?
    ensures var s := Exec(window, t0, ls).value;
            && s.workers[w].job.msg.kind == CHECKIN
            && Id(s.workers[w].job.msg.body) in s.rows
            && WorkerStep(s, w, Fetch(true)) == Some(SetJob(s, w, Fetched(Id(s.workers[w].job.msg.body))))
  {
    Reachable(window, t0, ls);
    var s := Exec(window, t0, ls).value;
    assert WorkerOk(s.workers[w], s.rows);
    assert Id(s.workers[w].job.msg.body) in Load(s.workers[w]);
  }

  /** A successful publish adds exactly one message; it decodes to the identifier of a stored
      event of the handler's own user and device, whether new or found by the query. */
  lemma PublishNamesOwnEvent(window: int, t0: int, ls: seq<Label>, h: nat)
    requires Exec(window, t0, ls + [Handle(h, Publish(true))]).Some?
    ensures Exec(window, t0, ls).Some? && h in Exec(window, t0, ls).value.handlers
    ensures var s, s' := Exec(window, t0, ls).value, Exec(window, t0, ls + [Handle(h, Publish(true))]).value;
            && s.handlers[h].Publishing?
            && |s'.queue| == |s.queue| + 1 && s'.queue[..|s.queue|] == s.queue
            && Parsed(s'.queue[|s.queue|]) == Message(CHECKIN, s.handlers[h].id.text)
            && s.handlers[h].id in s.rows
            && OfPair(s.rows[s.handlers[h].id], s.handlers[h].req.user, s.handlers[h].req.device)
  {
    assert (ls + [Handle(h, Publish(true))])[..|ls|] == ls;
    Reachable(window, t0, ls);
    var s := Exec(window, t0, ls).value;
    assert PublisherOk(s.handlers[h], s.rows);
    WireDecodes(s.handlers[h].id);
  }

  /** Every queued string decodes to a check-in of a stored event. */
  lemma QueuedNamesStoredEvent(window: int, t0: int, ls: seq<Label>, i: nat)
    requires Exec(window, t0, ls).Some? && i < |Exec(window, t0, ls).value.queue|
    ensures var s := Exec(window, t0, ls).value;
            Parsed(s.queue[i]).kind == CHECKIN && Id(Parsed(s.queue[i]).body) in s.rows
  {
    Reachable(window, t0, ls);
    var s := Exec(window, t0, ls).value;
    assert WireKnown(s.queue[i], s.rows);
    var id :| id in s.rows && s.queue[i] == Wire(id);
    WireDecodes(id);
  }
}
