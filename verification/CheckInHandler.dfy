/** A check-in that nothing interrupts is the moves of its handler in the pipeline, one after the other. */
module CheckInHandler {

  import opened Options
  import opened Attendance
  import opened Pipeline

  function Steps(window: int, s: State, ls: seq<Label>): Option<State>
    decreases |ls|
  {
    if ls == [] then Some(s)
    else
      match Step(window, s, ls[0])
      case None => None
      case Some(s') => Steps(window, s', ls[1..])
  }

  /** Query, and on a miss the stamp, `d` later, and the insert. */
  function Moves(h: nat, answer: Answer, d: nat, id: Id, stored: bool): seq<Label> {
    [Handle(h, Query(answer))] +
    if answer.Miss?
    then [Tick(d), Handle(h, Stamp), Handle(h, Insert(id, if stored then Stored else Rejected))]
    else []
  }

  /** The moves lead to these rows and this result; nothing else in the pipeline changes. */
  ghost predicate Leads(window: int, s: State, h: nat, req: Request, ls: seq<Label>, rows: Rows, r: CheckInResult) {
    var s' := Steps(window, s, ls);
    && s'.Some? && s'.value.rows == rows
    && s'.value.handlers == s.handlers[h := if r.Accepted? then Publishing(req, r.id) else Answered]
    && s'.value.queue == s.queue && s'.value.workers == s.workers && s'.value.lost == s.lost
  }

  function EventOf(req: Request, when: int): Event {
    NewEvent(req.user, req.device, when, req.location, req.imageUrl)
  }

  /** A request with an empty name is answered at once; any other goes on to its query. */
  lemma ArriveMeans(window: int, s: State, h: nat, req: Request)
    requires h !in s.handlers
    ensures Step(window, s, Arrive(h, req)) ==
            Some(s.(handlers := s.handlers[h := if req.user == "" || req.device == "" then Answered else Asked(req)]))
  {
  }

  /** The query misses exactly when every event of the pair is older than the window, and may answer
      with an event exactly when that is a latest one of the pair and within the window. */
  lemma QueryMeans(window: int, s: State, h: nat, req: Request, found: Id)
    requires h in s.handlers && s.handlers[h] == Asked(req)
    ensures HandlerStep(window, s, h, Query(Miss)).Some? <==>
              forall id :: id in s.rows && s.rows[id].user == req.user && s.rows[id].device == req.device ==>
                s.rows[id].when < s.now - window
    ensures HandlerStep(window, s, h, Query(Hit(found))).Some? <==>
              && found in s.rows && s.rows[found].user == req.user && s.rows[found].device == req.device
              && s.rows[found].when >= s.now - window
              && forall id :: id in s.rows && s.rows[id].user == req.user && s.rows[id].device == req.device ==>
                   s.rows[id].when <= s.rows[found].when
  {
    forall id | id in s.rows
      ensures Recent(s.rows[id], req.user, req.device, window, s.now) <==>
                s.rows[id].user == req.user && s.rows[id].device == req.device && s.rows[id].when >= s.now - window
    {
    }
  }

  lemma OneStep(window: int, s: State, l: Label)
    ensures Steps(window, s, [l]) == Step(window, s, l)
  {
    assert [l][1..] == [];
  }

  lemma FirstStep(window: int, s: State, l: Label, ls: seq<Label>)
    requires Step(window, s, l).Some?
    ensures Steps(window, s, [l] + ls) == Steps(window, Step(window, s, l).value, ls)
  {
    assert ([l] + ls)[1..] == ls;
  }

  lemma HitLeads(window: int, s: State, h: nat, req: Request, found: Id, d: nat, id: Id, stored: bool)
    requires h in s.handlers && s.handlers[h] == Asked(req)
    ensures Steps(window, s, Moves(h, Hit(found), d, id, stored)).Some? <==>
              IsLatest(s.rows, found, req.user, req.device, window, s.now)
    ensures IsLatest(s.rows, found, req.user, req.device, window, s.now) ==>
              Leads(window, s, h, req, Moves(h, Hit(found), d, id, stored), s.rows, Accepted(found))
  {
    OneStep(window, s, Handle(h, Query(Hit(found))));
    assert Moves(h, Hit(found), d, id, stored) == [Handle(h, Query(Hit(found)))];
  }

  /** The statements after a miss. */
  lemma MissGoesOn(window: int, s: State, h: nat, req: Request, d: nat, id: Id, stored: bool)
    requires h in s.handlers && s.handlers[h] == Cleared(req, s.now) && (stored ==> IsUuid(id) && id !in s.rows)
    ensures var evt := EventOf(req, s.now + d);
            Leads(window, s, h, req, [Tick(d), Handle(h, Stamp), Handle(h, Insert(id, if stored then Stored else Rejected))],
                  if stored then s.rows[id := evt] else s.rows, if stored then Accepted(id) else Refused)
  {
    var insert := Handle(h, Insert(id, if stored then Stored else Rejected));
    var s1 := Step(window, s, Tick(d)).value;
    var s2 := Step(window, s1, Handle(h, Stamp)).value;
    FirstStep(window, s, Tick(d), [Handle(h, Stamp), insert]);
    FirstStep(window, s1, Handle(h, Stamp), [insert]);
    OneStep(window, s2, insert);
    assert [Tick(d), Handle(h, Stamp), insert] == [Tick(d)] + [Handle(h, Stamp), insert];
    assert [Handle(h, Stamp), insert] == [Handle(h, Stamp)] + [insert];
  }

  lemma MissLeads(window: int, s: State, h: nat, req: Request, d: nat, id: Id, stored: bool)
    requires h in s.handlers && s.handlers[h] == Asked(req) && (stored ==> IsUuid(id) && id !in s.rows)
    ensures var evt := EventOf(req, s.now + d);
            NoneRecent(s.rows, req.user, req.device, window, s.now) ==>
              Leads(window, s, h, req, Moves(h, Miss, d, id, stored),
                    if stored then s.rows[id := evt] else s.rows, if stored then Accepted(id) else Refused)
    ensures Steps(window, s, Moves(h, Miss, d, id, stored)).Some? <==>
              NoneRecent(s.rows, req.user, req.device, window, s.now)
  {
    if NoneRecent(s.rows, req.user, req.device, window, s.now) {
      var s1 := Step(window, s, Handle(h, Query(Miss))).value;
      MissGoesOn(window, s1, h, req, d, id, stored);
      FirstStep(window, s, Handle(h, Query(Miss)), Moves(h, Miss, d, id, stored)[1..]);
      assert Moves(h, Miss, d, id, stored) == [Handle(h, Query(Miss))] + Moves(h, Miss, d, id, stored)[1..];
      assert Moves(h, Miss, d, id, stored)[1..] ==
             [Tick(d), Handle(h, Stamp), Handle(h, Insert(id, if stored then Stored else Rejected))];
    }
  }

  lemma LeadsOnce(window: int, s: State, h: nat, req: Request, ls: seq<Label>,
                  rows: Rows, r: CheckInResult, rows': Rows, r': CheckInResult)
    requires Leads(window, s, h, req, ls, rows, r) && Leads(window, s, h, req, ls, rows', r')
    ensures rows == rows' && r == r'
  {
    var p := if r.Accepted? then Publishing(req, r.id) else Answered;
    var p' := if r'.Accepted? then Publishing(req, r'.id) else Answered;
    assert s.handlers[h := p][h] == s.handlers[h := p'][h];
  }

  lemma CheckInTakesSteps(window: int, s: State, h: nat, req: Request, d: nat, id: Id, registered: bool,
                          rows: Rows, r: CheckInResult) returns (answer: Answer)
    requires h in s.handlers && s.handlers[h] == Asked(req) && req.user != "" && req.device != "" && IsUuid(id)
    requires CheckedIn(s.rows, rows, registered, req.user, req.device, EventOf(req, s.now + d), window, s.now, id, r)
    ensures !answer.QueryError?
    ensures Leads(window, s, h, req, Moves(h, answer, d, id, registered && id !in s.rows), rows, r)
  {
    var stored := registered && id !in s.rows;
    if NoneRecent(s.rows, req.user, req.device, window, s.now) {
      MissLeads(window, s, h, req, d, id, stored);
      answer := Miss;
    } else {
      HitLeads(window, s, h, req, r.id, d, id, stored);
      answer := Hit(r.id);
    }
  }

  lemma StepsCheckIn(window: int, s: State, h: nat, req: Request, d: nat, id: Id, registered: bool,
                     rows: Rows, r: CheckInResult, answer: Answer)
    requires h in s.handlers && s.handlers[h] == Asked(req) && req.user != "" && req.device != "" && IsUuid(id)
    requires !answer.QueryError?
    requires Leads(window, s, h, req, Moves(h, answer, d, id, registered && id !in s.rows), rows, r)
    ensures CheckedIn(s.rows, rows, registered, req.user, req.device, EventOf(req, s.now + d), window, s.now, id, r)
  {
    var stored := registered && id !in s.rows;
    var ls := Moves(h, answer, d, id, stored);
    match answer
    case Hit(found) =>
      HitLeads(window, s, h, req, found, d, id, stored);
      LeadsOnce(window, s, h, req, ls, rows, r, s.rows, Accepted(found));
    case Miss =>
      MissLeads(window, s, h, req, d, id, stored);
      LeadsOnce(window, s, h, req, ls, rows, r, if stored then s.rows[id := EventOf(req, s.now + d)] else s.rows,
                if stored then Accepted(id) else Refused);
  }

  /** The database answers the query in some way, and the moves lead there. */
  ghost predicate SomeMovesLead(window: int, s: State, h: nat, req: Request, d: nat, id: Id, stored: bool,
                                rows: Rows, r: CheckInResult) {
    exists answer: Answer :: !answer.QueryError? && Leads(window, s, h, req, Moves(h, answer, d, id, stored), rows, r)
  }

  /** The outcomes of the service's check-in are exactly those of the handler's moves made in a row,
      with an insert that succeeds if the device is registered and the identifier is new. */
  lemma CheckInIsPipelineSteps(window: int, s: State, h: nat, req: Request, d: nat, id: Id, registered: bool,
                               rows: Rows, r: CheckInResult)
    requires h in s.handlers && s.handlers[h] == Asked(req) && req.user != "" && req.device != "" && IsUuid(id)
    ensures CheckedIn(s.rows, rows, registered, req.user, req.device, EventOf(req, s.now + d), window, s.now, id, r)
       <==> SomeMovesLead(window, s, h, req, d, id, registered && id !in s.rows, rows, r)
  {
    if CheckedIn(s.rows, rows, registered, req.user, req.device, EventOf(req, s.now + d), window, s.now, id, r) {
      var answer := CheckInTakesSteps(window, s, h, req, d, id, registered, rows, r);
    } else if SomeMovesLead(window, s, h, req, d, id, registered && id !in s.rows, rows, r) {
      var answer: Answer :| !answer.QueryError? &&
        Leads(window, s, h, req, Moves(h, answer, d, id, registered && id !in s.rows), rows, r);
      StepsCheckIn(window, s, h, req, d, id, registered, rows, r, answer);
    }
  }
}
