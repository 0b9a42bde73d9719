/** The worker's loop over messages, and its agreement with the steps of the pipeline. */
module CheckInWorker {

  import opened Options
  import opened QueueCodec
  import opened Attendance
  import opened Pipeline

  /** What the outside world answers while one message is handled: whether the row could be
      read, what the face service said, and whether the update reached the table. */
  datatype Trial = Trial(fetched: bool, outcome: Option<real>, written: bool)

  function AfterMessage(rows: Rows, msg: Message, t: Trial): Rows {
    if msg.kind != CHECKIN || !t.fetched || Id(msg.body) !in rows || !t.written then rows
    else Updated(rows, Id(msg.body), if t.outcome.None? then Failed else Processed, t.outcome)
  }

  function AfterMessages(rows: Rows, msgs: seq<Message>, ts: seq<Trial>): Rows
    requires |msgs| == |ts|
  {
    if msgs == [] then rows
    else
      var n := |msgs| - 1;
      AfterMessage(AfterMessages(rows, msgs[..n], ts[..n]), msgs[n], ts[n])
  }

  method Run(repo: Repository, msgs: seq<Message>, ts: seq<Trial>)
    requires |msgs| == |ts|
    modifies repo`rows
    ensures repo.rows == AfterMessages(old(repo.rows), msgs, ts)
  {
    for i := 0 to |msgs|
      invariant repo.rows == AfterMessages(old(repo.rows), msgs[..i], ts[..i])
    {
      var msg, t := msgs[i], ts[i];
      assert msgs[..i + 1][..i] == msgs[..i] && ts[..i + 1][..i] == ts[..i];
      if msg.kind != CHECKIN {
        continue;
      }
      var id := Id(msg.body);
      var evt := repo.GetEvent(id);
      if !t.fetched || evt.None? {
        continue;
      }
      if t.outcome.None? {
        if t.written {
          repo.UpdateEventStatus(id, Failed, None);
        }
        continue;
      }
      if t.written {
        repo.UpdateEventStatus(id, Processed, t.outcome);
      }
    }
    assert msgs[..|msgs|] == msgs && ts[..|ts|] == ts;
  }

  /** Message i is a check-in of a stored event, and nothing went wrong with it. */
  predicate Handled(rows: Rows, msgs: seq<Message>, ts: seq<Trial>, i: nat)
    requires |msgs| == |ts| && i < |msgs|
  {
    msgs[i].kind == CHECKIN && Id(msgs[i].body) in rows && ts[i].fetched && ts[i].written
  }

  /** After the loop an event is pending exactly when it was pending and no message about it was
      handled; rows only evolve, and none is added. */
  lemma {:induction false} LoopSettles(rows: Rows, msgs: seq<Message>, ts: seq<Trial>)
    requires |msgs| == |ts|
    ensures var after := AfterMessages(rows, msgs, ts);
            && Extends(rows, after) && after.Keys == rows.Keys
            && forall id :: id in rows ==>
                 (after[id].status == Pending <==>
                    rows[id].status == Pending &&
                    forall i :: 0 <= i < |msgs| && Id(msgs[i].body) == id ==> !Handled(rows, msgs, ts, i))
  {
    if msgs != [] {
      var n := |msgs| - 1;
      var some, tsome := msgs[..n], ts[..n];
      LoopSettles(rows, some, tsome);
      var before := AfterMessages(rows, some, tsome);
      var after := AfterMessages(rows, msgs, ts);
      forall id | id in rows
        ensures after[id].status == Pending <==>
                  rows[id].status == Pending &&
                  forall i :: 0 <= i < |msgs| && Id(msgs[i].body) == id ==> !Handled(rows, msgs, ts, i)
      {
        assert forall i :: 0 <= i < n ==> Handled(rows, some, tsome, i) == Handled(rows, msgs, ts, i);
        if Id(msgs[n].body) == id && Handled(rows, msgs, ts, n) {
          assert after[id].status != Pending;
        } else {
          assert after[id] == before[id];
        }
      }
    }
  }

  lemma CheckinText()
    ensures |CHECKIN| == |"checkin"| && forall i :: 0 <= i < |CHECKIN| ==> CHECKIN[i] == "checkin"[i] as int
  {
  }

  /** A handled message settles its event, with the score if there is one, and touches no other. */
  lemma MessageMeans(rows: Rows, msg: Message, t: Trial)
    ensures var id, after := Id(msg.body), AfterMessage(rows, msg, t);
            && after.Keys == rows.Keys
            && (forall other :: other in rows && other != id ==> after[other] == rows[other])
            && (id in rows ==>
                  after[id] == if msg.kind != CHECKIN || !t.fetched || !t.written then rows[id]
                               else rows[id].(status := if t.outcome.Some? then Processed else Failed,
                                              score := if t.outcome.Some? then t.outcome else rows[id].score))
  {
  }

  /** The last handled message about an event decides its status, and its score if it has one. */
  lemma {:induction false} LastMessageDecides(rows: Rows, msgs: seq<Message>, ts: seq<Trial>, i: nat)
    requires |msgs| == |ts| && i < |msgs| && Handled(rows, msgs, ts, i)
    requires forall j :: i < j < |msgs| && Id(msgs[j].body) == Id(msgs[i].body) ==> !Handled(rows, msgs, ts, j)
    ensures var id, after := Id(msgs[i].body), AfterMessages(rows, msgs, ts);
            && id in after && after[id].status == (if ts[i].outcome.Some? then Processed else Failed)
            && (ts[i].outcome.Some? ==> after[id].score == ts[i].outcome)
    decreases |msgs|
  {
    var n := |msgs| - 1;
    LoopSettles(rows, msgs[..n], ts[..n]);
    if i < n {
      forall j | i < j < n && Id(msgs[..n][j].body) == Id(msgs[..n][i].body)
        ensures !Handled(rows, msgs[..n], ts[..n], j)
      {
        assert !Handled(rows, msgs, ts, j);
      }
      LastMessageDecides(rows, msgs[..n], ts[..n], i);
      assert Id(msgs[n].body) == Id(msgs[i].body) ==> !Handled(rows, msgs, ts, n);
    }
  }

  // ---------------------------------------------------------------- the loop body as pipeline steps

  function Moves(s: State, w: nat, moves: seq<WorkerMove>): Option<State>
    decreases |moves|
  {
    if moves == [] then Some(s)
    else if w !in s.workers then None
    else
      match WorkerStep(s, w, moves[0])
      case None => None
      case Some(s') => Moves(s', w, moves[1..])
  }

  /** The moves one pass of the loop makes. */
  function Pass(rows: Rows, msg: Message, t: Trial): seq<WorkerMove> {
    if msg.kind != CHECKIN then [Receive]
    else if !t.fetched || Id(msg.body) !in rows then [Receive, Fetch(t.fetched)]
    else [Receive, Fetch(true), Embed(t.outcome), Update(t.written)]
  }

  lemma MoveFirst(s: State, w: nat, move: WorkerMove, rest: seq<WorkerMove>)
    requires w in s.workers && WorkerStep(s, w, move).Some?
    ensures Moves(s, w, [move] + rest) == Moves(WorkerStep(s, w, move).value, w, rest)
  {
  }

  /** What one pass has to achieve. */
  ghost predicate Passed(s: State, w: nat, s': Option<State>, rows: Rows) {
    && s'.Some? && s'.value.rows == rows && w in s.workers
    && s'.value.workers == s.workers[w := Worker(None, Idle)]
    && s'.value.handlers == s.handlers && s'.value.queue == s.queue
  }

  lemma UpdateFinishes(s: State, w: nat, id: Id, t: Trial)
    requires w in s.workers && s.workers[w] == Worker(None, Fetched(id)) && id in s.rows
    ensures Passed(s, w, Moves(s, w, [Embed(t.outcome), Update(t.written)]),
                   if t.written then Updated(s.rows, id, if t.outcome.None? then Failed else Processed, t.outcome) else s.rows)
  {
    var s' := WorkerStep(s, w, Embed(t.outcome)).value;
    MoveFirst(s, w, Embed(t.outcome), [Update(t.written)]);
    MoveFirst(s', w, Update(t.written), []);
    assert [Embed(t.outcome), Update(t.written)] == [Embed(t.outcome)] + [Update(t.written)];
    assert [Update(t.written)] == [Update(t.written)] + [];
  }

  lemma FetchFinishes(s: State, w: nat, msg: Message, t: Trial)
    requires w in s.workers && s.workers[w] == Worker(None, Got(msg)) && msg.kind == CHECKIN
    ensures Passed(s, w, Moves(s, w, Pass(s.rows, msg, t)[1..]), AfterMessage(s.rows, msg, t))
  {
    var pass := Pass(s.rows, msg, t);
    var s' := WorkerStep(s, w, Fetch(t.fetched)).value;
    MoveFirst(s, w, Fetch(t.fetched), pass[2..]);
    assert pass[1..] == [Fetch(t.fetched)] + pass[2..];
    if t.fetched && Id(msg.body) in s.rows {
      assert pass[2..] == [Embed(t.outcome), Update(t.written)];
      UpdateFinishes(s', w, Id(msg.body), t);
    } else {
      assert pass[2..] == [];
    }
  }

  /** One pass of the loop over the message in hand is exactly these pipeline steps. */
  lemma PassIsPipelineSteps(s: State, w: nat, t: Trial)
    requires w in s.workers && s.workers[w].hand.Some? && s.workers[w].job.Idle?
    ensures var msg := s.workers[w].hand.value;
            Passed(s, w, Moves(s, w, Pass(s.rows, msg, t)), AfterMessage(s.rows, msg, t))
  {
    var msg := s.workers[w].hand.value;
    var pass := Pass(s.rows, msg, t);
    var s' := WorkerStep(s, w, Receive).value;
    MoveFirst(s, w, Receive, pass[1..]);
    assert pass == [Receive] + pass[1..];
    if msg.kind == CHECKIN {
      FetchFinishes(s', w, msg, t);
    } else {
      assert pass[1..] == [];
    }
  }
}
