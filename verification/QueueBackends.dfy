/** The two queue backends, a buffered channel and a Redis list, as step machines that
    refine one first-in first-out queue shared by any number of consumers.

    A consumer is the goroutine started by `Consume`: it takes one message, then blocks until
    its worker accepts it.  A consumer that stops while holding a message simply takes no
    further step, so the message stays in its hand.  A message whose delivery to the consumer
    fails on the way is dropped, and recorded as taken by no one.
 */
module QueueBackends {

  import opened Options
  import opened QueueCodec

  // ---------------------------------------------------------------- the queue both refine

  /** Who a message went to; None if to no one. */
  type Log = seq<(Option<nat>, Message)>

  /** `held[c]` is what consumer c has in hand; the other sequences are histories. */
  datatype Fifo = Fifo(waiting: seq<Message>, held: seq<Option<Message>>,
                       published: seq<Message>, taken: Log, delivered: Log)

  datatype Action = Put(m: Message) | Take(c: nat) | Drop(c: nat) | Deliver(c: nat)

  function EmptyHands(n: nat): (held: seq<Option<Message>>)
    ensures |held| == n && forall c :: 0 <= c < n ==> held[c] == None
  {
    seq(n, c => None)
  }

  function FifoStep(q: Fifo, a: Action): Option<Fifo> {
    match a
    case Put(m) => Some(q.(waiting := q.waiting + [m], published := q.published + [m]))
    case Take(c) =>
      if c < |q.held| && q.held[c].None? && q.waiting != []
      then Some(q.(waiting := q.waiting[1..], held := q.held[c := Some(q.waiting[0])],
                   taken := q.taken + [(Some(c), q.waiting[0])]))
      else None
    case Drop(c) =>
      if c < |q.held| && q.held[c].None? && q.waiting != []
      then Some(q.(waiting := q.waiting[1..], taken := q.taken + [(None, q.waiting[0])]))
      else None
    case Deliver(c) =>
      if c < |q.held| && q.held[c].Some?
      then Some(q.(held := q.held[c := None], delivered := q.delivered + [(Some(c), q.held[c].value)]))
      else None
  }

  function FifoRun(n: nat, actions: seq<Action>): Option<Fifo> {
    if actions == [] then Some(Fifo([], EmptyHands(n), [], [], []))
    else
      match FifoRun(n, actions[..|actions| - 1])
      case None => None
      case Some(q) => FifoStep(q, actions[|actions| - 1])
  }

  function Messages(log: Log): seq<Message> {
    if log == [] then [] else Messages(log[..|log| - 1]) + [log[|log| - 1].1]
  }

  /** What consumer c did, in order. */
  function By(log: Log, c: nat): seq<Message> {
    if log == [] then []
    else
      By(log[..|log| - 1], c) + (if log[|log| - 1].0 == Some(c) then [log[|log| - 1].1] else [])
  }

  function InHand(h: Option<Message>): seq<Message> {
    if h.Some? then [h.value] else []
  }

  ghost predicate TakenInOrder(q: Fifo) {
    q.published == Messages(q.taken) + q.waiting
  }

  predicate InOrderFor(q: Fifo, c: nat)
    requires c < |q.held|
  {
    By(q.taken, c) == By(q.delivered, c) + InHand(q.held[c])
  }

  ghost predicate DeliveredInOrder(q: Fifo) {
    forall c :: 0 <= c < |q.held| ==> InOrderFor(q, c)
  }

  /** Every history entry belongs to one of the consumers. */
  ghost predicate Attributed(q: Fifo) {
    && (forall i :: 0 <= i < |q.taken| && q.taken[i].0.Some? ==> q.taken[i].0.value < |q.held|)
    && (forall i :: 0 <= i < |q.delivered| ==> q.delivered[i].0.Some? && q.delivered[i].0.value < |q.held|)
  }

  ghost predicate FifoOk(n: nat, q: Fifo) {
    |q.held| == n && TakenInOrder(q) && DeliveredInOrder(q) && Attributed(q)
  }

  lemma ByAppend(log: Log, e: (Option<nat>, Message), c: nat)
    ensures By(log + [e], c) == By(log, c) + (if e.0 == Some(c) then [e.1] else [])
  {
  }

  lemma StepTakenInOrder(q: Fifo, a: Action)
    requires TakenInOrder(q) && FifoStep(q, a).Some?
    ensures TakenInOrder(FifoStep(q, a).value)
  {
  }

  lemma StepInOrderFor(q: Fifo, a: Action, c: nat)
    requires c < |q.held| && InOrderFor(q, c) && FifoStep(q, a).Some?
    ensures c < |FifoStep(q, a).value.held| && InOrderFor(FifoStep(q, a).value, c)
  {
    match a
    case Put(_) =>
    case Take(d) => ByAppend(q.taken, (Some(d), q.waiting[0]), c);
    case Drop(_) => ByAppend(q.taken, (None, q.waiting[0]), c);
    case Deliver(d) => ByAppend(q.delivered, (Some(d), q.held[d].value), c);
  }

  lemma StepDeliveredInOrder(q: Fifo, a: Action)
    requires DeliveredInOrder(q) && FifoStep(q, a).Some?
    ensures DeliveredInOrder(FifoStep(q, a).value)
  {
    forall c | 0 <= c < |q.held| ensures InOrderFor(FifoStep(q, a).value, c) {
      assert InOrderFor(q, c);
      StepInOrderFor(q, a, c);
    }
  }

  lemma StepAttributed(q: Fifo, a: Action)
    requires Attributed(q) && FifoStep(q, a).Some?
    ensures Attributed(FifoStep(q, a).value) && |FifoStep(q, a).value.held| == |q.held|
  {
  }

  lemma FifoStepOk(n: nat, q: Fifo, a: Action)
    requires FifoOk(n, q) && FifoStep(q, a).Some?
    ensures FifoOk(n, FifoStep(q, a).value)
  {
    StepTakenInOrder(q, a);
    StepDeliveredInOrder(q, a);
    StepAttributed(q, a);
  }

  /** In every run: everything published was taken in the same order or is still waiting; each
      consumer delivered what it took, in order, except for at most one message in its hand.
      So nothing is reordered or delivered twice, and nothing but the dropped messages is lost. */
  lemma {:induction false} FifoLaws(n: nat, actions: seq<Action>)
    requires FifoRun(n, actions).Some?
    ensures FifoOk(n, FifoRun(n, actions).value)
  {
    if actions != [] {
      var front := actions[..|actions| - 1];
      FifoLaws(n, front);
      FifoStepOk(n, FifoRun(n, front).value, actions[|actions| - 1]);
    }
  }

  /** The effect of a few actions on a queue. */
  function Perform(q: Fifo, actions: seq<Action>): Option<Fifo>
    decreases |actions|
  {
    if actions == [] then Some(q)
    else
      match FifoStep(q, actions[0])
      case None => None
      case Some(q') => Perform(q', actions[1..])
  }

  lemma {:induction false} RunThenPerform(n: nat, before: seq<Action>, more: seq<Action>)
    requires FifoRun(n, before).Some? && Perform(FifoRun(n, before).value, more).Some?
    ensures FifoRun(n, before + more) == Perform(FifoRun(n, before).value, more)
    decreases |more|
  {
    if more == [] {
      assert before + more == before;
    } else {
      var next := before + [more[0]];
      assert next[..|before|] == before && next[|before|] == more[0];
      assert before + more == next + more[1..];
      RunThenPerform(n, next, more[1..]);
    }
  }

  // ---------------------------------------------------------------- the channel backend

  datatype Channel = Channel(size: nat, buf: seq<Message>, held: seq<Option<Message>>)

  /** `HandOver` is a send that meets a receiver waiting on an empty channel; it is the only way
      to send on a channel of size zero.  `Cancelled` is a send abandoned by its context. */
  datatype ChannelStep =
    | Send(m: Message)
    | HandOver(m: Message, c: nat)
    | Cancelled(m: Message)
    | Receive(c: nat)
    | Forward(c: nat)

  function ChannelDo(s: Channel, l: ChannelStep): Option<Channel> {
    match l
    case Send(m) => if |s.buf| < s.size then Some(s.(buf := s.buf + [m])) else None
    case HandOver(m, c) =>
      if s.buf == [] && c < |s.held| && s.held[c].None?
      then Some(s.(held := s.held[c := Some(m)])) else None
    case Cancelled(_) => Some(s)
    case Receive(c) =>
      if c < |s.held| && s.held[c].None? && s.buf != []
      then Some(s.(buf := s.buf[1..], held := s.held[c := Some(s.buf[0])])) else None
    case Forward(c) =>
      if c < |s.held| && s.held[c].Some? then Some(s.(held := s.held[c := None])) else None
  }

  function ChannelRun(size: nat, n: nat, steps: seq<ChannelStep>): Option<Channel> {
    if steps == [] then Some(Channel(size, [], EmptyHands(n)))
    else
      match ChannelRun(size, n, steps[..|steps| - 1])
      case None => None
      case Some(s) => ChannelDo(s, steps[|steps| - 1])
  }

  function ChannelMeans(l: ChannelStep): seq<Action> {
    match l
    case Send(m) => [Put(m)]
    case HandOver(m, c) => [Put(m), Take(c)]
    case Cancelled(_) => []
    case Receive(c) => [Take(c)]
    case Forward(c) => [Deliver(c)]
  }

  function ChannelActions(steps: seq<ChannelStep>): seq<Action> {
    if steps == [] then []
    else ChannelActions(steps[..|steps| - 1]) + ChannelMeans(steps[|steps| - 1])
  }

  function SentBy(l: ChannelStep): seq<Message> {
    match l
    case Send(m) => [m]
    case HandOver(m, _) => [m]
    case _ => []
  }

  function Sent(steps: seq<ChannelStep>): seq<Message> {
    if steps == [] then [] else Sent(steps[..|steps| - 1]) + SentBy(steps[|steps| - 1])
  }

  /** Nothing is ever dropped. */
  ghost predicate ChannelShows(s: Channel, q: Fifo) {
    s.buf == q.waiting && s.held == q.held && forall i :: 0 <= i < |q.taken| ==> q.taken[i].0.Some?
  }

  lemma ChannelStepRefines(s: Channel, q: Fifo, l: ChannelStep)
    requires ChannelShows(s, q) && ChannelDo(s, l).Some?
    ensures var q' := Perform(q, ChannelMeans(l));
            && q'.Some? && ChannelShows(ChannelDo(s, l).value, q'.value)
            && q'.value.published == q.published + SentBy(l)
  {
    var actions := ChannelMeans(l);
    if l.HandOver? {
      assert q.waiting + [l.m] == [l.m] && [l.m][1..] == [];
      var q1 := FifoStep(q, Put(l.m)).value;
      assert Perform(q1, [Take(l.c)]) == FifoStep(q1, Take(l.c));
      assert actions[1..] == [Take(l.c)];
    }
  }

  lemma {:induction false} ChannelBounded(size: nat, n: nat, steps: seq<ChannelStep>)
    requires ChannelRun(size, n, steps).Some?
    ensures ChannelRun(size, n, steps).value.size == size
    ensures |ChannelRun(size, n, steps).value.buf| <= size
  {
    if steps != [] {
      ChannelBounded(size, n, steps[..|steps| - 1]);
    }
  }

  /** The channel backend refines the queue. */
  lemma {:induction false} ChannelRefinesFifo(size: nat, n: nat, steps: seq<ChannelStep>)
    requires ChannelRun(size, n, steps).Some?
    ensures FifoRun(n, ChannelActions(steps)).Some?
    ensures ChannelShows(ChannelRun(size, n, steps).value, FifoRun(n, ChannelActions(steps)).value)
    ensures FifoRun(n, ChannelActions(steps)).value.published == Sent(steps)
  {
    if steps != [] {
      var front, l := steps[..|steps| - 1], steps[|steps| - 1];
      ChannelRefinesFifo(size, n, front);
      var s := ChannelRun(size, n, front).value;
      assert ChannelRun(size, n, steps) == ChannelDo(s, l);
      ChannelStepRefines(s, FifoRun(n, ChannelActions(front)).value, l);
      RunThenPerform(n, ChannelActions(front), ChannelMeans(l));
    }
  }

  /** A channel that shows a queue can do all that the queue can, except that a message is only
      buffered while there is room, and is only handed over past an empty buffer to a consumer
      with an empty hand. */
  lemma ChannelOffersAll(s: Channel, q: Fifo, m: Message, c: nat)
    requires ChannelShows(s, q)
    ensures ChannelDo(s, Send(m)).Some? <==> |q.waiting| < s.size
    ensures ChannelDo(s, HandOver(m, c)).Some? <==> q.waiting == [] && c < |q.held| && q.held[c].None?
    ensures ChannelDo(s, Receive(c)).Some? <==> FifoStep(q, Take(c)).Some?
    ensures ChannelDo(s, Forward(c)).Some? <==> FifoStep(q, Deliver(c)).Some?
  {
  }

  // ---------------------------------------------------------------- the Redis backend

  /** LPUSH puts a serialized message at the head of the list, BRPOP takes one from its end. */
  datatype RedisList = RedisList(list: seq<Bytes>, held: seq<Option<Message>>)

  /** `Push` is a push that reaches Redis, whether or not the sender sees the reply; `PopLost` is a
      pop whose reply never arrives. */
  datatype RedisStep =
    | Push(m: Message)
    | PushFails(m: Message)
    | Pop(c: nat)
    | PopLost(c: nat)
    | TimesOut(c: nat)
    | Hand(c: nat)

  function RedisDo(s: RedisList, l: RedisStep): Option<RedisList> {
    match l
    case Push(m) => Some(s.(list := [Serialize(m)] + s.list))
    case PushFails(_) => Some(s)
    case Pop(c) =>
      if c < |s.held| && s.held[c].None? && s.list != []
      then
        var last := |s.list| - 1;
        Some(s.(list := s.list[..last], held := s.held[c := Some(Parsed(s.list[last]))]))
      else None
    case PopLost(c) =>
      if c < |s.held| && s.held[c].None? && s.list != []
      then Some(s.(list := s.list[..|s.list| - 1])) else None
    case TimesOut(_) => Some(s)
    case Hand(c) =>
      if c < |s.held| && s.held[c].Some? then Some(s.(held := s.held[c := None])) else None
  }

  function RedisRun(n: nat, steps: seq<RedisStep>): Option<RedisList> {
    if steps == [] then Some(RedisList([], EmptyHands(n)))
    else
      match RedisRun(n, steps[..|steps| - 1])
      case None => None
      case Some(s) => RedisDo(s, steps[|steps| - 1])
  }

  function RedisMeans(l: RedisStep): seq<Action> {
    match l
    case Push(m) => [Put(Parsed(Serialize(m)))]
    case Pop(c) => [Take(c)]
    case PopLost(c) => [Drop(c)]
    case Hand(c) => [Deliver(c)]
    case _ => []
  }

  function RedisActions(steps: seq<RedisStep>): seq<Action> {
    if steps == [] then []
    else RedisActions(steps[..|steps| - 1]) + RedisMeans(steps[|steps| - 1])
  }

  function Pushed(steps: seq<RedisStep>): seq<Message> {
    if steps == [] then []
    else
      Pushed(steps[..|steps| - 1]) +
      (if steps[|steps| - 1].Push? then [steps[|steps| - 1].m] else [])
  }

  /** The list as a queue: its end is served first. */
  function Served(list: seq<Bytes>): seq<Message> {
    if list == [] then []
    else [Parsed(list[|list| - 1])] + Served(list[..|list| - 1])
  }

  lemma {:induction false} ServedPush(x: Bytes, list: seq<Bytes>)
    ensures Served([x] + list) == Served(list) + [Parsed(x)]
  {
    var more := [x] + list;
    if list == [] {
      assert more[..0] == [];
    } else {
      assert more[..|list|] == [x] + list[..|list| - 1];
      ServedPush(x, list[..|list| - 1]);
    }
  }

  function Decoded(ms: seq<Message>): seq<Message> {
    seq(|ms|, i requires 0 <= i < |ms| => Parsed(Serialize(ms[i])))
  }

  ghost predicate RedisShows(s: RedisList, q: Fifo) {
    Served(s.list) == q.waiting && s.held == q.held
  }

  /** A list that shows a queue can do all that the queue can, and any push or pop can fail. */
  lemma RedisOffersAll(s: RedisList, q: Fifo, m: Message, c: nat)
    requires RedisShows(s, q)
    ensures RedisDo(s, Push(m)).Some? && RedisDo(s, PushFails(m)).Some?
    ensures RedisDo(s, Pop(c)).Some? <==> FifoStep(q, Take(c)).Some?
    ensures RedisDo(s, PopLost(c)).Some? <==> FifoStep(q, Drop(c)).Some?
    ensures RedisDo(s, Hand(c)).Some? <==> FifoStep(q, Deliver(c)).Some?
  {
  }

  lemma RedisStepRefines(s: RedisList, q: Fifo, l: RedisStep)
    requires RedisShows(s, q) && RedisDo(s, l).Some?
    ensures var q' := Perform(q, RedisMeans(l));
            && q'.Some? && RedisShows(RedisDo(s, l).value, q'.value)
            && q'.value.published == q.published + (if l.Push? then [Parsed(Serialize(l.m))] else [])
  {
    if l.Push? {
      ServedPush(Serialize(l.m), s.list);
    }
  }

  /** The Redis backend refines the same queue, on the messages as they are decoded. */
  lemma {:induction false} RedisRefinesFifo(n: nat, steps: seq<RedisStep>)
    requires RedisRun(n, steps).Some?
    ensures var s, q := RedisRun(n, steps).value, FifoRun(n, RedisActions(steps));
            q.Some? && RedisShows(s, q.value) && q.value.published == Decoded(Pushed(steps))
  {
    if steps != [] {
      var front := steps[..|steps| - 1];
      var l := steps[|steps| - 1];
      RedisRefinesFifo(n, front);
      RedisStepRefines(RedisRun(n, front).value, FifoRun(n, RedisActions(front)).value, l);
      RunThenPerform(n, RedisActions(front), RedisMeans(l));
      if l.Push? {
        assert Decoded(Pushed(steps)) == Decoded(Pushed(front)) + [Parsed(Serialize(l.m))];
      } else {
        assert Pushed(steps) == Pushed(front);
      }
    }
  }

  /** Messages the wire format carries unchanged. */
  predicate Sendable(m: Message) {
    SEPARATOR !in m.kind && ValidUtf8(m.kind) && ValidUtf8(m.body)
  }

  /** What is published is what was pushed, exactly when every message pushed is sendable. */
  lemma DecodedExactly(ms: seq<Message>)
    ensures Decoded(ms) == ms <==> forall i :: 0 <= i < |ms| ==> Sendable(ms[i])
  {
    forall i | 0 <= i < |ms| ensures Decoded(ms)[i] == ms[i] <==> Sendable(ms[i]) {
      RoundTripExactly(ms[i]);
    }
    assert Decoded(ms) == ms <==> forall i :: 0 <= i < |ms| ==> Decoded(ms)[i] == ms[i];
  }

  /** The channel: what was sent is what the consumers took, in order, then what is buffered;
      nothing is dropped. */
  lemma ChannelKeepsOrder(size: nat, n: nat, steps: seq<ChannelStep>)
    requires ChannelRun(size, n, steps).Some?
    ensures var q := FifoRun(n, ChannelActions(steps));
            && q.Some? && FifoOk(n, q.value) && ChannelShows(ChannelRun(size, n, steps).value, q.value)
            && Sent(steps) == Messages(q.value.taken) + ChannelRun(size, n, steps).value.buf
  {
    ChannelRefinesFifo(size, n, steps);
    FifoLaws(n, ChannelActions(steps));
  }

  /** The list: the same for what was pushed, when every message pushed is sendable. */
  lemma RedisKeepsOrder(n: nat, steps: seq<RedisStep>)
    requires RedisRun(n, steps).Some?
    requires forall i :: 0 <= i < |Pushed(steps)| ==> Sendable(Pushed(steps)[i])
    ensures var q := FifoRun(n, RedisActions(steps));
            && q.Some? && FifoOk(n, q.value)
            && Pushed(steps) == Messages(q.value.taken) + Served(RedisRun(n, steps).value.list)
  {
    RedisRefinesFifo(n, steps);
    FifoLaws(n, RedisActions(steps));
    DecodedExactly(Pushed(steps));
  }
}
