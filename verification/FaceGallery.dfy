/** The gallery of enrolled faces: one map behind two possible stores.

    Whether Redis is used is decided at the first use and never again.  Each call comes with
    what the outside world answers: whether a first connection would succeed, and what becomes
    of the command of this call in Redis.
 */
module FaceGallery {

  import opened Options
  import opened Similarity

  datatype Record = Record(embedding: Vector, name: Option<string>, enrolledAt: int)

  type Gallery = map<string, Record>

  datatype Client = Unset | Connected | Unavailable

  /** `url` says whether a Redis address is configured. */
  datatype Store = Store(url: bool, client: Client, redis: Gallery, local: Gallery)

  /** `Unheard`: Redis carried the command out, but the reply was lost. */
  datatype Outcome = Done | Refused | Unheard

  datatype Env = Env(reachable: bool, outcome: Outcome)

  datatype Op = Save(user: string, rec: Record) | Load(user: string) | List | Delete(user: string) | Count

  datatype Answer = Saved | Loaded(rec: Option<Record>) | Listed(all: Gallery) | Deleted(found: bool) | Counted(n: nat) | Error

  datatype Call = Call(op: Op, env: Env)

  // ---------------------------------------------------------------- two stores

  /** The connection attempt, made only while nothing is decided. */
  function Latch(s: Store, env: Env): Store {
    if s.client.Unset? && s.url then s.(client := if env.reachable then Connected else Unavailable) else s
  }

  function OnMap(m: Gallery, op: Op): (Gallery, Answer) {
    match op
    case Save(user, rec) => (m[user := rec], Saved)
    case Load(user) => (m, Loaded(if user in m then Some(m[user]) else None))
    case List => (m, Listed(m))
    case Delete(user) => (m - {user}, Deleted(user in m))
    case Count => (m, Counted(|m|))
  }

  function Apply(s: Store, c: Call): (Store, Answer) {
    var t := Latch(s, c.env);
    if t.client.Connected? then
      if c.env.outcome.Refused? then (t, Error)
      else var (m, a) := OnMap(t.redis, c.op); (t.(redis := m), if c.env.outcome.Unheard? then Error else a)
    else var (m, a) := OnMap(t.local, c.op); (t.(local := m), a)
  }

  function Run(s: Store, calls: seq<Call>): Store {
    if calls == [] then s else Apply(Run(s, calls[..|calls| - 1]), calls[|calls| - 1]).0
  }

  function Answers(s: Store, calls: seq<Call>): seq<Answer> {
    if calls == [] then []
    else
      var n := |calls| - 1;
      Answers(s, calls[..n]) + [Apply(Run(s, calls[..n]), calls[n]).1]
  }

  // ---------------------------------------------------------------- one map

  /** One map on which some commands fail, with or without effect. */
  function OnMapOrFail(m: Gallery, redis: bool, c: Call): (Gallery, Answer) {
    if redis && c.env.outcome.Refused? then (m, Error)
    else var (m', a) := OnMap(m, c.op); (m', if redis && c.env.outcome.Unheard? then Error else a)
  }

  function MapRun(m: Gallery, redis: bool, calls: seq<Call>): Gallery {
    if calls == [] then m else OnMapOrFail(MapRun(m, redis, calls[..|calls| - 1]), redis, calls[|calls| - 1]).0
  }

  function MapAnswers(m: Gallery, redis: bool, calls: seq<Call>): seq<Answer> {
    if calls == [] then []
    else
      var n := |calls| - 1;
      MapAnswers(m, redis, calls[..n]) + [OnMapOrFail(MapRun(m, redis, calls[..n]), redis, calls[n]).1]
  }

  /** A process that has just started. */
  predicate Fresh(s: Store) {
    s.client.Unset? && s.local == map[]
  }

  /** What the first call decides. */
  predicate UsesRedis(s: Store, calls: seq<Call>) {
    s.url && calls != [] && calls[0].env.reachable
  }

  function Chosen(s: Store, calls: seq<Call>): Gallery {
    if UsesRedis(s, calls) then s.redis else s.local
  }

  /** Every run behaves as one map chosen at the first call; the other store is never touched. */
  lemma {:induction false} RefinesOneMap(s: Store, calls: seq<Call>)
    requires Fresh(s) && calls != []
    ensures var redis, end := UsesRedis(s, calls), Run(s, calls);
            && Answers(s, calls) == MapAnswers(Chosen(s, calls), redis, calls)
            && end.client == (if !s.url then Unset else if redis then Connected else Unavailable)
            && end.url == s.url
            && (if redis then end.redis == MapRun(s.redis, true, calls) && end.local == map[]
                else end.local == MapRun(map[], false, calls) && end.redis == s.redis)
  {
    var n := |calls| - 1;
    var front := calls[..n];
    if n == 0 {
      assert front == [];
    } else {
      RefinesOneMap(s, front);
    }
  }

  function Lookup(m: Gallery, user: string): Option<Record> {
    if user in m then Some(m[user]) else None
  }

  predicate Writes(op: Op, user: string) {
    (op.Save? || op.Delete?) && op.user == user
  }

  lemma {:induction false} OthersLeaveIt(m: Gallery, redis: bool, calls: seq<Call>, later: seq<Call>, user: string)
    requires forall i :: 0 <= i < |later| ==> !Writes(later[i].op, user)
    ensures Lookup(MapRun(m, redis, calls + later), user) == Lookup(MapRun(m, redis, calls), user)
  {
    if later == [] {
      assert calls + later == calls;
    } else {
      var n := |later| - 1;
      OthersLeaveIt(m, redis, calls, later[..n], user);
      assert (calls + later)[..|calls| + n] == calls + later[..n];
    }
  }

  lemma MapRunMore(m: Gallery, redis: bool, calls: seq<Call>, c: Call)
    ensures MapRun(m, redis, calls + [c]) == OnMapOrFail(MapRun(m, redis, calls), redis, c).0
  {
    assert (calls + [c])[..|calls|] == calls;
  }

  /** The answer to a load. */
  function LoadOf(s: Store, env: Env, user: string): Answer {
    Apply(s, Call(Load(user), env)).1
  }

  lemma LoadReadsTheMap(s: Store, calls: seq<Call>, user: string, env: Env)
    requires Fresh(s) && calls != [] && (UsesRedis(s, calls) ==> env.outcome.Done?)
    ensures LoadOf(Run(s, calls), env, user)
         == Loaded(Lookup(MapRun(Chosen(s, calls), UsesRedis(s, calls), calls), user))
  {
    RefinesOneMap(s, calls);
  }

  lemma SavedIsThere(m: Gallery, redis: bool, calls: seq<Call>, user: string, rec: Record, env: Env)
    requires redis ==> !env.outcome.Refused?
    ensures Lookup(MapRun(m, redis, calls + [Call(Save(user, rec), env)]), user) == Some(rec)
  {
    MapRunMore(m, redis, calls, Call(Save(user, rec), env));
  }

  /** Reading a user gives what was last saved for that user, whatever happened before the save
      and whatever other calls were made since. */
  lemma ReadYourWrites(s: Store, calls: seq<Call>, user: string, rec: Record, env: Env, later: seq<Call>, env': Env)
    requires Fresh(s)
    requires UsesRedis(s, calls + [Call(Save(user, rec), env)]) ==>
               !env.outcome.Refused? && env'.outcome.Done?
    requires forall i :: 0 <= i < |later| ==> !Writes(later[i].op, user)
    ensures LoadOf(Run(s, calls + [Call(Save(user, rec), env)] + later), env', user) == Loaded(Some(rec))
  {
    var saved := calls + [Call(Save(user, rec), env)];
    assert (saved + later)[0] == saved[0];
    LoadReadsTheMap(s, saved + later, user, env');
    OthersLeaveIt(Chosen(s, saved + later), UsesRedis(s, saved + later), saved, later, user);
    SavedIsThere(Chosen(s, saved + later), UsesRedis(s, saved + later), calls, user, rec, env);
  }

  // ---------------------------------------------------------------- loads tell everything

  /** A save changes the load of its user and no other. */
  lemma SaveShowsInLoads(s: Store, env: Env, user: string, rec: Record, other: string)
    requires env.outcome.Done? && other != user
    ensures var saved := Apply(s, Call(Save(user, rec), env));
            && saved.1 == Saved && LoadOf(saved.0, env, user) == Loaded(Some(rec))
            && LoadOf(saved.0, env, other) == LoadOf(s, env, other)
  {
  }

  /** A deletion finds what a load gives, and empties the load of its user and no other. */
  lemma DeleteShowsInLoads(s: Store, env: Env, user: string, other: string)
    requires env.outcome.Done? && other != user
    ensures var deleted := Apply(s, Call(Delete(user), env));
            && deleted.1 == Deleted(LoadOf(s, env, user) != Loaded(None))
            && LoadOf(deleted.0, env, user) == Loaded(None)
            && LoadOf(deleted.0, env, other) == LoadOf(s, env, other)
  {
  }

  /** The list holds for each user what a load gives. */
  lemma ListShowsLoads(s: Store, env: Env, user: string)
    requires env.outcome.Done?
    ensures var list := Apply(s, Call(List, env)).1;
            list.Listed? && LoadOf(s, env, user) == Loaded(if user in list.all then Some(list.all[user]) else None)
  {
  }

  /** The count is the number of users whose load gives something. */
  lemma CountCountsLoads(s: Store, env: Env, users: set<string>)
    requires env.outcome.Done?
    requires forall u :: u in users <==> LoadOf(s, env, u) != Loaded(None)
    ensures Apply(s, Call(Count, env)).1 == Counted(|users|)
  {
    var m := if Latch(s, env).client.Connected? then s.redis else s.local;
    forall u ensures u in users <==> u in m.Keys {
      assert LoadOf(s, env, u) == Loaded(Lookup(m, u));
    }
    assert users == m.Keys;
  }

  // ---------------------------------------------------------------- requests

  /** `probe` is the embedding and quality extracted from the photo, None if that failed; a
      search or an identification also gives up before it uses the gallery if its photo yields
      no embedding. */
  datatype Request =
    | Enroll(user: string, probe: Option<(Vector, real)>, name: Option<string>, at: int)
    | Unenroll(user: string)
    | Search(extracted: bool)
    | Verify(user: string)
    | ListGallery
    | Health

  datatype Served = Served(req: Request, env: Env)

  /** The quality gate. */
  predicate Passes(req: Request, gate: real) {
    req.Enroll? && req.probe.Some? && req.probe.value.1 >= gate
  }

  function Stored(req: Request): Record
    requires req.Enroll? && req.probe.Some?
  {
    Record(req.probe.value.0, req.name, req.at)
  }

  /** The gallery command a request leads to, if any. */
  function Command(req: Request, gate: real): Option<Op> {
    match req
    case Enroll(user, _, _, _) => if Passes(req, gate) then Some(Save(user, Stored(req))) else None
    case Unenroll(user) => Some(Delete(user))
    case Search(extracted) => if extracted then Some(List) else None
    case Verify(user) => Some(Load(user))
    case ListGallery => Some(List)
    case Health => Some(Count)
  }

  function Commands(rs: seq<Served>, gate: real): seq<Call> {
    if rs == [] then []
    else
      var r := rs[|rs| - 1];
      Commands(rs[..|rs| - 1], gate) +
      match Command(r.req, gate) {
        case None => []
        case Some(op) => [Call(op, r.env)]
      }
  }

  /** The request saves a record for the user. */
  predicate Enrols(r: Served, gate: real, redis: bool, user: string) {
    r.req.Enroll? && r.req.user == user && Passes(r.req, gate) && (redis ==> !r.env.outcome.Refused?)
  }

  predicate Removes(r: Served, redis: bool, user: string) {
    r.req.Unenroll? && r.req.user == user && (redis ==> !r.env.outcome.Refused?)
  }

  /** The record of the last successful enrolment of a user, unless it was removed since; `was`
      if there was neither. */
  function LastEnrolled(was: Option<Record>, rs: seq<Served>, gate: real, redis: bool, user: string): Option<Record> {
    if rs == [] then was
    else
      var r := rs[|rs| - 1];
      if Enrols(r, gate, redis, user) then Some(Stored(r.req))
      else if Removes(r, redis, user) then None
      else LastEnrolled(was, rs[..|rs| - 1], gate, redis, user)
  }

  lemma CommandOnMap(m: Gallery, redis: bool, r: Served, gate: real, user: string)
    requires Command(r.req, gate).Some?
    ensures var m' := OnMapOrFail(m, redis, Call(Command(r.req, gate).value, r.env)).0;
            Lookup(m', user) == if Enrols(r, gate, redis, user) then Some(Stored(r.req))
                                else if Removes(r, redis, user) then None else Lookup(m, user)
  {
  }

  lemma {:induction false} LastEnrolmentWinsOnMap(m: Gallery, rs: seq<Served>, gate: real, redis: bool, user: string)
    ensures Lookup(MapRun(m, redis, Commands(rs, gate)), user) == LastEnrolled(Lookup(m, user), rs, gate, redis, user)
  {
    if rs != [] {
      var front, r := rs[..|rs| - 1], rs[|rs| - 1];
      LastEnrolmentWinsOnMap(m, front, gate, redis, user);
      var before := MapRun(m, redis, Commands(front, gate));
      match Command(r.req, gate) {
        case None => assert Commands(rs, gate) == Commands(front, gate);
        case Some(op) =>
          MapRunMore(m, redis, Commands(front, gate), Call(op, r.env));
          CommandOnMap(before, redis, r, gate, user);
      }
    }
  }

  /** The gallery that a run of calls has used. */
  function InUse(s: Store, calls: seq<Call>): Gallery {
    if UsesRedis(s, calls) then Run(s, calls).redis else Run(s, calls).local
  }

  /** After any requests of any kind to a fresh process, whichever of them decided the store, the
      gallery in use holds for each user the last successful enrolment, or what Redis held
      before; all other requests, and those refused by the gate or by Redis, change nothing. */
  lemma LastEnrolmentWins(s: Store, rs: seq<Served>, gate: real, user: string)
    requires Fresh(s)
    ensures var calls := Commands(rs, gate);
            Lookup(InUse(s, calls), user)
            == LastEnrolled(Lookup(Chosen(s, calls), user), rs, gate, UsesRedis(s, calls), user)
  {
    var calls := Commands(rs, gate);
    if calls != [] {
      RefinesOneMap(s, calls);
    }
    LastEnrolmentWinsOnMap(Chosen(s, calls), rs, gate, UsesRedis(s, calls), user);
  }

  lemma {:induction false} LastEnrolledPassed(was: Option<Record>, rs: seq<Served>, gate: real, redis: bool, user: string)
    ensures var last := LastEnrolled(was, rs, gate, redis, user);
            last == was || last == None ||
            exists i :: 0 <= i < |rs| && Enrols(rs[i], gate, redis, user) && last == Some(Stored(rs[i].req))
  {
    if rs != [] {
      var n := |rs| - 1;
      LastEnrolledPassed(was, rs[..n], gate, redis, user);
      assert forall i :: 0 <= i < n ==> rs[..n][i] == rs[i];
    }
  }

  /** The request enrols the user with that record, and its quality is at least the gate. */
  predicate EnrolledBy(req: Request, gate: real, user: string, rec: Record) {
    && req.Enroll? && req.user == user && req.probe.Some? && req.probe.value.1 >= gate
    && rec.embedding == req.probe.value.0 && rec.name == req.name && rec.enrolledAt == req.at
  }

  /** Whatever the gallery in use holds after any requests was in Redis before, or was enrolled by
      a request of that user that passed the quality gate. */
  lemma EveryEntryPassed(s: Store, rs: seq<Served>, gate: real, user: string)
    requires Fresh(s) && user in InUse(s, Commands(rs, gate))
    ensures var calls := Commands(rs, gate);
            var rec := InUse(s, calls)[user];
            || (UsesRedis(s, calls) && user in s.redis && s.redis[user] == rec)
            || exists i :: 0 <= i < |rs| && Enrols(rs[i], gate, UsesRedis(s, calls), user) && EnrolledBy(rs[i].req, gate, user, rec)
  {
    var calls := Commands(rs, gate);
    LastEnrolmentWins(s, rs, gate, user);
    LastEnrolledPassed(Lookup(Chosen(s, calls), user), rs, gate, UsesRedis(s, calls), user);
  }

  lemma {:induction false} CommandsConcat(a: seq<Served>, b: seq<Served>, gate: real)
    ensures Commands(a + b, gate) == Commands(a, gate) + Commands(b, gate)
  {
    if b == [] {
      assert a + b == a;
    } else {
      CommandsConcat(a, b[..|b| - 1], gate);
      assert (a + b)[..|a + b| - 1] == a + b[..|b| - 1];
    }
  }

  lemma CommandsOfOne(r: Served, gate: real)
    ensures Commands([r], gate) ==
              match Command(r.req, gate) { case None => [] case Some(op) => [Call(op, r.env)] }
  {
    assert [r][..0] == [];
  }

  /** The request may change what is stored for the user: an enrolment whose quality is at least
      the gate, or a removal. */
  predicate Touches(req: Request, gate: real, user: string) {
    || (req.Enroll? && req.user == user && req.probe.Some? && req.probe.value.1 >= gate)
    || (req.Unenroll? && req.user == user)
  }

  lemma {:induction false} OthersDoNotWrite(rs: seq<Served>, gate: real, user: string)
    requires forall i :: 0 <= i < |rs| ==> !Touches(rs[i].req, gate, user)
    ensures forall i :: 0 <= i < |Commands(rs, gate)| ==> !Writes(Commands(rs, gate)[i].op, user)
  {
    if rs != [] {
      OthersDoNotWrite(rs[..|rs| - 1], gate, user);
    }
  }

  /** Whatever was requested before, an enrolment whose quality is at least the gate makes every
      load of that user give exactly its embedding, name and time, until the user is enrolled
      again or removed. */
  lemma {:induction false} EnrolmentIsLoaded(s: Store, before: seq<Served>, user: string, embedding: Vector, quality: real,
                          name: Option<string>, at: int, env: Env, later: seq<Served>, gate: real, env': Env)
    requires Fresh(s) && quality >= gate
    requires UsesRedis(s, Commands(before + [Served(Enroll(user, Some((embedding, quality)), name, at), env)], gate)) ==>
               !env.outcome.Refused? && env'.outcome.Done?
    requires forall i :: 0 <= i < |later| ==> !Touches(later[i].req, gate, user)
    ensures var r := Served(Enroll(user, Some((embedding, quality)), name, at), env);
            LoadOf(Run(s, Commands(before + [r] + later, gate)), env', user)
            == Loaded(Some(Record(embedding, name, at)))
  {
    var r := Served(Enroll(user, Some((embedding, quality)), name, at), env);
    CommandsConcat(before + [r], later, gate);
    CommandsConcat(before, [r], gate);
    CommandsOfOne(r, gate);
    OthersDoNotWrite(later, gate, user);
    ReadYourWrites(s, Commands(before, gate), user, Record(embedding, name, at), env, Commands(later, gate), env');
  }

  /** An enrolment without a face, or whose quality is below the gate, changes no later answer. */
  lemma RefusedEnrolmentChangesNothing(s: Store, before: seq<Served>, user: string, probe: Option<(Vector, real)>,
                                       name: Option<string>, at: int, env: Env, gate: real, user': string, env': Env)
    requires probe.None? || probe.value.1 < gate
    ensures var r := Served(Enroll(user, probe, name, at), env);
            && Run(s, Commands(before + [r], gate)) == Run(s, Commands(before, gate))
            && LoadOf(Run(s, Commands(before + [r], gate)), env', user') == LoadOf(Run(s, Commands(before, gate)), env', user')
  {
    var r := Served(Enroll(user, probe, name, at), env);
    CommandsConcat(before, [r], gate);
    CommandsOfOne(r, gate);
    assert Commands(before + [r], gate) == Commands(before, gate);
  }

  // ---------------------------------------------------------------- the module's globals

  class FaceStore {
    const url: bool
    var client: Client
    var redis: Gallery
    var local: Gallery

    ghost function State(): Store
      reads this
    {
      Store(url, client, redis, local)
    }

    /** `redis` is whatever the Redis hash already holds. */
    constructor (url: bool, redis: Gallery)
      ensures Fresh(State()) && State().url == url && State().redis == redis
    {
      this.url := url;
      this.client := Unset;
      this.redis := redis;
      this.local := map[];
    }

    method GetRedis(env: Env) returns (usable: bool)
      modifies this`client
      ensures State() == Latch(old(State()), env) && usable == client.Connected?
    {
      if client.Unset? && url {
        if env.reachable {
          client := Connected;
        } else {
          client := Unavailable;
        }
      }
      return client.Connected?;
    }

    method SaveToGallery(user: string, rec: Record, env: Env) returns (ok: bool)
      modifies this
      ensures State() == Apply(old(State()), Call(Save(user, rec), env)).0
      ensures ok == Apply(old(State()), Call(Save(user, rec), env)).1.Saved?
    {
      var r := GetRedis(env);
      if r {
        if env.outcome.Refused? {
          return false;
        }
        redis := redis[user := rec];
        return env.outcome.Done?;
      } else {
        local := local[user := rec];
      }
      return true;
    }

    method LoadFromGallery(user: string, env: Env) returns (a: Answer)
      modifies this
      ensures (State(), a) == Apply(old(State()), Call(Load(user), env))
    {
      var r := GetRedis(env);
      if r {
        if !env.outcome.Done? {
          return Error;
        }
        return Loaded(if user in redis then Some(redis[user]) else None);
      }
      return Loaded(if user in local then Some(local[user]) else None);
    }

    method DeleteFromGallery(user: string, env: Env) returns (a: Answer)
      modifies this
      ensures (State(), a) == Apply(old(State()), Call(Delete(user), env))
    {
      var r := GetRedis(env);
      if r {
        if env.outcome.Refused? {
          return Error;
        }
        a := if env.outcome.Done? then Deleted(user in redis) else Error;
        redis := redis - {user};
        return;
      }
      if user in local {
        local := local - {user};
        return Deleted(true);
      }
      assert local - {user} == local;
      return Deleted(false);
    }

    method GetAllGallery(env: Env) returns (a: Answer)
      modifies this
      ensures (State(), a) == Apply(old(State()), Call(List, env))
    {
      var r := GetRedis(env);
      if r {
        if !env.outcome.Done? {
          return Error;
        }
        return Listed(redis);
      }
      return Listed(local);
    }

    /** The gallery size of the health endpoint. */
    method GallerySize(env: Env) returns (a: Answer)
      modifies this
      ensures (State(), a) == Apply(old(State()), Call(Count, env))
    {
      var r := GetRedis(env);
      if r {
        if !env.outcome.Done? {
          return Error;
        }
        return Counted(|redis|);
      }
      return Counted(|local|);
    }

    /** One enrolment request. */
    method Enrol(req: Request, gate: real, env: Env) returns (success: bool)
      requires req.Enroll?
      modifies this
      ensures req.probe.None? || req.probe.value.1 < gate ==> !success && State() == old(State())
      ensures req.probe.Some? && req.probe.value.1 >= gate ==>
                var saved := Apply(old(State()), Call(Save(req.user, Record(req.probe.value.0, req.name, req.at)), env));
                State() == saved.0 && success == saved.1.Saved?
      ensures success ==>
                LoadOf(State(), env, req.user) == Loaded(Some(Record(req.probe.value.0, req.name, req.at)))
    {
      if req.probe.None? {
        return false;
      }
      var (embedding, quality) := req.probe.value;
      if quality < gate {
        return false;
      }
      success := SaveToGallery(req.user, Record(embedding, req.name, req.at), env);
    }
  }
}
