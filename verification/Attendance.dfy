/** Attendance events, their table, and the check-in service on top of it. */
module Attendance {

  import opened Options
  import opened QueueCodec

  /** The identifier of an event, as the text that messages carry. */
  datatype Id = Id(text: Bytes)

  datatype Status = Pending | Processed | Failed

  datatype Event = Event(user: string, device: string, when: int, location: string, imageUrl: string,
                         status: Status, score: Option<real>)

  type Rows = map<Id, Event>

  const FIVE_MINUTES: int := 300_000_000_000

  // ---------------------------------------------------------------- what the statements mean

  predicate OfPair(e: Event, user: string, device: string) {
    e.user == user && e.device == device
  }

  /** The row condition of the deduplication query; its lower end is inclusive. */
  predicate Recent(e: Event, user: string, device: string, window: int, now: int) {
    OfPair(e, user, device) && e.when >= now - window
  }

  predicate NoneRecent(rows: Rows, user: string, device: string, window: int, now: int) {
    forall id :: id in rows ==> !Recent(rows[id], user, device, window, now)
  }

  /** A row the query may answer with: recent, and no recent row is later.  Ties are open. */
  predicate IsLatest(rows: Rows, id: Id, user: string, device: string, window: int, now: int) {
    && id in rows && Recent(rows[id], user, device, window, now)
    && forall other :: other in rows && Recent(rows[other], user, device, window, now) ==>
         rows[other].when <= rows[id].when
  }

  function NewEvent(user: string, device: string, when: int, location: string, imageUrl: string): Event {
    Event(user, device, when, location, imageUrl, Pending, None)
  }

  /** An update without a score keeps the score that is there. */
  function WithStatus(e: Event, status: Status, score: Option<real>): Event {
    e.(status := status, score := if score.Some? then score else e.score)
  }

  function Updated(rows: Rows, id: Id, status: Status, score: Option<real>): Rows {
    if id in rows then rows[id := WithStatus(rows[id], status, score)] else rows
  }

  lemma {:induction false} LatestExists(rows: Rows, from: Id, user: string, device: string, window: int, now: int)
    requires from in rows && Recent(rows[from], user, device, window, now)
    ensures exists id :: IsLatest(rows, id, user, device, window, now)
    decreases |set id | id in rows && Recent(rows[id], user, device, window, now) &&
                        rows[id].when > rows[from].when|
  {
    if !IsLatest(rows, from, user, device, window, now) {
      var later :| later in rows && Recent(rows[later], user, device, window, now) &&
                   rows[later].when > rows[from].when;
      var above := set id | id in rows && Recent(rows[id], user, device, window, now) &&
                            rows[id].when > rows[from].when;
      var aboveLater := set id | id in rows && Recent(rows[id], user, device, window, now) &&
                                 rows[id].when > rows[later].when;
      assert later in above && aboveLater <= above - {later};
      SubsetSmaller(aboveLater, above - {later});
      LatestExists(rows, later, user, device, window, now);
    }
  }

  lemma {:induction false} SubsetSmaller<T>(a: set<T>, b: set<T>)
    requires a <= b
    ensures |a| <= |b|
  {
    if a != {} {
      var x :| x in a;
      SubsetSmaller(a - {x}, b - {x});
    }
  }

  // ---------------------------------------------------------------- the table

  /** `devices` are the registered devices, to which every event refers. */
  class Repository {
    var rows: Rows
    var devices: set<string>

    constructor ()
      ensures rows == map[] && devices == {}
    {
      rows, devices := map[], {};
    }

    /** The foreign key of the event table. */
    ghost predicate Refers()
      reads this
    {
      forall id :: id in rows ==> rows[id].device in devices
    }

    method UpsertDevice(device: string) returns (ok: bool)
      modifies this`devices
      ensures ok == (device != "")
      ensures devices == if ok then old(devices) + {device} else old(devices)
      ensures old(Refers()) ==> Refers()
    {
      if device == "" {
        return false;
      }
      devices := devices + {device};
      return true;
    }

    method RecentEvent(user: string, device: string, window: int, now: int) returns (r: Option<Id>)
      ensures r.None? ==> NoneRecent(rows, user, device, window, now)
      ensures r.Some? ==> IsLatest(rows, r.value, user, device, window, now)
      ensures r.None? <==> forall id :: id in rows ==>
                !(rows[id].user == user && rows[id].device == device && rows[id].when >= now - window)
      ensures r.Some? ==>
                && r.value in rows && rows[r.value].user == user && rows[r.value].device == device
                && rows[r.value].when >= now - window
                && forall id :: id in rows && rows[id].user == user && rows[id].device == device ==>
                     rows[id].when <= rows[r.value].when
    {
      if from :| from in rows && Recent(rows[from], user, device, window, now) {
        LatestExists(rows, from, user, device, window, now);
        var id :| id in rows && IsLatest(rows, id, user, device, window, now);
        return Some(id);
      }
      return None;
    }

    /** `id` is the identifier the library generated; the primary key makes a used one an error,
        and so does the foreign key a device that is not registered. */
    method InsertEvent(evt: Event, id: Id) returns (ok: bool)
      modifies this`rows
      ensures ok == (id !in old(rows) && evt.device in devices)
      ensures rows == if ok then old(rows)[id := evt] else old(rows)
      ensures old(Refers()) ==> Refers()
    {
      if id in rows || evt.device !in devices {
        return false;
      }
      rows := rows[id := evt];
      return true;
    }

    method GetEvent(id: Id) returns (r: Option<Event>)
      ensures r == if id in rows then Some(rows[id]) else None
    {
      if id in rows {
        return Some(rows[id]);
      }
      return None;
    }

    method UpdateEventStatus(id: Id, status: Status, score: Option<real>)
      modifies this`rows
      ensures rows == Updated(old(rows), id, status, score)
      ensures id !in old(rows) ==> rows == old(rows)
      ensures id in old(rows) ==>
                && rows.Keys == old(rows).Keys && (forall other :: other in rows && other != id ==> rows[other] == old(rows)[other])
                && rows[id].status == status
                && rows[id].score == (if score.Some? then score else old(rows)[id].score)
                && rows[id].user == old(rows)[id].user && rows[id].device == old(rows)[id].device
                && rows[id].when == old(rows)[id].when && rows[id].location == old(rows)[id].location
                && rows[id].imageUrl == old(rows)[id].imageUrl
      ensures old(Refers()) ==> Refers()
    {
      if id in rows {
        var kept := if score.Some? then score else rows[id].score;
        rows := rows[id := rows[id].(status := status, score := kept)];
      }
    }
  }

  // ---------------------------------------------------------------- the service

  /** Any two events of one pair lie more than the window apart. */
  ghost predicate Spaced(rows: Rows, window: int) {
    forall a, b :: a in rows && b in rows && a != b && OfPair(rows[a], rows[b].user, rows[b].device) ==>
      rows[a].when > rows[b].when + window || rows[b].when > rows[a].when + window
  }

  datatype CheckInResult = Accepted(id: Id) | Refused

  /** What a check-in that nothing interrupts does: it finds a recent event of its pair, or stores a
      new one if the device is registered and the identifier is not taken. */
  predicate CheckedIn(rows: Rows, rows': Rows, registered: bool, user: string, device: string, evt: Event,
                      window: int, queried: int, id: Id, r: CheckInResult) {
    if user == "" || device == "" then r.Refused? && rows' == rows
    else if !NoneRecent(rows, user, device, window, queried)
    then r.Accepted? && IsLatest(rows, r.id, user, device, window, queried) && rows' == rows
    else if registered && id !in rows then r == Accepted(id) && rows' == rows[id := evt]
    else r.Refused? && rows' == rows
  }

  class Service {
    const repo: Repository
    const dedupWindow: int

    constructor (repo: Repository, window: int)
      ensures this.repo == repo && dedupWindow > 0
      ensures dedupWindow == if window > 0 then window else 5 * 60 * 1_000_000_000
    {
      this.repo := repo;
      this.dedupWindow := if window <= 0 then FIVE_MINUTES else window;
    }

    method RegisterDevice(device: string) returns (ok: bool)
      modifies repo`devices
      ensures ok == (device != "")
      ensures repo.devices == if ok then old(repo.devices) + {device} else old(repo.devices)
    {
      if device == "" {
        return false;
      }
      ok := repo.UpsertDevice(device);
    }

    /** One check-in that nothing interrupts.  `queried` is the time of the query, `now` the
        later time stamped on a new event, `id` the identifier generated for it. */
    method CheckIn(user: string, device: string, location: string, imageUrl: string,
                   queried: int, now: int, id: Id)
      returns (r: CheckInResult)
      requires dedupWindow > 0 && queried <= now
      modifies repo`rows
      ensures CheckedIn(old(repo.rows), repo.rows, device in repo.devices, user, device,
                        NewEvent(user, device, now, location, imageUrl), dedupWindow, queried, id, r)
      // An event of the pair that is recent enough is the answer, the latest of them.
      ensures user != "" && device != "" &&
              (exists other :: other in old(repo.rows) && old(repo.rows)[other].user == user &&
                 old(repo.rows)[other].device == device && old(repo.rows)[other].when >= queried - dedupWindow) ==>
                && repo.rows == old(repo.rows) && r.Accepted? && r.id in repo.rows
                && repo.rows[r.id].user == user && repo.rows[r.id].device == device
                && repo.rows[r.id].when >= queried - dedupWindow
                && forall other :: other in repo.rows ==>
                     || repo.rows[other].user != user || repo.rows[other].device != device
                     || repo.rows[other].when <= repo.rows[r.id].when
      // Otherwise a new event is stored, under the identifier, with what the request says.
      ensures user != "" && device != "" && device in repo.devices && id !in old(repo.rows) &&
              (forall other :: other in old(repo.rows) ==>
                 || old(repo.rows)[other].user != user || old(repo.rows)[other].device != device
                 || old(repo.rows)[other].when < queried - dedupWindow) ==>
                && r == Accepted(id) && repo.rows.Keys == old(repo.rows).Keys + {id}
                && (forall other :: other in old(repo.rows) ==> repo.rows[other] == old(repo.rows)[other])
                && repo.rows[id].user == user && repo.rows[id].device == device && repo.rows[id].when == now
                && repo.rows[id].location == location && repo.rows[id].imageUrl == imageUrl
                && repo.rows[id].status == Pending && repo.rows[id].score == None
      ensures r.Accepted? && r.id in old(repo.rows) ==>
                repo.rows == old(repo.rows) && IsLatest(repo.rows, r.id, user, device, dedupWindow, queried)
      ensures r.Accepted? && r.id !in old(repo.rows) ==>
                && repo.rows == old(repo.rows)[id := NewEvent(user, device, now, location, imageUrl)]
                && r.id == id && NoneRecent(old(repo.rows), user, device, dedupWindow, queried)
      ensures r.Refused? ==> repo.rows == old(repo.rows)
      ensures var clash := (id in old(repo.rows) || device !in repo.devices) &&
                           NoneRecent(old(repo.rows), user, device, dedupWindow, queried);
              r.Refused? <==> (user == "" || device == "" || clash)
      ensures r.Accepted? ==> r.id in repo.rows && Recent(repo.rows[r.id], user, device, dedupWindow, queried)
      ensures old(Spaced(repo.rows, dedupWindow)) ==> Spaced(repo.rows, dedupWindow)
      ensures old(repo.Refers()) ==> repo.Refers()
    {
      if user == "" || device == "" {
        return Refused;
      }
      var recent := repo.RecentEvent(user, device, dedupWindow, queried);
      if recent.Some? {
        return Accepted(recent.value);
      }
      var evt := NewEvent(user, device, now, location, imageUrl);
      var ok := repo.InsertEvent(evt, id);
      if !ok {
        return Refused;
      }
      return Accepted(id);
    }
  }
}
