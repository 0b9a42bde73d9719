/** What the listing query may return, and when successive pages fit together.

    The order is by time alone, so a database may arrange rows of equal time differently in
    each answer.
 */
module EventPaging {

  import opened Ordering
  import opened Sequences
  import opened Attendance
  import opened EventListing

  // ---------------------------------------------------------------- pages of rows with a time

  ghost predicate NewestFirst<T>(s: seq<T>, time: T -> int) {
    forall i, j :: 0 <= i < j < |s| ==> time(s[i]) >= time(s[j])
  }

  /** An order in which a database may list the rows. */
  ghost predicate Arranges<T>(ord: seq<T>, rows: seq<T>, time: T -> int) {
    multiset(ord) == multiset(rows) && NewestFirst(ord, time)
  }

  function Page<T>(s: seq<T>, limit: nat, offset: nat): seq<T> {
    if offset >= |s| then [] else if offset + limit >= |s| then s[offset..] else s[offset..offset + limit]
  }

  ghost predicate PageOfSome<T(!new)>(res: seq<T>, rows: seq<T>, time: T -> int, limit: nat, offset: nat) {
    exists ord :: Arranges(ord, rows, time) && res == Page(ord, limit, offset)
  }

  /** Rows of the same time are the same row. */
  ghost predicate TimesTell<T(!new)>(m: multiset<T>, time: T -> int) {
    forall x, y :: x in m && y in m && time(x) == time(y) ==> x == y
  }

  lemma HeadsAgree<T(!new)>(a: seq<T>, b: seq<T>, time: T -> int)
    requires NewestFirst(a, time) && NewestFirst(b, time) && a != [] && b != []
    requires multiset(a) == multiset(b) && TimesTell(multiset(a), time)
    ensures a[0] == b[0]
  {
    assert a[0] in multiset(b) && b[0] in multiset(a);
    assert a[0] in b && b[0] in a;
  }

  lemma SameLength<T>(a: seq<T>, b: seq<T>)
    requires multiset(a) == multiset(b)
    ensures |a| == |b|
  {
    assert |a| == |multiset(a)| && |b| == |multiset(b)|;
  }

  ghost predicate SameTold<T(!new)>(a: seq<T>, b: seq<T>, time: T -> int) {
    && NewestFirst(a, time) && NewestFirst(b, time)
    && multiset(a) == multiset(b) && TimesTell(multiset(a), time)
  }

  lemma TailsToo<T(!new)>(a: seq<T>, b: seq<T>, time: T -> int)
    requires SameTold(a, b, time) && a != [] && b != []
    ensures a[0] == b[0] && SameTold(a[1..], b[1..], time)
  {
    HeadsAgree(a, b, time);
    TailMultiset(a);
    TailMultiset(b);
  }

  lemma SameHeadAndTail<T>(a: seq<T>, b: seq<T>)
    requires a != [] && b != [] && a[0] == b[0] && a[1..] == b[1..]
    ensures a == b
  {
  }

  lemma {:induction false} ArrangementUnique<T(!new)>(a: seq<T>, b: seq<T>, time: T -> int)
    requires SameTold(a, b, time)
    ensures a == b
  {
    SameLength(a, b);
    if a != [] {
      TailsToo(a, b, time);
      ArrangementUnique(a[1..], b[1..], time);
      SameHeadAndTail(a, b);
    }
  }

  function Concat<T>(pages: seq<seq<T>>): seq<T> {
    if pages == [] then [] else Concat(pages[..|pages| - 1]) + pages[|pages| - 1]
  }

  lemma NextPage<T>(ord: seq<T>, limit: nat, offset: nat)
    ensures Take(ord, offset) + Page(ord, limit, offset) == Take(ord, offset + limit)
  {
  }

  /** When times tell rows apart every answer is a page of the same order. */
  lemma PageOfTheOrder<T(!new)>(rows: seq<T>, time: T -> int, ord: seq<T>, page: seq<T>, limit: nat, offset: nat)
    requires TimesTell(multiset(rows), time) && Arranges(ord, rows, time)
    requires PageOfSome(page, rows, time, limit, offset)
    ensures page == Page(ord, limit, offset)
  {
    var own :| Arranges(own, rows, time) && page == Page(own, limit, offset);
    ArrangementUnique(own, ord, time);
  }

  /** The offset of page number n. */
  function OffsetOf(n: nat, limit: nat): nat {
    if n == 0 then 0 else OffsetOf(n - 1, limit) + limit
  }

  /** The n pages that start a listing. */
  ghost predicate StartsListing<T(!new)>(pages: seq<seq<T>>, rows: seq<T>, time: T -> int, limit: nat) {
    forall i :: 0 <= i < |pages| ==> PageOfSome(pages[i], rows, time, limit, OffsetOf(i, limit))
  }

  /** When times tell the rows apart, successive pages, each answered in its own way, list
      the rows once each, in order, without gaps. */
  lemma {:induction false} PagesTile<T(!new)>(rows: seq<T>, time: T -> int, ord: seq<T>, limit: nat, pages: seq<seq<T>>)
    requires TimesTell(multiset(rows), time) && Arranges(ord, rows, time) && StartsListing(pages, rows, time, limit)
    ensures Concat(pages) == Take(ord, OffsetOf(|pages|, limit))
  {
    if pages != [] {
      var n := |pages| - 1;
      PagesTile(rows, time, ord, limit, pages[..n]);
      PageOfTheOrder(rows, time, ord, pages[n], limit, OffsetOf(n, limit));
      NextPage(ord, limit, OffsetOf(n, limit));
    }
  }

  // ---------------------------------------------------------------- pages that repeat a row

  function InsertByTime<T>(x: T, s: seq<T>, time: T -> int): (r: seq<T>)
    ensures multiset(r) == multiset(s) + multiset{x}
  {
    if s == [] || time(s[0]) <= time(x) then [x] + s
    else
      assert s == [s[0]] + s[1..];
      [s[0]] + InsertByTime(x, s[1..], time)
  }

  function SortByTime<T>(s: seq<T>, time: T -> int): (r: seq<T>)
    ensures multiset(r) == multiset(s)
  {
    if s == [] then []
    else
      assert s == [s[0]] + s[1..];
      InsertByTime(s[0], SortByTime(s[1..], time), time)
  }

  lemma {:induction false} InsertKeepsOrder<T>(x: T, s: seq<T>, time: T -> int)
    requires NewestFirst(s, time)
    ensures NewestFirst(InsertByTime(x, s, time), time)
  {
    if s != [] && time(s[0]) > time(x) {
      var rest := InsertByTime(x, s[1..], time);
      InsertKeepsOrder(x, s[1..], time);
      forall j | 0 <= j < |rest| ensures time(s[0]) >= time(rest[j]) {
        assert rest[j] in multiset(rest);
        assert rest[j] == x || rest[j] in s[1..];
      }
    }
  }

  lemma {:induction false} SortIsOrdered<T>(s: seq<T>, time: T -> int)
    ensures NewestFirst(SortByTime(s, time), time)
  {
    if s != [] {
      SortIsOrdered(s[1..], time);
      InsertKeepsOrder(s[0], SortByTime(s[1..], time), time);
    }
  }

  function Newer<T>(s: seq<T>, time: T -> int, t: int): (p: nat)
    ensures p <= |s|
  {
    if s == [] || time(s[0]) <= t then 0 else 1 + Newer(s[1..], time, t)
  }

  lemma ShiftSplit<T>(s: seq<T>, p: nat, x: T)
    requires s != [] && p <= |s[1..]|
    ensures [s[0]] + (s[1..][..p] + [x] + s[1..][p..]) == s[..p + 1] + [x] + s[p + 1..]
  {
  }

  lemma {:induction false} InsertAt<T>(x: T, s: seq<T>, time: T -> int)
    ensures var p := Newer(s, time, time(x));
            && InsertByTime(x, s, time) == s[..p] + [x] + s[p..]
  {
    if s != [] && time(s[0]) > time(x) {
      InsertAt(x, s[1..], time);
      ShiftSplit(s, Newer(s[1..], time, time(x)), x);
    }
  }

  lemma {:induction false} NewerAfterInsert<T>(y: T, s: seq<T>, time: T -> int)
    ensures Newer(InsertByTime(y, s, time), time, time(y)) == Newer(s, time, time(y))
  {
    if s != [] && time(s[0]) > time(y) {
      NewerAfterInsert(y, s[1..], time);
      assert InsertByTime(y, s, time)[1..] == InsertByTime(y, s[1..], time);
    }
  }

  lemma InsertBetween<T>(front: seq<T>, x: T, y: T, back: seq<T>)
    ensures var mid, p := front + [y] + back, |front|;
            mid[..p] + [x] + mid[p..] == front + ([x, y] + back)
  {
  }

  /** Of two rows of the same time, the one inserted last comes right before the other. */
  lemma InsertTwo<T>(x: T, y: T, s: seq<T>, time: T -> int)
    requires time(x) == time(y)
    ensures var p := Newer(s, time, time(x));
            InsertByTime(x, InsertByTime(y, s, time), time) == s[..p] + ([x, y] + s[p..])
  {
    var p := Newer(s, time, time(x));
    InsertAt(y, s, time);
    NewerAfterInsert(y, s, time);
    InsertAt(x, InsertByTime(y, s, time), time);
    InsertBetween(s[..p], x, y, s[p..]);
  }

  /** Two answers that together list some row more often than the table holds it. */
  ghost predicate Repeats<T(!new)>(rows: seq<T>, time: T -> int, limit: nat) {
    exists a, b :: PageOfSome(a, rows, time, limit, 0) && PageOfSome(b, rows, time, limit, limit) &&
      !(multiset(a + b) <= multiset(rows))
  }

  lemma WithoutTwo<T>(rows: seq<T>, i: nat, j: nat)
    requires i < j < |rows|
    ensures multiset(rows) == multiset(rows[..i] + rows[i + 1..j] + rows[j + 1..]) + multiset{rows[i], rows[j]}
  {
    assert rows == rows[..i] + [rows[i]] + rows[i + 1..j] + [rows[j]] + rows[j + 1..];
  }

  lemma InsertBothArranges<T>(rows: seq<T>, time: T -> int, x: T, y: T, rest: seq<T>)
    requires time(x) == time(y) && multiset(rows) == multiset(rest) + multiset{x, y}
    ensures var s := SortByTime(rest, time);
            var p := Newer(s, time, time(x));
            Arranges(s[..p] + ([x, y] + s[p..]), rows, time)
  {
    var s := SortByTime(rest, time);
    SortIsOrdered(rest, time);
    InsertKeepsOrder(y, s, time);
    InsertKeepsOrder(x, InsertByTime(y, s, time), time);
    InsertTwo(x, y, s, time);
  }

  lemma OverlappingPages<T>(front: seq<T>, x: T, y: T, back: seq<T>)
    ensures var p := |front|;
            && Page(front + ([x, y] + back), p + 1, 0) == front + [x]
            && Page(front + ([y, x] + back), p + 1, p + 1) != []
            && Page(front + ([y, x] + back), p + 1, p + 1)[0] == x
  {
  }

  lemma ListedTwice<T>(front: seq<T>, x: T, b: seq<T>)
    requires b != [] && b[0] == x
    ensures multiset(front + [x] + b)[x] >= 2
  {
  }

  lemma AnswerOf<T(!new)>(ord: seq<T>, rows: seq<T>, time: T -> int, limit: nat, offset: nat)
    requires Arranges(ord, rows, time)
    ensures PageOfSome(Page(ord, limit, offset), rows, time, limit, offset)
  {
  }

  lemma RepeatsWhen<T(!new)>(rows: seq<T>, time: T -> int, limit: nat, a: seq<T>, b: seq<T>, x: T)
    requires PageOfSome(a, rows, time, limit, 0) && PageOfSome(b, rows, time, limit, limit)
    requires multiset(a + b)[x] > multiset(rows)[x]
    ensures Repeats(rows, time, limit)
  {
  }

  lemma TieRepeatsAt<T(!new)>(rows: seq<T>, time: T -> int, front: seq<T>, x: T, y: T, back: seq<T>)
    requires Distinct(rows)
    requires Arranges(front + ([x, y] + back), rows, time) && Arranges(front + ([y, x] + back), rows, time)
    ensures Repeats(rows, time, |front| + 1)
  {
    var limit := |front| + 1;
    var a, b := Page(front + ([x, y] + back), limit, 0), Page(front + ([y, x] + back), limit, limit);
    AnswerOf(front + ([x, y] + back), rows, time, limit, 0);
    AnswerOf(front + ([y, x] + back), rows, time, limit, limit);
    OverlappingPages(front, x, y, back);
    ListedTwice(front, x, b);
    DistinctCounts(rows, x);
    RepeatsWhen(rows, time, limit, a, b, x);
  }

  lemma TieRepeats<T(!new)>(rows: seq<T>, time: T -> int, x: T, y: T, rest: seq<T>)
    requires Distinct(rows) && time(x) == time(y) && multiset(rows) == multiset(rest) + multiset{x, y}
    ensures exists limit: nat :: limit >= 1 && Repeats(rows, time, limit)
  {
    var s := SortByTime(rest, time);
    var p := Newer(s, time, time(x));
    InsertBothArranges(rows, time, x, y, rest);
    InsertBothArranges(rows, time, y, x, rest);
    TieRepeatsAt(rows, time, s[..p], x, y, s[p..]);
  }

  lemma TwoPages<T>(ord: seq<T>, limit: nat)
    ensures multiset(Page(ord, limit, 0) + Page(ord, limit, limit)) <= multiset(ord)
  {
    var both := Page(ord, limit, 0) + Page(ord, limit, limit);
    assert both == Take(ord, limit + limit);
    assert ord == both + ord[|both|..];
  }

  lemma TwoPagesNeverRepeat<T(!new)>(rows: seq<T>, time: T -> int, limit: nat, a: seq<T>, b: seq<T>)
    requires TimesTell(multiset(rows), time)
    requires PageOfSome(a, rows, time, limit, 0) && PageOfSome(b, rows, time, limit, limit)
    ensures multiset(a + b) <= multiset(rows)
  {
    var ord :| Arranges(ord, rows, time) && a == Page(ord, limit, 0);
    PageOfTheOrder(rows, time, ord, b, limit, limit);
    TwoPages(ord, limit);
  }

  lemma PositionsOf<T>(rows: seq<T>, x: T, y: T) returns (i: nat, j: nat)
    requires x in rows && y in rows && x != y
    ensures i < j < |rows| && multiset{rows[i], rows[j]} == multiset{x, y}
  {
    i :| 0 <= i < |rows| && rows[i] == x;
    j :| 0 <= j < |rows| && rows[j] == y;
    if j < i {
      i, j := j, i;
    }
  }

  /** Reading two pages never repeats a row, whatever the page size, exactly when no two of the
      rows share a time. */
  lemma PagingIsSafeExactlyFor<T(!new)>(rows: seq<T>, time: T -> int)
    requires Distinct(rows)
    ensures (forall limit: nat :: limit >= 1 ==> !Repeats(rows, time, limit)) <==> TimesTell(multiset(rows), time)
  {
    if TimesTell(multiset(rows), time) {
      forall limit: nat, a, b |
        PageOfSome(a, rows, time, limit, 0) && PageOfSome(b, rows, time, limit, limit)
        ensures multiset(a + b) <= multiset(rows)
      {
        TwoPagesNeverRepeat(rows, time, limit, a, b);
      }
    } else {
      var x, y :| x in multiset(rows) && y in multiset(rows) && time(x) == time(y) && x != y;
      var i, j := PositionsOf(rows, x, y);
      WithoutTwo(rows, i, j);
      TieRepeats(rows, time, x, y, rows[..i] + rows[i + 1..j] + rows[j + 1..]);
    }
  }

  // ---------------------------------------------------------------- the listing query

  /** A stored row: the selected columns include the primary key. */
  datatype Row = Row(id: Id, event: Event)

  function When(r: Row): int {
    r.event.when
  }

  /** The table in some order, each row once. */
  ghost predicate Tabulates(table: seq<Row>, rows: Rows) {
    && (forall i, j :: 0 <= i < j < |table| ==> table[i].id != table[j].id)
    && forall r :: r in table <==> r.id in rows && rows[r.id] == r.event
  }

  function Selected(table: seq<Row>, fs: seq<Filter>, args: seq<Arg>): seq<Row> {
    if table == [] then []
    else
      var n := |table| - 1;
      Selected(table[..n], fs, args) + (if Meets(fs, args, table[n].event) then [table[n]] else [])
  }

  function WantedRows(table: seq<Row>, device: string, user: string): seq<Row> {
    if table == [] then []
    else
      var n := |table| - 1;
      WantedRows(table[..n], device, user) + (if Wanted(table[n].event, device, user) then [table[n]] else [])
  }

  /** The answers a query text allows on a table. */
  ghost predicate MayAnswer(query: string, args: seq<Arg>, table: seq<Row>, res: seq<Row>) {
    Read(query).Some? &&
    var q := Read(query).value;
    && 1 <= q.limitAt <= |args| && args[q.limitAt - 1].Number? && args[q.limitAt - 1].n >= 0
    && 1 <= q.offsetAt <= |args| && args[q.offsetAt - 1].Number? && args[q.offsetAt - 1].n >= 0
    && PageOfSome(res, Selected(table, q.filters, args), When, args[q.limitAt - 1].n, args[q.offsetAt - 1].n)
  }

  lemma {:induction false} SelectedIsWanted(q: Query, args: seq<Arg>, device: string, user: string,
                                            limit: int, offset: int, table: seq<Row>)
    requires AsksFor(q, args, device, user, limit, offset)
    ensures Selected(table, q.filters, args) == WantedRows(table, device, user)
  {
    if table != [] {
      SelectedIsWanted(q, args, device, user, limit, offset, table[..|table| - 1]);
    }
  }

  /** On every table, the query that is sent means: the wanted rows, newest first, without the
      first `offset`, at most `limit` of them. */
  lemma ListingMeans(query: string, args: seq<Arg>, device: string, user: string, limit: int, offset: int,
                     table: seq<Row>, res: seq<Row>)
    requires Sends(query, args, device, user, limit, offset)
    ensures MayAnswer(query, args, table, res) <==>
              PageOfSome(res, WantedRows(table, device, user), When, EffectiveLimit(limit), EffectiveOffset(offset))
  {
    SelectedIsWanted(Read(query).value, args, device, user, limit, offset, table);
  }

  /** The wanted rows are distinct, and are exactly the stored events that are wanted. */
  lemma {:induction false} WantedExactly(table: seq<Row>, device: string, user: string)
    requires forall i, j :: 0 <= i < j < |table| ==> table[i].id != table[j].id
    ensures Distinct(WantedRows(table, device, user))
    ensures forall r :: r in WantedRows(table, device, user) <==> r in table && Wanted(r.event, device, user)
  {
    if table != [] {
      var n := |table| - 1;
      WantedExactly(table[..n], device, user);
      assert table == table[..n] + [table[n]];
      assert table[n] !in table[..n];
    }
  }

  predicate IsWanted(rows: Rows, id: Id, device: string, user: string) {
    id in rows && Wanted(rows[id], device, user)
  }

  /** No two stored events that are wanted have the same time. */
  ghost predicate TimesDiffer(rows: Rows, device: string, user: string) {
    forall a, b :: IsWanted(rows, a, device, user) && IsWanted(rows, b, device, user) && a != b ==>
      rows[a].when != rows[b].when
  }

  lemma WantedRow(table: seq<Row>, rows: Rows, device: string, user: string, r: Row)
    requires Tabulates(table, rows)
    ensures r in multiset(WantedRows(table, device, user)) <==>
              IsWanted(rows, r.id, device, user) && rows[r.id] == r.event
  {
    WantedExactly(table, device, user);
    assert r in multiset(WantedRows(table, device, user)) <==> r in WantedRows(table, device, user);
  }

  lemma TimesTellOf(wanted: multiset<Row>, rows: Rows, device: string, user: string)
    requires forall r :: r in wanted <==> IsWanted(rows, r.id, device, user) && rows[r.id] == r.event
    ensures TimesTell(wanted, When) <==> TimesDiffer(rows, device, user)
  {
    if !TimesDiffer(rows, device, user) {
      var a, b :| IsWanted(rows, a, device, user) && IsWanted(rows, b, device, user) && a != b &&
                  rows[a].when == rows[b].when;
      assert Row(a, rows[a]) in wanted && Row(b, rows[b]) in wanted;
    }
  }

  lemma TimesTellExactly(table: seq<Row>, rows: Rows, device: string, user: string)
    requires Tabulates(table, rows)
    ensures TimesTell(multiset(WantedRows(table, device, user)), When) <==> TimesDiffer(rows, device, user)
  {
    var wanted := multiset(WantedRows(table, device, user));
    forall r ensures r in wanted <==> IsWanted(rows, r.id, device, user) && rows[r.id] == r.event {
      WantedRow(table, rows, device, user, r);
    }
    TimesTellOf(wanted, rows, device, user);
  }

  /** One request of a client that reads a listing page by page, and the answer it got. */
  datatype Exchange = Exchange(query: string, args: seq<Arg>, res: seq<Row>)

  /** The exchanges are for pages 0, 1, 2, ... of one listing, each answered in some way. */
  ghost predicate ReadsPages(xs: seq<Exchange>, table: seq<Row>, device: string, user: string, limit: int) {
    forall i :: 0 <= i < |xs| ==>
      && Sends(xs[i].query, xs[i].args, device, user, limit, OffsetOf(i, EffectiveLimit(limit)))
      && MayAnswer(xs[i].query, xs[i].args, table, xs[i].res)
  }

  function Answers(xs: seq<Exchange>): (pages: seq<seq<Row>>)
    ensures |pages| == |xs| && forall i :: 0 <= i < |xs| ==> pages[i] == xs[i].res
  {
    seq(|xs|, i requires 0 <= i < |xs| => xs[i].res)
  }

  /** What the listing is for: when no two wanted events share a time, reading page after page
      with the queries that are sent lists exactly the wanted events of the table, newest first,
      each once, up to as many as the pages hold. */
  lemma ListingTiles(xs: seq<Exchange>, table: seq<Row>, rows: Rows, device: string, user: string, limit: int)
    requires Tabulates(table, rows) && ReadsPages(xs, table, device, user, limit) && TimesDiffer(rows, device, user)
    ensures var all := SortByTime(WantedRows(table, device, user), When);
            && (forall i, j :: 0 <= i < j < |all| ==> all[i].event.when >= all[j].event.when) && Distinct(all)
            && (forall r :: r in all <==> (r.id in rows && rows[r.id] == r.event &&
                             (device == "" || r.event.device == device) && (user == "" || r.event.user == user)))
            && Concat(Answers(xs)) == Take(all, OffsetOf(|xs|, EffectiveLimit(limit)))
  {
    var wanted := WantedRows(table, device, user);
    var all := SortByTime(wanted, When);
    SortIsOrdered(wanted, When);
    WantedExactly(table, device, user);
    PermutationFacts(wanted, all);
    TimesTellExactly(table, rows, device, user);
    forall i | 0 <= i < |xs|
      ensures PageOfSome(xs[i].res, wanted, When, EffectiveLimit(limit), OffsetOf(i, EffectiveLimit(limit)))
    {
      ListingMeans(xs[i].query, xs[i].args, device, user, limit, OffsetOf(i, EffectiveLimit(limit)), table, xs[i].res);
    }
    PagesTile(wanted, When, all, EffectiveLimit(limit), Answers(xs));
  }

  /** Two exchanges for the first two pages that list some event more often than it is stored. */
  ghost predicate ListsTwice(x: Exchange, y: Exchange, table: seq<Row>, device: string, user: string, limit: int) {
    && ReadsPages([x, y], table, device, user, limit)
    && !(multiset(x.res + y.res) <= multiset(WantedRows(table, device, user)))
  }

  ghost predicate NeverTwice(table: seq<Row>, device: string, user: string, limit: nat) {
    forall x, y :: !ListsTwice(x, y, table, device, user, limit)
  }

  lemma SomeQuery(device: string, user: string, limit: int, offset: int) returns (query: string, args: seq<Arg>)
    ensures Sends(query, args, device, user, limit, offset)
  {
    query := Written(PlanFor(device, user));
    args := FilterArgs(device, user) + [Number(EffectiveLimit(limit)), Number(EffectiveOffset(offset))];
    PlanSends(device, user, limit, offset);
  }

  lemma TwoExchanges(x: Exchange, y: Exchange, table: seq<Row>, device: string, user: string, limit: nat)
    requires limit >= 1
    requires Sends(x.query, x.args, device, user, limit, 0) && Sends(y.query, y.args, device, user, limit, limit)
    ensures ReadsPages([x, y], table, device, user, limit) <==>
              var wanted := WantedRows(table, device, user);
              PageOfSome(x.res, wanted, When, limit, 0) && PageOfSome(y.res, wanted, When, limit, limit)
  {
    ListingMeans(x.query, x.args, device, user, limit, 0, table, x.res);
    ListingMeans(y.query, y.args, device, user, limit, limit, table, y.res);
    assert [x, y][0] == x && [x, y][1] == y && OffsetOf(1, limit) == limit;
  }

  lemma TwiceRepeats(x: Exchange, y: Exchange, table: seq<Row>, device: string, user: string, limit: nat)
    requires limit >= 1 && ListsTwice(x, y, table, device, user, limit)
    ensures Repeats(WantedRows(table, device, user), When, limit)
  {
    assert [x, y][0] == x && [x, y][1] == y && OffsetOf(1, limit) == limit;
    TwoExchanges(x, y, table, device, user, limit);
  }

  lemma RepeatsTwice(a: seq<Row>, b: seq<Row>, table: seq<Row>, device: string, user: string, limit: nat)
    requires limit >= 1
    requires var wanted := WantedRows(table, device, user);
             && PageOfSome(a, wanted, When, limit, 0) && PageOfSome(b, wanted, When, limit, limit)
             && !(multiset(a + b) <= multiset(wanted))
    ensures exists x, y :: ListsTwice(x, y, table, device, user, limit)
  {
    var q0, args0 := SomeQuery(device, user, limit, 0);
    var q1, args1 := SomeQuery(device, user, limit, limit);
    TwoExchanges(Exchange(q0, args0, a), Exchange(q1, args1, b), table, device, user, limit);
    assert ListsTwice(Exchange(q0, args0, a), Exchange(q1, args1, b), table, device, user, limit);
  }

  lemma NeverTwiceExactly(table: seq<Row>, device: string, user: string, limit: nat)
    requires limit >= 1
    ensures NeverTwice(table, device, user, limit) <==> !Repeats(WantedRows(table, device, user), When, limit)
  {
    if x, y :| ListsTwice(x, y, table, device, user, limit) {
      TwiceRepeats(x, y, table, device, user, limit);
    } else if Repeats(WantedRows(table, device, user), When, limit) {
      var a, b :| PageOfSome(a, WantedRows(table, device, user), When, limit, 0) &&
                  PageOfSome(b, WantedRows(table, device, user), When, limit, limit) &&
                  !(multiset(a + b) <= multiset(WantedRows(table, device, user)));
      RepeatsTwice(a, b, table, device, user, limit);
    }
  }

  /** Reading the first two pages never lists an event twice, whatever the page size, exactly when
      no two wanted events share a time. */
  lemma ListingIsSafeExactlyFor(table: seq<Row>, rows: Rows, device: string, user: string)
    requires Tabulates(table, rows)
    ensures (forall limit: nat :: limit >= 1 ==> NeverTwice(table, device, user, limit))
       <==> TimesDiffer(rows, device, user)
  {
    var wanted := WantedRows(table, device, user);
    WantedExactly(table, device, user);
    TimesTellExactly(table, rows, device, user);
    PagingIsSafeExactlyFor(wanted, When);
    forall limit: nat | limit >= 1
      ensures NeverTwice(table, device, user, limit) <==> !Repeats(wanted, When, limit)
    {
      NeverTwiceExactly(table, device, user, limit);
    }
  }
}
