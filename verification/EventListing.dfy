/** The listing query: the text that is built, a reader that gives the text its meaning, and
    what a database may answer. */
module EventListing {

  import opened Options
  import opened Sequences
  import opened Attendance

  // ---------------------------------------------------------------- the query language

  datatype Column = DeviceId | UserId

  /** column = $at */
  datatype Filter = Filter(column: Column, at: nat)

  datatype Query = Query(filters: seq<Filter>, limitAt: nat, offsetAt: nat)

  datatype Arg = Text(s: string) | Number(n: int)

  const SELECT := "SELECT id, user_id, device_id, occurred_at, location, image_url, status, match_score, created_at FROM attendance_events"
  const WHERE := " WHERE "
  const AND := " AND "
  const EQUALS := " = $"
  const LIMIT := " ORDER BY occurred_at DESC LIMIT $"
  const OFFSET := " OFFSET $"

  function Digit(d: int): char
    requires 0 <= d < 10
  {
    ('0' as int + d) as char
  }

  function Itoa(n: nat): string {
    if n < 10 then [Digit(n)] else Itoa(n / 10) + [Digit(n % 10)]
  }

  function ColumnName(c: Column): string {
    if c.DeviceId? then "device_id" else "user_id"
  }

  function Clause(f: Filter): string {
    ColumnName(f.column) + EQUALS + Itoa(f.at)
  }

  /** The clauses joined by AND. */
  function Clauses(fs: seq<Filter>): string
    requires fs != []
  {
    if |fs| == 1 then Clause(fs[0]) else Clause(fs[0]) + AND + Clauses(fs[1..])
  }

  function PageText(q: Query): string {
    LIMIT + (Itoa(q.limitAt) + (OFFSET + Itoa(q.offsetAt)))
  }

  function Written(q: Query): string {
    if q.filters == [] then SELECT + PageText(q)
    else SELECT + (WHERE + (Clauses(q.filters) + PageText(q)))
  }

  // ---------------------------------------------------------------- reading the text

  // The reader spells the words of the language itself; it shares none with the writer.

  const ROWS := "SELECT id, user_id, device_id, occurred_at, location, image_url, status, match_score, created_at FROM attendance_events"
  const THAT_HAVE := " WHERE "
  const BY_DEVICE := "device_id"
  const BY_USER := "user_id"
  const IS := " = $"
  const ALSO := " AND "
  const NEWEST_FIRST_UP_TO := " ORDER BY occurred_at DESC LIMIT $"
  const AFTER_FIRST := " OFFSET $"

  predicate IsDigit(c: char) {
    '0' <= c <= '9'
  }

  function Strip(prefix: string, s: string): Option<string> {
    if prefix <= s then Some(s[|prefix|..]) else None
  }

  function Value(c: char): nat
    requires IsDigit(c)
  {
    c as int - '0' as int
  }

  /** The digits that start s, appended to the number n; and what follows them. */
  function ReadDigits(n: nat, s: string): (r: (nat, string))
    ensures |r.1| <= |s|
    decreases |s|
  {
    if s != "" && IsDigit(s[0]) then ReadDigits(10 * n + Value(s[0]), s[1..]) else (n, s)
  }

  function ReadNumber(s: string): (r: Option<(nat, string)>)
    ensures r.Some? ==> |r.value.1| <= |s|
  {
    if s != "" && IsDigit(s[0]) then Some(ReadDigits(0, s)) else None
  }

  function ReadFilter(c: Column, s: string): (r: Option<(Filter, string)>)
    ensures r.Some? ==> |r.value.1| <= |s|
  {
    match Strip(IS, s)
    case None => None
    case Some(t) =>
      match ReadNumber(t)
      case None => None
      case Some((n, u)) => Some((Filter(c, n), u))
  }

  function ReadClause(s: string): (r: Option<(Filter, string)>)
    ensures r.Some? ==> |r.value.1| <= |s|
  {
    match Strip(BY_DEVICE, s)
    case Some(t) => ReadFilter(DeviceId, t)
    case None =>
      match Strip(BY_USER, s)
      case Some(t) => ReadFilter(UserId, t)
      case None => None
  }

  function ReadClauses(s: string): Option<(seq<Filter>, string)>
    decreases |s|
  {
    match ReadClause(s)
    case None => None
    case Some((f, t)) =>
      match Strip(ALSO, t)
      case None => Some(([f], t))
      case Some(u) =>
        match ReadClauses(u)
        case None => None
        case Some((fs, v)) => Some(([f] + fs, v))
  }

  function ReadPage(fs: seq<Filter>, s: string): Option<Query> {
    match Strip(NEWEST_FIRST_UP_TO, s)
    case None => None
    case Some(t) =>
      match ReadNumber(t)
      case None => None
      case Some((l, u)) =>
        match Strip(AFTER_FIRST, u)
        case None => None
        case Some(v) =>
          match ReadNumber(v)
          case None => None
          case Some((o, w)) => if w == "" then Some(Query(fs, l, o)) else None
  }

  /** The query a text denotes; None for a text outside this small language. */
  function Read(s: string): Option<Query> {
    match Strip(ROWS, s)
    case None => None
    case Some(t) =>
      match Strip(THAT_HAVE, t)
      case None => ReadPage([], t)
      case Some(u) =>
        match ReadClauses(u)
        case None => None
        case Some((fs, v)) => ReadPage(fs, v)
  }

  // ---------------------------------------------------------------- reading is the inverse of writing

  ghost predicate AllDigits(s: string) {
    forall i :: 0 <= i < |s| ==> IsDigit(s[i])
  }

  ghost predicate Ends(s: string) {
    s == "" || !IsDigit(s[0])
  }

  function Fold(n: nat, s: string): nat
    requires AllDigits(s)
  {
    if s == "" then n else 10 * Fold(n, s[..|s| - 1]) + Value(s[|s| - 1])
  }

  lemma {:induction false} FoldFront(n: nat, c: char, s: string)
    requires IsDigit(c) && AllDigits(s)
    ensures AllDigits([c] + s) && Fold(n, [c] + s) == Fold(10 * n + Value(c), s)
  {
    var t := [c] + s;
    if s == "" {
      assert t[..0] == "";
    } else {
      assert t[..|t| - 1] == [c] + s[..|s| - 1];
      FoldFront(n, c, s[..|s| - 1]);
    }
  }

  lemma {:induction false} ReadDigitsAll(n: nat, s: string, rest: string)
    requires AllDigits(s) && Ends(rest)
    ensures ReadDigits(n, s + rest) == (Fold(n, s), rest)
    decreases |s|
  {
    if s == "" {
      assert s + rest == rest;
    } else {
      assert (s + rest)[1..] == s[1..] + rest;
      ReadDigitsAll(10 * n + Value(s[0]), s[1..], rest);
      FoldFront(n, s[0], s[1..]);
      assert s == [s[0]] + s[1..];
    }
  }

  lemma {:induction false} ItoaDigits(n: nat)
    ensures Itoa(n) != "" && AllDigits(Itoa(n)) && Fold(0, Itoa(n)) == n
  {
    if n >= 10 {
      ItoaDigits(n / 10);
      assert Itoa(n)[..|Itoa(n)| - 1] == Itoa(n / 10);
    } else {
      assert [Digit(n)][..0] == "";
    }
  }

  lemma NumberRoundTrip(n: nat, rest: string)
    requires Ends(rest)
    ensures ReadNumber(Itoa(n) + rest) == Some((n, rest))
  {
    ItoaDigits(n);
    ReadDigitsAll(0, Itoa(n), rest);
  }

  lemma StripPrefix(p: string, rest: string)
    ensures Strip(p, p + rest) == Some(rest)
  {
  }

  lemma StripOther(p: string, s: string, i: nat)
    requires i < |p| && i < |s| && p[i] != s[i]
    ensures Strip(p, s) == None
  {
  }

  lemma Regroup(a: string, b: string, c: string, d: string)
    ensures a + b + c + d == a + (b + (c + d))
  {
  }

  lemma FilterRoundTrip(f: Filter, rest: string)
    requires Ends(rest)
    ensures ReadFilter(f.column, EQUALS + Itoa(f.at) + rest) == Some((f, rest))
  {
    assert EQUALS + Itoa(f.at) + rest == EQUALS + (Itoa(f.at) + rest);
    StripPrefix(EQUALS, Itoa(f.at) + rest);
    NumberRoundTrip(f.at, rest);
  }

  lemma ClauseRoundTrip(f: Filter, rest: string)
    requires Ends(rest)
    ensures ReadClause(Clause(f) + rest) == Some((f, rest))
  {
    var name, t := ColumnName(f.column), EQUALS + Itoa(f.at) + rest;
    var s := Clause(f) + rest;
    assert s == name + t;
    StripPrefix(name, t);
    FilterRoundTrip(f, rest);
    if f.column.UserId? {
      assert s[0] == 'u';
      StripOther(ColumnName(DeviceId), s, 0);
    }
  }

  lemma LastClause(f: Filter, rest: string)
    ensures ReadClauses(Clause(f) + (LIMIT + rest)) == Some(([f], LIMIT + rest))
  {
    var tail := LIMIT + rest;
    assert tail[0] == ' ' && tail[1] == 'O';
    ClauseRoundTrip(f, tail);
    StripOther(AND, tail, 1);
  }

  lemma EarlierClause(f: Filter, fs: seq<Filter>, body: string, rest: string)
    requires ReadClauses(body) == Some((fs, rest))
    ensures ReadClauses(Clause(f) + (AND + body)) == Some(([f] + fs, rest))
  {
    var more := AND + body;
    assert more[0] == ' ';
    ClauseRoundTrip(f, more);
    StripPrefix(AND, body);
  }

  lemma {:induction false} ClausesRoundTrip(fs: seq<Filter>, rest: string)
    requires fs != []
    ensures ReadClauses(Clauses(fs) + (LIMIT + rest)) == Some((fs, LIMIT + rest))
  {
    if |fs| == 1 {
      LastClause(fs[0], rest);
      assert fs == [fs[0]];
    } else {
      var body := Clauses(fs[1..]) + (LIMIT + rest);
      ClausesRoundTrip(fs[1..], rest);
      EarlierClause(fs[0], fs[1..], body, LIMIT + rest);
      Regroup(Clause(fs[0]), AND, Clauses(fs[1..]), LIMIT + rest);
      assert fs == [fs[0]] + fs[1..];
    }
  }

  lemma PageRoundTrip(q: Query)
    ensures ReadPage(q.filters, LIMIT + (Itoa(q.limitAt) + (OFFSET + Itoa(q.offsetAt)))) == Some(q)
  {
    var o := OFFSET + Itoa(q.offsetAt);
    assert o[0] == ' ';
    StripPrefix(LIMIT, Itoa(q.limitAt) + o);
    NumberRoundTrip(q.limitAt, o);
    StripPrefix(OFFSET, Itoa(q.offsetAt));
    assert Itoa(q.offsetAt) + "" == Itoa(q.offsetAt);
    NumberRoundTrip(q.offsetAt, "");
  }

  lemma UnfilteredRoundTrip(q: Query)
    requires q.filters == []
    ensures Read(SELECT + PageText(q)) == Some(q)
  {
    var page := PageText(q);
    PageRoundTrip(q);
    StripPrefix(SELECT, page);
    assert page[1] == 'O';
    StripOther(WHERE, page, 1);
  }

  lemma FilteredRoundTrip(q: Query)
    requires q.filters != []
    ensures Read(SELECT + (WHERE + (Clauses(q.filters) + PageText(q)))) == Some(q)
  {
    var body := Clauses(q.filters) + PageText(q);
    PageRoundTrip(q);
    StripPrefix(SELECT, WHERE + body);
    StripPrefix(WHERE, body);
    ClausesRoundTrip(q.filters, Itoa(q.limitAt) + (OFFSET + Itoa(q.offsetAt)));
  }

  /** Every query, with any number of filters and any placeholders, is read back from its text. */
  lemma QueryRoundTrip(q: Query)
    ensures Read(Written(q)) == Some(q)
  {
    if q.filters == [] {
      UnfilteredRoundTrip(q);
    } else {
      FilteredRoundTrip(q);
    }
  }

  // ---------------------------------------------------------------- what a query asks for

  function ColumnOf(e: Event, c: Column): string {
    if c.DeviceId? then e.device else e.user
  }

  /** The row meets every filter under the given arguments. */
  predicate Meets(fs: seq<Filter>, args: seq<Arg>, e: Event) {
    forall i :: 0 <= i < |fs| ==>
      1 <= fs[i].at <= |args| && args[fs[i].at - 1] == Text(ColumnOf(e, fs[i].column))
  }

  /** An empty filter value means any. */
  predicate Wanted(e: Event, device: string, user: string) {
    (device == "" || e.device == device) && (user == "" || e.user == user)
  }

  function EffectiveLimit(limit: int): nat {
    if limit <= 0 then 50 else limit
  }

  function EffectiveOffset(offset: int): nat {
    if offset < 0 then 0 else offset
  }

  /** The placeholders of a query in the order they appear in its text. */
  function Placeholders(q: Query): seq<nat> {
    seq(|q.filters|, i requires 0 <= i < |q.filters| => q.filters[i].at) + [q.limitAt, q.offsetAt]
  }

  /** The query and its arguments ask for the wanted rows, the limit and the offset; the
      placeholders are $1, $2 and so on, one for each argument. */
  ghost predicate AsksFor(q: Query, args: seq<Arg>, device: string, user: string, limit: int, offset: int) {
    && Placeholders(q) == seq(|args|, i => i + 1)
    && (forall e: Event :: Meets(q.filters, args, e) <==> Wanted(e, device, user))
    && 1 <= q.limitAt <= |args| && args[q.limitAt - 1] == Number(EffectiveLimit(limit))
    && 1 <= q.offsetAt <= |args| && args[q.offsetAt - 1] == Number(EffectiveOffset(offset))
  }

  // ---------------------------------------------------------------- building the text

  method JoinClauses(parts: seq<string>, sep: string) returns (out: string)
    ensures out == Joined(parts, sep)
  {
    if |parts| == 0 {
      return "";
    }
    out := parts[0];
    for i := 1 to |parts|
      invariant out == Joined(parts[..i], sep)
    {
      assert parts[..i + 1][..i] == parts[..i];
      out := out + (sep + parts[i]);
    }
    assert parts[..|parts|] == parts;
  }

  function ClauseTexts(fs: seq<Filter>): (ts: seq<string>)
    ensures |ts| == |fs| && forall i :: 0 <= i < |fs| ==> ts[i] == Clause(fs[i])
  {
    seq(|fs|, i requires 0 <= i < |fs| => Clause(fs[i]))
  }

  lemma {:induction false} ClausesSnoc(fs: seq<Filter>, f: Filter)
    requires fs != []
    ensures Clauses(fs + [f]) == Clauses(fs) + (AND + Clause(f))
  {
    if |fs| == 1 {
      assert (fs + [f])[1..] == [f];
      assert Clause(fs[0]) + AND + Clause(f) == Clause(fs[0]) + (AND + Clause(f));
    } else {
      assert (fs + [f])[1..] == fs[1..] + [f];
      ClausesSnoc(fs[1..], f);
      Regroup(Clause(fs[0]), AND, Clauses(fs[1..]), AND + Clause(f));
    }
  }

  lemma {:induction false} JoinedIsClauses(fs: seq<Filter>)
    requires fs != []
    ensures Joined(ClauseTexts(fs), AND) == Clauses(fs)
  {
    if |fs| > 1 {
      var n := |fs| - 1;
      assert ClauseTexts(fs)[..n] == ClauseTexts(fs[..n]);
      JoinedIsClauses(fs[..n]);
      ClausesSnoc(fs[..n], fs[n]);
      assert fs == fs[..n] + [fs[n]];
    }
  }

  lemma AppendPage(head: string, q: Query)
    ensures head + (LIMIT + Itoa(q.limitAt) + OFFSET + Itoa(q.offsetAt)) == head + PageText(q)
  {
  }

  lemma AppendWhere(select: string, clauses: string, page: string)
    ensures select + (WHERE + clauses) + page == select + (WHERE + (clauses + page))
  {
  }

  /** The filters a request leads to: each value given takes the next placeholder. */
  function FiltersFor(device: string, user: string): seq<Filter> {
    (if device != "" then [Filter(DeviceId, 1)] else []) +
    (if user != "" then [Filter(UserId, if device != "" then 2 else 1)] else [])
  }

  function FilterArgs(device: string, user: string): seq<Arg> {
    (if device != "" then [Text(device)] else []) + (if user != "" then [Text(user)] else [])
  }

  method BuildClauses(deviceID: string, userID: string) returns (clauses: seq<string>, args: seq<Arg>)
    ensures clauses == ClauseTexts(FiltersFor(deviceID, userID)) && args == FilterArgs(deviceID, userID)
  {
    args := [];
    clauses := [];
    if deviceID != "" {
      clauses := clauses + [Clause(Filter(DeviceId, |args| + 1))];
      args := args + [Text(deviceID)];
    }
    if userID != "" {
      clauses := clauses + [Clause(Filter(UserId, |args| + 1))];
      args := args + [Text(userID)];
    }
  }

  lemma PlanAsksFor(device: string, user: string, limit: int, offset: int)
    ensures var fs, args := FiltersFor(device, user), FilterArgs(device, user);
            AsksFor(Query(fs, |args| + 1, |args| + 2),
                    args + [Number(EffectiveLimit(limit)), Number(EffectiveOffset(offset))],
                    device, user, limit, offset)
  {
    var fs, front := FiltersFor(device, user), FilterArgs(device, user);
    var args := front + [Number(EffectiveLimit(limit)), Number(EffectiveOffset(offset))];
    assert Placeholders(Query(fs, |front| + 1, |front| + 2)) == seq(|args|, i => i + 1);
    forall e: Event ensures Meets(fs, args, e) <==> Wanted(e, device, user) {
      MeetsWanted(fs, args, e, device, user);
    }
  }

  /** The text of each kind of request, spelled out. */
  function QueryText(byDevice: bool, byUser: bool): string {
    if byDevice && byUser
    then ROWS + " WHERE device_id = $1" + " AND user_id = $2" + " ORDER BY occurred_at DESC LIMIT $3 OFFSET $4"
    else if byDevice then ROWS + " WHERE device_id = $1" + " ORDER BY occurred_at DESC LIMIT $2 OFFSET $3"
    else if byUser then ROWS + " WHERE user_id = $1" + " ORDER BY occurred_at DESC LIMIT $2 OFFSET $3"
    else ROWS + " ORDER BY occurred_at DESC LIMIT $1 OFFSET $2"
  }

  lemma SmallNumbers()
    ensures Itoa(1) == "1" && Itoa(2) == "2" && Itoa(3) == "3" && Itoa(4) == "4"
  {
  }

  lemma ClauseTextsSpelled()
    ensures WHERE + Clause(Filter(DeviceId, 1)) == " WHERE device_id = $1"
    ensures WHERE + Clause(Filter(UserId, 1)) == " WHERE user_id = $1"
  {
    SmallNumbers();
  }

  lemma SecondClauseSpelled()
    ensures AND + Clause(Filter(UserId, 2)) == " AND user_id = $2"
  {
    SmallNumbers();
  }

  lemma SelectSpelled()
    ensures SELECT == ROWS
  {
  }

  lemma PagesSpelled(q: Query)
    ensures q.limitAt == 1 && q.offsetAt == 2 ==> PageText(q) == " ORDER BY occurred_at DESC LIMIT $1 OFFSET $2"
    ensures q.limitAt == 2 && q.offsetAt == 3 ==> PageText(q) == " ORDER BY occurred_at DESC LIMIT $2 OFFSET $3"
    ensures q.limitAt == 3 && q.offsetAt == 4 ==> PageText(q) == " ORDER BY occurred_at DESC LIMIT $3 OFFSET $4"
  {
    SmallNumbers();
  }

  /** The query of a request: the filters, and the next two placeholders for the page. */
  function PlanFor(device: string, user: string): Query {
    Query(FiltersFor(device, user), |FilterArgs(device, user)| + 1, |FilterArgs(device, user)| + 2)
  }

  /** What is written for a request is its text. */
  lemma WrittenIsSpelled(device: string, user: string)
    ensures Written(PlanFor(device, user)) == QueryText(device != "", user != "")
  {
    var q := PlanFor(device, user);
    var fs := q.filters;
    SelectSpelled();
    ClauseTextsSpelled();
    SecondClauseSpelled();
    PagesSpelled(q);
    if device != "" && user != "" {
      assert fs == [Filter(DeviceId, 1), Filter(UserId, 2)];
      ClausesOfTwo(fs[0], fs[1]);
      BothSpelled(Clause(fs[0]), Clause(fs[1]), PageText(q));
    } else if device != "" {
      assert fs == [Filter(DeviceId, 1)];
      AppendWhere(SELECT, Clause(fs[0]), PageText(q));
    } else if user != "" {
      assert fs == [Filter(UserId, 1)];
      AppendWhere(SELECT, Clause(fs[0]), PageText(q));
    }
  }

  lemma ClausesOfTwo(f: Filter, g: Filter)
    ensures Clauses([f, g]) == Clause(f) + AND + Clause(g)
  {
    assert [f, g][1..] == [g];
  }

  lemma BothSpelled(c: string, d: string, page: string)
    ensures SELECT + (WHERE + (c + AND + d + page)) == SELECT + (WHERE + c) + (AND + d) + page
  {
  }

  /** The text denotes a query that, with its arguments, asks for what the request wants. */
  ghost predicate Sends(query: string, args: seq<Arg>, device: string, user: string, limit: int, offset: int) {
    Read(query).Some? && AsksFor(Read(query).value, args, device, user, limit, offset)
  }

  lemma PlanSends(device: string, user: string, limit: int, offset: int)
    ensures Sends(Written(PlanFor(device, user)),
                  FilterArgs(device, user) + [Number(EffectiveLimit(limit)), Number(EffectiveOffset(offset))],
                  device, user, limit, offset)
    ensures Written(PlanFor(device, user)) == QueryText(device != "", user != "")
  {
    QueryRoundTrip(PlanFor(device, user));
    WrittenIsSpelled(device, user);
    PlanAsksFor(device, user, limit, offset);
  }

  method BuildText(clauses: seq<string>, n: nat, ghost q: Query) returns (query: string)
    requires clauses == ClauseTexts(q.filters) && q.limitAt == n + 1 && q.offsetAt == n + 2
    ensures query == Written(q)
  {
    query := SELECT;
    if |clauses| > 0 {
      var joined := JoinClauses(clauses, AND);
      JoinedIsClauses(q.filters);
      query := query + (WHERE + joined);
      AppendWhere(SELECT, joined, PageText(q));
    }
    AppendPage(query, q);
    query := query + (LIMIT + Itoa(n + 1) + OFFSET + Itoa(n + 2));
  }

  /** The text and arguments that `ListEvents` sends. */
  method BuildQuery(deviceID: string, userID: string, limit: int, offset: int)
    returns (query: string, args: seq<Arg>)
    ensures Sends(query, args, deviceID, userID, limit, offset)
    ensures query == QueryText(deviceID != "", userID != "")
    ensures args == (if deviceID != "" then [Text(deviceID)] else []) + (if userID != "" then [Text(userID)] else []) +
                    [Number(if limit <= 0 then 50 else limit), Number(if offset < 0 then 0 else offset)]
  {
    var lim := if limit <= 0 then 50 else limit;
    var off := if offset < 0 then 0 else offset;
    var clauses;
    clauses, args := BuildClauses(deviceID, userID);
    query := BuildText(clauses, |args|, PlanFor(deviceID, userID));
    args := args + [Number(lim), Number(off)];
    PlanSends(deviceID, userID, limit, offset);
  }

  lemma MeetsWanted(fs: seq<Filter>, args: seq<Arg>, e: Event, device: string, user: string)
    requires fs == FiltersFor(device, user)
    requires device != "" ==> |args| > 0 && args[0] == Text(device)
    requires user != "" ==> var k := if device != "" then 1 else 0; |args| > k && args[k] == Text(user)
    ensures Meets(fs, args, e) <==> Wanted(e, device, user)
  {
    if device != "" {
      assert fs[0] == Filter(DeviceId, 1);
      if user != "" {
        assert fs[1] == Filter(UserId, 2);
      }
    } else if user != "" {
      assert fs[0] == Filter(UserId, 1);
    }
  }
}
