/** Paging through the events of one user and device, over every run of the pipeline. */
module PairListing {

  import opened Ordering
  import opened Sequences
  import opened Attendance
  import opened Pipeline
  import opened Deduplication
  import opened EventListing
  import opened EventPaging

  /** Check-ins of a pair that do not overlap have different times. */
  lemma OneAtATimeDiffers(window: int, t0: int, ls: seq<Label>, user: string, device: string)
    requires window > 0 && user != "" && device != "" && Exec(window, t0, ls).Some?
    requires AtMost(window, t0, ls, user, device, 1)
    ensures TimesDiffer(Exec(window, t0, ls).value.rows, device, user)
  {
    var rows := Exec(window, t0, ls).value.rows;
    forall a, b | IsWanted(rows, a, device, user) && IsWanted(rows, b, device, user) && a != b
      ensures rows[a].when != rows[b].when
    {
      OneAtATimeIsSpaced(window, t0, ls, a, b);
    }
  }

  /** In every run in which the check-ins of a pair do not overlap, reading that pair's listing
      page after page gives its stored events, newest first, each once. */
  lemma PairListingTiles(window: int, t0: int, ls: seq<Label>, user: string, device: string,
                         table: seq<Row>, xs: seq<Exchange>, limit: int)
    requires window > 0 && user != "" && device != "" && Exec(window, t0, ls).Some?
    requires AtMost(window, t0, ls, user, device, 1)
    requires Tabulates(table, Exec(window, t0, ls).value.rows) && ReadsPages(xs, table, device, user, limit)
    ensures var rows, all := Exec(window, t0, ls).value.rows, SortByTime(WantedRows(table, device, user), When);
            && NewestFirst(all, When) && Distinct(all)
            && (forall r :: r in all <==> r.id in rows && rows[r.id] == r.event && OfPair(r.event, user, device))
            && Concat(Answers(xs)) == Take(all, OffsetOf(|xs|, EffectiveLimit(limit)))
  {
    OneAtATimeDiffers(window, t0, ls, user, device);
    ListingTiles(xs, table, Exec(window, t0, ls).value.rows, device, user, limit);
  }
}
