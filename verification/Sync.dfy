/** pipeline/sync.py: one run of the ticket sync against a ServiceNow that holds
    still while it runs. A query answers only "what matches now", so what has
    stopped matching has to be found by its absence. SyncWatermark lets the
    remote side move between the statements of a run. */
module Sync {
  import opened Text
  import opened Collections

  const DAY: int := 86400
  const OVERLAP: int := 300
  const COLD_START_DAYS: int := 45
  const OPEN_STATES: set<int> := {1, 2, 3}

  /** What a watched_ticket row records of an incident. Instants in seconds. */
  datatype Fields = Fields(
    state: int, hold: string, group: string, agent: string, priority: string,
    openedAt: int, updatedAt: int, rest: string)

  datatype Incident = Incident(fields: Fields, active: bool)

  type Remote = map<string, Incident>

  /** The six fields the content hash covers; the hash is taken as injective. */
  datatype Print = Print(updated: int, state: int, hold: string, group: string, agent: string, priority: string)

  datatype Row = Row(data: Fields, hash: Print, active: bool, firstSeen: int, lastSynced: int)

  type Table = map<string, Row>

  function Fingerprint(f: Fields): Print {
    Print(f.updatedAt, f.state, f.hold, f.group, f.agent, f.priority)
  }

  // -- scope -----------------------------------------------------------------

  /** The reader's own query clause: exact names, or no clause at all. */
  predicate Queried(groups: seq<string>, group: string) {
    groups == [] || group in groups
  }

  function TrackedNames(groups: seq<string>): set<string> {
    set i | 0 <= i < |groups| && Strip(groups[i]) != "" :: Lower(Strip(groups[i]))
  }

  /** The test applied to a ticket that is read again. */
  predicate Tracked(groups: seq<string>, group: string) {
    TrackedNames(groups) == {} || Lower(Strip(group)) in TrackedNames(groups)
  }

  predicate Open(i: Incident) {
    i.active && i.fields.state in OPEN_STATES
  }

  /** The reader was given its groups at start-up, the settings are read live. */
  datatype Config = Config(agedAfterDays: int, ceiling: nat, readerGroups: seq<string>, trackedGroups: seq<string>)

  predicate Wanted(c: Config, i: Incident) {
    Open(i) && Queried(c.readerGroups, i.fields.group)
  }

  predicate Kept(c: Config, i: Incident) {
    Open(i) && Tracked(c.trackedGroups, i.fields.group)
  }

  // -- what one run computes, as values --------------------------------------

  predicate InFullFetch(c: Config, now: int, i: Incident) {
    && Wanted(c, i)
    && (i.fields.openedAt < now - c.agedAfterDays * DAY || i.fields.updatedAt > now - COLD_START_DAYS * DAY)
  }

  function Stored(t: Table, n: string, f: Fields, now: int): Row {
    Row(f, Fingerprint(f), true, if n in t then t[n].firstSeen else now, now)
  }

  /** The rows one after another, as INSERT .. ON DUPLICATE KEY UPDATE leaves them. */
  ghost function Persisted(t: Table, page: Page, now: int): Table {
    if page == [] then t
    else
      var (n, incident) := page[|page| - 1];
      var rest := Persisted(t, page[..|page| - 1], now);
      rest[n := Stored(rest, n, incident.fields, now)]
  }

  /** The result sets laid over one another, the later winning. */
  ghost function Merged(page: Page): Remote {
    if page == [] then map[]
    else Merged(page[..|page| - 1])[page[|page| - 1].0 := page[|page| - 1].1]
  }

  lemma {:induction false} PersistedFacts(t: Table, page: Page, now: int, rows: Remote)
    requires forall i :: 0 <= i < |page| ==> page[i].0 in rows && rows[page[i].0] == page[i].1
    ensures var after := Persisted(t, page, now);
            && after.Keys == t.Keys + Numbers(page)
            && forall n :: n in after ==>
                        after[n] == if n in Numbers(page) then Stored(t, n, rows[n].fields, now) else t[n]
  {
    if page != [] {
      var i := |page| - 1;
      NumbersSnoc(page, i);
      assert page[..i + 1] == page;
      PersistedFacts(t, page[..i], now, rows);
    }
  }

  lemma {:induction false} MergedFacts(page: Page, rows: Remote)
    requires forall i :: 0 <= i < |page| ==> page[i].0 in rows && rows[page[i].0] == page[i].1
    ensures Merged(page).Keys == Numbers(page) && forall n :: n in Merged(page) ==> Merged(page)[n] == rows[n]
  {
    if page != [] {
      var i := |page| - 1;
      NumbersSnoc(page, i);
      assert page[..i + 1] == page;
      MergedFacts(page[..i], rows);
    }
  }

  lemma {:induction false} MergedIsFetched(aged: Page, recent: Page, c: Config, remote: Remote, now: int)
    requires Lists(aged, Aged(c, remote, now)) && Lists(recent, Changed(c, remote, now - COLD_START_DAYS * DAY))
    ensures Merged(aged + recent) == Fetched(c, remote, now)
  {
    var both := aged + recent;
    forall i | 0 <= i < |both| ensures both[i].0 in remote && remote[both[i].0] == both[i].1 {
      if i < |aged| {
        assert both[i] == aged[i];
      } else {
        assert both[i] == recent[i - |aged|];
      }
    }
    MergedFacts(both, remote);
    BothPages(aged, recent);
    PageKeys(aged, Aged(c, remote, now));
    PageKeys(recent, Changed(c, remote, now - COLD_START_DAYS * DAY));
    FetchedKeys(c, remote, now);
    SameEntries(Merged(both), Fetched(c, remote, now), remote);
  }

  lemma {:induction false} PageKeys(page: Page, m: Remote)
    requires Lists(page, m)
    ensures Numbers(page) == m.Keys
  {
  }

  lemma {:induction false} FetchedKeys(c: Config, remote: Remote, now: int)
    ensures Fetched(c, remote, now).Keys ==
              Aged(c, remote, now).Keys + Changed(c, remote, now - COLD_START_DAYS * DAY).Keys
    ensures forall n :: n in Fetched(c, remote, now) ==> n in remote && Fetched(c, remote, now)[n] == remote[n]
  {
  }

  lemma {:induction false} SameEntries(a: Remote, b: Remote, m: Remote)
    requires a.Keys == b.Keys && forall n :: n in a ==> n in m && a[n] == m[n] == b[n]
    ensures a == b
  {
  }

  /** What re-reading one departed ticket leaves in its row. */
  function Reread(t: Table, c: Config, n: string, reply: Reply, now: int): Row
    requires n in t
  {
    match reply
    case NoReply => t[n]
    case Nothing => t[n].(active := false, lastSynced := now)
    case Found(i) => Stored(t, n, i.fields, now).(active := Kept(c, i))
  }

  /** The table after reading again the departed tickets in `chosen`. */
  ghost function Reconciled(t: Table, c: Config, remote: Remote, unreadable: set<string>, chosen: set<string>,
                            now: int): Table {
    map n | n in t :: if n in chosen then Reread(t, c, n, ReplyFor(remote, unreadable, n), now) else t[n]
  }

  ghost function Inactive(t: Table, chosen: set<string>): set<string> {
    set n | n in chosen && n in t && !t[n].active
  }

  lemma {:induction false} RereadOne(t: Table, c: Config, remote: Remote, unreadable: set<string>,
                                     chosen: set<string>, n: string, now: int)
    requires n in t && n !in chosen && t[n].active
    ensures var row := Reread(t, c, n, ReplyFor(remote, unreadable, n), now);
            var before := Reconciled(t, c, remote, unreadable, chosen, now);
            var after := Reconciled(t, c, remote, unreadable, chosen + {n}, now);
            && before[n] == t[n]
            && after == before[n := row]
            && |Inactive(after, chosen + {n})| == |Inactive(before, chosen)| + if row.active then 0 else 1
  {
    var row := Reread(t, c, n, ReplyFor(remote, unreadable, n), now);
    var before := Reconciled(t, c, remote, unreadable, chosen, now);
    var after := Reconciled(t, c, remote, unreadable, chosen + {n}, now);
    assert after == before[n := row];
    assert Inactive(after, chosen + {n}) == Inactive(before, chosen) + if row.active then {} else {n};
  }

  ghost function Departed(t: Table, seen: set<string>): set<string> {
    set n | n in t && t[n].active && n !in seen
  }

  function Fetched(c: Config, remote: Remote, now: int): Remote {
    map n | n in remote && InFullFetch(c, now, remote[n]) :: remote[n]
  }

  function Changed(c: Config, remote: Remote, since: int): Remote {
    map n | n in remote && Wanted(c, remote[n]) && remote[n].fields.updatedAt > since :: remote[n]
  }

  function Aged(c: Config, remote: Remote, now: int): Remote {
    map n | n in remote && Wanted(c, remote[n]) && remote[n].fields.openedAt < now - c.agedAfterDays * DAY :: remote[n]
  }

  ghost function ActiveTickets(t: Table): set<string> {
    set n | n in t && t[n].active
  }

  // -- ServiceNow, holding still -----------------------------------------------

  datatype Reply = NoReply | Nothing | Found(incident: Incident)

  function ReplyFor(remote: Remote, unreadable: set<string>, n: string): Reply {
    if n in unreadable then NoReply else if n in remote then Found(remote[n]) else Nothing
  }

  type Page = seq<(string, Incident)>

  /** A page lists a result set: every row of it, in some order. */
  ghost predicate Lists(page: Page, m: Remote) {
    && (forall i :: 0 <= i < |page| ==> page[i].0 in m && m[page[i].0] == page[i].1)
    && (forall n :: n in m ==> n in Numbers(page))
    && |page| == |m|
  }

  ghost function Numbers(page: Page): set<string> {
    set i | 0 <= i < |page| :: page[i].0
  }

  lemma {:induction false} NumbersSnoc(page: Page, i: nat)
    requires i < |page|
    ensures Numbers(page[..i + 1]) == Numbers(page[..i]) + {page[i].0}
  {
  }

  /** Rows whose fingerprint differs from the one stored before the run. */
  ghost function CountNew(t: Table, page: Page): nat {
    if page == [] then 0
    else
      var (n, incident) := page[|page| - 1];
      CountNew(t, page[..|page| - 1]) + if n in t && t[n].hash == Fingerprint(incident.fields) then 0 else 1
  }

  class IncidentReader {
    const remote: Remote
    const unreadable: set<string>

    constructor (remote: Remote, unreadable: set<string>)
      ensures this.remote == remote && this.unreadable == unreadable
    {
      this.remote, this.unreadable := remote, unreadable;
    }

    static method Listing(m: Remote) returns (page: Page)
      ensures Lists(page, m)
    {
      var ns := Enumerate(m.Keys);
      assert forall i :: 0 <= i < |ns| ==> ns[i] in Elems(ns);
      assert m.Keys == Elems(ns) && |m| == |m.Keys|;
      page := seq(|ns|, i requires 0 <= i < |ns| => (ns[i], m[ns[i]]));
      forall n | n in m ensures n in Numbers(page) {
        assert n in Elems(ns);
        var i :| 0 <= i < |ns| && ns[i] == n;
        assert page[i].0 == n;
      }
    }

    method GetAged(c: Config, now: int) returns (page: Page)
      ensures Lists(page, Aged(c, remote, now))
    {
      page := Listing(Aged(c, remote, now));
    }

    method GetChangedSince(c: Config, since: int) returns (page: Page)
      ensures Lists(page, Changed(c, remote, since))
    {
      page := Listing(Changed(c, remote, since));
    }

    method GetByNumber(n: string) returns (reply: Reply)
      ensures reply == ReplyFor(remote, unreadable, n)
    {
      reply := if n in unreadable then NoReply else if n in remote then Found(remote[n]) else Nothing;
    }
  }

  // -- the sync ------------------------------------------------------------------

  datatype Report = Synced(fetched: nat, changed: nat, retired: nat, mark: int) | Failed

  /** The newest stamp of the rows, or the fallback when there are none. */
  ghost predicate IsHighWater(rows: Remote, fallback: int, mark: int) {
    if rows == map[] then mark == fallback
    else (forall n :: n in rows ==> rows[n].fields.updatedAt <= mark)
         && exists n :: n in rows && rows[n].fields.updatedAt == mark
  }

  class TicketSync {
    var table: Table
    var watermark: Option<int>
    const reader: IncidentReader
    const c: Config

    constructor (reader: IncidentReader, c: Config)
      ensures this.reader == reader && this.c == c && table == map[] && watermark == None
    {
      this.reader, this.c := reader, c;
      table, watermark := map[], None;
    }

    static method HighWater(page: Page, ghost rows: Remote, fallback: int) returns (mark: int)
      requires Lists(page, rows)
      ensures IsHighWater(rows, fallback, mark)
    {
      mark := fallback;
      if page == [] {
        assert rows == map[];
        return;
      }
      mark := page[0].1.fields.updatedAt;
      for i := 0 to |page|
        invariant forall j :: 0 <= j < i ==> page[j].1.fields.updatedAt <= mark
        invariant exists j :: 0 <= j < |page| && page[j].1.fields.updatedAt == mark
      {
        if page[i].1.fields.updatedAt > mark {
          mark := page[i].1.fields.updatedAt;
        }
      }
      forall n | n in rows ensures rows[n].fields.updatedAt <= mark {
        assert n in Numbers(page);
      }
    }

    method FetchFull(now: int) returns (page: Page, mark: int)
      ensures Lists(page, Fetched(c, reader.remote, now))
      ensures IsHighWater(Fetched(c, reader.remote, now), now, mark)
    {
      var aged := reader.GetAged(c, now);
      var recent := reader.GetChangedSince(c, now - COLD_START_DAYS * DAY);
      var both := aged + recent;
      var merged: Remote := map[];
      for i := 0 to |both|
        invariant merged == Merged(both[..i])
      {
        assert both[..i + 1][..i] == both[..i];
        merged := merged[both[i].0 := both[i].1];
      }
      assert both[..|both|] == both;
      MergedIsFetched(aged, recent, c, reader.remote, now);
      page := IncidentReader.Listing(merged);
      mark := HighWater(page, merged, now);
    }

    method FetchDelta(now: int) returns (page: Page, mark: int)
      ensures Lists(page, FetchedBy(false, watermark, c, reader.remote, now))
      ensures IsHighWater(FetchedBy(false, watermark, c, reader.remote, now), now, mark)
    {
      if watermark.None? {
        page, mark := FetchFull(now);
      } else {
        var since := watermark.value - OVERLAP;
        page := reader.GetChangedSince(c, since);
        mark := HighWater(page, Changed(c, reader.remote, since), now);
      }
    }

    /** Upserts every row, counting those whose fingerprint is new. */
    method Persist(page: Page, now: int) returns (changed: nat)
      modifies this
      ensures table == Persisted(old(table), page, now) && watermark == old(watermark)
      ensures changed == CountNew(old(table), page)
    {
      var existing := map n | n in table :: table[n].hash;
      changed := 0;
      for i := 0 to |page|
        invariant watermark == old(watermark)
        invariant changed == CountNew(old(table), page[..i]) && table == Persisted(old(table), page[..i], now)
      {
        var (n, incident) := page[i];
        assert page[..i + 1][..i] == page[..i];
        if n !in existing || existing[n] != Fingerprint(incident.fields) {
          changed := changed + 1;
        }
        table := table[n := Stored(table, n, incident.fields, now)];
      }
      assert page[..|page|] == page;
    }

    /** Reads departed tickets again, up to the ceiling, refreshing each row
        before deciding whether to retire it. `chosen` is what was read. */
    method RetireClosed(page: Page, full: bool, now: int) returns (retired: nat, ghost chosen: set<string>)
      modifies this
      ensures watermark == old(watermark)
      ensures !full ==> table == old(table) && retired == 0
      ensures full ==> var gone := Departed(old(table), Numbers(page));
                && chosen <= gone && |chosen| == (if |gone| > c.ceiling then c.ceiling else |gone|)
                && table == Reconciled(old(table), c, reader.remote, reader.unreadable, chosen, now)
                && retired == |Inactive(table, chosen)|
    {
      retired, chosen := 0, {};
      if !full {
        return;
      }
      var seen := set i | 0 <= i < |page| :: page[i].0;
      var tracked := set n | n in table && table[n].active && n !in seen;
      var gone := Enumerate(tracked);
      ghost var all := gone;
      forall n | n in all ensures n in table && table[n].active {
        assert n in Elems(all);
      }
      if |gone| > c.ceiling {
        gone := gone[..c.ceiling];
      }
      chosen := Elems(gone);
      assert forall n :: n in gone ==> n in all;
      DistinctSize(gone);
      retired := RereadAll(gone, now);
    }

    method RereadAll(gone: seq<string>, now: int) returns (retired: nat)
      requires Distinct(gone) && forall n :: n in gone ==> n in table && table[n].active
      modifies this
      ensures watermark == old(watermark)
      ensures table == Reconciled(old(table), c, reader.remote, reader.unreadable, Elems(gone), now)
      ensures retired == |Inactive(table, Elems(gone))|
    {
      retired := 0;
      ghost var start := table;
      for i := 0 to |gone|
        invariant watermark == old(watermark)
        invariant table == Reconciled(start, c, reader.remote, reader.unreadable, Elems(gone[..i]), now)
        invariant retired == |Inactive(table, Elems(gone[..i]))|
      {
        var n := gone[i];
        assert n in gone;
        ElemsPrefix(gone, i);
        RereadOne(start, c, reader.remote, reader.unreadable, Elems(gone[..i]), n, now);
        var gained := RetireOne(n, now);
        retired := retired + gained;
      }
      assert gone[..|gone|] == gone;
    }

    /** A ticket that has left the fetch: left alone if it cannot be read,
        retired if it is gone, otherwise refreshed first and retired second. */
    method RetireOne(n: string, now: int) returns (retired: nat)
      requires n in table
      modifies this
      ensures watermark == old(watermark)
      ensures table == old(table)[n := Reread(old(table), c, n, ReplyFor(reader.remote, reader.unreadable, n), now)]
      ensures old(table)[n].active ==> retired == if table[n].active then 0 else 1
    {
      var reply := reader.GetByNumber(n);
      match reply {
        case NoReply =>
          retired := 0;
          assert table == table[n := table[n]];
        case Nothing =>
          Retire(n, now);
          retired := 1;
        case Found(current) =>
          var _ := Persist([(n, current)], now);
          assert [(n, current)][..0] == [];
          retired := 0;
          if !Open(current) || !Tracked(c.trackedGroups, current.fields.group) {
            Retire(n, now);
            retired := 1;
          }
      }
    }

    method Retire(n: string, now: int)
      requires n in table
      modifies this
      ensures table == old(table)[n := old(table)[n].(active := false, lastSynced := now)]
      ensures watermark == old(watermark)
    {
      table := table[n := table[n].(active := false, lastSynced := now)];
    }

    /** One run, against a remote that holds still. A fetch that raises leaves
        everything as it was, the watermark included. */
    method Run(full: bool, started: int, fetchFails: bool)
      returns (r: Report, ghost page: Page, ghost chosen: set<string>)
      modifies this
      ensures r.Failed? <==> fetchFails
      ensures fetchFails ==> table == old(table) && watermark == old(watermark)
      ensures !fetchFails ==>
                && Lists(page, FetchedBy(full, old(watermark), c, reader.remote, started))
                && IsHighWater(FetchedBy(full, old(watermark), c, reader.remote, started), started, r.mark)
                && r.fetched == |page| && r.changed == CountNew(old(table), page) && watermark == Some(r.mark)
      ensures !fetchFails && !full ==> table == Persisted(old(table), page, started) && r.retired == 0
      ensures !fetchFails && full ==>
                && AfterFullSync(old(table), table, page, chosen, c, reader.remote, reader.unreadable, started)
                && r.retired == |Inactive(table, chosen)|
    {
      page, chosen := [], {};
      if fetchFails {
        return Failed, [], {};
      }
      var rows, mark;
      if full {
        rows, mark := FetchFull(started);
      } else {
        rows, mark := FetchDelta(started);
      }
      var changed := Persist(rows, started);
      var retired;
      retired, chosen := RetireClosed(rows, full, started);
      watermark := Some(mark);
      r, page := Synced(|rows|, changed, retired, mark), rows;
    }
  }

  /** A full sync, or the first ever, fetches everything wanted; otherwise only
      what was touched since the watermark, less the overlap. */
  ghost function FetchedBy(full: bool, watermark: Option<int>, c: Config, remote: Remote, now: int): Remote {
    if full || watermark.None? then Fetched(c, remote, now) else Changed(c, remote, watermark.value - OVERLAP)
  }

  ghost predicate AfterFullSync(before: Table, after: Table, page: Page, chosen: set<string>,
                                c: Config, remote: Remote, unreadable: set<string>, now: int)
  {
    var stored := Persisted(before, page, now);
    var gone := Departed(stored, Numbers(page));
    && chosen <= gone && |chosen| == (if |gone| > c.ceiling then c.ceiling else |gone|)
    && after == Reconciled(stored, c, remote, unreadable, chosen, now)
  }

  lemma {:induction false} BothPages(a: Page, b: Page)
    ensures Numbers(a + b) == Numbers(a) + Numbers(b)
  {
    forall n | n in Numbers(a) + Numbers(b) ensures n in Numbers(a + b) {
      if n in Numbers(a) {
        var i :| 0 <= i < |a| && a[i].0 == n;
        assert (a + b)[i].0 == n;
      } else {
        var i :| 0 <= i < |b| && b[i].0 == n;
        assert (a + b)[|a| + i].0 == n;
      }
    }
  }

  // ---------------------------------------------------------------------
  // what a full sync achieves
  // ---------------------------------------------------------------------

  ghost function WantedTickets(c: Config, remote: Remote): set<string> {
    set n | n in remote && Wanted(c, remote[n])
  }

  /** Scope is decided in two places, by the query the reader was started with
      and by the settings a re-read consults. Here the second keeps no open
      ticket that the first would not ask for. */
  ghost predicate ScopesAgree(c: Config, remote: Remote) {
    forall n :: n in remote && Kept(c, remote[n]) ==> Wanted(c, remote[n])
  }

  /** A group that only differs in case or outer blanks from one configured. */
  ghost predicate NearMiss(groups: seq<string>, group: string) {
    groups != [] && group !in groups && Lower(Strip(group)) in TrackedNames(groups)
  }

  ghost predicate NoBlankNames(groups: seq<string>) {
    forall g :: g in groups ==> Strip(g) != ""
  }

  /** One list in both places, as `assignment_groups` gives it, without blank
      names: then a re-read keeps every group the reader asks for, and besides
      them exactly the near misses. */
  lemma {:induction false} TrackedIsQueriedOrNear(groups: seq<string>, group: string)
    requires NoBlankNames(groups)
    ensures Tracked(groups, group) <==> Queried(groups, group) || NearMiss(groups, group)
  {
    forall g | g in groups ensures Lower(Strip(g)) in TrackedNames(groups) {
      var i :| 0 <= i < |groups| && groups[i] == g;
    }
    assert groups != [] ==> groups[0] in groups;
  }

  /** So with one list the two agree exactly when no open ticket is in a group
      that misses a configured one by case or blanks alone. */
  lemma {:induction false} ScopesAgreeIff(c: Config, remote: Remote)
    requires c.readerGroups == c.trackedGroups && NoBlankNames(c.readerGroups)
    ensures ScopesAgree(c, remote)
            <==> forall n :: n in remote && Open(remote[n]) ==> !NearMiss(c.readerGroups, remote[n].fields.group)
  {
    forall n | n in remote
      ensures (Kept(c, remote[n]) ==> Wanted(c, remote[n]))
              <==> (Open(remote[n]) ==> !NearMiss(c.readerGroups, remote[n].fields.group))
    {
      TrackedIsQueriedOrNear(c.readerGroups, remote[n].fields.group);
    }
  }

  /** Every departed ticket was reached and could be read. */
  ghost predicate AllReconciled(before: Table, page: Page, c: Config, unreadable: set<string>, now: int) {
    var gone := Departed(Persisted(before, page, now), Numbers(page));
    |gone| <= c.ceiling && gone !! unreadable
  }

  lemma {:induction false} EverybodyChosen(before: Table, after: Table, page: Page, chosen: set<string>, c: Config,
                                           remote: Remote, unreadable: set<string>, now: int)
    requires AfterFullSync(before, after, page, chosen, c, remote, unreadable, now)
    requires AllReconciled(before, page, c, unreadable, now)
    ensures chosen == Departed(Persisted(before, page, now), Numbers(page))
  {
    var gone := Departed(Persisted(before, page, now), Numbers(page));
    assert gone == chosen + (gone - chosen);
    assert |gone| == |chosen| + |gone - chosen|;
  }

  /** With no assumption on dates or scope: afterwards the active tickets are
      the remote ones that were fetched, and those active before that a re-read
      keeps, and each active row is its remote record as it stands. */
  lemma {:induction false} ActiveAfterFullSync(before: Table, after: Table, page: Page, chosen: set<string>,
                                               c: Config, remote: Remote, unreadable: set<string>, now: int)
    requires Lists(page, Fetched(c, remote, now))
    requires AfterFullSync(before, after, page, chosen, c, remote, unreadable, now)
    requires AllReconciled(before, page, c, unreadable, now)
    ensures forall n :: n in ActiveTickets(after) <==>
                          n in remote && (InFullFetch(c, now, remote[n])
                                          || (n in ActiveTickets(before) && Kept(c, remote[n])))
    ensures forall n :: n in ActiveTickets(after) ==>
                          after[n].data == remote[n].fields && after[n].hash == Fingerprint(remote[n].fields)
                          && after[n].lastSynced == now
  {
    forall n
      ensures n in ActiveTickets(after) <==>
              n in remote && (InFullFetch(c, now, remote[n]) || (n in ActiveTickets(before) && Kept(c, remote[n])))
      ensures n in ActiveTickets(after) ==>
              after[n].data == remote[n].fields && after[n].hash == Fingerprint(remote[n].fields)
              && after[n].lastSynced == now
    {
      TicketAfterFullSync(before, after, page, chosen, c, remote, unreadable, now, n);
    }
  }

  lemma {:induction false} TicketAfterFullSync(before: Table, after: Table, page: Page, chosen: set<string>,
                                               c: Config, remote: Remote, unreadable: set<string>, now: int,
                                               n: string)
    requires Lists(page, Fetched(c, remote, now))
    requires AfterFullSync(before, after, page, chosen, c, remote, unreadable, now)
    requires AllReconciled(before, page, c, unreadable, now)
    ensures n in ActiveTickets(after) <==>
            n in remote && (InFullFetch(c, now, remote[n]) || (n in ActiveTickets(before) && Kept(c, remote[n])))
    ensures n in ActiveTickets(after) ==>
            after[n].data == remote[n].fields && after[n].hash == Fingerprint(remote[n].fields)
            && after[n].lastSynced == now
  {
    EverybodyChosen(before, after, page, chosen, c, remote, unreadable, now);
    PageKeys(page, Fetched(c, remote, now));
    PersistedFacts(before, page, now, remote);
    var stored := Persisted(before, page, now);
    if n in Numbers(page) {
      assert after[n] == stored[n] == Stored(before, n, remote[n].fields, now);
    } else if n in stored && stored[n].active {
      assert n in chosen && n !in unreadable;
      assert after[n] == Reread(stored, c, n, ReplyFor(remote, unreadable, n), now);
    }
  }

  /** What that means on the board, in the numbers of ServiceNow: a ticket that
      is inactive or in another state than New, In Progress and On Hold is off
      it, whether it was fetched before or not. One in those states is on it if
      the reader asks for its group and it is old or was touched within 45 days,
      or if it was on it and the settings name its group. */
  lemma {:induction false} BoardAfterFullSync(before: Table, after: Table, page: Page, chosen: set<string>,
                                              c: Config, remote: Remote, unreadable: set<string>, now: int,
                                              n: string)
    requires Lists(page, Fetched(c, remote, now))
    requires AfterFullSync(before, after, page, chosen, c, remote, unreadable, now)
    requires AllReconciled(before, page, c, unreadable, now)
    ensures n !in remote || !remote[n].active || remote[n].fields.state !in {1, 2, 3} ==> n !in ActiveTickets(after)
    ensures n in remote && remote[n].active && remote[n].fields.state in {1, 2, 3} ==>
              var f := remote[n].fields;
              var fetched := && (c.readerGroups == [] || f.group in c.readerGroups)
                             && (f.openedAt < now - c.agedAfterDays * 86400 || f.updatedAt > now - 45 * 86400);
              var kept := NamesNone(c.trackedGroups)
                          || exists g :: g in c.trackedGroups && Strip(g) != ""
                                         && Lower(Strip(g)) == Lower(Strip(f.group));
              n in ActiveTickets(after) <==> fetched || (n in before && before[n].active && kept)
  {
    ActiveAfterFullSync(before, after, page, chosen, c, remote, unreadable, now);
    if n in remote {
      TrackedIff(c.trackedGroups, remote[n].fields.group);
    }
  }

  /** A delta puts on the board what the reader asks for and was touched since
      five minutes before the watermark, and takes nothing off it. */
  lemma {:induction false} BoardAfterDelta(before: Table, page: Page, c: Config, remote: Remote, watermark: int,
                                           now: int, n: string)
    requires Lists(page, FetchedBy(false, Some(watermark), c, remote, now))
    ensures var after := Persisted(before, page, now);
            var fetched := && n in remote && remote[n].active && remote[n].fields.state in {1, 2, 3}
                           && (c.readerGroups == [] || remote[n].fields.group in c.readerGroups)
                           && remote[n].fields.updatedAt > watermark - 300;
            && (n in ActiveTickets(after) <==> fetched || n in ActiveTickets(before))
            && (fetched ==> after[n].data == remote[n].fields && after[n].lastSynced == now)
            && (!fetched && n in before ==> n in after && after[n] == before[n])
  {
    PageKeys(page, FetchedBy(false, Some(watermark), c, remote, now));
    PersistedFacts(before, page, now, remote);
  }

  /** A ticket keeps the instant it was first seen, whatever becomes of it. */
  lemma {:induction false} FirstSeenStays(before: Table, after: Table, page: Page, chosen: set<string>,
                                          c: Config, remote: Remote, unreadable: set<string>, now: int)
    requires Lists(page, Fetched(c, remote, now))
    requires AfterFullSync(before, after, page, chosen, c, remote, unreadable, now)
    ensures forall n :: n in before ==> n in after && after[n].firstSeen == before[n].firstSeen
    ensures forall n :: n in after && n !in before ==> after[n].firstSeen == now
  {
    PersistedFacts(before, page, now, remote);
  }

  /** A ticket counts as changed when one of six of its fields is another. */
  lemma {:induction false} FingerprintIff(f: Fields, g: Fields)
    ensures Fingerprint(f) == Fingerprint(g)
            <==> && f.updatedAt == g.updatedAt && f.state == g.state && f.hold == g.hold
                 && f.group == g.group && f.agent == g.agent && f.priority == g.priority
  {
  }

  /** No name but blank ones. */
  ghost predicate NamesNone(groups: seq<string>) {
    forall g :: g in groups ==> Strip(g) == ""
  }

  lemma {:induction false} TrackedIff(groups: seq<string>, group: string)
    ensures Tracked(groups, group)
            <==> NamesNone(groups)
                 || exists g :: g in groups && Strip(g) != "" && Lower(Strip(g)) == Lower(Strip(group))
  {
    var names := TrackedNames(groups);
    forall g | g in groups && Strip(g) != "" ensures Lower(Strip(g)) in names {
      var i :| 0 <= i < |groups| && groups[i] == g;
    }
  }

  ghost predicate UpdatedNotBeforeOpened(remote: Remote) {
    forall n :: n in remote ==> remote[n].fields.openedAt <= remote[n].fields.updatedAt
  }

  /** A full sync makes the active tickets exactly the remote open ones in
      scope. */
  lemma {:induction false} FullSyncIsExact(before: Table, after: Table, page: Page, chosen: set<string>, c: Config,
                                           remote: Remote, unreadable: set<string>, now: int)
    requires Lists(page, Fetched(c, remote, now))
    requires AfterFullSync(before, after, page, chosen, c, remote, unreadable, now)
    requires AllReconciled(before, page, c, unreadable, now) && ScopesAgree(c, remote)
    requires UpdatedNotBeforeOpened(remote) && c.agedAfterDays < COLD_START_DAYS
    ensures ActiveTickets(after) == WantedTickets(c, remote)
    ensures forall n :: n in WantedTickets(c, remote) ==> after[n].data == remote[n].fields
  {
    ActiveAfterFullSync(before, after, page, chosen, c, remote, unreadable, now);
    forall n | n in WantedTickets(c, remote) ensures InFullFetch(c, now, remote[n]) {
    }
  }

  /** Every sync that reaches and reads all it has to leaves exactly the wanted
      tickets active, whatever the table was before. */
  ghost predicate AlwaysExact(c: Config, remote: Remote, now: int) {
    forall before, after, page, chosen, unreadable ::
      && Lists(page, Fetched(c, remote, now))
      && AfterFullSync(before, after, page, chosen, c, remote, unreadable, now)
      && AllReconciled(before, page, c, unreadable, now)
      ==> ActiveTickets(after) == WantedTickets(c, remote)
  }

  lemma {:induction false} SomePage(m: Remote) returns (page: Page)
    ensures Lists(page, m)
  {
    page := [];
    if m != map[] {
      var n :| n in m;
      var rest := m - {n};
      assert rest.Keys == m.Keys - {n};
      var front := SomePage(rest);
      page := front + [(n, m[n])];
      PageSnoc(front, rest, n, m[n]);
      assert rest[n := m[n]] == m;
    }
  }

  lemma {:induction false} PageSnoc(front: Page, rest: Remote, n: string, i: Incident)
    requires Lists(front, rest) && n !in rest
    ensures Lists(front + [(n, i)], rest[n := i])
  {
    var page, m := front + [(n, i)], rest[n := i];
    forall k | 0 <= k < |page| ensures page[k].0 in m && m[page[k].0] == page[k].1 {
      assert k < |front| ==> page[k] == front[k];
    }
    forall x | x in m ensures x in Numbers(page) {
      if x == n {
        assert page[|front|].0 == x;
      } else {
        var k :| 0 <= k < |front| && front[k].0 == x;
        assert page[k].0 == x;
      }
    }
    assert m - {n} == rest;
    OneMore(rest, n, i);
  }

  lemma {:induction false} OneMore(m: Remote, n: string, i: Incident)
    requires n !in m
    ensures |m[n := i]| == |m| + 1
  {
    assert m[n := i].Keys == m.Keys + {n};
    assert |m| == |m.Keys| && |m[n := i]| == |m[n := i].Keys|;
  }

  /** A full sync of a table in which at most one ticket is active. */
  lemma {:induction false} SyncOfOne(c: Config, remote: Remote, before: Table, now: int)
      returns (after: Table, page: Page, chosen: set<string>)
    requires c.ceiling > 0 && (before == map[] || exists n, row :: before == map[n := row])
    ensures Lists(page, Fetched(c, remote, now))
    ensures AfterFullSync(before, after, page, chosen, c, remote, {}, now)
    ensures AllReconciled(before, page, c, {}, now)
  {
    page := SomePage(Fetched(c, remote, now));
    PageKeys(page, Fetched(c, remote, now));
    PersistedFacts(before, page, now, remote);
    var stored := Persisted(before, page, now);
    chosen := Departed(stored, Numbers(page));
    assert chosen <= before.Keys;
    SubsetSize(chosen, before.Keys);
    after := Reconciled(stored, c, remote, {}, chosen, now);
  }

  /** Exactly when: the windows reach every wanted ticket of this remote, and a
      re-read would keep none that the reader does not ask for. (The program
      takes a ceiling of 0 for 500.) */
  lemma {:induction false} AlwaysExactIff(c: Config, remote: Remote, now: int)
    requires c.ceiling > 0
    ensures AlwaysExact(c, remote, now)
            <==> Fetched(c, remote, now).Keys == WantedTickets(c, remote) && ScopesAgree(c, remote)
  {
    if Fetched(c, remote, now).Keys == WantedTickets(c, remote) && ScopesAgree(c, remote) {
      forall before, after, page, chosen, unreadable |
        && Lists(page, Fetched(c, remote, now))
        && AfterFullSync(before, after, page, chosen, c, remote, unreadable, now)
        && AllReconciled(before, page, c, unreadable, now)
        ensures ActiveTickets(after) == WantedTickets(c, remote)
      {
        ActiveAfterFullSync(before, after, page, chosen, c, remote, unreadable, now);
        forall n ensures n in ActiveTickets(after) <==> n in WantedTickets(c, remote) {
          assert n in WantedTickets(c, remote) <==> n in Fetched(c, remote, now);
        }
      }
    } else if Fetched(c, remote, now).Keys != WantedTickets(c, remote) {
      var n :| n in WantedTickets(c, remote) && n !in Fetched(c, remote, now);
      var after, page, chosen := SyncOfOne(c, remote, map[], now);
      ActiveAfterFullSync(map[], after, page, chosen, c, remote, {}, now);
      assert n !in ActiveTickets(after);
    } else {
      var n :| n in remote && Kept(c, remote[n]) && !Wanted(c, remote[n]);
      var f := remote[n].fields;
      var before := map[n := Row(f, Fingerprint(f), true, now, now)];
      var after, page, chosen := SyncOfOne(c, remote, before, now);
      ActiveAfterFullSync(before, after, page, chosen, c, remote, {}, now);
      assert n in ActiveTickets(before);
      assert n in ActiveTickets(after);
    }
  }

  /** The windows reach every wanted ticket of every remote exactly when the
      age threshold is under 45 days. At 45 the two meet in a single instant
      that both leave out: a ticket opened then and never touched since. */
  lemma {:induction false} WindowsMeetIff(c: Config, now: int)
    ensures (forall remote: Remote :: UpdatedNotBeforeOpened(remote)
               ==> Fetched(c, remote, now).Keys == WantedTickets(c, remote))
            <==> c.agedAfterDays < 45
  {
    if c.agedAfterDays < COLD_START_DAYS {
      forall remote: Remote | UpdatedNotBeforeOpened(remote)
        ensures Fetched(c, remote, now).Keys == WantedTickets(c, remote) {
      }
    } else {
      var edge := now - COLD_START_DAYS * DAY;
      var queue := if c.readerGroups == [] then "" else c.readerGroups[0];
      var missed := Incident(Fields(1, "", queue, "", "", edge, edge, ""), true);
      var remote: Remote := map["INC1" := missed];
      assert UpdatedNotBeforeOpened(remote);
      assert "INC1" in WantedTickets(c, remote) && "INC1" !in Fetched(c, remote, now);
    }
  }

  /** Beyond the ceiling, or where the re-read failed, a row is left exactly as
      it was: an outage cannot clear the board. */
  lemma {:induction false} UnreadRowsAreUntouched(before: Table, after: Table, page: Page, chosen: set<string>,
                                                  c: Config, remote: Remote, unreadable: set<string>, now: int,
                                                  n: string)
    requires Lists(page, Fetched(c, remote, now))
    requires AfterFullSync(before, after, page, chosen, c, remote, unreadable, now)
    requires n in before && n !in Numbers(page) && (n in unreadable || n !in chosen)
    ensures n in after && after[n] == before[n]
  {
    PageKeys(page, Fetched(c, remote, now));
    PersistedFacts(before, page, now, remote);
  }
}
