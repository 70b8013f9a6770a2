/** The same sync with the remote side moving: updates become visible between
    the queries of a run, between the rows it writes, and between a departed
    ticket being read again and its row being written. Any run may fail at any
    point. The question is whether the watermark can ever step over a change. */
module SyncWatermark {
  import opened Text
  import opened Sync

  /** `at` is the clock at the last query and `snapshot` the remote then; both
      record history, as does `seen` beyond its use by the retirement. */
  datatype Phase =
    | Idle
    | Started(full: bool, started: int)
    | Querying(full: bool, started: int, pending: Remote, queriedAt: int)
    | Loaded(full: bool, pending: Remote, seen: set<string>, mark: int, at: int, snapshot: Remote,
             held: Option<(string, Reply)>)

  datatype Machine = Machine(clock: int, remote: Remote, table: Table, watermark: Option<int>, phase: Phase)

  datatype Event =
    | Tick(to: int)
    | Change(number: string, incident: Incident)
    | Delete(number: string)
    | Begin(full: bool)
    | QueryDelta(mark: int)
    | QueryAged
    | QueryRecent(mark: int)
    | PersistOne(number: string)
    | ReadAgain(number: string, readable: bool)
    | WriteAgain
    | Finish
    | Fail

  /** An update becomes visible no later than `lag` after its stamp, and no
      stamp is ahead of the local clock. */
  predicate Timely(i: Incident, clock: int, lag: int) {
    clock - lag <= i.fields.updatedAt <= clock && i.fields.openedAt <= i.fields.updatedAt
  }

  ghost function Next(c: Config, lag: int, m: Machine, e: Event): Machine {
    match e
    case Tick(to) => if to >= m.clock then m.(clock := to) else m
    case Change(n, i) => if Timely(i, m.clock, lag) then m.(remote := m.remote[n := i]) else m
    case Delete(n) => m.(remote := m.remote - {n})
    case Begin(full) => if m.phase.Idle? then m.(phase := Started(full, m.clock)) else m
    case QueryDelta(mark) =>
      if !m.phase.Started? || m.phase.full || m.watermark.None? then m
      else
        var rows := Changed(c, m.remote, m.watermark.value - OVERLAP);
        if IsHighWater(rows, m.phase.started, mark)
        then m.(phase := Loaded(false, rows, rows.Keys, mark, m.clock, m.remote, None)) else m
    case QueryAged =>
      if m.phase.Started? && (m.phase.full || m.watermark.None?)
      then m.(phase := Querying(m.phase.full, m.phase.started, Aged(c, m.remote, m.phase.started), m.clock)) else m
    case QueryRecent(mark) =>
      if !m.phase.Querying? then m
      else
        var rows := m.phase.pending + Changed(c, m.remote, m.phase.started - COLD_START_DAYS * DAY);
        if IsHighWater(rows, m.phase.started, mark)
        then m.(phase := Loaded(m.phase.full, rows, rows.Keys, mark, m.clock, m.remote, None)) else m
    case PersistOne(n) =>
      if m.phase.Loaded? && n in m.phase.pending
      then m.(table := m.table[n := Stored(m.table, n, m.phase.pending[n].fields, m.clock)],
              phase := m.phase.(pending := m.phase.pending - {n}))
      else m
    case ReadAgain(n, readable) =>
      if m.phase.Loaded? && m.phase.full && m.phase.pending == map[] && m.phase.held.None?
         && n in m.table && m.table[n].active && n !in m.phase.seen
      then m.(phase := m.phase.(held := Some((n, ReplyFor(m.remote, if readable then {} else {n}, n)))))
      else m
    case WriteAgain =>
      if m.phase.Loaded? && m.phase.held.Some? && m.phase.held.value.0 in m.table
      then
        var (n, reply) := m.phase.held.value;
        m.(table := m.table[n := Reread(m.table, c, n, reply, m.clock)], phase := m.phase.(held := None))
      else m
    case Finish =>
      if Complete(m) then m.(watermark := Some(m.phase.mark), phase := Idle) else m
    case Fail => m.(phase := Idle)
  }

  /** Everything fetched has been written, so the run may succeed now. */
  ghost predicate Complete(m: Machine) {
    m.phase.Loaded? && m.phase.pending == map[] && m.phase.held.None?
  }

  ghost function Run(c: Config, lag: int, m: Machine, events: seq<Event>): Machine {
    if events == [] then m
    else Next(c, lag, Run(c, lag, m, events[..|events| - 1]), events[|events| - 1])
  }

  /** A service that has never synced, in front of any remote. */
  ghost predicate Initial(m: Machine) {
    && m.watermark == None && m.phase == Idle
    && forall n :: n in m.remote ==> m.remote[n].fields.openedAt <= m.remote[n].fields.updatedAt <= m.clock
  }

  // -- the invariant ---------------------------------------------------------

  ghost predicate Reflects(t: Table, n: string, i: Incident) {
    n in t && t[n].active && t[n].data == i.fields
  }

  /** Still to come: stamped late enough that the next delta will return it. */
  predicate Ahead(i: Incident, mark: int) {
    i.fields.updatedAt > mark - OVERLAP
  }

  ghost predicate RemoteOk(m: Machine) {
    forall n :: n in m.remote ==> m.remote[n].fields.openedAt <= m.remote[n].fields.updatedAt <= m.clock
  }

  /** No wanted ticket lies behind the watermark unreflected. */
  ghost predicate NothingBehind(c: Config, m: Machine) {
    m.watermark.Some? ==>
      && m.watermark.value <= m.clock
      && forall n :: n in m.remote && Wanted(c, m.remote[n]) ==>
                       Ahead(m.remote[n], m.watermark.value) || Reflects(m.table, n, m.remote[n])
  }

  ghost predicate StartedOk(m: Machine) {
    m.phase.Started? ==> m.phase.started <= m.clock && (m.watermark.Some? ==> m.watermark.value <= m.clock)
  }

  ghost predicate QueryingOk(c: Config, m: Machine) {
    m.phase.Querying? ==>
      var p := m.phase;
      && p.started <= p.queriedAt <= m.clock
      && (m.watermark.Some? ==> m.watermark.value <= p.queriedAt)
      && (forall n :: n in p.pending ==> p.pending[n].fields.updatedAt <= p.queriedAt)
      && (forall n :: n in m.remote && Wanted(c, m.remote[n]) ==>
            || Ahead(m.remote[n], p.queriedAt)
            || (n in p.pending && p.pending[n] == m.remote[n])
            || m.remote[n].fields.openedAt >= p.started - c.agedAfterDays * DAY)
  }

  /** Whatever is wanted now is written, or waiting to be, or changed since; so
      a ticket that is read again, and may be retired, is not wanted or will be
      returned by the next delta. */
  ghost predicate LoadedOk(c: Config, m: Machine) {
    m.phase.Loaded? ==>
      var p := m.phase;
      && p.mark <= p.at <= m.clock
      && (m.watermark.Some? ==> m.watermark.value <= p.at)
      && (forall n :: n in m.remote && Wanted(c, m.remote[n]) ==>
            || Ahead(m.remote[n], p.at)
            || (if n in p.pending then p.pending[n] == m.remote[n]
                else Ahead(m.remote[n], p.mark) || Reflects(m.table, n, m.remote[n])))
      && (p.full ==> forall n :: n in m.remote && Wanted(c, m.remote[n]) ==> Ahead(m.remote[n], p.at) || n in p.seen)
      && (p.held.Some? ==> p.full && p.held.value.0 !in p.seen)
  }

  /** What the run fetched is on its way into the table, as fetched. */
  ghost predicate SnapshotOk(c: Config, m: Machine) {
    m.phase.Loaded? ==>
      var p := m.phase;
      && p.pending.Keys <= p.seen
      && (forall n :: n in p.snapshot && Wanted(c, p.snapshot[n]) ==>
            && (p.full ==> n in p.seen)
            && if n in p.pending then p.pending[n] == p.snapshot[n] else Reflects(m.table, n, p.snapshot[n]))
  }

  ghost predicate Inv(c: Config, m: Machine) {
    RemoteOk(m) && NothingBehind(c, m) && StartedOk(m) && QueryingOk(c, m) && LoadedOk(c, m) && SnapshotOk(c, m)
  }

  ghost predicate Settings(c: Config, lag: int) {
    c.agedAfterDays < COLD_START_DAYS && 0 <= lag < OVERLAP
  }

  lemma {:induction false} RemoteMoves(c: Config, lag: int, m: Machine, n: string, i: Incident)
    requires Settings(c, lag) && Inv(c, m) && Timely(i, m.clock, lag)
    ensures Inv(c, m.(remote := m.remote[n := i]))
  {
  }

  lemma {:induction false} DeltaQueried(c: Config, lag: int, m: Machine, mark: int)
    requires Settings(c, lag) && Inv(c, m)
    ensures Inv(c, Next(c, lag, m, QueryDelta(mark)))
  {
  }

  lemma {:induction false} AgedQueried(c: Config, lag: int, m: Machine)
    requires Settings(c, lag) && Inv(c, m)
    ensures Inv(c, Next(c, lag, m, QueryAged))
  {
  }

  lemma {:induction false} RecentQueried(c: Config, lag: int, m: Machine, mark: int)
    requires Settings(c, lag) && Inv(c, m)
    ensures Inv(c, Next(c, lag, m, QueryRecent(mark)))
  {
  }

  lemma {:induction false} RowPersisted(c: Config, lag: int, m: Machine, n: string)
    requires Settings(c, lag) && Inv(c, m)
    ensures Inv(c, Next(c, lag, m, PersistOne(n)))
  {
  }

  lemma {:induction false} TicketReread(c: Config, lag: int, m: Machine)
    requires Settings(c, lag) && Inv(c, m)
    ensures Inv(c, Next(c, lag, m, WriteAgain))
  {
  }

  lemma {:induction false} NextKeepsInv(c: Config, lag: int, m: Machine, e: Event)
    requires Settings(c, lag) && Inv(c, m)
    ensures Inv(c, Next(c, lag, m, e))
  {
    match e
    case Tick(to) =>
    case Change(n, i) => if Timely(i, m.clock, lag) { RemoteMoves(c, lag, m, n, i); }
    case Delete(n) =>
    case Begin(full) =>
    case QueryDelta(mark) => DeltaQueried(c, lag, m, mark);
    case QueryAged => AgedQueried(c, lag, m);
    case QueryRecent(mark) => RecentQueried(c, lag, m, mark);
    case PersistOne(n) => RowPersisted(c, lag, m, n);
    case ReadAgain(n, readable) =>
    case WriteAgain => TicketReread(c, lag, m);
    case Finish =>
    case Fail =>
  }

  lemma {:induction false} EveryRunKeepsInv(c: Config, lag: int, m: Machine, events: seq<Event>)
    requires Settings(c, lag) && Initial(m)
    ensures Inv(c, Run(c, lag, m, events))
  {
    if events != [] {
      EveryRunKeepsInv(c, lag, m, events[..|events| - 1]);
      NextKeepsInv(c, lag, Run(c, lag, m, events[..|events| - 1]), events[|events| - 1]);
    }
  }

  // -- the promise -------------------------------------------------------------

  /** Whenever a run is about to succeed, every wanted ticket that was visible
      at its last query is in the table, exactly as it was then. */
  ghost predicate NoGap(c: Config, m: Machine) {
    Complete(m) ==>
      forall n :: n in m.phase.snapshot && Wanted(c, m.phase.snapshot[n]) ==> Reflects(m.table, n, m.phase.snapshot[n])
  }

  lemma {:induction false} NoChangeIsMissed(c: Config, lag: int, m: Machine, events: seq<Event>)
    requires Settings(c, lag) && Initial(m)
    ensures NoGap(c, Run(c, lag, m, events))
  {
    EveryRunKeepsInv(c, lag, m, events);
  }

  /** At any moment whatever, a wanted ticket the table does not yet reflect is
      one the next delta will return. */
  lemma {:induction false} WhatIsMissingIsAhead(c: Config, lag: int, m: Machine, events: seq<Event>)
    requires Settings(c, lag) && Initial(m)
    ensures var s := Run(c, lag, m, events);
            s.watermark.Some? ==>
              forall n :: n in s.remote && Wanted(c, s.remote[n]) && !Reflects(s.table, n, s.remote[n]) ==>
                            n in Changed(c, s.remote, s.watermark.value - OVERLAP)
  {
    EveryRunKeepsInv(c, lag, m, events);
  }

  function SomeQueue(c: Config): string {
    if c.readerGroups == [] then "" else c.readerGroups[0]
  }

  function Ticket(c: Config, stamp: int): Incident {
    Incident(Fields(1, "", SomeQueue(c), "", "", stamp, stamp, ""), true)
  }

  /** An empty remote at noon: the first sync finds nothing and takes its own
      start as the watermark. */
  function FirstSync(noon: int): seq<Event> {
    [Begin(true), QueryAged, QueryRecent(noon), Finish]
  }

  ghost function Quiet(noon: int): Machine {
    Machine(noon, map[], map[], None, Idle)
  }

  lemma {:induction false} RunSnoc(c: Config, lag: int, m: Machine, events: seq<Event>, e: Event)
    ensures Run(c, lag, m, events + [e]) == Next(c, lag, Run(c, lag, m, events), e)
  {
    assert (events + [e])[..|events|] == events;
  }

  lemma {:induction false} RunTwo(c: Config, lag: int, m: Machine, events: seq<Event>, a: Event, b: Event)
    ensures Run(c, lag, m, events + [a, b]) == Next(c, lag, Next(c, lag, Run(c, lag, m, events), a), b)
  {
    var more := events + [a];
    assert events + [a, b] == more + [b];
    RunSnoc(c, lag, m, events, a);
    RunSnoc(c, lag, m, more, b);
  }

  lemma {:induction false} RunFour(c: Config, lag: int, m: Machine, events: seq<Event>,
                                   a: Event, b: Event, d: Event, e: Event)
    ensures Run(c, lag, m, events + [a, b, d, e])
         == Next(c, lag, Next(c, lag, Next(c, lag, Next(c, lag, Run(c, lag, m, events), a), b), d), e)
  {
    RunTwo(c, lag, m, events, a, b);
    RunTwo(c, lag, m, events + [a, b], d, e);
    assert events + [a, b, d, e] == events + [a, b] + [d, e];
  }

  lemma {:induction false} AfterFirstSync(c: Config, lag: int, noon: int)
    ensures Run(c, lag, Quiet(noon), FirstSync(noon)) == Machine(noon, map[], map[], Some(noon), Idle)
  {
    var m0 := Quiet(noon);
    RunFour(c, lag, m0, [], Begin(true), QueryAged, QueryRecent(noon), Finish);
    assert [] + FirstSync(noon) == FirstSync(noon);
    var m1 := Next(c, lag, m0, Begin(true));
    var m2 := Next(c, lag, m1, QueryAged);
    assert m2.phase.pending == map[];
    var m3 := Next(c, lag, m2, QueryRecent(noon));
    assert m3.phase.Loaded? && m3.phase.pending == map[];
  }

  /** The machine after the first sync, and a ticket that becomes visible then. */
  ghost function Synced(noon: int): Machine { Machine(noon, map[], map[], Some(noon), Idle) }

  lemma {:induction false} DeltaFinds(c: Config, lag: int, noon: int, stamp: int, mark: int)
    requires noon - lag <= stamp <= noon
    requires mark == if stamp > noon - OVERLAP then stamp else noon
    ensures var rows := if stamp > noon - OVERLAP then map["INC1" := Ticket(c, stamp)] else map[];
            var remote := map["INC1" := Ticket(c, stamp)];
            Next(c, lag, Next(c, lag, Next(c, lag, Synced(noon), Change("INC1", Ticket(c, stamp))), Begin(false)),
                 QueryDelta(mark))
            == Machine(noon, remote, map[], Some(noon), Loaded(false, rows, rows.Keys, mark, noon, remote, None))
  {
    var ticket := Ticket(c, stamp);
    var m1 := Next(c, lag, Synced(noon), Change("INC1", ticket));
    assert m1.remote == map["INC1" := ticket];
    assert Wanted(c, ticket);
    var rows := Changed(c, m1.remote, noon - OVERLAP);
    assert rows == if stamp > noon - OVERLAP then map["INC1" := ticket] else map[];
    assert stamp > noon - OVERLAP ==> "INC1" in rows;
    assert IsHighWater(rows, noon, mark);
  }

  /** Allowed a lag of five minutes to the second, an update can become visible
      in the very second of an empty sync and carry the stamp at which the next
      delta starts looking - strictly after. */
  lemma {:induction false} FiveMinutesIsTooLate(c: Config, lag: int, noon: int)
    requires lag >= OVERLAP
    ensures Initial(Quiet(noon))
    ensures !NoGap(c, Run(c, lag, Quiet(noon), FirstSync(noon)
                          + [Change("INC1", Ticket(c, noon - OVERLAP)), Begin(false), QueryDelta(noon), Tick(noon)]))
  {
    AfterFirstSync(c, lag, noon);
    var late := Ticket(c, noon - OVERLAP);
    RunFour(c, lag, Quiet(noon), FirstSync(noon), Change("INC1", late), Begin(false), QueryDelta(noon), Tick(noon));
    DeltaFinds(c, lag, noon, noon - OVERLAP, noon);
    assert Wanted(c, late);
    assert map["INC1" := late]["INC1"] == late;
  }

  /** From an age threshold of 45 days on, neither window of the first sync
      reaches a ticket opened 45 days before it and never touched since. */
  lemma {:induction false} TheWindowsLeaveOneOut(c: Config, lag: int, noon: int)
    requires c.agedAfterDays >= COLD_START_DAYS
    ensures var m := Quiet(noon).(remote := map["INC1" := Ticket(c, noon - COLD_START_DAYS * DAY)]);
            Initial(m) && !NoGap(c, Run(c, lag, m, [Begin(true), QueryAged, QueryRecent(noon), Tick(noon)]))
  {
    var ticket := Ticket(c, noon - COLD_START_DAYS * DAY);
    var m := Quiet(noon).(remote := map["INC1" := ticket]);
    RunFour(c, lag, m, [], Begin(true), QueryAged, QueryRecent(noon), Tick(noon));
    assert [] + [Begin(true), QueryAged, QueryRecent(noon), Tick(noon)]
           == [Begin(true), QueryAged, QueryRecent(noon), Tick(noon)];
    var m2 := Next(c, lag, Next(c, lag, m, Begin(true)), QueryAged);
    assert m2.phase.pending == map[];
    var m3 := Next(c, lag, m2, QueryRecent(noon));
    assert m3.phase.Loaded? && m3.phase.pending == map[] && m3.phase.snapshot == m.remote;
    assert Wanted(c, ticket) && "INC1" in m.remote && m.remote["INC1"] == ticket;
  }

  /** So no run misses a change exactly when updates become visible in less
      time than the overlap and the two windows meet. */
  lemma {:induction false} OverlapSufficesIff(c: Config, lag: int)
    requires lag >= 0
    ensures (forall m, events :: Initial(m) ==> NoGap(c, Run(c, lag, m, events)))
            <==> lag < 300 && c.agedAfterDays < 45
  {
    if lag < OVERLAP && c.agedAfterDays < COLD_START_DAYS {
      forall m, events | Initial(m) ensures NoGap(c, Run(c, lag, m, events)) {
        NoChangeIsMissed(c, lag, m, events);
      }
    } else if c.agedAfterDays < COLD_START_DAYS {
      FiveMinutesIsTooLate(c, lag, 0);
    } else {
      TheWindowsLeaveOneOut(c, lag, 0);
    }
  }

  function BackwardRun(c: Config, noon: int, stamp: int): seq<Event> {
    FirstSync(noon) + [Change("INC1", Ticket(c, stamp)), Begin(false), QueryDelta(stamp), PersistOne("INC1")] + [Finish]
  }

  /** The watermark is not monotone: a sync that found nothing puts it at its
      own start, and the next one takes it back to an older stamp. */
  lemma {:induction false} TheWatermarkMovesBack(c: Config, lag: int, noon: int, stamp: int)
    requires noon - OVERLAP < stamp < noon && noon - stamp <= lag
    ensures Run(c, lag, Quiet(noon), FirstSync(noon)).watermark == Some(noon)
    ensures Run(c, lag, Quiet(noon), BackwardRun(c, noon, stamp)).watermark == Some(stamp)
  {
    AfterFirstSync(c, lag, noon);
    DeltaFinds(c, lag, noon, stamp, stamp);
    var change := Change("INC1", Ticket(c, stamp));
    RunFour(c, lag, Quiet(noon), FirstSync(noon), change, Begin(false), QueryDelta(stamp), PersistOne("INC1"));
    RunSnoc(c, lag, Quiet(noon),
            FirstSync(noon) + [change, Begin(false), QueryDelta(stamp), PersistOne("INC1")], Finish);
    assert map["INC1" := Ticket(c, stamp)] - {"INC1"} == map[];
  }
}
