/** pipeline/signals.py: what a ticket's history says, computed without asking
    anybody. The history arrives in no particular order and full of noise;
    the signals must not notice either. Timestamps are strings, compared as
    strings where the program sorts them and parsed (`parse`) where it
    subtracts them. */
module Signals {
  import opened Text
  import opened Queues
  import opened Timeutil

  datatype Role = Agent | Caller | System

  const AGENT_ACTION_FIELDS: set<string> := {
    "work_notes", "comments", "additional_comments", "state", "assigned_to",
    "assignment_group", "hold_reason", "priority", "impact", "urgency",
    "category", "subcategory", "close_notes", "close_code", "cmdb_ci",
    "short_description", "description", "problem_id", "rfc"}

  const SYSTEM_NOISE_FIELDS: set<string> := {
    "sys_updated_on", "sys_updated_by", "sys_mod_count", "business_duration",
    "calendar_duration", "business_stc", "calendar_stc", "time_worked",
    "sla_due", "made_sla", "escalation",
    "activity_due", "work_start", "work_end", "upon_reject", "upon_approval"}

  const DISPLAY_ONLY_FIELDS: set<string> := {
    "severity", "caller_id", "contact_type", "opened_at", "follow_up",
    "reopen_count", "reassignment_count", "location", "business_service",
    "parent_incident", "resolved_at", "resolved_by", "closed_at", "closed_by",
    "u_assigned_region"}

  const CUSTOMER_VISIBLE_FIELDS: set<string> := {"comments", "additional_comments"}

  const RESOLVED_DEPENDENCY_STATES: set<string> := {
    "closed", "closed complete", "closed successful", "closed incomplete",
    "closed skipped", "resolved", "completed", "review", "cancelled", "canceled"}

  const HOLD_REASON_BLOCKER: seq<(string, string)> := [
    ("awaiting caller", "CALLER"), ("awaiting customer", "CALLER"), ("awaiting user", "CALLER"),
    ("awaiting user info", "CALLER"), ("awaiting vendor", "VENDOR"), ("awaiting third party", "VENDOR"),
    ("awaiting change", "CHANGE"), ("awaiting problem", "PROBLEM"), ("awaiting approval", "APPROVAL"),
    ("awaiting evidence", "CALLER")]

  /** One history row; absent columns are "". */
  datatype HistoryEvent = HistoryEvent(field: string, user_name: string, old_: string, new_: string,
                                       update_time: string)

  datatype Event = Event(when: string, actor: string, role: Role, field: string, kind: string, text: string,
                         old_: string, new_: string, counts_as_action: bool)

  /** Who the history is read for. */
  datatype Reader = Reader(caller_name: string, system_accounts: seq<string>)

  predicate EndsWith(s: string, suffix: string) {
    |suffix| <= |s| && s[|s| - |suffix|..] == suffix
  }

  predicate Contains(s: string, needle: string) {
    needle <= s || (s != "" && Contains(s[1..], needle))
  }

  function ClassifyActor(user_name: string, who: Reader): Role {
    var name := Lower(Strip(user_name));
    if name == "" then System
    else if exists a :: a in who.system_accounts && name == Lower(a) then System
    else if EndsWith(name, ".rest") || "system" <= name || name in {"guest", "admin"} then System
    else if who.caller_name != "" && name == Lower(Strip(who.caller_name)) then Caller
    else Agent
  }

  function OrEmpty(s: string): string { if s == "" then "(empty)" else s }

  /** The timeline entry for a history row, if it gets one. */
  function Read(h: HistoryEvent, who: Reader): Option<Event> {
    var field := Lower(Strip(h.field));
    if field !in AGENT_ACTION_FIELDS + DISPLAY_ONLY_FIELDS || field in SYSTEM_NOISE_FIELDS then None
    else
      var actor, new_ := Strip(h.user_name), Strip(h.new_);
      var role := ClassifyActor(actor, who);
      var shownActor := if actor == "" then "system" else actor;
      if field in {"comments", "additional_comments", "work_notes"} then
        if new_ == "" then None
        else
          var kind := if field in CUSTOMER_VISIBLE_FIELDS then "customer comment" else "work note";
          Some(Event(h.update_time, shownActor, role, field, kind, new_, "", new_, field in AGENT_ACTION_FIELDS))
      else
        var old_ := Strip(h.old_);
        if old_ == new_ then None
        else
          var text := OrEmpty(old_) + " -> " + OrEmpty(new_);
          Some(Event(h.update_time, shownActor, role, field, field + " changed", text, old_, new_,
                     field in AGENT_ACTION_FIELDS))
  }

  function Readings(history: seq<HistoryEvent>, who: Reader): seq<Event> {
    if history == [] then []
    else
      var rest := Readings(history[..|history| - 1], who);
      match Read(history[|history| - 1], who)
      case None => rest
      case Some(e) => rest + [e]
  }

  // -- the stable sort by timestamp -----------------------------------------------

  function InsertByWhen(e: Event, es: seq<Event>): seq<Event> {
    if es == [] || LexLe(e.when, es[0].when) then [e] + es else [es[0]] + InsertByWhen(e, es[1..])
  }

  function SortByWhen(es: seq<Event>): seq<Event> {
    if es == [] then [] else InsertByWhen(es[0], SortByWhen(es[1..]))
  }

  function Timeline(history: seq<HistoryEvent>, who: Reader): seq<Event> {
    SortByWhen(Readings(history, who))
  }

  ghost predicate Sorted(es: seq<Event>) {
    es == [] || (Sorted(es[1..]) && forall e :: e in es[1..] ==> LexLe(es[0].when, e.when))
  }

  lemma {:induction false} InsertSorts(e: Event, es: seq<Event>)
    requires Sorted(es)
    ensures Sorted(InsertByWhen(e, es)) && multiset(InsertByWhen(e, es)) == multiset(es) + multiset{e}
  {
    if es == [] || LexLe(e.when, es[0].when) {
      assert ([e] + es)[1..] == es;
      forall x | x in es ensures LexLe(e.when, x.when) {
        if x != es[0] {
          assert es == [es[0]] + es[1..];
          LexTransitive(e.when, es[0].when, x.when);
        }
      }
    } else {
      InsertSorts(e, es[1..]);
      var rest := InsertByWhen(e, es[1..]);
      assert ([es[0]] + rest)[1..] == rest && es == [es[0]] + es[1..];
      LexTotal(e.when, es[0].when);
      forall x | x in rest ensures LexLe(es[0].when, x.when) {
        assert x in multiset(rest);
        assert x == e || x in es[1..];
      }
    }
  }

  /** The timeline is the readings in order of their timestamps. */
  lemma {:induction false} SortFacts(es: seq<Event>)
    ensures Sorted(SortByWhen(es)) && multiset(SortByWhen(es)) == multiset(es)
  {
    if es != [] {
      SortFacts(es[1..]);
      InsertSorts(es[0], SortByWhen(es[1..]));
      assert es == [es[0]] + es[1..];
    }
  }

  method BuildTimeline(history: seq<HistoryEvent>, who: Reader) returns (timeline: seq<Event>)
    ensures timeline == Timeline(history, who)
    ensures Sorted(timeline) && multiset(timeline) == multiset(Readings(history, who))
  {
    timeline := [];
    for i := 0 to |history|
      invariant timeline == Readings(history[..i], who)
    {
      assert history[..i + 1][..i] == history[..i];
      var h := history[i];
      var field := Lower(Strip(h.field));
      if field !in AGENT_ACTION_FIELDS + DISPLAY_ONLY_FIELDS || field in SYSTEM_NOISE_FIELDS {
        continue;
      }
      var actor, new_ := Strip(h.user_name), Strip(h.new_);
      var role := ClassifyActor(actor, who);
      var kind, text, old_ := "", new_, "";
      if field in {"comments", "additional_comments", "work_notes"} {
        if new_ == "" {
          continue;
        }
        kind := if field in CUSTOMER_VISIBLE_FIELDS then "customer comment" else "work note";
      } else {
        old_ := Strip(h.old_);
        if old_ == new_ {
          continue;
        }
        kind := field + " changed";
        text := OrEmpty(old_) + " -> " + OrEmpty(new_);
      }
      timeline := timeline + [Event(h.update_time, if actor == "" then "system" else actor, role, field, kind, text,
                                    old_, new_, field in AGENT_ACTION_FIELDS)];
    }
    assert history[..|history|] == history;
    SortFacts(timeline);
    timeline := SortByWhen(timeline);
  }

  // ---------------------------------------------------------------------
  // individual signals
  // ---------------------------------------------------------------------

  function Actions(timeline: seq<Event>): seq<Event> {
    if timeline == [] then []
    else (if timeline[0].counts_as_action then [timeline[0]] else []) + Actions(timeline[1..])
  }

  predicate AgentAction(e: Event) {
    e.role == Agent && e.counts_as_action && e.field !in SYSTEM_NOISE_FIELDS
  }

  predicate CallerActivity(e: Event) { e.role == Caller && e.counts_as_action }

  predicate FollowUp(e: Event, hint: string -> bool) {
    e.role == Agent && e.field in CUSTOMER_VISIBLE_FIELDS && hint(e.text)
  }

  predicate StateChange(e: Event) { e.field == "state" }

  /** The last entry of a kind that carries a date. */
  function LastDated(timeline: seq<Event>, p: Event -> bool, parse: string -> Option<int>): Option<int> {
    if timeline == [] then None
    else
      var e := timeline[|timeline| - 1];
      if p(e) && parse(e.when).Some? then parse(e.when) else LastDated(timeline[..|timeline| - 1], p, parse)
  }

  function Count<T>(xs: seq<T>, p: T -> bool): nat {
    if xs == [] then 0 else Count(xs[..|xs| - 1], p) + if p(xs[|xs| - 1]) then 1 else 0
  }

  method LastMeaningfulAgentAction(timeline: seq<Event>, parse: string -> Option<int>) returns (at: Option<int>)
    ensures at == LastDated(timeline, AgentAction, parse)
  {
    var n := |timeline|;
    assert timeline[..n] == timeline;
    while n > 0
      invariant 0 <= n <= |timeline|
      invariant LastDated(timeline, AgentAction, parse) == LastDated(timeline[..n], AgentAction, parse)
    {
      assert timeline[..n][..n - 1] == timeline[..n - 1];
      n := n - 1;
      var event := timeline[n];
      if event.role != Agent || !event.counts_as_action || event.field in SYSTEM_NOISE_FIELDS {
        continue;
      }
      var stamp := parse(event.when);
      if stamp.Some? {
        return stamp;
      }
    }
    return None;
  }

  method LastCallerActivity(timeline: seq<Event>, parse: string -> Option<int>) returns (at: Option<int>)
    ensures at == LastDated(timeline, CallerActivity, parse)
  {
    var n := |timeline|;
    assert timeline[..n] == timeline;
    while n > 0
      invariant 0 <= n <= |timeline|
      invariant LastDated(timeline, CallerActivity, parse) == LastDated(timeline[..n], CallerActivity, parse)
    {
      assert timeline[..n][..n - 1] == timeline[..n - 1];
      n := n - 1;
      var event := timeline[n];
      if event.role != Caller || !event.counts_as_action {
        continue;
      }
      var stamp := parse(event.when);
      if stamp.Some? {
        return stamp;
      }
    }
    return None;
  }

  predicate Counted(e: Event, hint: string -> bool, parse: string -> Option<int>, since: Option<int>) {
    FollowUp(e, hint) && !(since.Some? && parse(e.when).Some? && parse(e.when).value < since.value)
  }

  method CountFollowups(timeline: seq<Event>, hint: string -> bool, parse: string -> Option<int>, since: Option<int>)
    returns (count: nat, last_at: Option<int>)
    ensures count == Count(timeline, e => Counted(e, hint, parse, since))
    ensures last_at == LastDated(timeline, e => Counted(e, hint, parse, since), parse)
  {
    count, last_at := 0, None;
    ghost var p := e => Counted(e, hint, parse, since);
    for i := 0 to |timeline|
      invariant count == Count(timeline[..i], p) && last_at == LastDated(timeline[..i], p, parse)
    {
      assert timeline[..i + 1][..i] == timeline[..i];
      var event := timeline[i];
      if event.role != Agent || event.field !in CUSTOMER_VISIBLE_FIELDS {
        continue;
      }
      var stamp := parse(event.when);
      if since.Some? && stamp.Some? && stamp.value < since.value {
        continue;
      }
      if !hint(event.text) {
        continue;
      }
      count := count + 1;
      if stamp.Some? {
        last_at := stamp;
      }
    }
    assert timeline[..|timeline|] == timeline;
  }

  // ---------------------------------------------------------------------
  // the aggregate
  // ---------------------------------------------------------------------

  datatype Record = Record(number: string, state: string)

  datatype Thresholds = Thresholds(
    closure_silence_days: Option<real>, closure_followup_count: Option<real>, sla_risk_pct: Option<real>,
    inactivity_days: Option<real>, prolonged_inactivity_days: Option<real>, aged_after_days: Option<real>)

  datatype Ticket = Ticket(
    caller_name: string, opened_at: string, hold_reason: string, state: string, assigned_to: string,
    priority: string, reassignment_count: int, reopen_count: int)

  datatype SlaSummary = SlaSummary(
    sla_breached: bool, sla_pct_consumed: Option<real>, sla_time_left_mins: Option<real>, vendor_sla_breached: bool)

  /** Everything the signals are computed from, but for the history and the time. */
  datatype Facts = Facts(
    ticket: Ticket, sla: SlaSummary, change_record: Option<Record>, problem_record: Option<Record>,
    kb_attached: bool, kb_available: bool, p90_hours: Option<real>, system_accounts: seq<string>,
    thresholds: Thresholds)

  datatype Signals = Signals(
    age_days: real, idle_days: real, age_minutes: int, idle_minutes: int, days_in_state: real,
    last_agent_action_at: Option<int>, last_caller_activity_at: Option<int>,
    pending_action_owner: string, caller_replied_unanswered: bool,
    dependency_ref: Option<string>, dependency_state: Option<string>, dependency_resolved: bool,
    followup_count: nat, days_since_last_followup: Option<real>, auto_close_candidate: bool,
    sla_breached: bool, sla_pct_consumed: Option<real>, sla_time_left_mins: Option<real>, vendor_sla_breached: bool,
    expected_resolution_hours: Option<real>, duration_overrun: bool, kb_available: bool, kb_attached: bool)

  function GetOr<T>(o: Option<T>, default_: T): T { if o.Some? then o.value else default_ }

  function FirstOwner(rules: seq<(string, string)>, hold_reason: string): Option<string> {
    if rules == [] then None
    else if Contains(hold_reason, rules[0].0) then Some(rules[0].1)
    else FirstOwner(rules[1..], hold_reason)
  }

  function PendingActionOwner(ticket: Ticket, timeline: seq<Event>, replied: bool, resolved: bool): string {
    if resolved then "SERVICE_DESK"
    else if replied then "SERVICE_DESK"
    else
      var hold_reason := Lower(Strip(ticket.hold_reason));
      var owner := if hold_reason == "" then None else FirstOwner(HOLD_REASON_BLOCKER, hold_reason);
      if owner.Some? then owner.value
      else if Lower(Strip(ticket.state)) == "new" || Strip(ticket.assigned_to) == "" then "SERVICE_DESK"
      else if timeline != [] && timeline[|timeline| - 1].role == Caller then "SERVICE_DESK"
      else "SERVICE_DESK"
  }

  function Dependency(facts: Facts): Option<Record> {
    var hold_reason := Lower(Strip(facts.ticket.hold_reason));
    if Contains(hold_reason, "change") && facts.change_record.Some? then facts.change_record
    else if Contains(hold_reason, "problem") && facts.problem_record.Some? then facts.problem_record
    else if facts.change_record.Some? then facts.change_record
    else facts.problem_record
  }

  function OpenedAt(facts: Facts, parse: string -> Option<int>, now: int): int {
    GetOr(parse(facts.ticket.opened_at), now)
  }

  function StateSince(states: seq<Event>, opened_at: int, parse: string -> Option<int>): Option<int> {
    if states == [] then Some(opened_at) else parse(states[|states| - 1].when)
  }

  /** `days_between(...) or age_days`: no time at all gives the age, too. */
  function DaysInState(since: Option<int>, age_days: real, now: int): real {
    if since.None? then age_days
    else if DaysBetween(now, since.value) == 0.0 then age_days
    else DaysBetween(now, since.value)
  }

  function States(actions: seq<Event>): seq<Event> {
    if actions == [] then []
    else (if StateChange(actions[0]) then [actions[0]] else []) + States(actions[1..])
  }

  /** `extract_signals`, given the timeline. */
  function Extract(facts: Facts, timeline: seq<Event>, hint: string -> bool, parse: string -> Option<int>,
                   now: int): Signals {
    var actions := Actions(timeline);
    var opened_at := OpenedAt(facts, parse, now);
    var agent_at := LastDated(timeline, AgentAction, parse);
    var caller_at := LastDated(timeline, CallerActivity, parse);
    var idle_from := GetOr(agent_at, opened_at);
    var replied := caller_at.Some? && (agent_at.None? || caller_at.value > agent_at.value);
    var dependency := Dependency(facts);
    var resolved := dependency.Some? && Lower(Strip(dependency.value.state)) in RESOLVED_DEPENDENCY_STATES;
    var owner := PendingActionOwner(facts.ticket, actions, replied, resolved);
    var counted := e => Counted(e, hint, parse, None);
    var followups, last_followup := Count(actions, counted), LastDated(actions, counted, parse);
    var age_days, idle_days := DaysBetween(now, opened_at), DaysBetween(now, idle_from);
    var since_followup := if last_followup.Some? then Some(DaysBetween(now, last_followup.value)) else None;
    var auto_close :=
      && owner == "CALLER"
      && followups as real >= GetOr(facts.thresholds.closure_followup_count, 3.0)
      && !replied
      && since_followup.Some?
      && since_followup.value >= GetOr(facts.thresholds.closure_silence_days, 5.0);
    Signals(
      age_days, idle_days, MinutesBetween(now, opened_at), MinutesBetween(now, idle_from),
      DaysInState(StateSince(States(actions), opened_at, parse), age_days, now),
      agent_at, caller_at, owner, replied,
      if dependency.Some? then Some(dependency.value.number) else None,
      if dependency.Some? then Some(Strip(dependency.value.state)) else None,
      resolved, followups, since_followup, auto_close,
      facts.sla.sla_breached, facts.sla.sla_pct_consumed, facts.sla.sla_time_left_mins, facts.sla.vendor_sla_breached,
      facts.p90_hours, facts.p90_hours.Some? && facts.p90_hours.value != 0.0 && age_days * 24.0 > facts.p90_hours.value,
      facts.kb_available, facts.kb_attached)
  }

  function ReaderOf(facts: Facts): Reader { Reader(facts.ticket.caller_name, facts.system_accounts) }

  function ExtractSignals(facts: Facts, history: seq<HistoryEvent>, hint: string -> bool,
                          parse: string -> Option<int>, now: int): Signals
  {
    Extract(facts, Timeline(history, ReaderOf(facts)), hint, parse, now)
  }

  // ---------------------------------------------------------------------
  // order and noise
  // ---------------------------------------------------------------------

  /** The timestamps of the entries of a kind, and the last of them. */
  ghost function Whens(es: seq<Event>, p: Event -> bool): set<string> {
    set e | e in es && p(e) :: e.when
  }

  ghost predicate IsLast(ws: set<string>, w: string) {
    w in ws && forall v :: v in ws ==> LexLe(v, w)
  }

  ghost function LastOf(ws: set<string>, parse: string -> Option<int>): Option<int> {
    if w :| IsLast(ws, w) then parse(w) else None
  }

  lemma {:induction false} OnlyLast(ws: set<string>, w: string, parse: string -> Option<int>)
    requires IsLast(ws, w)
    ensures LastOf(ws, parse) == parse(w)
  {
    forall v | IsLast(ws, v) ensures v == w {
      LexAntisymmetric(v, w);
    }
  }

  ghost predicate Ascending(es: seq<Event>) {
    forall i, j :: 0 <= i < j < |es| ==> LexLe(es[i].when, es[j].when)
  }

  lemma {:induction false} SortedIsAscending(es: seq<Event>)
    requires Sorted(es)
    ensures Ascending(es)
  {
    if es != [] {
      SortedIsAscending(es[1..]);
      forall i, j | 0 <= i < j < |es| ensures LexLe(es[i].when, es[j].when) {
        assert es[j] == es[1..][j - 1];
        assert i > 0 ==> es[i] == es[1..][i - 1];
      }
    }
  }

  /** In an ascending timeline the last dated entry of a kind is found by the
      set of timestamps alone. */
  lemma {:induction false} LastDatedIs(es: seq<Event>, p: Event -> bool, parse: string -> Option<int>)
    requires Ascending(es)
    ensures LastDated(es, p, parse) == LastOf(Whens(es, e => p(e) && parse(e.when).Some?), parse)
  {
    var q := e => p(e) && parse(e.when).Some?;
    if es != [] {
      var front, e := es[..|es| - 1], es[|es| - 1];
      if q(e) {
        LexTotal(e.when, e.when);
        assert IsLast(Whens(es, q), e.when);
        OnlyLast(Whens(es, q), e.when, parse);
      } else {
        LastDatedIs(front, p, parse);
        assert es == front + [e];
        assert Whens(es, q) == Whens(front, q);
      }
    }
  }

  lemma {:induction false} ActionsFacts(es: seq<Event>)
    requires Ascending(es)
    ensures Ascending(Actions(es))
    ensures forall e :: e in Actions(es) <==> e in es && e.counts_as_action
  {
    if es != [] {
      ActionsFacts(es[1..]);
      assert es == [es[0]] + es[1..];
      forall e | e in Actions(es[1..]) ensures LexLe(es[0].when, e.when) {
        var j :| 0 <= j < |es[1..]| && es[1..][j] == e;
        assert es[j + 1] == e;
      }
    }
  }

  lemma {:induction false} StatesFacts(es: seq<Event>)
    requires Ascending(es)
    ensures Ascending(States(es))
    ensures forall e :: e in States(es) <==> e in es && StateChange(e)
  {
    if es != [] {
      StatesFacts(es[1..]);
      assert es == [es[0]] + es[1..];
      forall e | e in States(es[1..]) ensures LexLe(es[0].when, e.when) {
        var j :| 0 <= j < |es[1..]| && es[1..][j] == e;
        assert es[j + 1] == e;
      }
    }
  }

  /** The last state change, too, is found by its timestamp alone. */
  lemma {:induction false} LastStateIs(actions: seq<Event>, parse: string -> Option<int>)
    requires Ascending(actions)
    ensures var states := States(actions);
            && (states == [] <==> Whens(actions, StateChange) == {})
            && (states != [] ==> parse(states[|states| - 1].when) == LastOf(Whens(actions, StateChange), parse))
  {
    StatesFacts(actions);
    var states, ws := States(actions), Whens(actions, StateChange);
    if states == [] {
      assert forall e :: e in actions && StateChange(e) ==> e in states;
    } else {
      var last := states[|states| - 1];
      assert last in states;
      LexTotal(last.when, last.when);
      forall v | v in ws ensures LexLe(v, last.when) {
        var e :| e in actions && StateChange(e) && e.when == v;
        assert e in states;
        var i :| 0 <= i < |states| && states[i] == e;
      }
      assert IsLast(ws, last.when);
      OnlyLast(ws, last.when, parse);
    }
  }

  lemma {:induction false} CountAppend<T>(a: seq<T>, b: seq<T>, p: T -> bool)
    ensures Count(a + b, p) == Count(a, p) + Count(b, p)
  {
    if b == [] {
      assert a + b == a;
    } else {
      assert (a + b)[..|a + b| - 1] == a + b[..|b| - 1];
      CountAppend(a, b[..|b| - 1], p);
    }
  }

  lemma {:induction false} CountOne<T>(x: T, p: T -> bool)
    ensures Count([x], p) == if p(x) then 1 else 0
  {
    assert [x][..0] == [];
  }

  lemma {:induction false} TakeOut<T>(xs: seq<T>, i: nat, p: T -> bool)
    requires i < |xs|
    ensures Count(xs, p) == Count(xs[..i] + xs[i + 1..], p) + if p(xs[i]) then 1 else 0
    ensures multiset(xs) == multiset(xs[..i] + xs[i + 1..]) + multiset{xs[i]}
  {
    assert xs == xs[..i] + ([xs[i]] + xs[i + 1..]);
    CountAppend(xs[..i], [xs[i]] + xs[i + 1..], p);
    CountAppend([xs[i]], xs[i + 1..], p);
    CountOne(xs[i], p);
    CountAppend(xs[..i], xs[i + 1..], p);
  }

  lemma {:induction false} CountIgnoresOrder<T>(a: seq<T>, b: seq<T>, p: T -> bool)
    requires multiset(a) == multiset(b)
    ensures Count(a, p) == Count(b, p)
    decreases |a|
  {
    if a != [] {
      var last := |a| - 1;
      TakeOut(a, last, p);
      assert a[last] in multiset(b);
      var i :| 0 <= i < |b| && b[i] == a[last];
      TakeOut(b, i, p);
      var a', b' := a[..last] + a[last + 1..], b[..i] + b[i + 1..];
      assert multiset(a') == multiset(a) - multiset{a[last]};
      assert multiset(b') == multiset(b) - multiset{a[last]};
      CountIgnoresOrder(a', b', p);
    } else {
      assert |multiset(b)| == 0;
    }
  }

  lemma {:induction false} CountNone<T>(xs: seq<T>, p: T -> bool)
    requires forall x :: x in xs ==> !p(x)
    ensures Count(xs, p) == 0
  {
    if xs != [] {
      CountNone(xs[..|xs| - 1], p);
    }
  }

  function AsAction(p: Event -> bool): Event -> bool {
    (e: Event) => e.counts_as_action && p(e)
  }

  lemma {:induction false} CountActions(es: seq<Event>, p: Event -> bool)
    ensures Count(Actions(es), p) == Count(es, AsAction(p))
  {
    if es != [] {
      assert es == [es[0]] + es[1..];
      CountAppend([es[0]], es[1..], AsAction(p));
      CountActions(es[1..], p);
      CountOne(es[0], AsAction(p));
      if es[0].counts_as_action {
        CountAppend([es[0]], Actions(es[1..]), p);
        CountOne(es[0], p);
      } else {
        assert [] + Actions(es[1..]) == Actions(es[1..]);
      }
    }
  }

  // -- what of a history the signals can see -------------------------------------------

  /** An entry by an agent or the caller that counts as work. */
  predicate Working(e: Event) { e.counts_as_action && e.role != System }

  predicate Yields(h: HistoryEvent, who: Reader, p: Event -> bool) {
    Read(h, who).Some? && p(Read(h, who).value)
  }

  lemma {:induction false} ReadingsAre(history: seq<HistoryEvent>, who: Reader)
    ensures forall e :: e in Readings(history, who) <==> exists h :: h in history && Read(h, who) == Some(e)
  {
    if history != [] {
      var front, last := history[..|history| - 1], history[|history| - 1];
      ReadingsAre(front, who);
      assert history == front + [last];
      assert forall h :: h in history <==> h in front || h == last;
    }
  }

  lemma {:induction false} CountReadings(history: seq<HistoryEvent>, who: Reader, p: Event -> bool)
    ensures Count(Readings(history, who), p) == Count(history, h => Yields(h, who, p))
  {
    if history != [] {
      CountReadings(history[..|history| - 1], who, p);
      var rest, last := Readings(history[..|history| - 1], who), Read(history[|history| - 1], who);
      if last.Some? {
        CountAppend(rest, [last.value], p);
        CountOne(last.value, p);
      }
    }
  }

  /** `more` is `history` in another order, with `noise` mixed in. */
  ghost predicate Mixed(more: seq<HistoryEvent>, history: seq<HistoryEvent>, noise: seq<HistoryEvent>) {
    multiset(more) == multiset(history) + multiset(noise)
  }

  ghost predicate NoneYield(noise: seq<HistoryEvent>, who: Reader, p: Event -> bool) {
    forall h :: h in noise ==> !Yields(h, who, p)
  }

  lemma {:induction false} SameEntries(more: seq<HistoryEvent>, history: seq<HistoryEvent>, noise: seq<HistoryEvent>,
                                       who: Reader, p: Event -> bool)
    requires Mixed(more, history, noise) && NoneYield(noise, who, p)
    ensures forall e :: p(e) ==> (e in Timeline(more, who) <==> e in Timeline(history, who))
    ensures Count(Timeline(more, who), p) == Count(Timeline(history, who), p)
  {
    SameMembers(more, history, noise, who, p);
    var a, b := Readings(more, who), Readings(history, who);
    SortFacts(a);
    SortFacts(b);
    CountIgnoresOrder(SortByWhen(a), a, p);
    CountIgnoresOrder(SortByWhen(b), b, p);
    SameCount(more, history, noise, who, p);
  }

  lemma {:induction false} SameCount(more: seq<HistoryEvent>, history: seq<HistoryEvent>, noise: seq<HistoryEvent>,
                                     who: Reader, p: Event -> bool)
    requires Mixed(more, history, noise) && NoneYield(noise, who, p)
    ensures Count(Readings(more, who), p) == Count(Readings(history, who), p)
  {
    var q := h => Yields(h, who, p);
    CountReadings(more, who, p);
    CountReadings(history, who, p);
    assert multiset(history + noise) == multiset(history) + multiset(noise);
    CountIgnoresOrder(more, history + noise, q);
    CountAppend(history, noise, q);
    CountNone(noise, q);
  }

  lemma {:induction false} SameMembers(more: seq<HistoryEvent>, history: seq<HistoryEvent>, noise: seq<HistoryEvent>,
                                       who: Reader, p: Event -> bool)
    requires Mixed(more, history, noise) && NoneYield(noise, who, p)
    ensures forall e :: p(e) ==> (e in Timeline(more, who) <==> e in Timeline(history, who))
  {
    TimelineMembers(more, who);
    TimelineMembers(history, who);
    forall e | p(e) ensures e in Timeline(more, who) <==> e in Timeline(history, who) {
      MixedRows(more, history, noise, who, p, e);
    }
  }

  lemma {:induction false} TimelineMembers(history: seq<HistoryEvent>, who: Reader)
    ensures forall e :: e in Timeline(history, who) <==> exists h :: h in history && Read(h, who) == Some(e)
  {
    var es := Readings(history, who);
    SortFacts(es);
    ReadingsAre(history, who);
    assert forall e :: e in SortByWhen(es) <==> e in multiset(SortByWhen(es));
    assert forall e :: e in es <==> e in multiset(es);
  }

  lemma {:induction false} MixedRows(more: seq<HistoryEvent>, history: seq<HistoryEvent>, noise: seq<HistoryEvent>,
                                     who: Reader, p: Event -> bool, e: Event)
    requires Mixed(more, history, noise) && NoneYield(noise, who, p) && p(e)
    ensures (exists h :: h in more && Read(h, who) == Some(e))
            <==> (exists h :: h in history && Read(h, who) == Some(e))
  {
    forall h | Read(h, who) == Some(e) ensures h in more <==> h in history {
      assert h in more <==> h in multiset(more);
      assert h in history <==> h in multiset(history);
      assert Yields(h, who, p);
      assert h !in noise && h !in multiset(noise);
    }
  }

  // -- from entries to signals -----------------------------------------------------------

  /** The same entries of the kinds `q` holds of. */
  ghost predicate Alike(a: seq<Event>, b: seq<Event>, q: Event -> bool) {
    forall e :: q(e) ==> (e in a <==> e in b)
  }

  lemma {:induction false} AlikeLastDated(a: seq<Event>, b: seq<Event>, q: Event -> bool, parse: string -> Option<int>)
    requires Ascending(a) && Ascending(b) && Alike(a, b, q)
    ensures LastDated(a, q, parse) == LastDated(b, q, parse)
  {
    LastDatedIs(a, q, parse);
    LastDatedIs(b, q, parse);
    var d := e => q(e) && parse(e.when).Some?;
    assert Whens(a, d) == Whens(b, d);
  }

  lemma {:induction false} AlikeActions(a: seq<Event>, b: seq<Event>, q: Event -> bool)
    requires Ascending(a) && Ascending(b) && Alike(a, b, AsAction(q))
    ensures Ascending(Actions(a)) && Ascending(Actions(b)) && Alike(Actions(a), Actions(b), q)
  {
    ActionsFacts(a);
    ActionsFacts(b);
    forall e | q(e) ensures e in Actions(a) <==> e in Actions(b) {
      assert e.counts_as_action ==> AsAction(q)(e);
    }
  }

  lemma {:induction false} AlikeStates(a: seq<Event>, b: seq<Event>, opened_at: int, parse: string -> Option<int>)
    requires Ascending(a) && Ascending(b) && Alike(a, b, AsAction(StateChange))
    ensures StateSince(States(Actions(a)), opened_at, parse) == StateSince(States(Actions(b)), opened_at, parse)
  {
    AlikeActions(a, b, StateChange);
    LastStateIs(Actions(a), parse);
    LastStateIs(Actions(b), parse);
    assert Whens(Actions(a), StateChange) == Whens(Actions(b), StateChange);
  }

  function FollowedUp(hint: string -> bool, parse: string -> Option<int>): Event -> bool {
    e => Counted(e, hint, parse, None)
  }

  /** Timelines with the same agent and caller entries give the same signals,
      but for the time in the present state. */
  lemma {:induction false} AlikeSignals(facts: Facts, a: seq<Event>, b: seq<Event>, hint: string -> bool,
                                        parse: string -> Option<int>, now: int)
    requires Ascending(a) && Ascending(b)
    requires Alike(a, b, AgentAction) && Alike(a, b, CallerActivity) && Alike(a, b, AsAction(FollowedUp(hint, parse)))
    requires Count(a, AsAction(FollowedUp(hint, parse))) == Count(b, AsAction(FollowedUp(hint, parse)))
    ensures Extract(facts, a, hint, parse, now).(days_in_state := 0.0)
         == Extract(facts, b, hint, parse, now).(days_in_state := 0.0)
    ensures Alike(a, b, AsAction(StateChange)) ==>
      Extract(facts, a, hint, parse, now) == Extract(facts, b, hint, parse, now)
  {
    var q := FollowedUp(hint, parse);
    AlikeLastDated(a, b, AgentAction, parse);
    AlikeLastDated(a, b, CallerActivity, parse);
    AlikeActions(a, b, q);
    AlikeLastDated(Actions(a), Actions(b), q, parse);
    CountActions(a, q);
    CountActions(b, q);
    var opened_at := OpenedAt(facts, parse, now);
    if Alike(a, b, AsAction(StateChange)) {
      AlikeStates(a, b, opened_at, parse);
    }
  }

  /** Order and noise do not show: mix into a history, in any order, events
      that record no work by an agent or the caller, and no signal changes but
      the time in the present state; that one stays too unless some of them
      change the state. */
  lemma {:induction false} NoiseIsIgnored(facts: Facts, more: seq<HistoryEvent>, history: seq<HistoryEvent>,
                                          noise: seq<HistoryEvent>, hint: string -> bool,
                                          parse: string -> Option<int>, now: int)
    requires Mixed(more, history, noise) && NoneYield(noise, ReaderOf(facts), Working)
    ensures ExtractSignals(facts, more, hint, parse, now).(days_in_state := 0.0)
         == ExtractSignals(facts, history, hint, parse, now).(days_in_state := 0.0)
    ensures NoneYield(noise, ReaderOf(facts), AsAction(StateChange)) ==>
      ExtractSignals(facts, more, hint, parse, now) == ExtractSignals(facts, history, hint, parse, now)
  {
    var who, q := ReaderOf(facts), AsAction(FollowedUp(hint, parse));
    var a, b := Timeline(more, who), Timeline(history, who);
    SortFacts(Readings(more, who));
    SortFacts(Readings(history, who));
    SortedIsAscending(a);
    SortedIsAscending(b);
    forall h | h in noise
      ensures !Yields(h, who, AgentAction) && !Yields(h, who, CallerActivity) && !Yields(h, who, q)
    {
      assert !Yields(h, who, Working);
    }
    SameEntries(more, history, noise, who, AgentAction);
    SameEntries(more, history, noise, who, CallerActivity);
    SameEntries(more, history, noise, who, q);
    if NoneYield(noise, who, AsAction(StateChange)) {
      SameEntries(more, history, noise, who, AsAction(StateChange));
    }
    AlikeSignals(facts, a, b, hint, parse, now);
  }

  /** What counts as noise, seen on the event itself. */
  lemma {:induction false} NoiseIff(h: HistoryEvent, who: Reader)
    ensures var field := Lower(Strip(h.field));
            !Yields(h, who, Working) <==>
              || field !in AGENT_ACTION_FIELDS
              || ClassifyActor(Strip(h.user_name), who) == System
              || if field in {"comments", "additional_comments", "work_notes"} then Strip(h.new_) == ""
                 else Strip(h.old_) == Strip(h.new_)
  {
    assert AGENT_ACTION_FIELDS !! SYSTEM_NOISE_FIELDS;
  }

  // ---------------------------------------------------------------------
  // what the signals mean
  // ---------------------------------------------------------------------

  /** The fields whose edits are work, and those that are shown besides. */
  lemma {:induction false} FieldsAre()
    ensures AGENT_ACTION_FIELDS == {
      "work_notes", "comments", "additional_comments", "state", "assigned_to", "assignment_group", "hold_reason",
      "priority", "impact", "urgency", "category", "subcategory", "close_notes", "close_code", "cmdb_ci",
      "short_description", "description", "problem_id", "rfc"}
    ensures DISPLAY_ONLY_FIELDS == {
      "severity", "caller_id", "contact_type", "opened_at", "follow_up", "reopen_count", "reassignment_count",
      "location", "business_service", "parent_incident", "resolved_at", "resolved_by", "closed_at", "closed_by",
      "u_assigned_region"}
  {
  }

  lemma {:induction false} NoiseApart(field: string)
    ensures field in AGENT_ACTION_FIELDS || field in DISPLAY_ONLY_FIELDS ==> field !in SYSTEM_NOISE_FIELDS
  {
  }

  /** Which rows of the history get an entry. */
  lemma {:induction false} EntryIff(h: HistoryEvent, who: Reader)
    ensures var field := Lower(Strip(h.field));
            var said := if field in {"work_notes", "comments", "additional_comments"} then Strip(h.new_) != ""
                        else Strip(h.old_) != Strip(h.new_);
            Read(h, who).Some? <==> said && (field in AGENT_ACTION_FIELDS || field in DISPLAY_ONLY_FIELDS)
  {
    NoiseApart(Lower(Strip(h.field)));
  }

  lemma {:induction false} EntryIs(h: HistoryEvent, who: Reader)
    requires Read(h, who).Some?
    ensures var e, field := Read(h, who).value, Lower(Strip(h.field));
            && e.field == field && e.when == h.update_time && e.new_ == Strip(h.new_)
            && e.role == ClassifyActor(Strip(h.user_name), who)
            && (e.counts_as_action <==> field in AGENT_ACTION_FIELDS)
  {
  }

  /** Which entries are work, and whose. */
  lemma {:induction false} WorkIs(e: Event)
    requires e.counts_as_action <==> e.field in AGENT_ACTION_FIELDS
    ensures AgentAction(e) <==> e.field in AGENT_ACTION_FIELDS && e.role == Agent
    ensures CallerActivity(e) <==> e.field in AGENT_ACTION_FIELDS && e.role == Caller
  {
    NoiseApart(e.field);
  }

  lemma {:induction false} EndsIff(s: string, suffix: string)
    ensures EndsWith(s, suffix) <==> exists front :: s == front + suffix
  {
    if EndsWith(s, suffix) {
      assert s == s[..|s| - |suffix|] + suffix;
    }
  }

  /** Who is a machine, */
  lemma {:induction false} SystemIff(user_name: string, who: Reader, system: string, rest: string)
    requires system == "system" && rest == ".rest"
    ensures var name := Lower(Strip(user_name));
            ClassifyActor(user_name, who) == System <==>
              || name == "" || name == "guest" || name == "admin"
              || system <= name || (exists front :: name == front + rest)
              || exists a :: a in who.system_accounts && Lower(a) == name
  {
    EndsIff(Lower(Strip(user_name)), rest);
  }

  /** and of the others, who is the caller; everybody else is an agent. */
  lemma {:induction false} CallerIff(user_name: string, who: Reader)
    requires ClassifyActor(user_name, who) != System
    ensures ClassifyActor(user_name, who) == Caller
            <==> who.caller_name != "" && Lower(Strip(user_name)) == Lower(Strip(who.caller_name))
  {
  }

  /** Somewhere in the text, letter for letter: in every such text, */
  lemma {:induction false} ContainsThere(a: string, needle: string, b: string)
    ensures Contains(a + needle + b, needle)
  {
    if a == "" {
      assert needle <= a + needle + b;
    } else {
      ContainsThere(a[1..], needle, b);
      assert (a + needle + b)[1..] == a[1..] + needle + b;
    }
  }

  /** and in no other. */
  lemma {:induction false} ContainsWhere(s: string, needle: string) returns (a: string, b: string)
    requires Contains(s, needle)
    ensures s == a + needle + b
  {
    if needle <= s {
      a, b := "", s[|needle|..];
    } else {
      a, b := ContainsWhere(s[1..], needle);
      a := [s[0]] + a;
    }
  }

  lemma {:induction false} FirstOwnerIs(rules: seq<(string, string)>, reason: string, k: nat)
    requires k <= |rules| && forall i :: 0 <= i < k ==> !Contains(reason, rules[i].0)
    ensures k == |rules| ==> FirstOwner(rules, reason) == None
    ensures k < |rules| && Contains(reason, rules[k].0) ==> FirstOwner(rules, reason) == Some(rules[k].1)
  {
    if k > 0 {
      assert !Contains(reason, rules[0].0);
      FirstOwnerIs(rules[1..], reason, k - 1);
    }
  }

  /** Whom the reason for holding names; the rules are tried in this order. */
  function Awaited(reason: string): string {
    if Contains(reason, "awaiting caller") || Contains(reason, "awaiting customer") then "CALLER"
    else if Contains(reason, "awaiting user") || Contains(reason, "awaiting user info") then "CALLER"
    else if Contains(reason, "awaiting vendor") || Contains(reason, "awaiting third party") then "VENDOR"
    else if Contains(reason, "awaiting change") then "CHANGE"
    else if Contains(reason, "awaiting problem") then "PROBLEM"
    else if Contains(reason, "awaiting approval") then "APPROVAL"
    else if Contains(reason, "awaiting evidence") then "CALLER"
    else "SERVICE_DESK"
  }

  lemma {:induction false} RulesAre(rules: seq<(string, string)>)
    requires rules == HOLD_REASON_BLOCKER
    ensures |rules| == 10
    ensures rules[0] == ("awaiting caller", "CALLER") && rules[1] == ("awaiting customer", "CALLER")
    ensures rules[2] == ("awaiting user", "CALLER") && rules[3] == ("awaiting user info", "CALLER")
    ensures rules[4] == ("awaiting vendor", "VENDOR") && rules[5] == ("awaiting third party", "VENDOR")
    ensures rules[6] == ("awaiting change", "CHANGE") && rules[7] == ("awaiting problem", "PROBLEM")
    ensures rules[8] == ("awaiting approval", "APPROVAL") && rules[9] == ("awaiting evidence", "CALLER")
  {
  }

  lemma {:induction false} AwaitedByRule(rules: seq<(string, string)>, reason: string)
    requires rules == HOLD_REASON_BLOCKER
    ensures GetOr(FirstOwner(rules, reason), "SERVICE_DESK") == Awaited(reason)
  {
    RulesAre(rules);
    var k := FirstContained(rules, reason);
    FirstOwnerIs(rules, reason, k);
  }

  /** Whose move it is: the service desk's when something has come in, and
      otherwise that of whoever the reason for holding names. */
  lemma {:induction false} OwnerIs(ticket: Ticket, actions: seq<Event>, replied: bool, resolved: bool)
    ensures var reason := Lower(Strip(ticket.hold_reason));
            PendingActionOwner(ticket, actions, replied, resolved)
            == if replied || resolved || reason == "" then "SERVICE_DESK" else Awaited(reason)
  {
    AwaitedByRule(HOLD_REASON_BLOCKER, Lower(Strip(ticket.hold_reason)));
  }

  lemma {:induction false} FirstContained(rules: seq<(string, string)>, reason: string) returns (k: nat)
    ensures k <= |rules| && (forall i :: 0 <= i < k ==> !Contains(reason, rules[i].0))
    ensures k < |rules| ==> Contains(reason, rules[k].0)
  {
    if rules == [] || Contains(reason, rules[0].0) {
      k := 0;
    } else {
      k := FirstContained(rules[1..], reason);
      k := k + 1;
      forall i | 0 <= i < k ensures !Contains(reason, rules[i].0) {
        if i > 0 {
          assert rules[i] == rules[1..][i - 1];
        }
      }
    }
  }

  /** The record a ticket waits for, and that it is done with. */
  lemma {:induction false} DependencyIs(facts: Facts, timeline: seq<Event>, hint: string -> bool,
                                        parse: string -> Option<int>, now: int)
    ensures var s := Extract(facts, timeline, hint, parse, now);
            var reason := Lower(Strip(facts.ticket.hold_reason));
            var named := Contains(reason, "problem") && !Contains(reason, "change");
            var byProblem := facts.problem_record.Some? && (facts.change_record.None? || named);
            var record := if byProblem then facts.problem_record else facts.change_record;
            && (s.dependency_ref.Some? <==> record.Some?)
            && (record.Some? ==> s.dependency_ref == Some(record.value.number)
                                 && s.dependency_state == Some(Strip(record.value.state)))
            && (s.dependency_resolved <==> record.Some? && Lower(Strip(record.value.state)) in {
                  "closed", "closed complete", "closed successful", "closed incomplete", "closed skipped",
                  "resolved", "completed", "review", "cancelled", "canceled"})
  {
  }

  /** Ages, from when the ticket was opened, or now if that is not known, and
      from the last work an agent did on it. */
  lemma {:induction false} AgesAre(facts: Facts, timeline: seq<Event>, hint: string -> bool,
                                   parse: string -> Option<int>, now: int)
    ensures var s := Extract(facts, timeline, hint, parse, now);
            var opened_at := if parse(facts.ticket.opened_at).Some? then parse(facts.ticket.opened_at).value else now;
            var worked_at := if s.last_agent_action_at.Some? then s.last_agent_action_at.value else opened_at;
            && s.age_days == DaysBetween(now, opened_at) && s.age_minutes == MinutesBetween(now, opened_at)
            && s.idle_days == DaysBetween(now, worked_at) && s.idle_minutes == MinutesBetween(now, worked_at)
            && s.last_agent_action_at == LastDated(timeline, AgentAction, parse)
            && s.last_caller_activity_at == LastDated(timeline, CallerActivity, parse)
            && s.expected_resolution_hours == facts.p90_hours
            && (s.duration_overrun <==> facts.p90_hours.Some? && facts.p90_hours.value != 0.0
                                        && 24.0 * s.age_days > facts.p90_hours.value)
            && s.sla_breached == facts.sla.sla_breached && s.sla_pct_consumed == facts.sla.sla_pct_consumed
            && s.sla_time_left_mins == facts.sla.sla_time_left_mins
            && s.vendor_sla_breached == facts.sla.vendor_sla_breached
            && s.kb_available == facts.kb_available && s.kb_attached == facts.kb_attached
  {
  }

  /** The time in the present state: since the last change of state, if that can
      be dated and any time has passed, and otherwise the age. */
  lemma {:induction false} DaysInStateAre(facts: Facts, timeline: seq<Event>, hint: string -> bool,
                                          parse: string -> Option<int>, now: int)
    ensures var s := Extract(facts, timeline, hint, parse, now);
            var changes := States(Actions(timeline));
            var since := if changes == [] then None else parse(changes[|changes| - 1].when);
            s.days_in_state == if since.Some? && DaysBetween(now, since.value) != 0.0 then DaysBetween(now, since.value)
                               else s.age_days
  {
  }

  lemma {:induction false} StatesAre(actions: seq<Event>)
    ensures forall e :: e in States(actions) <==> e in actions && e.field == "state"
  {
    if actions != [] {
      StatesAre(actions[1..]);
      assert actions == [actions[0]] + actions[1..];
    }
  }

  /** A ticket may be closed when it waits for the caller, an agent has asked at
      least as often as the threshold says, three times where none is set, the
      last time at least so many days ago, five where none is set, and the
      caller has not come back. */
  lemma {:induction false} ClosureIff(facts: Facts, timeline: seq<Event>, hint: string -> bool,
                                      parse: string -> Option<int>, now: int)
    ensures var s := Extract(facts, timeline, hint, parse, now);
            var times := if facts.thresholds.closure_followup_count.Some?
                         then facts.thresholds.closure_followup_count.value else 3.0;
            var days := if facts.thresholds.closure_silence_days.Some?
                        then facts.thresholds.closure_silence_days.value else 5.0;
            && (s.auto_close_candidate <==>
                  && s.pending_action_owner == "CALLER" && !s.caller_replied_unanswered
                  && s.followup_count as real >= times
                  && s.days_since_last_followup.Some? && s.days_since_last_followup.value >= days)
            && (s.caller_replied_unanswered <==>
                  && s.last_caller_activity_at.Some?
                  && (s.last_agent_action_at.None? || s.last_caller_activity_at.value > s.last_agent_action_at.value))
  {
  }

  /** A follow-up is something an agent wrote for the caller to read that asks. */
  lemma {:induction false} FollowUpIff(e: Event, hint: string -> bool)
    ensures FollowUp(e, hint)
            <==> e.role == Agent && (e.field == "comments" || e.field == "additional_comments") && hint(e.text)
  {
  }

  lemma {:induction false} LastDatedSome(es: seq<Event>, p: Event -> bool, parse: string -> Option<int>)
    ensures LastDated(es, p, parse).Some? <==> exists e :: e in es && p(e) && parse(e.when).Some?
  {
    if es != [] {
      var front, last := es[..|es| - 1], es[|es| - 1];
      LastDatedSome(front, p, parse);
      assert es == front + [last];
      assert forall e :: e in es <==> e in front || e == last;
    }
  }

  /** Timestamps whose order as strings is their order in time, as those of one
      format are. */
  ghost predicate Chronological(es: seq<Event>, parse: string -> Option<int>) {
    forall a, b :: a in es && b in es && parse(a.when).Some? && parse(b.when).Some? && LexLe(a.when, b.when)
      ==> parse(a.when).value <= parse(b.when).value
  }

  lemma {:induction false} LastDatedIsLatest(es: seq<Event>, p: Event -> bool, parse: string -> Option<int>, e: Event)
    requires Ascending(es) && Chronological(es, parse)
    requires e in es && p(e) && parse(e.when).Some?
    ensures LastDated(es, p, parse).Some? && parse(e.when).value <= LastDated(es, p, parse).value
  {
    var front, last := es[..|es| - 1], es[|es| - 1];
    assert es == front + [last];
    if p(last) && parse(last.when).Some? {
      LexTotal(last.when, last.when);
      var i :| 0 <= i < |es| && es[i] == e;
      assert LexLe(e.when, last.when);
    } else {
      assert e in front;
      assert forall x :: x in front ==> x in es;
      LastDatedIsLatest(front, p, parse, e);
    }
  }

  lemma {:induction false} LastDatedIsOne(es: seq<Event>, p: Event -> bool,
                                          parse: string -> Option<int>) returns (e: Event)
    requires LastDated(es, p, parse).Some?
    ensures e in es && p(e) && parse(e.when) == LastDated(es, p, parse)
  {
    var last := es[|es| - 1];
    if p(last) && parse(last.when).Some? {
      e := last;
    } else {
      e := LastDatedIsOne(es[..|es| - 1], p, parse);
    }
  }

  /** Some update by the caller is later than everything an agent did. */
  ghost predicate CallerHasTheLastWord(timeline: seq<Event>, parse: string -> Option<int>) {
    exists c :: c in timeline && CallerActivity(c) && parse(c.when).Some?
      && forall a :: a in timeline && AgentAction(a) && parse(a.when).Some? ==>
           parse(a.when).value < parse(c.when).value
  }

  predicate Replied(agent_at: Option<int>, caller_at: Option<int>) {
    caller_at.Some? && (agent_at.None? || caller_at.value > agent_at.value)
  }

  lemma {:induction false} LastWord(timeline: seq<Event>, parse: string -> Option<int>)
    requires Ascending(timeline) && Chronological(timeline, parse)
    ensures Replied(LastDated(timeline, AgentAction, parse), LastDated(timeline, CallerActivity, parse))
            <==> CallerHasTheLastWord(timeline, parse)
  {
    LastDatedSome(timeline, AgentAction, parse);
    LastDatedSome(timeline, CallerActivity, parse);
    var agent, caller := LastDated(timeline, AgentAction, parse), LastDated(timeline, CallerActivity, parse);
    forall a | a in timeline && AgentAction(a) && parse(a.when).Some? ensures parse(a.when).value <= agent.value {
      LastDatedIsLatest(timeline, AgentAction, parse, a);
    }
    forall c | c in timeline && CallerActivity(c) && parse(c.when).Some? ensures parse(c.when).value <= caller.value {
      LastDatedIsLatest(timeline, CallerActivity, parse, c);
    }
    if agent.Some? {
      var a := LastDatedIsOne(timeline, AgentAction, parse);
    }
    if caller.Some? {
      var c := LastDatedIsOne(timeline, CallerActivity, parse);
    }
  }

  /** With timestamps of one format, the caller is waiting exactly when some
      update of theirs is later than everything an agent did. */
  lemma {:induction false} WaitingMeans(facts: Facts, history: seq<HistoryEvent>, hint: string -> bool,
                                        parse: string -> Option<int>, now: int)
    requires Chronological(Timeline(history, ReaderOf(facts)), parse)
    ensures ExtractSignals(facts, history, hint, parse, now).caller_replied_unanswered
            <==> CallerHasTheLastWord(Timeline(history, ReaderOf(facts)), parse)
  {
    var timeline := Timeline(history, ReaderOf(facts));
    SortFacts(Readings(history, ReaderOf(facts)));
    SortedIsAscending(timeline);
    LastWord(timeline, parse);
    SomeFields(facts, timeline, hint, parse, now);
  }

  lemma {:induction false} SomeFields(facts: Facts, timeline: seq<Event>, hint: string -> bool,
                                      parse: string -> Option<int>, now: int)
    ensures var s := Extract(facts, timeline, hint, parse, now);
            && s.last_agent_action_at == LastDated(timeline, AgentAction, parse)
            && s.caller_replied_unanswered
               == Replied(LastDated(timeline, AgentAction, parse), LastDated(timeline, CallerActivity, parse))
            && (s.auto_close_candidate ==>
                 && !s.caller_replied_unanswered && !s.dependency_resolved
                 && LastDated(Actions(timeline), FollowedUp(hint, parse), parse).Some?)
  {
  }

  // -- risk flags -----------------------------------------------------------------------

  function AddIf(flags: seq<string>, condition: bool, flag: string): seq<string> {
    if condition then flags + [flag] else flags
  }

  function ServiceFlags(s: Signals, thresholds: Thresholds): seq<string> {
    var f := AddIf([], s.sla_breached, "SLA_BREACHED");
    var f := AddIf(f, !s.sla_breached && GetOr(s.sla_pct_consumed, 0.0) >= GetOr(thresholds.sla_risk_pct, 75.0),
                   "SLA_AT_RISK");
    var prolonged := s.idle_days >= GetOr(thresholds.prolonged_inactivity_days, 4.0);
    var f := AddIf(f, prolonged, "PROLONGED_INACTIVITY");
    var f := AddIf(f, !prolonged && s.idle_days >= GetOr(thresholds.inactivity_days, 2.0), "NO_RECENT_ACTIVITY");
    AddIf(f, s.vendor_sla_breached, "VENDOR_SLA_BREACHED")
  }

  function ActionFlags(flags: seq<string>, s: Signals): seq<string> {
    var f := AddIf(flags, s.caller_replied_unanswered, "CALLER_AWAITING_REPLY");
    var f := AddIf(f, s.dependency_resolved, "DEPENDENCY_CLEARED");
    AddIf(f, s.auto_close_candidate, "CLOSURE_CANDIDATE")
  }

  function RecordFlags(flags: seq<string>, s: Signals): seq<string> {
    var f := AddIf(flags, s.duration_overrun, "EXPECTED_DURATION_EXCEEDED");
    var f := AddIf(f, s.kb_available && !s.kb_attached, "KB_ARTICLE_NOT_LINKED");
    AddIf(f, s.last_agent_action_at.None?, "NO_ACTION_RECORDED")
  }

  function Flags(s: Signals, thresholds: Thresholds): seq<string> {
    RecordFlags(ActionFlags(ServiceFlags(s, thresholds), s), s)
  }

  method Append(flags: seq<string>, flag: string) returns (more: seq<string>)
    ensures more == AddIf(flags, true, flag)
  {
    more := flags + [flag];
  }

  /** The flags in their order; a ticket carries exactly those it deserves. */
  method DeriveRiskFlags(s: Signals, thresholds: Thresholds) returns (flags: seq<string>)
    ensures flags == Flags(s, thresholds)
    ensures forall x :: x in flags <==> Deserved(x, s, thresholds)
  {
    flags := ServiceRiskFlags(s, thresholds);
    flags := ActionRiskFlags(flags, s);
    flags := RecordRiskFlags(flags, s);
    forall x ensures x in flags <==> Deserved(x, s, thresholds) {
      FlagMeans(s, thresholds, x);
    }
  }

  method ActionRiskFlags(before: seq<string>, s: Signals) returns (flags: seq<string>)
    ensures flags == ActionFlags(before, s)
  {
    flags := before;
    if s.caller_replied_unanswered { flags := Append(flags, "CALLER_AWAITING_REPLY"); }
    if s.dependency_resolved { flags := Append(flags, "DEPENDENCY_CLEARED"); }
    if s.auto_close_candidate { flags := Append(flags, "CLOSURE_CANDIDATE"); }
  }

  method RecordRiskFlags(before: seq<string>, s: Signals) returns (flags: seq<string>)
    ensures flags == RecordFlags(before, s)
  {
    flags := before;
    if s.duration_overrun { flags := Append(flags, "EXPECTED_DURATION_EXCEEDED"); }
    if s.kb_available && !s.kb_attached { flags := Append(flags, "KB_ARTICLE_NOT_LINKED"); }
    if s.last_agent_action_at.None? { flags := Append(flags, "NO_ACTION_RECORDED"); }
  }

  method ServiceRiskFlags(s: Signals, thresholds: Thresholds) returns (flags: seq<string>)
    ensures flags == ServiceFlags(s, thresholds)
  {
    flags := [];
    if s.sla_breached {
      flags := Append(flags, "SLA_BREACHED");
    } else if GetOr(s.sla_pct_consumed, 0.0) >= GetOr(thresholds.sla_risk_pct, 75.0) {
      flags := Append(flags, "SLA_AT_RISK");
    }
    if s.idle_days >= GetOr(thresholds.prolonged_inactivity_days, 4.0) {
      flags := Append(flags, "PROLONGED_INACTIVITY");
    } else if s.idle_days >= GetOr(thresholds.inactivity_days, 2.0) {
      flags := Append(flags, "NO_RECENT_ACTIVITY");
    }
    if s.vendor_sla_breached { flags := Append(flags, "VENDOR_SLA_BREACHED"); }
  }

  lemma {:induction false} Added(flags: seq<string>, condition: bool, flag: string, x: string)
    ensures x in AddIf(flags, condition, flag) <==> x in flags || (condition && x == flag)
  {
  }

  /** What each flag stands for. */
  predicate Deserved(x: string, s: Signals, thresholds: Thresholds) {
    || (x == "SLA_BREACHED" && s.sla_breached)
    || (x == "SLA_AT_RISK" && !s.sla_breached && GetOr(s.sla_pct_consumed, 0.0) >= GetOr(thresholds.sla_risk_pct, 75.0))
    || (x == "PROLONGED_INACTIVITY" && Prolonged(s, thresholds))
    || (x == "NO_RECENT_ACTIVITY" && !Prolonged(s, thresholds) && s.idle_days >= GetOr(thresholds.inactivity_days, 2.0))
    || (x == "VENDOR_SLA_BREACHED" && s.vendor_sla_breached)
    || (x == "CALLER_AWAITING_REPLY" && s.caller_replied_unanswered)
    || (x == "DEPENDENCY_CLEARED" && s.dependency_resolved)
    || (x == "CLOSURE_CANDIDATE" && s.auto_close_candidate)
    || (x == "EXPECTED_DURATION_EXCEEDED" && s.duration_overrun)
    || (x == "KB_ARTICLE_NOT_LINKED" && s.kb_available && !s.kb_attached)
    || (x == "NO_ACTION_RECORDED" && s.last_agent_action_at.None?)
  }

  predicate Prolonged(s: Signals, thresholds: Thresholds) {
    s.idle_days >= GetOr(thresholds.prolonged_inactivity_days, 4.0)
  }

  lemma {:induction false} ServiceFlagMeans(s: Signals, thresholds: Thresholds, x: string)
    ensures x in ServiceFlags(s, thresholds) <==>
      || (x == "SLA_BREACHED" && s.sla_breached)
      || (x == "SLA_AT_RISK" && !s.sla_breached
          && GetOr(s.sla_pct_consumed, 0.0) >= GetOr(thresholds.sla_risk_pct, 75.0))
      || (x == "PROLONGED_INACTIVITY" && Prolonged(s, thresholds))
      || (x == "NO_RECENT_ACTIVITY" && !Prolonged(s, thresholds)
          && s.idle_days >= GetOr(thresholds.inactivity_days, 2.0))
      || (x == "VENDOR_SLA_BREACHED" && s.vendor_sla_breached)
  {
    var risk := !s.sla_breached && GetOr(s.sla_pct_consumed, 0.0) >= GetOr(thresholds.sla_risk_pct, 75.0);
    var idle := !Prolonged(s, thresholds) && s.idle_days >= GetOr(thresholds.inactivity_days, 2.0);
    Added([], s.sla_breached, "SLA_BREACHED", x);
    var f := AddIf([], s.sla_breached, "SLA_BREACHED");
    Added(f, risk, "SLA_AT_RISK", x);
    f := AddIf(f, risk, "SLA_AT_RISK");
    Added(f, Prolonged(s, thresholds), "PROLONGED_INACTIVITY", x);
    f := AddIf(f, Prolonged(s, thresholds), "PROLONGED_INACTIVITY");
    Added(f, idle, "NO_RECENT_ACTIVITY", x);
    f := AddIf(f, idle, "NO_RECENT_ACTIVITY");
    Added(f, s.vendor_sla_breached, "VENDOR_SLA_BREACHED", x);
  }

  /** A ticket carries exactly the flags it deserves. */
  lemma {:induction false} FlagMeans(s: Signals, thresholds: Thresholds, x: string)
    ensures x in Flags(s, thresholds) <==> Deserved(x, s, thresholds)
  {
    ServiceFlagMeans(s, thresholds, x);
    var f := ServiceFlags(s, thresholds);
    Added(f, s.caller_replied_unanswered, "CALLER_AWAITING_REPLY", x);
    f := AddIf(f, s.caller_replied_unanswered, "CALLER_AWAITING_REPLY");
    Added(f, s.dependency_resolved, "DEPENDENCY_CLEARED", x);
    f := AddIf(f, s.dependency_resolved, "DEPENDENCY_CLEARED");
    Added(f, s.auto_close_candidate, "CLOSURE_CANDIDATE", x);
    f := AddIf(f, s.auto_close_candidate, "CLOSURE_CANDIDATE");
    Added(f, s.duration_overrun, "EXPECTED_DURATION_EXCEEDED", x);
    f := AddIf(f, s.duration_overrun, "EXPECTED_DURATION_EXCEEDED");
    Added(f, s.kb_available && !s.kb_attached, "KB_ARTICLE_NOT_LINKED", x);
    f := AddIf(f, s.kb_available && !s.kb_attached, "KB_ARTICLE_NOT_LINKED");
    Added(f, s.last_agent_action_at.None?, "NO_ACTION_RECORDED", x);
  }

  /** The two pairs of flags of which a ticket carries at most one. */
  lemma {:induction false} GradesExclude(s: Signals, thresholds: Thresholds)
    ensures var flags := Flags(s, thresholds);
            && !("SLA_BREACHED" in flags && "SLA_AT_RISK" in flags)
            && !("PROLONGED_INACTIVITY" in flags && "NO_RECENT_ACTIVITY" in flags)
  {
    FlagMeans(s, thresholds, "SLA_BREACHED");
    FlagMeans(s, thresholds, "SLA_AT_RISK");
    FlagMeans(s, thresholds, "PROLONGED_INACTIVITY");
    FlagMeans(s, thresholds, "NO_RECENT_ACTIVITY");
  }

  lemma {:induction false} ClosureNeedsAnAgent(timeline: seq<Event>, hint: string -> bool, parse: string -> Option<int>)
    requires Ascending(timeline) && LastDated(Actions(timeline), FollowedUp(hint, parse), parse).Some?
    ensures LastDated(timeline, AgentAction, parse).Some?
  {
    ActionsFacts(timeline);
    var e := LastDatedIsOne(Actions(timeline), FollowedUp(hint, parse), parse);
    assert CUSTOMER_VISIBLE_FIELDS !! SYSTEM_NOISE_FIELDS;
    assert AgentAction(e);
    LastDatedSome(timeline, AgentAction, parse);
  }

  /** A ticket proposed for closing is never also one whose caller waits, whose
      dependency has cleared, or that nobody has touched. */
  lemma {:induction false} ClosureStandsAlone(facts: Facts, history: seq<HistoryEvent>, hint: string -> bool,
                                              parse: string -> Option<int>, now: int)
    ensures var flags := Flags(ExtractSignals(facts, history, hint, parse, now), facts.thresholds);
            "CLOSURE_CANDIDATE" in flags ==>
              "CALLER_AWAITING_REPLY" !in flags && "DEPENDENCY_CLEARED" !in flags && "NO_ACTION_RECORDED" !in flags
  {
    var s, timeline := ExtractSignals(facts, history, hint, parse, now), Timeline(history, ReaderOf(facts));
    FlagMeans(s, facts.thresholds, "CLOSURE_CANDIDATE");
    FlagMeans(s, facts.thresholds, "CALLER_AWAITING_REPLY");
    FlagMeans(s, facts.thresholds, "DEPENDENCY_CLEARED");
    FlagMeans(s, facts.thresholds, "NO_ACTION_RECORDED");
    SomeFields(facts, timeline, hint, parse, now);
    if s.auto_close_candidate {
      SortFacts(Readings(history, ReaderOf(facts)));
      SortedIsAscending(timeline);
      ClosureNeedsAnAgent(timeline, hint, parse);
    }
  }
}
