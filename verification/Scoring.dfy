/** pipeline/scoring.py: seven components, seven weights, one number that ranks
    the queue. Arithmetic is over the reals. */
module Scoring {
  import opened Text
  import opened Timeutil
  import opened Signals

  datatype Component = SlaRisk | InactivityDuration | TicketAge | BusinessPriority
                     | ReassignmentActivity | UnactionedDelay | DurationOverrun

  const COMPONENTS: seq<Component> :=
    [SlaRisk, InactivityDuration, TicketAge, BusinessPriority, ReassignmentActivity, UnactionedDelay, DurationOverrun]

  type Weights = map<Component, int>

  const DEFAULT_WEIGHTS: Weights := map[
    SlaRisk := 25, InactivityDuration := 25, TicketAge := 10, BusinessPriority := 10,
    ReassignmentActivity := 5, UnactionedDelay := 15, DurationOverrun := 10]

  // ---------------------------------------------------------------------
  // weights
  // ---------------------------------------------------------------------

  /** A row of the table; None for a name that is no component. */
  datatype Row = Row(component: Option<Component>, weightage: int)

  function WeightOf(weights: Weights, c: Component): int {
    if c in weights then weights[c] else 0
  }

  function SumOver(weights: Weights, cs: seq<Component>): int {
    if cs == [] then 0 else SumOver(weights, cs[..|cs| - 1]) + WeightOf(weights, cs[|cs| - 1])
  }

  function TotalWeight(weights: Weights): int { SumOver(weights, COMPONENTS) }

  /** The last enabled row for a component wins; other rows are ignored. */
  function Configured(rows: seq<Row>): Weights {
    if rows == [] then map[]
    else
      var before, row := Configured(rows[..|rows| - 1]), rows[|rows| - 1];
      if row.component.Some? then before[row.component.value := row.weightage] else before
  }

  lemma {:induction false} SevenTerms(w: Weights)
    ensures TotalWeight(w) ==
      WeightOf(w, SlaRisk) + WeightOf(w, InactivityDuration) + WeightOf(w, TicketAge) + WeightOf(w, BusinessPriority)
      + WeightOf(w, ReassignmentActivity) + WeightOf(w, UnactionedDelay) + WeightOf(w, DurationOverrun)
  {
    var cs := COMPONENTS;
    assert cs[..6][..5] == cs[..5] && cs[..5][..4] == cs[..4] && cs[..4][..3] == cs[..3];
    assert cs[..3][..2] == cs[..2] && cs[..2][..1] == cs[..1] && cs[..1][..0] == [];
    assert SumOver(w, cs[..1]) == WeightOf(w, SlaRisk);
    assert SumOver(w, cs[..2]) == SumOver(w, cs[..1]) + WeightOf(w, InactivityDuration);
    assert SumOver(w, cs[..3]) == SumOver(w, cs[..2]) + WeightOf(w, TicketAge);
    assert SumOver(w, cs[..4]) == SumOver(w, cs[..3]) + WeightOf(w, BusinessPriority);
    assert SumOver(w, cs[..5]) == SumOver(w, cs[..4]) + WeightOf(w, ReassignmentActivity);
    assert SumOver(w, cs[..6]) == SumOver(w, cs[..5]) + WeightOf(w, UnactionedDelay);
  }

  lemma {:induction false} DefaultsAreComplete()
    ensures TotalWeight(DEFAULT_WEIGHTS) == 100 && forall c :: c in DEFAULT_WEIGHTS
  {
    SevenTerms(DEFAULT_WEIGHTS);
    forall c ensures c in DEFAULT_WEIGHTS {
      match c
      case SlaRisk =>
      case InactivityDuration =>
      case TicketAge =>
      case BusinessPriority =>
      case ReassignmentActivity =>
      case UnactionedDelay =>
      case DurationOverrun =>
    }
  }

  /** `load_weights`; None stands for a table that could not be read. Whatever
      the rows say, seven weights come out and they sum to 100. */
  method LoadWeights(table: Option<seq<Row>>) returns (weights: Weights)
    ensures TotalWeight(weights) == 100 && forall c :: c in weights
    ensures weights == if table.Some? && TotalWeight(DEFAULT_WEIGHTS + Configured(table.value)) == 100
                       then DEFAULT_WEIGHTS + Configured(table.value) else DEFAULT_WEIGHTS
  {
    DefaultsAreComplete();
    weights := DEFAULT_WEIGHTS;
    if table.None? {
      return;
    }
    var rows := table.value;
    var configured: Weights := map[];
    for i := 0 to |rows|
      invariant configured == Configured(rows[..i])
    {
      assert rows[..i + 1][..i] == rows[..i];
      if rows[i].component.Some? {
        configured := configured[rows[i].component.value := rows[i].weightage];
      }
    }
    assert rows[..|rows|] == rows;
    if configured == map[] {
      return;
    }
    var merged := DEFAULT_WEIGHTS + configured;
    if TotalWeight(merged) == 100 {
      weights := merged;
    }
  }

  // ---------------------------------------------------------------------
  // components, each between 0 and 100
  // ---------------------------------------------------------------------

  function Clamp(x: real): real { if x < 0.0 then 0.0 else if x > 100.0 then 100.0 else x }

  function SlaRiskOf(s: Signals): real {
    if s.sla_breached then 100.0
    else if s.sla_pct_consumed.Some? then Clamp(s.sla_pct_consumed.value)
    else if s.sla_time_left_mins.None? then 0.0
    else
      var left := s.sla_time_left_mins.value;
      if left <= 0.0 then 100.0 else if left <= 60.0 then 90.0 else if left <= 240.0 then 70.0
      else if left <= 1440.0 then 40.0 else 10.0
  }

  /** `float(thresholds.get(key, default) or default)`: zero is taken for absent. */
  function Setting(o: Option<real>, default_: real): real {
    if o.None? || o.value == 0.0 then default_ else o.value
  }

  function Share(part: real, whole: real): real
    requires whole != 0.0
  {
    Clamp(part / whole * 100.0)
  }

  function InactivityOf(s: Signals, t: Thresholds): real {
    Share(s.idle_days, Setting(t.prolonged_inactivity_days, 4.0))
  }

  function AgeOf(s: Signals, t: Thresholds): real {
    var aged_after := Setting(t.aged_after_days, 5.0);
    if s.age_days <= aged_after then 0.0 else Share(s.age_days - aged_after, aged_after)
  }

  function FirstDigit(s: string): Option<char> {
    if s == "" then None
    else if Blank(s[0]) then FirstDigit(s[1..])
    else if '0' <= s[0] <= '9' then Some(s[0]) else None
  }

  function PriorityOf(ticket: Ticket): real {
    match FirstDigit(ticket.priority)
    case None => 25.0
    case Some(d) => if d == '1' then 100.0 else if d == '2' then 80.0 else if d == '3' then 50.0
                    else if d == '4' then 25.0 else if d == '5' then 10.0 else 25.0
  }

  function ReassignmentOf(ticket: Ticket): real {
    Clamp(ticket.reassignment_count as real * 20.0 + ticket.reopen_count as real * 30.0)
  }

  function If(condition: bool, points: real): real { if condition then points else 0.0 }

  function UnactionedOf(s: Signals): real {
    var score := If(s.caller_replied_unanswered, 60.0) + If(s.dependency_resolved, 60.0)
                 + If(s.auto_close_candidate, 30.0) + If(s.last_agent_action_at.None?, 40.0)
                 + If(s.vendor_sla_breached, 40.0);
    if score > 100.0 then 100.0 else score
  }

  function OverrunOf(s: Signals): real {
    if !s.duration_overrun then 0.0
    else if s.expected_resolution_hours.None? || s.expected_resolution_hours.value <= 0.0 then 100.0
    else Clamp(50.0 * (s.age_days * 24.0 / s.expected_resolution_hours.value))
  }

  function Raw(c: Component, ticket: Ticket, s: Signals, t: Thresholds): real {
    match c
    case SlaRisk => SlaRiskOf(s)
    case InactivityDuration => InactivityOf(s, t)
    case TicketAge => AgeOf(s, t)
    case BusinessPriority => PriorityOf(ticket)
    case ReassignmentActivity => ReassignmentOf(ticket)
    case UnactionedDelay => UnactionedOf(s)
    case DurationOverrun => OverrunOf(s)
  }

  // ---------------------------------------------------------------------
  // the score
  // ---------------------------------------------------------------------

  function Contribution(raw: real, weight: int): real { raw * weight as real / 100.0 }

  datatype Line = Line(component: Component, raw: real, weight: int, points: real)

  datatype Scored = Scored(score: int, breakdown: seq<Line>)

  function Total(cs: seq<Component>, ticket: Ticket, s: Signals, weights: Weights, t: Thresholds): real {
    if cs == [] then 0.0
    else
      var c := cs[|cs| - 1];
      Total(cs[..|cs| - 1], ticket, s, weights, t) + Contribution(Raw(c, ticket, s, t), WeightOf(weights, c))
  }

  function Lines(cs: seq<Component>, ticket: Ticket, s: Signals, weights: Weights, t: Thresholds): seq<Line> {
    if cs == [] then []
    else
      var c := cs[|cs| - 1];
      var raw, weight := Raw(c, ticket, s, t), WeightOf(weights, c);
      Lines(cs[..|cs| - 1], ticket, s, weights, t) + [Line(c, Round1(raw), weight, Round1(Contribution(raw, weight)))]
  }

  /** `weights or DEFAULT_WEIGHTS` */
  function InForce(weights: Weights): Weights { if weights == map[] then DEFAULT_WEIGHTS else weights }

  function ScoreOf(ticket: Ticket, s: Signals, weights: Weights, t: Thresholds): int {
    RoundHalfEven(Clamp(Total(COMPONENTS, ticket, s, InForce(weights), t)))
  }

  method ComputeAttentionScore(ticket: Ticket, s: Signals, weights: Weights, t: Thresholds) returns (scored: Scored)
    ensures scored.score == ScoreOf(ticket, s, weights, t)
    ensures scored.breakdown == Lines(COMPONENTS, ticket, s, InForce(weights), t)
  {
    var inForce := if weights == map[] then DEFAULT_WEIGHTS else weights;
    var breakdown: seq<Line> := [];
    var total := 0.0;
    for i := 0 to |COMPONENTS|
      invariant total == Total(COMPONENTS[..i], ticket, s, inForce, t)
      invariant breakdown == Lines(COMPONENTS[..i], ticket, s, inForce, t)
    {
      assert COMPONENTS[..i + 1][..i] == COMPONENTS[..i];
      var raw, weight := Raw(COMPONENTS[i], ticket, s, t), WeightOf(inForce, COMPONENTS[i]);
      var contribution := Contribution(raw, weight);
      total := total + contribution;
      breakdown := breakdown + [Line(COMPONENTS[i], Round1(raw), weight, Round1(contribution))];
    }
    assert COMPONENTS[..|COMPONENTS|] == COMPONENTS;
    scored := Scored(RoundHalfEven(Clamp(total)), breakdown);
  }

  /** A component's share of its weight. */
  lemma {:induction false} ContributionIs(raw: real, weight: int)
    ensures 100.0 * Contribution(raw, weight) == raw * weight as real
  {
  }

  lemma {:induction false} LineCount(cs: seq<Component>, ticket: Ticket, s: Signals, weights: Weights, t: Thresholds)
    ensures |Lines(cs, ticket, s, weights, t)| == |cs|
  {
    if cs != [] {
      LineCount(cs[..|cs| - 1], ticket, s, weights, t);
    }
  }

  /** One line for each component, in order, with its points and their share. */
  lemma {:induction false} LineAt(cs: seq<Component>, ticket: Ticket, s: Signals, weights: Weights, t: Thresholds,
                                  i: nat)
    requires i < |cs|
    ensures var lines, raw := Lines(cs, ticket, s, weights, t), Raw(cs[i], ticket, s, t);
            && |lines| == |cs|
            && lines[i] == Line(cs[i], Round1(raw), WeightOf(weights, cs[i]),
                                Round1(Contribution(raw, WeightOf(weights, cs[i]))))
  {
    var front := cs[..|cs| - 1];
    LineCount(cs, ticket, s, weights, t);
    LineCount(front, ticket, s, weights, t);
    if i < |front| {
      LineAt(front, ticket, s, weights, t, i);
    }
  }

  // -- what each component gives -------------------------------------------------------

  /** The service level: breached, or its share in percent, or by what is left. */
  lemma {:induction false} SlaPoints(s: Signals)
    ensures s.sla_breached ==> SlaRiskOf(s) == 100.0
    ensures !s.sla_breached && s.sla_pct_consumed.Some? && 0.0 <= s.sla_pct_consumed.value <= 100.0 ==>
              SlaRiskOf(s) == s.sla_pct_consumed.value
    ensures !s.sla_breached && s.sla_pct_consumed.Some? && s.sla_pct_consumed.value > 100.0 ==> SlaRiskOf(s) == 100.0
    ensures !s.sla_breached && s.sla_pct_consumed.Some? && s.sla_pct_consumed.value < 0.0 ==> SlaRiskOf(s) == 0.0
    ensures !s.sla_breached && s.sla_pct_consumed.None? ==>
              match s.sla_time_left_mins
              case None => SlaRiskOf(s) == 0.0
              case Some(left) =>
                && (SlaRiskOf(s) == 100.0 <==> left <= 0.0) && (SlaRiskOf(s) == 90.0 <==> 0.0 < left <= 60.0)
                && (SlaRiskOf(s) == 70.0 <==> 60.0 < left <= 240.0)
                && (SlaRiskOf(s) == 40.0 <==> 240.0 < left <= 1440.0)
                && (SlaRiskOf(s) == 10.0 <==> 1440.0 < left)
  {
  }

  lemma {:induction false} SignOf(x: real, b: real)
    requires b > 0.0
    ensures x >= 0.0 <==> x * b >= 0.0
  {
  }

  lemma {:induction false} Ratio(a: real, b: real)
    requires a >= 0.0 && b > 0.0
    ensures a / b * b == a && a / b >= 0.0
    ensures (a >= b <==> a / b >= 1.0) && (a >= b + b <==> a / b >= 2.0)
  {
    var r := a / b;
    assert r * b == a;
    SignOf(r, b);
    SignOf(r - 1.0, b);
    SignOf(r - 2.0, b);
  }

  /** Idle time against the threshold, four days where none is set, and full
      marks from there on. */
  lemma {:induction false} InactivityPoints(s: Signals, t: Thresholds, days: real)
    requires s.idle_days >= 0.0 && days > 0.0
    requires t.prolonged_inactivity_days == Some(days)
             || (t.prolonged_inactivity_days in {None, Some(0.0)} && days == 4.0)
    ensures if s.idle_days >= days then InactivityOf(s, t) == 100.0
            else InactivityOf(s, t) * days == s.idle_days * 100.0
  {
    Ratio(s.idle_days, days);
  }

  /** Age beyond the threshold, five days where none is set, and full marks at
      twice the threshold. */
  lemma {:induction false} AgePoints(s: Signals, t: Thresholds, days: real)
    requires days > 0.0
    requires t.aged_after_days == Some(days) || (t.aged_after_days in {None, Some(0.0)} && days == 5.0)
    ensures if s.age_days <= days then AgeOf(s, t) == 0.0
            else if s.age_days >= days + days then AgeOf(s, t) == 100.0
            else AgeOf(s, t) * days == (s.age_days - days) * 100.0
  {
    if s.age_days > days {
      Ratio(s.age_days - days, days);
    }
  }

  /** The first character that is not blank, if it is a digit. */
  lemma {:induction false} FirstDigitIs(s: string)
    ensures FirstDigit(s) == if TrimLeft(s) != "" && '0' <= TrimLeft(s)[0] <= '9' then Some(TrimLeft(s)[0]) else None
  {
    if s != "" && Blank(s[0]) {
      FirstDigitIs(s[1..]);
    }
  }

  lemma {:induction false} PriorityPoints(ticket: Ticket)
    ensures var digit, points := FirstDigit(ticket.priority), PriorityOf(ticket);
            && (points == 100.0 <==> digit == Some('1')) && (points == 80.0 <==> digit == Some('2'))
            && (points == 50.0 <==> digit == Some('3')) && (points == 10.0 <==> digit == Some('5'))
            && (points == 25.0 <==> digit !in {Some('1'), Some('2'), Some('3'), Some('5')})
  {
  }

  /** Twenty for each reassignment and thirty for each reopening. */
  lemma {:induction false} ReassignmentPoints(ticket: Ticket)
    requires ticket.reassignment_count >= 0 && ticket.reopen_count >= 0
    ensures var points := 20 * ticket.reassignment_count + 30 * ticket.reopen_count;
            ReassignmentOf(ticket) == if points > 100 then 100.0 else points as real
  {
  }

  /** What nobody has seen to, in five amounts that add up, to a hundred. */
  lemma {:induction false} UnactionedPoints(s: Signals)
    ensures var points := (if s.caller_replied_unanswered then 60 else 0) + (if s.dependency_resolved then 60 else 0)
                          + (if s.auto_close_candidate then 30 else 0)
                          + (if s.last_agent_action_at.None? then 40 else 0)
                          + (if s.vendor_sla_breached then 40 else 0);
            UnactionedOf(s) == if points > 100 then 100.0 else points as real
  {
  }

  /** Nothing within the time such tickets take; half marks when it is just
      over, full marks at twice the time. */
  lemma {:induction false} OverrunPoints(s: Signals, hours: real)
    requires s.expected_resolution_hours == Some(hours) && hours > 0.0 && s.age_days >= 0.0
    ensures !s.duration_overrun ==> OverrunOf(s) == 0.0
    ensures s.duration_overrun ==> if s.age_days * 24.0 >= hours + hours then OverrunOf(s) == 100.0
                                   else OverrunOf(s) * hours == 50.0 * (s.age_days * 24.0)
  {
    Ratio(s.age_days * 24.0, hours);
  }

  /** The shares a service starts with, of a hundred. */
  lemma {:induction false} DefaultShares()
    ensures DEFAULT_WEIGHTS[SlaRisk] == 25 && DEFAULT_WEIGHTS[InactivityDuration] == 25
    ensures DEFAULT_WEIGHTS[TicketAge] == 10 && DEFAULT_WEIGHTS[BusinessPriority] == 10
    ensures DEFAULT_WEIGHTS[ReassignmentActivity] == 5 && DEFAULT_WEIGHTS[UnactionedDelay] == 15
    ensures DEFAULT_WEIGHTS[DurationOverrun] == 10
  {
  }

  // -- bounds -----------------------------------------------------------------------

  lemma {:induction false} ContributionIsBounded(raw: real, weight: int)
    requires 0.0 <= raw <= 100.0 && weight >= 0
    ensures 0.0 <= Contribution(raw, weight) <= weight as real
  {
    var w := weight as real;
    assert 0.0 <= raw * w <= 100.0 * w;
  }

  lemma {:induction false} TotalIsBounded(cs: seq<Component>, ticket: Ticket, s: Signals, weights: Weights,
                                          t: Thresholds)
    requires forall c :: c in weights ==> weights[c] >= 0
    ensures 0.0 <= Total(cs, ticket, s, weights, t) <= SumOver(weights, cs) as real
  {
    if cs != [] {
      var c := cs[|cs| - 1];
      TotalIsBounded(cs[..|cs| - 1], ticket, s, weights, t);
      ContributionIsBounded(Raw(c, ticket, s, t), WeightOf(weights, c));
    }
  }

  function PointsOf(lines: seq<Line>): real {
    if lines == [] then 0.0 else PointsOf(lines[..|lines| - 1]) + lines[|lines| - 1].points
  }

  lemma {:induction false} PointsAreNear(cs: seq<Component>, ticket: Ticket, s: Signals, weights: Weights,
                                         t: Thresholds)
    ensures |Lines(cs, ticket, s, weights, t)| == |cs|
    ensures -0.05 * |cs| as real
            <= PointsOf(Lines(cs, ticket, s, weights, t)) - Total(cs, ticket, s, weights, t)
            <= 0.05 * |cs| as real
  {
    if cs != [] {
      var front, c := cs[..|cs| - 1], cs[|cs| - 1];
      PointsAreNear(front, ticket, s, weights, t);
      var contribution := Contribution(Raw(c, ticket, s, t), WeightOf(weights, c));
      RoundIs(contribution * 10.0);
      var lines := Lines(cs, ticket, s, weights, t);
      assert lines[..|lines| - 1] == Lines(front, ticket, s, weights, t);
    }
  }

  /** With non-negative weights that sum to 100, as the defaults are, the clamp
      never bites and the points shown add up to within 0.85 of the score. */
  lemma {:induction false} PointsExplainTheScore(ticket: Ticket, s: Signals, weights: Weights, t: Thresholds)
    requires TotalWeight(weights) == 100 && forall c :: c in weights ==> weights[c] >= 0
    ensures 0.0 <= Total(COMPONENTS, ticket, s, InForce(weights), t) <= 100.0
    ensures ScoreOf(ticket, s, weights, t) == RoundHalfEven(Total(COMPONENTS, ticket, s, InForce(weights), t))
    ensures 0 <= ScoreOf(ticket, s, weights, t) <= 100
    ensures -0.85 <= PointsOf(Lines(COMPONENTS, ticket, s, InForce(weights), t))
                     - ScoreOf(ticket, s, weights, t) as real <= 0.85
  {
    SevenTerms(DEFAULT_WEIGHTS);
    var inForce := InForce(weights);
    TotalIsBounded(COMPONENTS, ticket, s, inForce, t);
    PointsAreNear(COMPONENTS, ticket, s, inForce, t);
    var total := Total(COMPONENTS, ticket, s, inForce, t);
    RoundIs(total);
    RoundMonotone(0.0, total);
    RoundMonotone(total, 100.0);
    RoundOfWhole(0);
    RoundOfWhole(100);
  }

  // -- the passage of time ----------------------------------------------------------

  lemma {:induction false} Divided(a: real, b: real, d: real)
    requires a <= b && d > 0.0
    ensures a / d <= b / d
  {
  }

  /** A share grows with its part; of a negative whole it is none at all. */
  lemma {:induction false} ShareMonotone(a: real, b: real, whole: real)
    requires 0.0 <= a <= b && whole != 0.0
    ensures Share(a, whole) <= Share(b, whole)
    ensures whole < 0.0 ==> Share(a, whole) == 0.0 == Share(b, whole)
  {
  }

  /** The components that watch the clock. */
  predicate Ages(c: Component) {
    c in {InactivityDuration, TicketAge, UnactionedDelay, DurationOverrun}
  }

  /** What may change in the signals of an untouched ticket as time goes by. */
  ghost predicate Later(s: Signals, s': Signals) {
    && 0.0 <= s.age_days <= s'.age_days && 0.0 <= s.idle_days <= s'.idle_days
    && (s.auto_close_candidate ==> s'.auto_close_candidate)
    && s'.caller_replied_unanswered == s.caller_replied_unanswered
    && s'.dependency_resolved == s.dependency_resolved
    && s'.last_agent_action_at.None? == s.last_agent_action_at.None?
    && s'.sla_breached == s.sla_breached && s'.sla_pct_consumed == s.sla_pct_consumed
    && s'.sla_time_left_mins == s.sla_time_left_mins && s'.vendor_sla_breached == s.vendor_sla_breached
    && s'.expected_resolution_hours == s.expected_resolution_hours
    && s.duration_overrun == Overran(s) && s'.duration_overrun == Overran(s')
  }

  predicate Overran(s: Signals) {
    s.expected_resolution_hours.Some? && s.expected_resolution_hours.value != 0.0
    && s.age_days * 24.0 > s.expected_resolution_hours.value
  }

  lemma {:induction false} AgeOfMonotone(s: Signals, s': Signals, t: Thresholds)
    requires Later(s, s')
    ensures AgeOf(s, t) <= AgeOf(s', t)
  {
    var aged_after := Setting(t.aged_after_days, 5.0);
    if s.age_days > aged_after {
      ShareMonotone(s.age_days - aged_after, s'.age_days - aged_after, aged_after);
    }
  }

  lemma {:induction false} OverrunMonotone(s: Signals, s': Signals)
    requires Later(s, s')
    ensures OverrunOf(s) <= OverrunOf(s')
  {
    if Overran(s) && s.expected_resolution_hours.value > 0.0 {
      Divided(s.age_days * 24.0, s'.age_days * 24.0, s.expected_resolution_hours.value);
    }
  }

  lemma {:induction false} RawMonotone(c: Component, ticket: Ticket, s: Signals, s': Signals, t: Thresholds)
    requires Later(s, s')
    ensures Raw(c, ticket, s, t) <= Raw(c, ticket, s', t)
    ensures !Ages(c) ==> Raw(c, ticket, s, t) == Raw(c, ticket, s', t)
  {
    match c
    case InactivityDuration => ShareMonotone(s.idle_days, s'.idle_days, Setting(t.prolonged_inactivity_days, 4.0));
    case TicketAge => AgeOfMonotone(s, s', t);
    case DurationOverrun => OverrunMonotone(s, s');
    case _ =>
  }

  lemma {:induction false} TotalMonotone(cs: seq<Component>, ticket: Ticket, s: Signals, s': Signals,
                                         weights: Weights, t: Thresholds)
    requires Later(s, s') && forall c :: Ages(c) ==> WeightOf(weights, c) >= 0
    ensures Total(cs, ticket, s, weights, t) <= Total(cs, ticket, s', weights, t)
  {
    if cs != [] {
      var c := cs[|cs| - 1];
      TotalMonotone(cs[..|cs| - 1], ticket, s, s', weights, t);
      RawMonotone(c, ticket, s, s', t);
    }
  }

  lemma {:induction false} LaterMonotone(ticket: Ticket, s: Signals, s': Signals, weights: Weights, t: Thresholds)
    requires Later(s, s') && forall c :: Ages(c) ==> WeightOf(InForce(weights), c) >= 0
    ensures ScoreOf(ticket, s, weights, t) <= ScoreOf(ticket, s', weights, t)
  {
    TotalMonotone(COMPONENTS, ticket, s, s', InForce(weights), t);
    RoundMonotone(Clamp(Total(COMPONENTS, ticket, s, InForce(weights), t)),
                  Clamp(Total(COMPONENTS, ticket, s', InForce(weights), t)));
  }

  // -- from the history to the score -----------------------------------------------------

  lemma {:induction false} FollowupsAge(facts: Facts, timeline: seq<Event>, hint: string -> bool,
                                        parse: string -> Option<int>, now: int, now': int)
    requires now <= now'
    ensures Later(Extract(facts, timeline, hint, parse, now), Extract(facts, timeline, hint, parse, now'))
  {
    var start, start' := OpenedAt(facts, parse, now), OpenedAt(facts, parse, now');
    AgesGrow(start, start', now, now');
    var agent_at := LastDated(timeline, AgentAction, parse);
    AgesGrow(GetOr(agent_at, start), GetOr(agent_at, start'), now, now');
    var last := LastDated(Actions(timeline), FollowedUp(hint, parse), parse);
    if last.Some? {
      DaysMonotone(now, now', last.value, last.value);
    }
  }

  /** A start that is unknown moves with the clock; a known one stays. */
  lemma {:induction false} AgesGrow(start: int, start': int, now: int, now': int)
    requires now <= now' && (start' == start || (start == now && start' == now'))
    ensures 0.0 <= DaysBetween(now, start) <= DaysBetween(now', start')
  {
    if start' == start {
      DaysMonotone(now, now', start, start);
    }
  }

  /** An untouched ticket only climbs: with the same ticket, history and service
      levels, the score never falls as the clock advances, whatever the
      thresholds, as long as the four weights that watch the clock are not
      negative. */
  lemma {:induction false} AnUntouchedTicketOnlyClimbs(
      facts: Facts, history: seq<HistoryEvent>, hint: string -> bool, parse: string -> Option<int>,
      now: int, now': int, weights: Weights)
    requires now <= now' && forall c :: Ages(c) ==> WeightOf(InForce(weights), c) >= 0
    ensures ScoreOf(facts.ticket, ExtractSignals(facts, history, hint, parse, now), weights, facts.thresholds)
         <= ScoreOf(facts.ticket, ExtractSignals(facts, history, hint, parse, now'), weights, facts.thresholds)
  {
    FollowupsAge(facts, Timeline(history, ReaderOf(facts)), hint, parse, now, now');
    LaterMonotone(facts.ticket, ExtractSignals(facts, history, hint, parse, now),
                  ExtractSignals(facts, history, hint, parse, now'), weights, facts.thresholds);
  }

  lemma {:induction false} SevenPoints(ticket: Ticket, s: Signals, w: Weights, t: Thresholds)
    ensures Total(COMPONENTS, ticket, s, w, t) ==
      Contribution(SlaRiskOf(s), WeightOf(w, SlaRisk))
      + Contribution(InactivityOf(s, t), WeightOf(w, InactivityDuration))
      + Contribution(AgeOf(s, t), WeightOf(w, TicketAge))
      + Contribution(PriorityOf(ticket), WeightOf(w, BusinessPriority))
      + Contribution(ReassignmentOf(ticket), WeightOf(w, ReassignmentActivity))
      + Contribution(UnactionedOf(s), WeightOf(w, UnactionedDelay))
      + Contribution(OverrunOf(s), WeightOf(w, DurationOverrun))
  {
    var cs := COMPONENTS;
    assert cs[..6][..5] == cs[..5] && cs[..5][..4] == cs[..4] && cs[..4][..3] == cs[..3];
    assert cs[..3][..2] == cs[..2] && cs[..2][..1] == cs[..1] && cs[..1][..0] == [];
    assert Total(cs[..1], ticket, s, w, t) == Contribution(Raw(SlaRisk, ticket, s, t), WeightOf(w, SlaRisk));
    assert Total(cs[..2], ticket, s, w, t)
        == Total(cs[..1], ticket, s, w, t)
           + Contribution(Raw(InactivityDuration, ticket, s, t), WeightOf(w, InactivityDuration));
    assert Total(cs[..3], ticket, s, w, t)
        == Total(cs[..2], ticket, s, w, t) + Contribution(Raw(TicketAge, ticket, s, t), WeightOf(w, TicketAge));
    assert Total(cs[..4], ticket, s, w, t)
        == Total(cs[..3], ticket, s, w, t)
           + Contribution(Raw(BusinessPriority, ticket, s, t), WeightOf(w, BusinessPriority));
    assert Total(cs[..5], ticket, s, w, t)
        == Total(cs[..4], ticket, s, w, t)
           + Contribution(Raw(ReassignmentActivity, ticket, s, t), WeightOf(w, ReassignmentActivity));
    assert Total(cs[..6], ticket, s, w, t)
        == Total(cs[..5], ticket, s, w, t)
           + Contribution(Raw(UnactionedDelay, ticket, s, t), WeightOf(w, UnactionedDelay));
  }

  // -- the condition on the weights is the right one ------------------------------------

  // One ticket, asked about once when it was opened and left alone since. Ten
  // days and twenty days later, three of the four components that watch the
  // clock say the same and the fourth says more; which one is a matter of the
  // thresholds and of how long such tickets take.

  const ASKED: HistoryEvent := HistoryEvent("comments", "a", "", "?", "")

  function Watched(c: Component): Facts {
    var none := Thresholds(None, None, None, None, None, None);
    Facts(
      Ticket("", "", "awaiting caller", "", "", "", 0, 0), SlaSummary(false, None, None, false), None, None,
      false, false, if c.DurationOverrun? then Some(360.0) else None, [],
      match c
      case InactivityDuration => none.(prolonged_inactivity_days := Some(20.0))
      case TicketAge => none.(aged_after_days := Some(10.0))
      case UnactionedDelay => none.(closure_silence_days := Some(15.0), closure_followup_count := Some(1.0))
      case _ => none)
  }

  function AtNoon(when: string): Option<int> { Some(0) }

  function Asks(text: string): bool { true }

  function After(c: Component, days: nat): Signals {
    ExtractSignals(Watched(c), [ASKED], Asks, AtNoon, days * 86400)
  }

  const QUESTION: Event := Event("", "a", Agent, "comments", "customer comment", "?", "", "?", true)

  lemma {:induction false} LowerAlready(s: string)
    requires forall x :: x in s ==> !('A' <= x <= 'Z')
    ensures Lower(s) == s
  {
    if s != "" {
      assert s[0] in s;
      assert forall x :: x in s[1..] ==> x in s;
      LowerAlready(s[1..]);
      assert s == [s[0]] + s[1..];
    }
  }

  lemma {:induction false} CleanAlready(s: string)
    requires Trimmed(s) && forall x :: x in s ==> !('A' <= x <= 'Z')
    ensures Strip(s) == s && Lower(s) == s
  {
    LowerAlready(s);
  }

  lemma {:induction false} AskedByAgent(who: Reader)
    requires who == Reader("", [])
    ensures ClassifyActor("a", who) == Agent
  {
    CleanAlready("a");
    assert !EndsWith("a", ".rest") && !("system" <= "a");
  }

  lemma {:induction false} CommentIsRead(h: HistoryEvent, who: Reader)
    requires Lower(Strip(h.field)) == "comments" && Strip(h.user_name) != "" && Strip(h.new_) != ""
    ensures Read(h, who) == Some(Event(h.update_time, Strip(h.user_name), ClassifyActor(Strip(h.user_name), who),
                                       "comments", "customer comment", Strip(h.new_), "", Strip(h.new_), true))
  {
    assert "comments" in AGENT_ACTION_FIELDS && "comments" in CUSTOMER_VISIBLE_FIELDS;
    assert "comments" !in SYSTEM_NOISE_FIELDS;
  }

  lemma {:induction false} AskedIsClean()
    ensures Lower(Strip("comments")) == "comments" && Strip("a") == "a" && Strip("?") == "?"
  {
    CleanAlready("comments");
    CleanAlready("a");
    CleanAlready("?");
  }

  lemma {:induction false} AskedIsRead(h: HistoryEvent, who: Reader)
    requires h == ASKED && who == Reader("", [])
    ensures Read(h, who) == Some(QUESTION)
  {
    AskedIsClean();
    AskedByAgent(who);
    CommentIsRead(h, who);
  }

  lemma {:induction false} OneEntry(who: Reader)
    requires who == Reader("", [])
    ensures Timeline([ASKED], who) == [QUESTION]
  {
    AskedIsRead(ASKED, who);
    assert [ASKED][..0] == [];
    assert Readings([ASKED], who) == [] + [QUESTION] == [QUESTION];
    assert [QUESTION][1..] == [] && SortByWhen([]) == [];
    assert InsertByWhen(QUESTION, []) == [QUESTION] + [] == [QUESTION];
  }

  lemma {:induction false} FirstRule(rules: seq<(string, string)>, reason: string)
    requires rules != [] && rules[0].0 == reason
    ensures FirstOwner(rules, reason) == Some(rules[0].1)
  {
    assert Contains(reason, reason);
  }

  lemma {:induction false} CallerIsAwaited(ticket: Ticket, actions: seq<Event>)
    requires Lower(Strip(ticket.hold_reason)) == HOLD_REASON_BLOCKER[0].0
    ensures PendingActionOwner(ticket, actions, false, false) == "CALLER"
  {
    FirstRule(HOLD_REASON_BLOCKER, HOLD_REASON_BLOCKER[0].0);
  }

  lemma {:induction false} WholeDays(days: nat)
    ensures DaysBetween(days * 86400, 0) == days as real
  {
    RoundOfWhole(days * 100);
    assert (days * 86400) as real / 86400.0 * 100.0 == (days * 100) as real;
  }

  /** What the signals of the ticket are, so many days later. */
  ghost predicate Looks(facts: Facts, s: Signals, days: nat) {
    && s.age_days == s.idle_days == days as real
    && !s.caller_replied_unanswered && !s.dependency_resolved && s.last_agent_action_at == Some(0)
    && s.auto_close_candidate == (1.0 >= GetOr(facts.thresholds.closure_followup_count, 3.0)
                                  && days as real >= GetOr(facts.thresholds.closure_silence_days, 5.0))
    && s.sla_breached == facts.sla.sla_breached && s.sla_pct_consumed == facts.sla.sla_pct_consumed
    && s.sla_time_left_mins == facts.sla.sla_time_left_mins && s.vendor_sla_breached == facts.sla.vendor_sla_breached
    && s.expected_resolution_hours == facts.p90_hours && s.duration_overrun == Overran(s)
  }

  lemma {:induction false} OneFollowUp(p: Event -> bool)
    requires p(QUESTION)
    ensures Actions([QUESTION]) == [QUESTION] && Count([QUESTION], p) == 1
    ensures LastDated([QUESTION], p, AtNoon) == Some(0)
  {
    assert [QUESTION][1..] == [] && [QUESTION][..0] == [];
    assert Count<Event>([], p) == 0;
  }

  lemma {:induction false} OneQuestion(facts: Facts, days: nat)
    requires Lower(Strip(facts.ticket.hold_reason)) == HOLD_REASON_BLOCKER[0].0
    requires facts.change_record.None? && facts.problem_record.None?
    ensures Looks(facts, Extract(facts, [QUESTION], Asks, AtNoon, days * 86400), days)
  {
    WholeDays(days);
    var counted := e => Counted(e, Asks, AtNoon, None);
    OneFollowUp(counted);
    OneFollowUp(AgentAction);
    CallerIsAwaited(facts.ticket, [QUESTION]);
    assert [QUESTION][..0] == [];
    assert LastDated([QUESTION], CallerActivity, AtNoon) == None;
    assert Dependency(facts) == None;
  }

  lemma {:induction false} SignalsOf(facts: Facts, history: seq<HistoryEvent>, days: nat)
    requires Timeline(history, ReaderOf(facts)) == [QUESTION]
    requires Lower(Strip(facts.ticket.hold_reason)) == HOLD_REASON_BLOCKER[0].0
    requires facts.change_record.None? && facts.problem_record.None?
    ensures Looks(facts, ExtractSignals(facts, history, Asks, AtNoon, days * 86400), days)
  {
    OneQuestion(facts, days);
  }

  lemma {:induction false} CallerIsClean()
    ensures Lower(Strip("awaiting caller")) == "awaiting caller"
  {
    CleanAlready("awaiting caller");
  }

  lemma {:induction false} SignalsAfter(c: Component, days: nat)
    ensures Looks(Watched(c), After(c, days), days)
  {
    var facts := Watched(c);
    OneEntry(ReaderOf(facts));
    CallerIsClean();
    SignalsOf(facts, [ASKED], days);
  }

  lemma {:induction false} OnlyOneMoves(c: Component, d: Component, s: Signals, s': Signals)
    requires Ages(c) && Looks(Watched(c), s, 10) && Looks(Watched(c), s', 20)
    ensures var raw, raw' := Raw(d, Watched(c).ticket, s, Watched(c).thresholds),
                             Raw(d, Watched(c).ticket, s', Watched(c).thresholds);
            if d == c then raw < raw' else raw == raw'
  {
    match d
    case InactivityDuration =>
      assert 10.0 / 4.0 == 2.5 && 20.0 / 4.0 == 5.0 && 10.0 / 20.0 == 0.5 && 20.0 / 20.0 == 1.0;
    case TicketAge =>
      assert 5.0 / 5.0 == 1.0 && 15.0 / 5.0 == 3.0 && 10.0 / 10.0 == 1.0;
    case DurationOverrun =>
      assert 480.0 / 360.0 > 1.0;
    case _ =>
  }

  lemma {:induction false} OneTermDiffers(cs: seq<Component>, c: Component, ticket: Ticket, s: Signals, s': Signals,
                                          weights: Weights, t: Thresholds)
    requires forall d: Component :: d != c ==> Raw(d, ticket, s', t) == Raw(d, ticket, s, t)
    requires WeightOf(weights, c) < 0 && Raw(c, ticket, s', t) > Raw(c, ticket, s, t)
    ensures Total(cs, ticket, s', weights, t) <= Total(cs, ticket, s, weights, t)
    ensures c in cs ==> Total(cs, ticket, s', weights, t) < Total(cs, ticket, s, weights, t)
  {
    if cs != [] {
      var front, last := cs[..|cs| - 1], cs[|cs| - 1];
      assert cs == front + [last];
      OneTermDiffers(front, c, ticket, s, s', weights, t);
      if last == c {
        Falls(Raw(c, ticket, s, t), Raw(c, ticket, s', t), WeightOf(weights, c));
      }
    }
  }

  lemma {:induction false} Falls(a: real, b: real, weight: int)
    requires a < b && weight < 0
    ensures Contribution(b, weight) < Contribution(a, weight)
  {
    var w := weight as real;
    assert (b - a) * w < 0.0;
    assert (b - a) * w == b * w - a * w;
  }

  lemma {:induction false} AnUntouchedTicketSinks(weights: Weights, c: Component)
    requires Ages(c) && WeightOf(weights, c) < 0
    ensures Total(COMPONENTS, Watched(c).ticket, After(c, 20), weights, Watched(c).thresholds)
              < Total(COMPONENTS, Watched(c).ticket, After(c, 10), weights, Watched(c).thresholds)
  {
    var ticket, t, s, s' := Watched(c).ticket, Watched(c).thresholds, After(c, 10), After(c, 20);
    SignalsAfter(c, 10);
    SignalsAfter(c, 20);
    forall d: Component ensures d != c ==> Raw(d, ticket, s', t) == Raw(d, ticket, s, t) {
      OnlyOneMoves(c, d, s, s');
    }
    OnlyOneMoves(c, c, s, s');
    OneTermDiffers(COMPONENTS, c, ticket, s, s', weights, t);
  }

  /** The points of a ticket before clamping and rounding, from its history. */
  function TotalAt(facts: Facts, history: seq<HistoryEvent>, hint: string -> bool, parse: string -> Option<int>,
                   weights: Weights, now: int): real {
    Total(COMPONENTS, facts.ticket, ExtractSignals(facts, history, hint, parse, now), weights, facts.thresholds)
  }

  lemma {:induction false} TotalSinks(weights: Weights, c: Component)
    requires Ages(c) && WeightOf(weights, c) < 0
    ensures TotalAt(Watched(c), [ASKED], Asks, AtNoon, weights, 20 * 86400)
          < TotalAt(Watched(c), [ASKED], Asks, AtNoon, weights, 10 * 86400)
  {
    AnUntouchedTicketSinks(weights, c);
  }

  lemma {:induction false} TotalOnlyClimbs(facts: Facts, history: seq<HistoryEvent>, hint: string -> bool,
                                           parse: string -> Option<int>, weights: Weights, now: int, now': int)
    requires now <= now' && forall c :: Ages(c) ==> WeightOf(weights, c) >= 0
    ensures TotalAt(facts, history, hint, parse, weights, now) <= TotalAt(facts, history, hint, parse, weights, now')
  {
    FollowupsAge(facts, Timeline(history, ReaderOf(facts)), hint, parse, now, now');
    TotalMonotone(COMPONENTS, facts.ticket, ExtractSignals(facts, history, hint, parse, now),
                  ExtractSignals(facts, history, hint, parse, now'), weights, facts.thresholds);
  }

  /** No untouched ticket whatever loses points by the passage of time. */
  ghost predicate NeverSinks(weights: Weights) {
    forall facts, history, hint, parse, now, now' :: now <= now' ==>
      TotalAt(facts, history, hint, parse, weights, now) <= TotalAt(facts, history, hint, parse, weights, now')
  }

  lemma {:induction false} ClimbsWithThem(weights: Weights)
    requires forall c :: Ages(c) ==> WeightOf(weights, c) >= 0
    ensures NeverSinks(weights)
  {
    forall facts, history, hint, parse, now, now' | now <= now'
      ensures TotalAt(facts, history, hint, parse, weights, now)
           <= TotalAt(facts, history, hint, parse, weights, now')
    {
      TotalOnlyClimbs(facts, history, hint, parse, weights, now, now');
    }
  }

  lemma {:induction false} SinksBetween(facts: Facts, history: seq<HistoryEvent>, hint: string -> bool,
                                        parse: string -> Option<int>, weights: Weights, now: int, now': int)
    requires now <= now'
    requires TotalAt(facts, history, hint, parse, weights, now') < TotalAt(facts, history, hint, parse, weights, now)
    ensures !NeverSinks(weights)
  {
  }

  lemma {:induction false} SinksWithout(weights: Weights, c: Component)
    requires Ages(c) && WeightOf(weights, c) < 0
    ensures !NeverSinks(weights)
  {
    TotalSinks(weights, c);
    SinksBetween(Watched(c), [ASKED], Asks, AtNoon, weights, 10 * 86400, 20 * 86400);
  }

  /** Before clamping and rounding, that is so exactly when none of the four
      weights that watch the clock is negative. */
  lemma {:induction false} TicketsOnlyClimbIff(weights: Weights)
    ensures NeverSinks(weights) <==> forall c :: Ages(c) ==> WeightOf(weights, c) >= 0
  {
    if forall c :: Ages(c) ==> WeightOf(weights, c) >= 0 {
      ClimbsWithThem(weights);
    } else {
      var c :| Ages(c) && WeightOf(weights, c) < 0;
      SinksWithout(weights, c);
    }
  }

  /** A table whose weights sum to 100, one of them negative. */
  const LOPSIDED: Weights := map[
    SlaRisk := 100, TicketAge := -10, BusinessPriority := 10,
    InactivityDuration := 0, ReassignmentActivity := 0, UnactionedDelay := 0, DurationOverrun := 0]

  lemma {:induction false} LopsidedTotal(ticket: Ticket, s: Signals, t: Thresholds)
    requires s.sla_breached && FirstDigit(ticket.priority) == Some('5')
    ensures Total(COMPONENTS, ticket, s, LOPSIDED, t) == 101.0 - AgeOf(s, t) / 10.0
  {
    SevenPoints(ticket, s, LOPSIDED, t);
    var age := AgeOf(s, t);
    assert WeightOf(LOPSIDED, TicketAge) == -10;
    assert Contribution(age, -10) == -age / 10.0;
    assert Contribution(SlaRiskOf(s), 100) == 100.0 && Contribution(PriorityOf(ticket), 10) == 1.0;
  }

  lemma {:induction false} LopsidedScore(ticket: Ticket, s: Signals, t: Thresholds)
    requires s.sla_breached && FirstDigit(ticket.priority) == Some('5') && t.aged_after_days == None
    ensures s.age_days == 0.0 ==> ScoreOf(ticket, s, LOPSIDED, t) == 100
    ensures s.age_days == 10.0 ==> ScoreOf(ticket, s, LOPSIDED, t) == 91
  {
    assert SlaRisk in LOPSIDED;
    assert InForce(LOPSIDED) == LOPSIDED;
    LopsidedTotal(ticket, s, t);
    assert s.age_days == 0.0 ==> AgeOf(s, t) == 0.0;
    assert s.age_days == 10.0 ==> AgeOf(s, t) == 100.0;
    RoundOfWhole(100);
    RoundOfWhole(91);
  }

  lemma {:induction false} TenDays(start: int)
    ensures DaysBetween(start, start) == 0.0 && DaysBetween(start + 864000, start) == 10.0
  {
    RoundOfWhole(0);
    RoundOfWhole(1000);
    assert 864000.0 / 86400.0 * 100.0 == 1000.0;
  }

  lemma {:induction false} LopsidedScoreAt(facts: Facts, history: seq<HistoryEvent>, hint: string -> bool,
                                           parse: string -> Option<int>, now: int)
    requires facts.sla.sla_breached && FirstDigit(facts.ticket.priority) == Some('5')
    requires facts.thresholds.aged_after_days == None && parse(facts.ticket.opened_at).Some?
    ensures var s := ExtractSignals(facts, history, hint, parse, now);
            var age := DaysBetween(now, parse(facts.ticket.opened_at).value);
            && (age == 0.0 ==> ScoreOf(facts.ticket, s, LOPSIDED, facts.thresholds) == 100)
            && (age == 10.0 ==> ScoreOf(facts.ticket, s, LOPSIDED, facts.thresholds) == 91)
  {
    LopsidedScore(facts.ticket, ExtractSignals(facts, history, hint, parse, now), facts.thresholds);
  }

  /** Such a table is accepted, and under it every breached ticket of the lowest
      priority, whatever its history, sinks from 100 points to 91 in the first
      ten days of its life. */
  lemma {:induction false} NegativeWeightsLetTicketsSink(
      facts: Facts, history: seq<HistoryEvent>, hint: string -> bool, parse: string -> Option<int>, start: int)
    requires facts.sla.sla_breached && FirstDigit(facts.ticket.priority) == Some('5')
    requires facts.thresholds.aged_after_days == None && parse(facts.ticket.opened_at) == Some(start)
    ensures TotalWeight(LOPSIDED) == 100
    ensures ScoreOf(facts.ticket, ExtractSignals(facts, history, hint, parse, start), LOPSIDED, facts.thresholds) == 100
    ensures ScoreOf(facts.ticket, ExtractSignals(facts, history, hint, parse, start + 864000), LOPSIDED,
                    facts.thresholds)
         == 91
  {
    SevenTerms(LOPSIDED);
    TenDays(start);
    LopsidedScoreAt(facts, history, hint, parse, start);
    LopsidedScoreAt(facts, history, hint, parse, start + 864000);
  }
}
