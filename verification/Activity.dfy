/** web/activity.py: a flat audit trail, one event per changed field, folded into
    one card per save. What must survive the folding is the meaning of the
    trail: where every field ends up, and every word anybody wrote. */
module Activity {
  import opened Text
  import opened Queues

  datatype Kind = FieldChanges | Comment | WorkNote

  const HIDDEN_FIELDS: set<string> := {"description"}

  /** One timeline entry. Absent values are "". */
  datatype Event = Event(field: string, when: string, actor: string, role: string,
                         old_: string, new_: string, text: string)

  datatype Change = Change(field: string, value: string, previous: string)

  datatype Card = Card(kind: Kind, when: string, actor: string, role: string, changes: seq<Change>, text: string)

  function Field(e: Event): string { Lower(Strip(e.field)) }

  function CardKind(field: string): Kind {
    if field in {"comments", "additional_comments"} then Comment
    else if field == "work_notes" then WorkNote
    else FieldChanges
  }

  function KindOf(e: Event): Kind { CardKind(Field(e)) }

  predicate Hidden(e: Event) {
    KindOf(e) == FieldChanges && Field(e) in HIDDEN_FIELDS
  }

  function Actor(e: Event): string { if e.actor == "" then "system" else e.actor }

  function Old(e: Event): string { Strip(e.old_) }

  function New(e: Event): string { Strip(e.new_) }

  // -- labels, which only order the rows of a card ----------------------------

  const FIELD_LABELS: map<string, string> := map[
    "assigned_to" := "Assigned to", "assignment_group" := "Assignment group",
    "business_service" := "Service", "caller_id" := "Caller", "category" := "Category",
    "close_code" := "Resolution code", "close_notes" := "Resolution notes",
    "closed_at" := "Closed", "closed_by" := "Closed by", "cmdb_ci" := "Configuration item",
    "contact_type" := "Contact type", "follow_up" := "Follow up", "hold_reason" := "On hold reason",
    "impact" := "Impact", "location" := "Location", "opened_at" := "Opened",
    "parent_incident" := "Parent incident", "priority" := "Priority", "problem_id" := "Problem",
    "reassignment_count" := "Reassignment count", "reopen_count" := "Reopen count",
    "resolved_at" := "Resolved", "resolved_by" := "Resolved by", "rfc" := "Change Request",
    "severity" := "Severity", "short_description" := "Short description", "state" := "State",
    "subcategory" := "Subcategory", "u_assigned_region" := "Assigned Region", "urgency" := "Urgency"]

  function Spaced(s: string): string {
    if s == "" then "" else [if s[0] == '_' then ' ' else s[0]] + Spaced(s[1..])
  }

  /** The sort key of a row, in lower case, where the first letter's own case
      does not matter. `field` is already trimmed and in lower case. */
  function LabelKey(field: string): string {
    if field == "" then "field"
    else if field in FIELD_LABELS then Lower(FIELD_LABELS[field])
    else
      var cleaned := Strip(Spaced(if "u_" <= field then field[2..] else field));
      if cleaned == "" then "field" else Lower(cleaned)
  }

  /** A field without a label of its own goes by its name, without "u_" and with
      blanks for underscores. */
  lemma {:induction false} LabelKeyIs(field: string)
    requires field !in FIELD_LABELS && field != ""
    ensures var name := Strip(Spaced(if |field| >= 2 && field[0] == 'u' && field[1] == '_' then field[2..] else field));
            LabelKey(field) == if name == "" then "field" else Lower(name)
    ensures forall s :: |Spaced(s)| == |s|
    ensures forall s, i :: 0 <= i < |s| ==> Spaced(s)[i] == if s[i] == '_' then ' ' else s[i]
  {
    assert "u_" <= field <==> |field| >= 2 && field[..2] == "u_";
    forall s ensures |Spaced(s)| == |s| {
      SpacedIs(s);
    }
    forall s, i | 0 <= i < |s| ensures Spaced(s)[i] == if s[i] == '_' then ' ' else s[i] {
      SpacedIs(s);
    }
  }

  lemma {:induction false} SpacedIs(s: string)
    ensures |Spaced(s)| == |s| && forall i :: 0 <= i < |s| ==> Spaced(s)[i] == if s[i] == '_' then ' ' else s[i]
  {
    if s != "" {
      SpacedIs(s[1..]);
    }
  }

  function InsertChange(c: Change, cs: seq<Change>): seq<Change> {
    if cs == [] || LexLe(LabelKey(c.field), LabelKey(cs[0].field)) then [c] + cs
    else [cs[0]] + InsertChange(c, cs[1..])
  }

  /** A stable sort by label. */
  function SortChanges(cs: seq<Change>): seq<Change> {
    if cs == [] then [] else InsertChange(cs[0], SortChanges(cs[1..]))
  }

  // -- saves --------------------------------------------------------------------

  /** The events of one card, in order. */
  type Save = seq<Event>

  predicate Mergeable(s: Save, e: Event) {
    && s != [] && KindOf(e) == FieldChanges && KindOf(s[0]) == FieldChanges
    && s[0].when == e.when && Actor(s[0]) == Actor(e)
  }

  function Absorb(saves: seq<Save>, e: Event): seq<Save> {
    if Hidden(e) then saves
    else if saves != [] && Mergeable(saves[|saves| - 1], e)
    then saves[|saves| - 1 := saves[|saves| - 1] + [e]]
    else saves + [[e]]
  }

  function Saves(timeline: seq<Event>): seq<Save> {
    if timeline == [] then [] else Absorb(Saves(timeline[..|timeline| - 1]), timeline[|timeline| - 1])
  }

  // -- one card ------------------------------------------------------------------

  function Find(rows: seq<Change>, f: string): int {
    if rows == [] then -1
    else if rows[|rows| - 1].field == f then |rows| - 1
    else Find(rows[..|rows| - 1], f)
  }

  /** A second history line for a field updates its row: oldest before, newest
      after, a blank before giving way to the first known one. */
  function MergeRow(rows: seq<Change>, e: Event): (r: seq<Change>) {
    var i := Find(rows, Field(e));
    FindFacts(rows, Field(e));
    if i < 0 then rows + [Change(Field(e), New(e), Old(e))]
    else rows[i := Change(Field(e), New(e), if rows[i].previous == "" then Old(e) else rows[i].previous)]
  }

  lemma {:induction false} FindFacts(rows: seq<Change>, f: string)
    ensures -1 <= Find(rows, f) < |rows|
    ensures Find(rows, f) >= 0 ==> rows[Find(rows, f)].field == f
    ensures Find(rows, f) < 0 ==> forall k :: 0 <= k < |rows| ==> rows[k].field != f
  {
    if rows != [] {
      FindFacts(rows[..|rows| - 1], f);
    }
  }

  function Rows(s: Save): seq<Change> {
    if s == [] then [] else MergeRow(Rows(s[..|s| - 1]), s[|s| - 1])
  }

  /** The card while it is being built, before no-ops are dropped. */
  function RawCard(s: Save): Card
    requires s != []
  {
    var e := s[0];
    Card(KindOf(e), e.when, Actor(e), if e.role == "" then "SYSTEM" else e.role,
         if KindOf(e) == FieldChanges then Rows(s) else [],
         if KindOf(e) == FieldChanges then "" else e.text)
  }

  function NetChanges(rows: seq<Change>): seq<Change> {
    if rows == [] then []
    else (if rows[0].value != rows[0].previous then [rows[0]] else []) + NetChanges(rows[1..])
  }

  function Tidy(c: Card): Card {
    c.(changes := SortChanges(NetChanges(c.changes)))
  }

  predicate SaysSomething(c: Card) {
    c.kind != FieldChanges || c.changes != []
  }

  function Shown(cards: seq<Card>): seq<Card> {
    if cards == [] then []
    else
      var rest := Shown(cards[..|cards| - 1]);
      var c := Tidy(cards[|cards| - 1]);
      if SaysSomething(c) then rest + [c] else rest
  }

  function Reversed(cards: seq<Card>): seq<Card> {
    if cards == [] then [] else Reversed(cards[1..]) + [cards[0]]
  }

  ghost predicate Nonempty(saves: seq<Save>) {
    forall i :: 0 <= i < |saves| ==> saves[i] != []
  }

  ghost function RawCards(saves: seq<Save>): (r: seq<Card>)
    requires Nonempty(saves)
    ensures |r| == |saves| && forall i :: 0 <= i < |r| ==> r[i] == RawCard(saves[i])
  {
    seq(|saves|, i requires 0 <= i < |saves| => RawCard(saves[i]))
  }

  lemma {:induction false} SavesAreNonempty(timeline: seq<Event>)
    ensures Nonempty(Saves(timeline))
  {
    if timeline != [] {
      SavesAreNonempty(timeline[..|timeline| - 1]);
    }
  }

  /** The whole page, oldest first and without a limit. */
  ghost function Page(timeline: seq<Event>): seq<Card> {
    SavesAreNonempty(timeline);
    Shown(RawCards(Saves(timeline)))
  }

  function Limited(cards: seq<Card>, limit: nat): seq<Card> {
    if limit == 0 || limit >= |cards| then cards else cards[..limit]
  }

  function FirstCard(e: Event): Card {
    Card(KindOf(e), e.when, Actor(e), if e.role == "" then "SYSTEM" else e.role,
         if KindOf(e) == FieldChanges then [Change(Field(e), New(e), Old(e))] else [],
         if KindOf(e) == FieldChanges then "" else e.text)
  }

  lemma {:induction false} OneEventCard(e: Event)
    ensures RawCard([e]) == FirstCard(e)
  {
    assert [e][..0] == [];
    assert Rows([e]) == MergeRow([], e);
  }

  /** One turn of the loop, on the cards and on the saves they stand for. */
  lemma {:induction false} AbsorbedCards(saves: seq<Save>, e: Event)
    requires Nonempty(saves)
    ensures Nonempty(Absorb(saves, e))
    ensures RawCards(Absorb(saves, e)) == AbsorbCard(RawCards(saves), e)
  {
    if Hidden(e) {
    } else if saves != [] && Mergeable(saves[|saves| - 1], e) {
      MergedCards(saves, e);
    } else {
      OneEventCard(e);
      RawCardsSnoc(saves, [e]);
    }
  }

  lemma {:induction false} MergedCards(saves: seq<Save>, e: Event)
    requires Nonempty(saves) && saves != [] && !Hidden(e) && Mergeable(saves[|saves| - 1], e)
    ensures Nonempty(Absorb(saves, e))
    ensures RawCards(Absorb(saves, e)) == AbsorbCard(RawCards(saves), e)
  {
  }

  predicate Joins(c: Card, e: Event) {
    KindOf(e) == FieldChanges && c.kind == FieldChanges && c.when == e.when && c.actor == Actor(e)
  }

  function AbsorbCard(groups: seq<Card>, e: Event): seq<Card> {
    if Hidden(e) then groups
    else if groups != [] && Joins(groups[|groups| - 1], e)
    then groups[|groups| - 1 := groups[|groups| - 1].(changes := MergeRow(groups[|groups| - 1].changes, e))]
    else groups + [FirstCard(e)]
  }

  lemma {:induction false} RawCardsSnoc(saves: seq<Save>, s: Save)
    requires Nonempty(saves) && s != []
    ensures Nonempty(saves + [s]) && RawCards(saves + [s]) == RawCards(saves) + [RawCard(s)]
  {
  }

  // -- the loop ---------------------------------------------------------------------

  method GroupActivity(timeline: seq<Event>, limit: nat) returns (cards: seq<Card>)
    ensures cards == Limited(Reversed(Page(timeline)), limit)
    // The newest cards there are, as many as the limit allows, newest first.
    ensures |cards| == if limit == 0 || limit > |Page(timeline)| then |Page(timeline)| else limit
    ensures forall i :: 0 <= i < |cards| ==> cards[i] == Page(timeline)[|Page(timeline)| - 1 - i]
  {
    var groups: seq<Card> := [];
    ghost var saves: seq<Save> := [];
    for n := 0 to |timeline|
      invariant saves == Saves(timeline[..n]) && Nonempty(saves) && groups == RawCards(saves)
    {
      var event := timeline[n];
      assert timeline[..n + 1][..n] == timeline[..n];
      AbsorbedCards(saves, event);
      saves := Absorb(saves, event);
      var field := Field(event);
      var kind := CardKind(field);
      if kind == FieldChanges && field in HIDDEN_FIELDS {
        continue;
      }
      var last := |groups| - 1;
      if kind == FieldChanges && last >= 0 && groups[last].kind == FieldChanges
         && groups[last].when == event.when && groups[last].actor == Actor(event) {
        var rows := groups[last].changes;
        var i := Find(rows, field);
        FindFacts(rows, field);
        if i >= 0 {
          var previous := if rows[i].previous == "" then Old(event) else rows[i].previous;
          rows := rows[i := Change(field, New(event), previous)];
        } else {
          rows := rows + [Change(field, New(event), Old(event))];
        }
        groups := groups[last := groups[last].(changes := rows)];
      } else {
        var current := Card(kind, event.when, Actor(event), if event.role == "" then "SYSTEM" else event.role, [], "");
        if kind == FieldChanges {
          current := current.(changes := [Change(field, New(event), Old(event))]);
        } else {
          current := current.(text := event.text);
        }
        groups := groups + [current];
      }
    }
    assert timeline[..|timeline|] == timeline;
    cards := Limited(Reversed(Shown(groups)), limit);
    NewestAreKept(Page(timeline), limit);
  }

  // ---------------------------------------------------------------------
  // what a row of a card means
  // ---------------------------------------------------------------------

  ghost predicate Touches(s: Save, f: string) {
    exists i :: 0 <= i < |s| && Field(s[i]) == f
  }

  /** The newest value a save gives a field. */
  function LastNew(s: Save, f: string): string {
    if s == [] then ""
    else if Field(s[|s| - 1]) == f then New(s[|s| - 1])
    else LastNew(s[..|s| - 1], f)
  }

  /** What the field held before the save, as its first line says. */
  function FirstOld(s: Save, f: string): string {
    if s == [] then ""
    else if Field(s[0]) == f then Old(s[0])
    else FirstOld(s[1..], f)
  }

  /** The first old value that is not blank. */
  function FirstKnownOld(s: Save, f: string): string {
    if s == [] then ""
    else
      var known := FirstKnownOld(s[..|s| - 1], f);
      if known == "" && Field(s[|s| - 1]) == f then Old(s[|s| - 1]) else known
  }

  ghost predicate FieldsDistinct(rows: seq<Change>) {
    forall i, j :: 0 <= i < j < |rows| ==> rows[i].field != rows[j].field
  }

  lemma {:induction false} TouchesSnoc(s: Save, e: Event, f: string)
    ensures Touches(s + [e], f) <==> Touches(s, f) || Field(e) == f
  {
    if Touches(s, f) {
      var k :| 0 <= k < |s| && Field(s[k]) == f;
      assert (s + [e])[k] == s[k];
    }
    if Field(e) == f {
      assert (s + [e])[|s|] == e;
    }
  }

  ghost predicate HasRow(rows: seq<Change>, f: string) {
    exists i :: 0 <= i < |rows| && rows[i].field == f
  }

  lemma {:induction false} MergeKeepsDistinct(rows: seq<Change>, e: Event)
    requires FieldsDistinct(rows)
    ensures FieldsDistinct(MergeRow(rows, e))
  {
    FindFacts(rows, Field(e));
  }

  lemma {:induction false} MergedHasRow(rows: seq<Change>, e: Event, f: string)
    ensures HasRow(MergeRow(rows, e), f) <==> HasRow(rows, f) || Field(e) == f
  {
    FindFacts(rows, Field(e));
    var merged, i := MergeRow(rows, e), Find(rows, Field(e));
    assert merged[if i < 0 then |rows| else i].field == Field(e);
    if HasRow(rows, f) {
      var k :| 0 <= k < |rows| && rows[k].field == f;
      assert merged[k].field == f;
    }
    if HasRow(merged, f) && f != Field(e) {
      var k :| 0 <= k < |merged| && merged[k].field == f;
      assert rows[k].field == f;
    }
  }

  /** What merging an event does to the rows: every other one stays, and the
      event's own takes its value and keeps the first known previous one. */
  lemma {:induction false} MergedRowsAre(rows: seq<Change>, e: Event, c: Change)
    requires FieldsDistinct(rows) && c in MergeRow(rows, e)
    ensures c.field != Field(e) ==> c in rows
    ensures c.field == Field(e) && !HasRow(rows, Field(e)) ==> c == Change(Field(e), New(e), Old(e))
    ensures c.field == Field(e) && HasRow(rows, Field(e)) ==>
      var i := Find(rows, Field(e));
      && 0 <= i < |rows| && rows[i].field == Field(e)
      && c == Change(Field(e), New(e), if rows[i].previous == "" then Old(e) else rows[i].previous)
  {
    FindFacts(rows, Field(e));
    var merged := MergeRow(rows, e);
    var k :| 0 <= k < |merged| && merged[k] == c;
    assert k < |rows| && c.field != Field(e) ==> merged[k] == rows[k];
  }

  lemma {:induction false} RowsTouched(s: Save, f: string)
    ensures FieldsDistinct(Rows(s)) && (HasRow(Rows(s), f) <==> Touches(s, f))
  {
    if s != [] {
      var front, e := s[..|s| - 1], s[|s| - 1];
      RowsTouched(front, f);
      assert s == front + [e];
      MergeKeepsDistinct(Rows(front), e);
      MergedHasRow(Rows(front), e, f);
      TouchesSnoc(front, e, f);
    }
  }

  /** One row per field touched: newest value, first known previous one. */
  lemma {:induction false} RowsMean(s: Save, c: Change)
    requires c in Rows(s)
    ensures Touches(s, c.field) && c.value == LastNew(s, c.field) && c.previous == FirstKnownOld(s, c.field)
  {
    RowsTouched(s, c.field);
    var k :| 0 <= k < |Rows(s)| && Rows(s)[k] == c;
    assert HasRow(Rows(s), c.field);
    if s != [] {
      var front, e := s[..|s| - 1], s[|s| - 1];
      var rows := Rows(front);
      RowsTouched(front, c.field);
      MergedRowsAre(rows, e, c);
      if c.field != Field(e) {
        RowsMean(front, c);
      } else if HasRow(rows, c.field) {
        var i := Find(rows, c.field);
        RowsMean(front, rows[i]);
      } else {
        NotTouched(front, c.field);
      }
    }
  }

  lemma {:induction false} NotTouched(s: Save, f: string)
    requires !Touches(s, f)
    ensures FirstKnownOld(s, f) == ""
  {
    if s != [] {
      assert Field(s[|s| - 1]) != f;
      assert !Touches(s[..|s| - 1], f);
      NotTouched(s[..|s| - 1], f);
    }
  }

  // ---------------------------------------------------------------------
  // replaying the trail, and replaying the cards
  // ---------------------------------------------------------------------

  /** What every field holds; one never mentioned is blank. */
  type Record = map<string, string>

  function Value(r: Record, f: string): string { if f in r then r[f] else "" }

  /** An edit the cards are meant to carry. */
  predicate IsEdit(e: Event) { KindOf(e) == FieldChanges && !Hidden(e) }

  function Replay(r: Record, events: seq<Event>): Record {
    if events == [] then r
    else
      var r', e := Replay(r, events[..|events| - 1]), events[|events| - 1];
      if IsEdit(e) then r'[Field(e) := New(e)] else r'
  }

  /** Each line's old value is what the field then held. */
  ghost predicate Consistent(r: Record, events: seq<Event>) {
    events == [] ||
    (var front, e := events[..|events| - 1], events[|events| - 1];
     Consistent(r, front) && (IsEdit(e) ==> Old(e) == Value(Replay(r, front), Field(e))))
  }

  function ReplayChanges(r: Record, cs: seq<Change>): Record {
    if cs == [] then r
    else ReplayChanges(r, cs[..|cs| - 1])[cs[|cs| - 1].field := cs[|cs| - 1].value]
  }

  /** The cards, oldest first. */
  function ReplayCards(r: Record, cards: seq<Card>): Record {
    if cards == [] then r
    else ReplayChanges(ReplayCards(r, cards[..|cards| - 1]), cards[|cards| - 1].changes)
  }

  function ReplaySaves(r: Record, saves: seq<Save>): Record {
    if saves == [] then r
    else Replay(ReplaySaves(r, saves[..|saves| - 1]), saves[|saves| - 1])
  }

  ghost predicate ConsistentSaves(r: Record, saves: seq<Save>) {
    saves == [] ||
    (var front := saves[..|saves| - 1];
     ConsistentSaves(r, front) && Consistent(ReplaySaves(r, front), saves[|saves| - 1]))
  }

  /** A save is one journal entry, or edits only. */
  ghost predicate Pure(s: Save) {
    s != [] && if KindOf(s[0]) == FieldChanges then forall i :: 0 <= i < |s| ==> IsEdit(s[i]) else |s| == 1
  }

  lemma {:induction false} SavesArePure(timeline: seq<Event>)
    ensures forall i :: 0 <= i < |Saves(timeline)| ==> Pure(Saves(timeline)[i])
  {
    if timeline != [] {
      SavesArePure(timeline[..|timeline| - 1]);
    }
  }

  lemma {:induction false} ReplayLonger(r: Record, s: seq<Event>, e: Event)
    ensures Replay(r, s + [e]) == if IsEdit(e) then Replay(r, s)[Field(e) := New(e)] else Replay(r, s)
    ensures Consistent(r, s + [e]) <==> Consistent(r, s) && (IsEdit(e) ==> Old(e) == Value(Replay(r, s), Field(e)))
  {
  }

  lemma {:induction false} AbsorbReplays(r: Record, saves: seq<Save>, e: Event)
    requires ConsistentSaves(r, saves)
    requires IsEdit(e) ==> Old(e) == Value(ReplaySaves(r, saves), Field(e))
    ensures var r' := ReplaySaves(r, saves);
            ReplaySaves(r, Absorb(saves, e)) == if IsEdit(e) then r'[Field(e) := New(e)] else r'
    ensures ConsistentSaves(r, Absorb(saves, e))
  {
    var after := Absorb(saves, e);
    if Hidden(e) {
    } else if saves != [] && Mergeable(saves[|saves| - 1], e) {
      var front, last := saves[..|saves| - 1], saves[|saves| - 1];
      assert after[..|after| - 1] == front;
      ReplayLonger(ReplaySaves(r, front), last, e);
    } else {
      assert after[..|after| - 1] == saves;
      ReplayLonger(ReplaySaves(r, saves), [], e);
      assert [] + [e] == [e];
    }
  }

  /** Cutting the trail into saves changes nothing about where it leads. */
  lemma {:induction false} SavesReplay(r: Record, timeline: seq<Event>)
    requires Consistent(r, timeline)
    ensures ReplaySaves(r, Saves(timeline)) == Replay(r, timeline)
    ensures ConsistentSaves(r, Saves(timeline))
  {
    if timeline != [] {
      SavesReplay(r, timeline[..|timeline| - 1]);
      AbsorbReplays(r, Saves(timeline[..|timeline| - 1]), timeline[|timeline| - 1]);
    }
  }

  // -- the effect of one save, both ways -------------------------------------------

  lemma {:induction false} SaveEffect(r: Record, s: Save, f: string)
    requires forall i :: 0 <= i < |s| ==> IsEdit(s[i])
    requires Consistent(r, s)
    ensures Value(Replay(r, s), f) == if Touches(s, f) then LastNew(s, f) else Value(r, f)
    ensures Touches(s, f) ==> FirstOld(s, f) == Value(r, f)
  {
    if s != [] {
      var front, e := s[..|s| - 1], s[|s| - 1];
      assert front + [e] == s && IsEdit(e);
      SaveEffect(r, front, f);
      ReplayLonger(r, front, e);
      TouchesSnoc(front, e, f);
      FirstOldSnoc(front, e, f);
    }
  }

  lemma {:induction false} FirstOldSnoc(s: Save, e: Event, f: string)
    ensures FirstOld(s + [e], f) == if Touches(s, f) then FirstOld(s, f) else if Field(e) == f then Old(e) else ""
  {
    if s == [] {
      assert (s + [e])[1..] == [];
    } else {
      assert (s + [e])[1..] == s[1..] + [e];
      FirstOldSnoc(s[1..], e, f);
      if Touches(s[1..], f) {
        var k :| 0 <= k < |s[1..]| && Field(s[1..][k]) == f;
        assert s[k + 1] == s[1..][k];
      }
      if Touches(s, f) && Field(s[0]) != f {
        var k :| 0 <= k < |s| && Field(s[k]) == f;
        assert s[1..][k - 1] == s[k];
      }
    }
  }

  lemma {:induction false} ChangesEffect(r: Record, cs: seq<Change>, f: string)
    requires FieldsDistinct(cs)
    ensures forall c :: c in cs && c.field == f ==> Value(ReplayChanges(r, cs), f) == c.value
    ensures (forall c :: c in cs ==> c.field != f) ==> Value(ReplayChanges(r, cs), f) == Value(r, f)
  {
    if cs != [] {
      ChangesEffect(r, cs[..|cs| - 1], f);
    }
  }

  lemma {:induction false} NetChangesFacts(rows: seq<Change>)
    requires FieldsDistinct(rows)
    ensures FieldsDistinct(NetChanges(rows))
    ensures forall c :: c in NetChanges(rows) <==> c in rows && c.value != c.previous
  {
    if rows != [] {
      NetChangesFacts(rows[1..]);
      assert rows == [rows[0]] + rows[1..];
      forall c | c in NetChanges(rows[1..]) ensures c.field != rows[0].field {
        var k :| 0 <= k < |rows[1..]| && rows[1..][k] == c;
        assert rows[k + 1] == c;
      }
    }
  }

  lemma {:induction false} InsertChangeFacts(c: Change, cs: seq<Change>)
    requires FieldsDistinct(cs) && forall d :: d in cs ==> d.field != c.field
    ensures FieldsDistinct(InsertChange(c, cs))
    ensures forall d :: d in InsertChange(c, cs) <==> d == c || d in cs
  {
    if cs != [] && !LexLe(LabelKey(c.field), LabelKey(cs[0].field)) {
      var rest := InsertChange(c, cs[1..]);
      assert cs == [cs[0]] + cs[1..];
      InsertChangeFacts(c, cs[1..]);
      forall k | 0 <= k < |rest| ensures rest[k].field != cs[0].field {
        assert rest[k] in rest;
      }
    }
  }

  lemma {:induction false} SortChangesFacts(cs: seq<Change>)
    requires FieldsDistinct(cs)
    ensures FieldsDistinct(SortChanges(cs))
    ensures forall c :: c in SortChanges(cs) <==> c in cs
  {
    if cs != [] {
      SortChangesFacts(cs[1..]);
      assert cs == [cs[0]] + cs[1..];
      InsertChangeFacts(cs[0], SortChanges(cs[1..]));
    }
  }

  /** A card carries a field's newest value, unless that equals the first
      known previous one. */
  lemma {:induction false} CardEffect(r: Record, s: Save, f: string)
    requires Pure(s) && KindOf(s[0]) == FieldChanges
    ensures Value(ReplayChanges(r, Tidy(RawCard(s)).changes), f)
            == if Touches(s, f) && LastNew(s, f) != FirstKnownOld(s, f) then LastNew(s, f) else Value(r, f)
  {
    RowsTouched(s, f);
    var rows := Rows(s);
    NetChangesFacts(rows);
    SortChangesFacts(NetChanges(rows));
    var cs := SortChanges(NetChanges(rows));
    ChangesEffect(r, cs, f);
    if Touches(s, f) {
      var k :| 0 <= k < |rows| && rows[k].field == f;
      assert rows[k] in rows;
      RowsMean(s, rows[k]);
      if rows[k].value != rows[k].previous {
        assert rows[k] in cs;
      } else {
        forall c | c in cs ensures c.field != f {
          assert c in rows;
        }
      }
    } else {
      forall c | c in cs ensures c.field != f {
        var j :| 0 <= j < |rows| && rows[j] == c;
      }
    }
  }

  /** The one shape in which a real change is taken for a no-op: a field blank
      before the save, ending on the first value it was given. */
  ghost predicate Lossy(s: Save, f: string) {
    && s != [] && KindOf(s[0]) == FieldChanges && Touches(s, f)
    && FirstOld(s, f) == "" && LastNew(s, f) != "" && LastNew(s, f) == FirstKnownOld(s, f)
  }

  lemma {:induction false} FirstKnownIsFirst(s: Save, f: string)
    ensures FirstOld(s, f) != "" ==> FirstKnownOld(s, f) == FirstOld(s, f)
  {
    if s != [] {
      var front, e := s[..|s| - 1], s[|s| - 1];
      FirstKnownIsFirst(front, f);
      FirstOldSnoc(front, e, f);
      assert front + [e] == s;
      if Touches(front, f) {
      } else {
        NotTouched(front, f);
      }
    }
  }

  /** From records that agree on a field, a save and its card lead to records
      that agree on it exactly when the save is not lossy there. */
  lemma {:induction false} SaveAndCardAgreeIff(r: Record, shown: Record, s: Save, f: string)
    requires Pure(s) && Consistent(r, s) && Value(shown, f) == Value(r, f)
    ensures Value(ReplayChanges(shown, Tidy(RawCard(s)).changes), f) == Value(Replay(r, s), f) <==> !Lossy(s, f)
  {
    if KindOf(s[0]) == FieldChanges {
      EditsAgreeIff(r, shown, s, f);
    } else {
      JournalReplaysNothing(r, shown, s);
    }
  }

  lemma {:induction false} EditsAgreeIff(r: Record, shown: Record, s: Save, f: string)
    requires Pure(s) && KindOf(s[0]) == FieldChanges && Consistent(r, s) && Value(shown, f) == Value(r, f)
    ensures Value(ReplayChanges(shown, Tidy(RawCard(s)).changes), f) == Value(Replay(r, s), f)
            <==> !(Touches(s, f) && FirstOld(s, f) == "" && LastNew(s, f) != "" && LastNew(s, f) == FirstKnownOld(s, f))
  {
    SaveEffect(r, s, f);
    CardEffect(shown, s, f);
    FirstKnownIsFirst(s, f);
  }

  lemma {:induction false} JournalReplaysNothing(r: Record, shown: Record, s: Save)
    requires Pure(s) && KindOf(s[0]) != FieldChanges
    ensures ReplayChanges(shown, Tidy(RawCard(s)).changes) == shown && Replay(r, s) == r
  {
  }

  // -- the whole page -----------------------------------------------------------------

  lemma {:induction false} ShownReplays(r: Record, saves: seq<Save>)
    requires Nonempty(saves) && saves != []
    ensures var front := saves[..|saves| - 1];
            ReplayCards(r, Shown(RawCards(saves)))
            == ReplayChanges(ReplayCards(r, Shown(RawCards(front))), Tidy(RawCard(saves[|saves| - 1])).changes)
  {
    var front := saves[..|saves| - 1];
    var cards, c := RawCards(saves), Tidy(RawCard(saves[|saves| - 1]));
    assert cards[..|cards| - 1] == RawCards(front);
    var rest := Shown(RawCards(front));
    if SaysSomething(c) {
      assert (rest + [c])[..|rest|] == rest;
    } else {
      assert c.changes == [];
    }
  }

  /** Both replays side by side, after each save in turn. */
  ghost predicate AgreeThroughout(r: Record, saves: seq<Save>)
    requires Nonempty(saves)
  {
    forall j, f :: 0 <= j <= |saves| ==>
      Value(ReplayCards(r, Shown(RawCards(saves[..j]))), f) == Value(ReplaySaves(r, saves[..j]), f)
  }

  ghost predicate NoneLossy(saves: seq<Save>) {
    forall i, f :: 0 <= i < |saves| ==> !Lossy(saves[i], f)
  }

  /** The card of the save has a row for the field. */
  ghost predicate Speaks(s: Save, f: string) {
    s != [] && KindOf(s[0]) == FieldChanges && Touches(s, f) && LastNew(s, f) != FirstKnownOld(s, f)
  }

  /** Whatever was lost of a field, a later card says better. */
  ghost predicate Healed(saves: seq<Save>, f: string) {
    forall i :: 0 <= i < |saves| && Lossy(saves[i], f) ==> exists j :: i < j < |saves| && Speaks(saves[j], f)
  }

  lemma {:induction false} HealedSnoc(saves: seq<Save>, s: Save, f: string)
    ensures Healed(saves + [s], f) <==> Speaks(s, f) || (!Lossy(s, f) && Healed(saves, f))
  {
    var all := saves + [s];
    assert all[|saves|] == s && forall i :: 0 <= i < |saves| ==> all[i] == saves[i];
    if Healed(all, f) && !Speaks(s, f) {
      forall i | 0 <= i < |saves| && Lossy(saves[i], f) ensures exists j :: i < j < |saves| && Speaks(saves[j], f) {
        assert Lossy(all[i], f);
        var j :| i < j < |all| && Speaks(all[j], f);
        assert Speaks(saves[j], f);
      }
    }
    if !Speaks(s, f) && !Lossy(s, f) && Healed(saves, f) {
      forall i | 0 <= i < |all| && Lossy(all[i], f) ensures exists j :: i < j < |all| && Speaks(all[j], f) {
        var j :| i < j < |saves| && Speaks(saves[j], f);
        assert Speaks(all[j], f);
      }
    }
  }

  /** One more save: its card speaks, or the field is lost in it, or nothing
      changes in either replay. */
  lemma {:induction false} SaveMoves(r: Record, shown: Record, s: Save, f: string)
    requires Pure(s) && Consistent(r, s)
    ensures var r', shown' := Replay(r, s), ReplayChanges(shown, Tidy(RawCard(s)).changes);
            if Speaks(s, f) then Value(r', f) == Value(shown', f)
            else Value(shown', f) == Value(shown, f)
                 && if Lossy(s, f) then Value(r, f) == "" && Value(r', f) != "" else Value(r', f) == Value(r, f)
  {
    if KindOf(s[0]) == FieldChanges {
      SaveEffect(r, s, f);
      CardEffect(shown, s, f);
      FirstKnownIsFirst(s, f);
    } else {
      JournalReplaysNothing(r, shown, s);
    }
  }

  /** The same, one save after another. */
  ghost predicate HealedByNow(saves: seq<Save>, f: string) {
    saves == [] ||
      var s := saves[|saves| - 1];
      Speaks(s, f) || (!Lossy(s, f) && HealedByNow(saves[..|saves| - 1], f))
  }

  lemma {:induction false} HealedIsByNow(saves: seq<Save>, f: string)
    ensures HealedByNow(saves, f) <==> Healed(saves, f)
  {
    if saves != [] {
      var front, s := saves[..|saves| - 1], saves[|saves| - 1];
      HealedIsByNow(front, f);
      HealedSnoc(front, s, f);
      assert front + [s] == saves;
    }
  }

  /** Where a loss is not healed, the cards leave the field blank and the trail
      does not. */
  predicate ToldApart(healed: bool, shown: string, told: string) {
    if healed then shown == told else shown == "" && told != ""
  }

  lemma {:induction false} AgreeWhereHealed(r: Record, saves: seq<Save>, f: string)
    requires Nonempty(saves) && ConsistentSaves(r, saves)
    requires forall i :: 0 <= i < |saves| ==> Pure(saves[i])
    ensures ToldApart(HealedByNow(saves, f), Value(ReplayCards(r, Shown(RawCards(saves))), f),
                      Value(ReplaySaves(r, saves), f))
  {
    if saves != [] {
      var front, s := saves[..|saves| - 1], saves[|saves| - 1];
      AgreeWhereHealed(r, front, f);
      ShownReplays(r, saves);
      SaveMoves(ReplaySaves(r, front), ReplayCards(r, Shown(RawCards(front))), s, f);
    }
  }

  lemma {:induction false} ConsistentPrefix(r: Record, saves: seq<Save>, j: nat)
    requires ConsistentSaves(r, saves) && j <= |saves|
    ensures ConsistentSaves(r, saves[..j])
  {
    if j < |saves| {
      ConsistentPrefix(r, saves[..|saves| - 1], j);
      assert saves[..|saves| - 1][..j] == saves[..j];
    } else {
      assert saves[..j] == saves;
    }
  }

  lemma {:induction false} ShownReplaysUpTo(r: Record, saves: seq<Save>, i: nat)
    requires Nonempty(saves) && i < |saves|
    ensures ReplayCards(r, Shown(RawCards(saves[..i + 1])))
         == ReplayChanges(ReplayCards(r, Shown(RawCards(saves[..i]))), Tidy(RawCard(saves[i])).changes)
  {
    var upto := saves[..i + 1];
    assert upto[..|upto| - 1] == saves[..i];
    ShownReplays(r, upto);
  }

  lemma {:induction false} ReplaySavesUpTo(r: Record, saves: seq<Save>, i: nat)
    requires ConsistentSaves(r, saves) && i < |saves|
    ensures ReplaySaves(r, saves[..i + 1]) == Replay(ReplaySaves(r, saves[..i]), saves[i])
    ensures Consistent(ReplaySaves(r, saves[..i]), saves[i])
  {
    var upto := saves[..i + 1];
    assert upto[..|upto| - 1] == saves[..i];
    ConsistentPrefix(r, saves, i + 1);
  }

  lemma {:induction false} AgreementBetrayed(r: Record, saves: seq<Save>, i: nat, f: string)
    requires Nonempty(saves) && ConsistentSaves(r, saves) && i < |saves| && Pure(saves[i])
    requires AgreeThroughout(r, saves)
    ensures !Lossy(saves[i], f)
  {
    ShownReplaysUpTo(r, saves, i);
    ReplaySavesUpTo(r, saves, i);
    SaveAndCardAgreeIff(ReplaySaves(r, saves[..i]), ReplayCards(r, Shown(RawCards(saves[..i]))), saves[i], f);
  }

  /** For a consistent trail, the cards say after every save what the trail
      says, exactly when no save is lossy. */
  lemma {:induction false} CardsAgreeIff(r: Record, timeline: seq<Event>)
    requires Consistent(r, timeline)
    ensures Nonempty(Saves(timeline))
    ensures AgreeThroughout(r, Saves(timeline)) <==> NoneLossy(Saves(timeline))
  {
    var saves := Saves(timeline);
    SavesAreNonempty(timeline);
    SavesArePure(timeline);
    SavesReplay(r, timeline);
    if NoneLossy(saves) {
      forall j, f | 0 <= j <= |saves|
        ensures Value(ReplayCards(r, Shown(RawCards(saves[..j]))), f) == Value(ReplaySaves(r, saves[..j]), f)
      {
        ConsistentPrefix(r, saves, j);
        AgreeWhereHealed(r, saves[..j], f);
        HealedIsByNow(saves[..j], f);
      }
    }
    if AgreeThroughout(r, saves) {
      forall i, f | 0 <= i < |saves| ensures !Lossy(saves[i], f) {
        AgreementBetrayed(r, saves, i, f);
      }
    }
  }

  /** The page, read oldest first, leaves a field where the trail leaves it
      exactly when every save that is lossy there is followed by one whose card
      speaks of the field. */
  lemma {:induction false} PageTellsTheOutcomeIff(r: Record, timeline: seq<Event>, f: string)
    requires Consistent(r, timeline)
    ensures Value(ReplayCards(r, Page(timeline)), f) == Value(Replay(r, timeline), f) <==> Healed(Saves(timeline), f)
  {
    SavesAreNonempty(timeline);
    SavesArePure(timeline);
    SavesReplay(r, timeline);
    AgreeWhereHealed(r, Saves(timeline), f);
    HealedIsByNow(Saves(timeline), f);
  }

  // -- the order of the page --------------------------------------------------------

  ghost predicate Chronological(timeline: seq<Event>) {
    forall i, j :: 0 <= i < j < |timeline| ==> LexLe(timeline[i].when, timeline[j].when)
  }

  ghost predicate OldestFirst(cards: seq<Card>) {
    forall i, j :: 0 <= i < j < |cards| ==> LexLe(cards[i].when, cards[j].when)
  }

  ghost predicate IsNewestFirst(cards: seq<Card>) {
    forall i, j :: 0 <= i < j < |cards| ==> LexLe(cards[j].when, cards[i].when)
  }

  ghost predicate NoneAfter(cards: seq<Card>, when: string) {
    forall i :: 0 <= i < |cards| ==> LexLe(cards[i].when, when)
  }

  lemma {:induction false} AbsorbKeepsOrder(groups: seq<Card>, e: Event)
    requires OldestFirst(groups) && NoneAfter(groups, e.when)
    ensures OldestFirst(AbsorbCard(groups, e)) && NoneAfter(AbsorbCard(groups, e), e.when)
  {
    LexTotal(e.when, e.when);
  }

  lemma {:induction false} NoneAfterLater(cards: seq<Card>, when: string, later: string)
    requires NoneAfter(cards, when) && LexLe(when, later)
    ensures NoneAfter(cards, later)
  {
    forall i | 0 <= i < |cards| ensures LexLe(cards[i].when, later) {
      LexTransitive(cards[i].when, when, later);
    }
  }

  lemma {:induction false} CardsKeepOrder(timeline: seq<Event>)
    requires Chronological(timeline)
    ensures Nonempty(Saves(timeline)) && OldestFirst(RawCards(Saves(timeline)))
    ensures timeline != [] ==> NoneAfter(RawCards(Saves(timeline)), timeline[|timeline| - 1].when)
  {
    SavesAreNonempty(timeline);
    if timeline != [] {
      var front, e := timeline[..|timeline| - 1], timeline[|timeline| - 1];
      CardsKeepOrder(front);
      if front != [] {
        NoneAfterLater(RawCards(Saves(front)), front[|front| - 1].when, e.when);
      }
      AbsorbedCards(Saves(front), e);
      AbsorbKeepsOrder(RawCards(Saves(front)), e);
    }
  }

  lemma {:induction false} ShownKeepsOrder(cards: seq<Card>)
    requires OldestFirst(cards)
    ensures OldestFirst(Shown(cards))
    ensures cards != [] ==> NoneAfter(Shown(cards), cards[|cards| - 1].when)
  {
    if cards != [] {
      var front, last := cards[..|cards| - 1], cards[|cards| - 1];
      ShownKeepsOrder(front);
      LexTotal(last.when, last.when);
      if front != [] {
        NoneAfterLater(Shown(front), front[|front| - 1].when, last.when);
      }
    }
  }

  lemma {:induction false} ReversedAt(cards: seq<Card>, k: nat)
    requires k < |cards|
    ensures |Reversed(cards)| == |cards| && Reversed(cards)[k] == cards[|cards| - 1 - k]
  {
    if |cards| > 1 {
      ReversedAt(cards[1..], if k < |cards| - 1 then k else 0);
    }
  }

  lemma {:induction false} TurnedRound(cards: seq<Card>)
    requires OldestFirst(cards)
    ensures IsNewestFirst(Reversed(cards))
  {
    var turned := Reversed(cards);
    if cards != [] {
      ReversedAt(cards, 0);
    }
    forall i, j | 0 <= i < j < |turned| ensures LexLe(turned[j].when, turned[i].when) {
      ReversedAt(cards, i);
      ReversedAt(cards, j);
    }
  }

  lemma {:induction false} NewestAreKept(page: seq<Card>, limit: nat)
    ensures var cards := Limited(Reversed(page), limit);
            && |cards| == (if limit == 0 || limit > |page| then |page| else limit)
            && forall i :: 0 <= i < |cards| ==> cards[i] == page[|page| - 1 - i]
  {
    if page != [] {
      ReversedAt(page, 0);
    }
    var cards := Limited(Reversed(page), limit);
    forall i | 0 <= i < |cards| ensures cards[i] == page[|page| - 1 - i] {
      ReversedAt(page, i);
    }
  }

  /** For a timeline in order, which is what the page is given, the cards come
      newest first, and no card is left out that is later than one shown. */
  lemma {:induction false} NewestFirst(timeline: seq<Event>, limit: nat)
    requires Chronological(timeline)
    ensures var cards := Limited(Reversed(Page(timeline)), limit);
            && IsNewestFirst(cards)
            && forall c, d :: c in cards && d in Page(timeline) && d !in cards ==> LexLe(d.when, c.when)
  {
    var page, cards := Page(timeline), Limited(Reversed(Page(timeline)), limit);
    CardsKeepOrder(timeline);
    ShownKeepsOrder(RawCards(Saves(timeline)));
    TurnedRound(page);
    NewestAreKept(page, limit);
    forall j | |page| - |cards| <= j < |page| ensures page[j] in cards {
      assert cards[|page| - 1 - j] == page[j];
    }
    forall c, d | c in cards && d in page && d !in cards ensures LexLe(d.when, c.when) {
      var i :| 0 <= i < |cards| && cards[i] == c;
      var j :| 0 <= j < |page| && page[j] == d;
      assert j < |page| - 1 - i;
    }
  }

  // -- what stands on the page ----------------------------------------------------------

  /** Comments and work notes are told apart by field; an edit of the
      description is not shown; whoever is nameless is the system. */
  lemma {:induction false} KindsAre(e: Event)
    ensures KindOf(e) == Comment <==> Field(e) == "comments" || Field(e) == "additional_comments"
    ensures KindOf(e) == WorkNote <==> Field(e) == "work_notes"
    ensures Hidden(e) <==> Field(e) == "description"
    ensures Actor(e) == e.actor || (e.actor == "" && Actor(e) == "system")
  {
  }

  /** Rows in the order of their labels. */
  ghost predicate ByLabel(cs: seq<Change>) {
    cs == [] || (ByLabel(cs[1..]) && forall d :: d in cs[1..] ==> LexLe(LabelKey(cs[0].field), LabelKey(d.field)))
  }

  ghost predicate WellMadeRow(r: Change) {
    r.value != r.previous && Trimmed(r.value) && Trimmed(r.previous) && r.field != "description"
  }

  /** A card that is fit to be shown. */
  ghost predicate WellMade(c: Card) {
    && (if c.kind == FieldChanges then c.changes != [] && c.text == "" else c.changes == [])
    && (forall r :: r in c.changes ==> WellMadeRow(r))
    && FieldsDistinct(c.changes) && ByLabel(c.changes)
  }

  lemma {:induction false} InsertSortsByLabel(c: Change, cs: seq<Change>)
    requires ByLabel(cs)
    ensures ByLabel(InsertChange(c, cs))
    ensures forall d :: d in InsertChange(c, cs) <==> d == c || d in cs
  {
    if cs != [] {
      assert cs == [cs[0]] + cs[1..];
      if LexLe(LabelKey(c.field), LabelKey(cs[0].field)) {
        assert ([c] + cs)[1..] == cs;
        forall d | d in cs ensures LexLe(LabelKey(c.field), LabelKey(d.field)) {
          if d != cs[0] {
            LexTransitive(LabelKey(c.field), LabelKey(cs[0].field), LabelKey(d.field));
          }
        }
      } else {
        LexTotal(LabelKey(c.field), LabelKey(cs[0].field));
        InsertSortsByLabel(c, cs[1..]);
        assert ([cs[0]] + InsertChange(c, cs[1..]))[1..] == InsertChange(c, cs[1..]);
      }
    }
  }

  lemma {:induction false} SortedByLabel(cs: seq<Change>)
    ensures ByLabel(SortChanges(cs))
  {
    if cs != [] {
      SortedByLabel(cs[1..]);
      InsertSortsByLabel(cs[0], SortChanges(cs[1..]));
    }
  }

  lemma {:induction false} NetRowsAreWellMade(rows: seq<Change>)
    requires FieldsDistinct(rows)
    requires forall r :: r in rows && r.value != r.previous ==> WellMadeRow(r)
    ensures var cs := SortChanges(NetChanges(rows));
            FieldsDistinct(cs) && ByLabel(cs) && forall r :: r in cs ==> WellMadeRow(r)
  {
    NetChangesFacts(rows);
    SortChangesFacts(NetChanges(rows));
    SortedByLabel(NetChanges(rows));
  }

  lemma {:induction false} RowsAreTrimmed(s: Save)
    requires forall e :: e in s ==> !Hidden(e)
    requires forall e :: e in s ==> KindOf(e) == FieldChanges
    ensures forall r :: r in Rows(s) && r.value != r.previous ==> WellMadeRow(r)
    ensures forall r :: r in Rows(s) ==> Trimmed(r.value) && Trimmed(r.previous) && r.field != "description"
  {
    if s != [] {
      var front, e := s[..|s| - 1], s[|s| - 1];
      RowsAreTrimmed(front);
      StripFacts(e.old_);
      StripFacts(e.new_);
      KindsAre(e);
      FindFacts(Rows(front), Field(e));
    }
  }

  lemma {:induction false} TidyIsWellMade(s: Save)
    requires Pure(s) && SaysSomething(Tidy(RawCard(s)))
    ensures WellMade(Tidy(RawCard(s)))
  {
    if KindOf(s[0]) == FieldChanges {
      RowsAreTrimmed(s);
      RowsTouched(s, "");
      NetRowsAreWellMade(Rows(s));
    }
  }

  lemma {:induction false} ShownIsWellMade(saves: seq<Save>)
    requires Nonempty(saves) && forall i :: 0 <= i < |saves| ==> Pure(saves[i])
    ensures forall c :: c in Shown(RawCards(saves)) ==> WellMade(c)
  {
    if saves != [] {
      var front, s := saves[..|saves| - 1], saves[|saves| - 1];
      ShownIsWellMade(front);
      assert RawCards(saves)[..|saves| - 1] == RawCards(front);
      if SaysSomething(Tidy(RawCard(s))) {
        TidyIsWellMade(s);
      }
    }
  }

  /** No card without anything to say, no row that is no change, no field twice
      on a card, rows by label, no word of the description. */
  lemma {:induction false} CardsAreWellMade(timeline: seq<Event>)
    ensures forall c :: c in Page(timeline) ==> WellMade(c)
  {
    SavesAreNonempty(timeline);
    SavesArePure(timeline);
    ShownIsWellMade(Saves(timeline));
  }

  // -- words ---------------------------------------------------------------------------

  /** A journal entry: of what kind, when, whose, and the words themselves. */
  datatype Entry = Entry(kind: Kind, when: string, actor: string, text: string)

  function Entries(timeline: seq<Event>): seq<Entry> {
    if timeline == [] then []
    else
      var e := timeline[|timeline| - 1];
      Entries(timeline[..|timeline| - 1])
      + if KindOf(e) == FieldChanges then [] else [Entry(KindOf(e), e.when, Actor(e), e.text)]
  }

  function CardEntries(cards: seq<Card>): seq<Entry> {
    if cards == [] then []
    else
      var c := cards[|cards| - 1];
      CardEntries(cards[..|cards| - 1])
      + if c.kind == FieldChanges then [] else [Entry(c.kind, c.when, c.actor, c.text)]
  }

  lemma {:induction false} CardEntriesSnoc(cards: seq<Card>, c: Card)
    ensures CardEntries(cards + [c])
            == CardEntries(cards)
               + if c.kind == FieldChanges then [] else [Entry(c.kind, c.when, c.actor, c.text)]
  {
  }

  lemma {:induction false} ShownKeepsEntries(cards: seq<Card>)
    ensures CardEntries(Shown(cards)) == CardEntries(cards)
  {
    if cards != [] {
      ShownKeepsEntries(cards[..|cards| - 1]);
      CardEntriesSnoc(Shown(cards[..|cards| - 1]), Tidy(cards[|cards| - 1]));
    }
  }

  /** Everything anybody wrote is on exactly one card, in the order it was
      written, word for word. */
  lemma {:induction false} EveryWordIsKept(timeline: seq<Event>)
    ensures CardEntries(Page(timeline)) == Entries(timeline)
    decreases |timeline|
  {
    SavesAreNonempty(timeline);
    ShownKeepsEntries(RawCards(Saves(timeline)));
    if timeline != [] {
      var front, e := timeline[..|timeline| - 1], timeline[|timeline| - 1];
      EveryWordIsKept(front);
      SavesAreNonempty(front);
      ShownKeepsEntries(RawCards(Saves(front)));
      AbsorbedCards(Saves(front), e);
      AbsorbKeepsEntries(RawCards(Saves(front)), e);
    }
  }

  lemma {:induction false} AbsorbKeepsEntries(groups: seq<Card>, e: Event)
    ensures CardEntries(AbsorbCard(groups, e))
            == CardEntries(groups)
               + if KindOf(e) == FieldChanges then [] else [Entry(KindOf(e), e.when, Actor(e), e.text)]
  {
  }

  lemma {:induction false} EditsOfOneSave(e1: Event, e2: Event, e3: Event)
    requires IsEdit(e1) && IsEdit(e2) && IsEdit(e3) && Mergeable([e1], e2) && Mergeable([e1, e2], e3)
    ensures Saves([e1, e2, e3]) == [[e1, e2, e3]]
  {
    var timeline := [e1, e2, e3];
    assert timeline[..2] == [e1, e2] && [e1, e2][..1] == [e1] && [e1][..0] == [];
    assert Saves([e1]) == [[e1]];
    assert [e1] + [e2] == [e1, e2] && [e1, e2] + [e3] == timeline;
    assert Saves([e1, e2]) == [[e1, e2]];
  }

  lemma {:induction false} RowsOfOneField(e1: Event, e2: Event, e3: Event)
    requires Field(e1) == Field(e2) == Field(e3)
    requires Old(e1) == "" && Old(e2) != ""
    ensures Rows([e1, e2, e3]) == [Change(Field(e1), New(e3), Old(e2))]
  {
    assert [e1, e2, e3][..2] == [e1, e2] && [e1, e2][..1] == [e1] && [e1][..0] == [];
    assert Rows([e1]) == [Change(Field(e1), New(e1), Old(e1))];
    assert Rows([e1, e2]) == [Change(Field(e1), New(e2), Old(e2))];
  }

  /** '' -> A -> B -> A within one save: the trail ends on A, the card is
      dropped as a no-op, and the page leaves the field blank. */
  lemma {:induction false} SetFromBlankAndPutBackIsLost(e1: Event, e2: Event, e3: Event)
    requires IsEdit(e1) && IsEdit(e2) && IsEdit(e3) && Mergeable([e1], e2) && Mergeable([e1, e2], e3)
    requires Field(e1) == Field(e2) == Field(e3)
    requires Old(e1) == "" && New(e1) == Old(e2) == New(e3) != "" && New(e2) == Old(e3)
    ensures var timeline := [e1, e2, e3];
            && Consistent(map[], timeline)
            && Value(Replay(map[], timeline), Field(e1)) == New(e3)
            && Page(timeline) == []
  {
    ThreeEdits(e1, e2, e3);
    EditsOfOneSave(e1, e2, e3);
    RowsOfOneField(e1, e2, e3);
    NoOpPage([e1, e2, e3], Change(Field(e1), New(e3), Old(e2)));
  }

  lemma {:induction false} ThreeEdits(e1: Event, e2: Event, e3: Event)
    requires IsEdit(e1) && IsEdit(e2) && IsEdit(e3) && Field(e1) == Field(e2) == Field(e3)
    ensures Value(Replay(map[], [e1, e2, e3]), Field(e1)) == New(e3)
    ensures Consistent(map[], [e1, e2, e3]) <==> Old(e1) == "" && Old(e2) == New(e1) && Old(e3) == New(e2)
  {
    ReplayLonger(map[], [], e1);
    ReplayLonger(map[], [e1], e2);
    ReplayLonger(map[], [e1, e2], e3);
    assert [] + [e1] == [e1] && [e1] + [e2] == [e1, e2] && [e1, e2] + [e3] == [e1, e2, e3];
  }

  lemma {:induction false} NoOpPage(timeline: seq<Event>, row: Change)
    requires Saves(timeline) == [timeline] && timeline != [] && KindOf(timeline[0]) == FieldChanges
    requires Rows(timeline) == [row] && row.value == row.previous
    ensures Page(timeline) == []
  {
    SavesAreNonempty(timeline);
    var card := RawCard(timeline);
    assert [row][1..] == [] && NetChanges([row]) == [];
    assert card.changes == [row] && Tidy(card).changes == [] && !SaysSomething(Tidy(card));
    assert RawCards([timeline]) == [card];
    assert [card][..0] == [];
    assert Shown([card][..0]) == [] && Shown([card]) == [];
  }
}
