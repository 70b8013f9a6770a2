/** The advisor_user table and everything that writes a role or an active flag:
    UserStore, the activate/deactivate route, and the nightly reconcile job.
    Every operation here is one atomic transition; what happens between the
    statements of concurrent callers is the subject of AccessProtocol. */
module Accounts {
  import opened Collections
  import opened Text

  datatype Role = VIEWER | LEAD | ADMIN
  datatype AuthSource = LOCAL | OIDC
  datatype Source = MANUAL | REQUEST | SERVICENOW

  /** `scope` is the comma list in assignment_groups, "" standing for NULL. */
  datatype Account = Account(
    role: Role, active: bool, auth: AuthSource, externalId: Option<string>,
    scope: string, scopeSource: Source, roleSource: Source, lastSeen: int)

  /** Keyed by username, which the schema makes unique. */
  type Table = map<string, Account>

  ghost function ActiveAdmins(t: Table): set<string> {
    set u | u in t && t[u].active && t[u].role == ADMIN
  }

  datatype Outcome = Applied | NoSuchAccount | OnlyAdministrator | OwnAccount | NotPermitted | Duplicate

  // ---------------------------------------------------------------------
  // specification of the single-row writers
  // ---------------------------------------------------------------------

  ghost function Regrant(a: Account, role: Role, scope: seq<string>, source: Source): Account {
    a.(role := role, scope := JoinComma(scope), roleSource := source)
  }

  ghost function AfterSetRole(t: Table, u: string, role: Role, scope: seq<string>, source: Source): (Table, Outcome) {
    if u !in t then (t, NoSuchAccount)
    else if t[u].role == ADMIN && role != ADMIN && ActiveAdmins(t) - {u} == {} then (t, OnlyAdministrator)
    else (t[u := Regrant(t[u], role, scope, source)], Applied)
  }

  ghost function AfterSetActive(t: Table, actor: string, u: string, active: bool): (Table, Outcome) {
    if actor !in ActiveAdmins(t) then (t, NotPermitted)
    else if u !in t then (t, NoSuchAccount)
    else if !active && u == actor then (t, OwnAccount)
    else if !active && t[u].role == ADMIN && ActiveAdmins(t) - {u} == {} then (t, OnlyAdministrator)
    else (t[u := t[u].(active := active)], Applied)
  }

  /** What verified token claims carry, and how the caller wants scope derived. */
  datatype Identity = Identity(username: string, externalId: string, defaultRole: Role,
                               defaultGroups: seq<string>, groupsSource: Source, refresh: bool)

  function Refreshed(a: Account, id: Identity, now: int): Account {
    var linked := a.(externalId := Some(id.externalId), auth := OIDC, lastSeen := now);
    if id.refresh && id.defaultGroups != [] && a.scopeSource == SERVICENOW
    then linked.(scope := JoinComma(id.defaultGroups)) else linked
  }

  ghost function Provisioned(id: Identity, now: int): Account {
    Account(id.defaultRole, true, OIDC, Some(id.externalId), JoinComma(id.defaultGroups),
            if id.defaultGroups == [] then MANUAL else id.groupsSource, MANUAL, now)
  }

  ghost predicate HasExternal(t: Table, x: string) {
    exists u :: u in t && t[u].externalId == Some(x)
  }

  /** By external id first, then adopting an unlinked row of the same name. */
  ghost function AfterSignIn(t: Table, id: Identity, now: int): (Table, Outcome) {
    if HasExternal(t, id.externalId) then
      (map u | u in t :: if t[u].externalId == Some(id.externalId) then Refreshed(t[u], id, now) else t[u], Applied)
    else if id.username in t then
      if t[id.username].externalId == None
      then (t[id.username := Refreshed(t[id.username], id, now)], Applied)
      else (t, Duplicate)
    else (t[id.username := Provisioned(id, now)], Applied)
  }

  ghost function AfterCreate(t: Table, u: string, role: Role, scope: string): (Table, Outcome) {
    if u in t then (t, Duplicate)
    else (t[u := Account(role, true, LOCAL, None, scope, MANUAL, MANUAL, 0)], Applied)
  }

  // ---------------------------------------------------------------------
  // reconcile
  // ---------------------------------------------------------------------

  /** What Keycloak said about one account. */
  datatype Answer = Present | Gone | Unreadable

  datatype Report = Report(checked: nat, deactivated: nat, missing: seq<string>, errors: nat, refused: bool)

  /** `accounts` is what the query for active single sign-on accounts returns. */
  ghost predicate IsRoster(accounts: seq<string>, t: Table) {
    && (forall i, j :: 0 <= i < j < |accounts| ==> accounts[i] != accounts[j])
    && (forall u :: u in accounts <==> u in t && t[u].active && t[u].auth == OIDC)
  }

  ghost function Missing(accounts: seq<string>, answer: string -> Answer): seq<string> {
    if accounts == [] then []
    else Missing(accounts[..|accounts| - 1], answer)
         + if answer(accounts[|accounts| - 1]) == Gone then [accounts[|accounts| - 1]] else []
  }

  ghost function Failures(accounts: seq<string>, answer: string -> Answer): nat {
    if accounts == [] then 0
    else Failures(accounts[..|accounts| - 1], answer)
         + if answer(accounts[|accounts| - 1]) == Unreadable then 1 else 0
  }

  ghost function Stamped(t: Table, accounts: seq<string>, answer: string -> Answer, now: int): Table {
    map u | u in t :: if u in accounts && answer(u) == Present then t[u].(lastSeen := now) else t[u]
  }

  ghost function Deactivated(t: Table, doomed: set<string>): Table {
    map u | u in t :: if u in doomed then t[u].(active := false) else t[u]
  }

  /** The last administrator of the list, if it has one. */
  ghost function LastAdmin(gone: seq<string>, t: Table): Option<string> {
    if gone == [] then None
    else
      var u := gone[|gone| - 1];
      if u in t && t[u].role == ADMIN then Some(u) else LastAdmin(gone[..|gone| - 1], t)
  }

  /** Nobody is spared unless every active administrator has gone; then one is,
      the last of them in the order the accounts were read. */
  ghost function Spared(gone: seq<string>, t: Table): set<string> {
    if ActiveAdmins(t) != {} && ActiveAdmins(t) <= Elems(gone) && LastAdmin(gone, t).Some?
    then {LastAdmin(gone, t).value} else {}
  }

  ghost function Doomed(gone: seq<string>, t: Table): set<string> {
    Elems(gone) - Spared(gone, t)
  }

  predicate OverCeiling(gone: nat, accounts: nat, ceiling: real) {
    accounts > 0 && 100.0 * (gone as real) / (accounts as real) > ceiling
  }

  ghost function AfterReconcile(t: Table, accounts: seq<string>, answer: string -> Answer,
                                ceiling: real, now: int, dryRun: bool): (Table, Report)
  {
    var gone := Missing(accounts, answer);
    var failures := Failures(accounts, answer);
    var stamped := Stamped(t, accounts, answer, now);
    if gone == [] then
      (stamped, Report(|accounts|, 0, [], failures, false))
    else if OverCeiling(|gone|, |accounts|, ceiling) then
      (stamped, Report(|accounts|, 0, gone, failures, true))
    else
      (if dryRun then stamped else Deactivated(stamped, Doomed(gone, t)),
       Report(|accounts|, |Doomed(gone, t)|, gone, failures + |Spared(gone, t)|, false))
  }

  lemma {:induction false} MissingAre(accounts: seq<string>, answer: string -> Answer)
    ensures forall u :: u in Missing(accounts, answer) <==> u in accounts && answer(u) == Gone
    ensures |Missing(accounts, answer)| <= |accounts|
  {
    if accounts != [] {
      var front, last := accounts[..|accounts| - 1], accounts[|accounts| - 1];
      MissingAre(front, answer);
      assert accounts == front + [last];
    }
  }

  lemma {:induction false} MissingFacts(accounts: seq<string>, answer: string -> Answer)
    requires forall i, j :: 0 <= i < j < |accounts| ==> accounts[i] != accounts[j]
    ensures forall u :: u in Missing(accounts, answer) <==> u in accounts && answer(u) == Gone
    ensures |Missing(accounts, answer)| <= |accounts|
    ensures forall i, j :: 0 <= i < j < |Missing(accounts, answer)| ==>
              Missing(accounts, answer)[i] != Missing(accounts, answer)[j]
  {
    MissingAre(accounts, answer);
    if accounts != [] {
      var front, last := accounts[..|accounts| - 1], accounts[|accounts| - 1];
      assert accounts == front + [last] && last !in front;
      MissingFacts(front, answer);
    }
  }

  lemma {:induction false} LookUpSnoc(t: Table, accounts: seq<string>, u: string, answer: string -> Answer, now: int)
    requires u in t
    ensures Missing(accounts + [u], answer) == Missing(accounts, answer) + if answer(u) == Gone then [u] else []
    ensures Failures(accounts + [u], answer) == Failures(accounts, answer) + if answer(u) == Unreadable then 1 else 0
    ensures Stamped(t, accounts + [u], answer, now)
            == if answer(u) == Present
               then Stamped(t, accounts, answer, now)[u := Stamped(t, accounts, answer, now)[u].(lastSeen := now)]
               else Stamped(t, accounts, answer, now)
  {
  }

  lemma {:induction false} LastAdminFacts(gone: seq<string>, t: Table)
    ensures LastAdmin(gone, t).Some? <==> exists u :: u in gone && u in t && t[u].role == ADMIN
    ensures LastAdmin(gone, t).Some? ==>
              var a := LastAdmin(gone, t).value; a in gone && a in t && t[a].role == ADMIN
  {
    if gone != [] {
      var front, last := gone[..|gone| - 1], gone[|gone| - 1];
      LastAdminFacts(front, t);
      assert gone == front + [last];
    }
  }

  lemma {:induction false} SparedStepAdmin(before: seq<string>, u: string, t: Table, admins: set<string>)
    requires u !in before && u in t && t[u].active && t[u].role == ADMIN
    requires admins == ActiveAdmins(t) - Doomed(before, t)
    ensures Spared(before, t) == {} && u in admins
    ensures Spared(before + [u], t) == if |admins| <= 1 then {u} else {}
  {
    ElemsSnoc(before, u);
    assert u in ActiveAdmins(t);
    assert u !in Elems(before);
    assert admins == ActiveAdmins(t) - Elems(before);
    if |admins| <= 1 {
      assert |admins - {u}| == 0;
      assert admins == {u};
      assert ActiveAdmins(t) <= Elems(before + [u]);
    } else {
      assert |admins - {u}| == |admins| - 1;
      var v :| v in admins - {u};
      assert v !in Elems(before + [u]);
    }
  }

  /** The test the sweep makes on one account. */
  predicate IsLastOf(u: string, t: Table, admins: set<string>)
    requires u in t
  {
    t[u].role == ADMIN && |admins| <= 1
  }

  lemma {:induction false} SparedOrDoomed(u: string, t: Table, before: set<string>, spared: set<string>,
                                          spared': set<string>)
    requires u !in before
    requires (spared' == {u} && spared == {}) || (spared' == spared && u !in spared)
    ensures u !in before - spared
    ensures if spared' == {u} && spared == {} then (before + {u}) - spared' == before - spared
                                                && |spared'| == 1 + |spared|
            else (before + {u}) - spared' == (before - spared) + {u} && |spared'| == |spared|
  {
  }

  lemma {:induction false} SparedStepSets(before: seq<string>, u: string, t: Table, admins: set<string>)
    requires u !in before && u in t && t[u].active
    requires admins == ActiveAdmins(t) - Doomed(before, t)
    ensures if IsLastOf(u, t, admins) then Spared(before + [u], t) == {u} && Spared(before, t) == {}
            else Spared(before + [u], t) == Spared(before, t) && u !in Spared(before, t)
  {
    LastAdminFacts(before, t);
    if t[u].role == ADMIN {
      SparedStepAdmin(before, u, t, admins);
    } else {
    }
  }

  /** It decides exactly whether that account is spared or joins the doomed. */
  lemma {:induction false} SparedStep(before: seq<string>, u: string, t: Table, admins: set<string>)
    requires u !in before && u in t && t[u].active
    requires admins == ActiveAdmins(t) - Doomed(before, t)
    ensures u !in Doomed(before, t)
    ensures t[u].role == ADMIN && |admins| <= 1 ==>
              && Doomed(before + [u], t) == Doomed(before, t)
              && |Spared(before + [u], t)| == 1 + |Spared(before, t)|
    ensures !(t[u].role == ADMIN && |admins| <= 1) ==>
              && Doomed(before + [u], t) == Doomed(before, t) + {u}
              && |Spared(before + [u], t)| == |Spared(before, t)|
  {
    SparedStepSets(before, u, t, admins);
    ElemsSnoc(before, u);
    assert u !in Elems(before);
    SparedOrDoomed(u, t, Elems(before), Spared(before, t), Spared(before + [u], t));
  }

  lemma {:induction false} LastAdminOnlyReadsRoles(gone: seq<string>, t: Table, t': Table)
    requires t.Keys == t'.Keys && forall u :: u in t ==> t[u].role == t'[u].role
    ensures LastAdmin(gone, t) == LastAdmin(gone, t')
  {
    if gone != [] {
      LastAdminOnlyReadsRoles(gone[..|gone| - 1], t, t');
    }
  }

  lemma {:induction false} SparedOnlyReadsRoles(gone: seq<string>, t: Table, t': Table)
    requires t.Keys == t'.Keys
    requires forall u :: u in t ==> t[u].role == t'[u].role && t[u].active == t'[u].active
    ensures Spared(gone, t) == Spared(gone, t') && ActiveAdmins(t) == ActiveAdmins(t')
  {
    assert ActiveAdmins(t) == ActiveAdmins(t');
    LastAdminOnlyReadsRoles(gone, t, t');
  }

  /** The state the sweep carries from one account to the next. */
  datatype Sweeping = Sweeping(t: Table, admins: set<string>, deactivated: nat, kept: nat)

  function SweepOne(s: Sweeping, u: string, dryRun: bool): Sweeping
    requires u in s.t
  {
    if s.t[u].role == ADMIN && |s.admins| <= 1 then s.(kept := s.kept + 1)
    else Sweeping(if dryRun then s.t else s.t[u := s.t[u].(active := false)],
                  s.admins - {u}, s.deactivated + 1, s.kept)
  }

  function SweepAll(s: Sweeping, gone: seq<string>, dryRun: bool): (r: Sweeping)
    requires forall u :: u in gone ==> u in s.t
    ensures r.t.Keys == s.t.Keys
  {
    if gone == [] then s
    else SweepOne(SweepAll(s, gone[..|gone| - 1], dryRun), gone[|gone| - 1], dryRun)
  }

  ghost function SweepStart(t: Table): Sweeping {
    Sweeping(t, ActiveAdmins(t), 0, 0)
  }

  /** Where the sweep stands after `gone`, described without reference to it. */
  ghost function Swept(t: Table, gone: seq<string>, dryRun: bool): Sweeping {
    SweptSet(t, ActiveAdmins(t), Doomed(gone, t), |Spared(gone, t)|, dryRun)
  }

  ghost function SweptSet(t: Table, admins: set<string>, swept: set<string>, kept: nat, dryRun: bool): Sweeping {
    Sweeping(if dryRun then t else Deactivated(t, swept), admins - swept, |swept|, kept)
  }

  lemma {:induction false} OneMoreSwept(admins: set<string>, swept: set<string>, u: string)
    requires u !in swept
    ensures admins - swept - {u} == admins - (swept + {u}) && |swept + {u}| == |swept| + 1
  {
  }

  lemma {:induction false} SweepOneOnSets(t: Table, admins: set<string>, swept: set<string>, kept: nat, u: string,
                                          dryRun: bool)
    requires u in t && u !in swept
    ensures u in SweptSet(t, admins, swept, kept, dryRun).t
    ensures SweepOne(SweptSet(t, admins, swept, kept, dryRun), u, dryRun)
            == if t[u].role == ADMIN && |admins - swept| <= 1
               then SweptSet(t, admins, swept, kept + 1, dryRun)
               else SweptSet(t, admins, swept + {u}, kept, dryRun)
  {
    OneMoreSwept(admins, swept, u);
  }

  lemma {:induction false} SweptStep(t: Table, before: seq<string>, u: string, dryRun: bool)
    requires u !in before && u in t && t[u].active
    ensures u in Swept(t, before, dryRun).t
    ensures SweepOne(Swept(t, before, dryRun), u, dryRun) == Swept(t, before + [u], dryRun)
  {
    SparedStep(before, u, t, ActiveAdmins(t) - Doomed(before, t));
    SweepOneOnSets(t, ActiveAdmins(t), Doomed(before, t), |Spared(before, t)|, u, dryRun);
  }

  lemma {:induction false} SweepIsDoomed(t: Table, gone: seq<string>, dryRun: bool)
    requires forall i, j :: 0 <= i < j < |gone| ==> gone[i] != gone[j]
    requires forall u :: u in gone ==> u in t && t[u].active
    ensures SweepAll(SweepStart(t), gone, dryRun) == Swept(t, gone, dryRun)
  {
    if gone == [] {
      assert Deactivated(t, {}) == t;
    } else {
      var before, u := gone[..|gone| - 1], gone[|gone| - 1];
      assert gone == before + [u];
      assert u !in before;
      forall v | v in before ensures v in gone {}
      SweepIsDoomed(t, before, dryRun);
      SweptStep(t, before, u, dryRun);
    }
  }

  /** The loop's own `admins` is the set of live active administrators at
      every point of a real run. */
  lemma {:induction false} SweepTracksLiveAdmins(t: Table, gone: seq<string>)
    requires forall i, j :: 0 <= i < j < |gone| ==> gone[i] != gone[j]
    requires forall u :: u in gone ==> u in t && t[u].active
    ensures SweepAll(SweepStart(t), gone, false).admins == ActiveAdmins(SweepAll(SweepStart(t), gone, false).t)
  {
    SweepIsDoomed(t, gone, false);
  }

  lemma {:induction false} RosterMissing(t: Table, accounts: seq<string>, answer: string -> Answer, now: int)
    requires IsRoster(accounts, t)
    ensures var gone := Missing(accounts, answer);
            && (forall i, j :: 0 <= i < j < |gone| ==> gone[i] != gone[j])
            && (forall u :: u in gone ==> u in t && t[u].active)
            && (forall u :: u in gone ==> u in Stamped(t, accounts, answer, now)
                                             && Stamped(t, accounts, answer, now)[u].active)
            && Doomed(gone, t) == Doomed(gone, Stamped(t, accounts, answer, now))
            && Spared(gone, t) == Spared(gone, Stamped(t, accounts, answer, now))
  {
    MissingFacts(accounts, answer);
    SparedOnlyReadsRoles(Missing(accounts, answer), t, Stamped(t, accounts, answer, now));
  }

  // ---------------------------------------------------------------------
  // the store itself
  // ---------------------------------------------------------------------

  class UserStore {
    var rows: Table

    constructor (t: Table)
      ensures rows == t
    {
      rows := t;
    }

    /** Refuses to demote the last administrator. */
    method SetRole(u: string, role: Role, scope: seq<string>, source: Source) returns (r: Outcome)
      modifies this
      ensures (rows, r) == AfterSetRole(old(rows), u, role, scope, source)
    {
      if u !in rows {
        return NoSuchAccount;
      }
      var current := rows[u];
      if current.role == ADMIN && role != ADMIN {
        var remaining := set v | v in rows && rows[v].active && rows[v].role == ADMIN && v != u;
        assert remaining == ActiveAdmins(rows) - {u};
        if remaining == {} {
          return OnlyAdministrator;
        }
      }
      rows := rows[u := current.(role := role, scope := JoinComma(scope), roleSource := source)];
      r := Applied;
    }

    /** POST /admin/users/{u}/active, by the administrator `actor`. */
    method SetActive(actor: string, u: string, active: bool) returns (r: Outcome)
      modifies this
      ensures (rows, r) == AfterSetActive(old(rows), actor, u, active)
    {
      if actor !in rows || !rows[actor].active || rows[actor].role != ADMIN {
        return NotPermitted;
      }
      if u !in rows {
        return NoSuchAccount;
      }
      if !active {
        if u == actor {
          return OwnAccount;
        }
        if rows[u].role == ADMIN {
          var remaining := set v | v in rows && rows[v].active && rows[v].role == ADMIN && v != u;
          assert remaining == ActiveAdmins(rows) - {u};
          if remaining == {} {
            return OnlyAdministrator;
          }
        }
      }
      rows := rows[u := rows[u].(active := active)];
      r := Applied;
    }

    /** Just-in-time provisioning from verified token claims. */
    method JitUpsert(id: Identity, now: int) returns (r: Outcome)
      requires forall u, v :: u in rows && v in rows && rows[u].externalId == rows[v].externalId == Some(id.externalId)
                             ==> u == v
      modifies this
      ensures (rows, r) == AfterSignIn(old(rows), id, now)
    {
      var linked := set u | u in rows && rows[u].externalId == Some(id.externalId);
      assert linked != {} <==> HasExternal(rows, id.externalId) by {
        if HasExternal(rows, id.externalId) {
          var u :| u in rows && rows[u].externalId == Some(id.externalId);
          assert u in linked;
        }
      }
      if linked != {} {
        var u :| u in linked;
        assert forall v :: v in rows && rows[v].externalId == Some(id.externalId) ==> v == u;
        rows := rows[u := Refreshed(rows[u], id, now)];
        assert rows == AfterSignIn(old(rows), id, now).0;
        return Applied;
      }
      if id.username in rows {
        if rows[id.username].externalId != None {
          return Duplicate;
        }
        rows := rows[id.username := Refreshed(rows[id.username], id, now)];
      } else {
        rows := rows[id.username := Account(
          id.defaultRole, true, OIDC, Some(id.externalId), JoinComma(id.defaultGroups),
          if id.defaultGroups == [] then MANUAL else id.groupsSource, MANUAL, now)];
      }
      r := Applied;
    }

    /** A local password account; the username is the unique key. */
    method Create(u: string, role: Role, scope: string) returns (r: Outcome)
      modifies this
      ensures (rows, r) == AfterCreate(old(rows), u, role, scope)
    {
      if u in rows {
        return Duplicate;
      }
      rows := rows[u := Account(role, true, LOCAL, None, scope, MANUAL, MANUAL, 0)];
      r := Applied;
    }

    /** The lookups: stamps whoever is still there and lists whoever is not. */
    method LookUp(accounts: seq<string>, answer: string -> Answer, now: int)
      returns (gone: seq<string>, errors: nat)
      requires forall u :: u in accounts ==> u in rows
      modifies this
      ensures gone == Missing(accounts, answer) && errors == Failures(accounts, answer)
      ensures rows == Stamped(old(rows), accounts, answer, now)
    {
      gone, errors := [], 0;
      for i := 0 to |accounts|
        invariant gone == Missing(accounts[..i], answer)
        invariant errors == Failures(accounts[..i], answer)
        invariant rows == Stamped(old(rows), accounts[..i], answer, now)
      {
        var u := accounts[i];
        assert u in accounts;
        LookUpSnoc(old(rows), accounts[..i], u, answer, now);
        assert accounts[..i + 1] == accounts[..i] + [u];
        match answer(u) {
          case Unreadable => errors := errors + 1;
          case Present => rows := rows[u := rows[u].(lastSeen := now)];
          case Gone => gone := gone + [u];
        }
      }
      assert accounts[..|accounts|] == accounts;
    }

    /** The sweep: deactivates in order, never the last active administrator. */
    method Sweep(gone: seq<string>, dryRun: bool) returns (deactivated: nat, kept: nat)
      requires forall i, j :: 0 <= i < j < |gone| ==> gone[i] != gone[j]
      requires forall u :: u in gone ==> u in rows && rows[u].active
      modifies this
      ensures rows == if dryRun then old(rows) else Deactivated(old(rows), Doomed(gone, old(rows)))
      ensures deactivated == |Doomed(gone, old(rows))| && kept == |Spared(gone, old(rows))|
    {
      var admins := set u | u in rows && rows[u].active && rows[u].role == ADMIN;
      deactivated, kept := 0, 0;
      ghost var start := Sweeping(rows, admins, 0, 0);
      for i := 0 to |gone|
        invariant Sweeping(rows, admins, deactivated, kept) == SweepAll(start, gone[..i], dryRun)
      {
        var u := gone[i];
        assert u in gone;
        assert gone[..i + 1][..i] == gone[..i];
        if rows[u].role == ADMIN && |admins| <= 1 {
          kept := kept + 1;
          continue;
        }
        if !dryRun {
          rows := rows[u := rows[u].(active := false)];
        }
        admins := admins - {u};
        deactivated := deactivated + 1;
      }
      assert gone[..|gone|] == gone;
      SweepIsDoomed(start.t, gone, dryRun);
    }

    /** One nightly pass, if the job is switched on. `accounts` is the roster the
        query returned and `answer` what Keycloak says of each of them. */
    method ReconcileUsers(enabled: bool, accounts: seq<string>, answer: string -> Answer,
                          ceiling: real, now: int, dryRun: bool) returns (skipped: bool, r: Report)
      requires IsRoster(accounts, rows)
      modifies this
      ensures skipped <==> !enabled
      ensures (rows, r) == if enabled then AfterReconcile(old(rows), accounts, answer, ceiling, now, dryRun)
                           else (old(rows), Report(0, 0, [], 0, false))
    {
      skipped := !enabled;
      if !enabled {
        return true, Report(0, 0, [], 0, false);
      }
      RosterMissing(rows, accounts, answer, now);
      var gone, errors := LookUp(accounts, answer, now);
      if gone == [] {
        return false, Report(|accounts|, 0, [], errors, false);
      }
      if OverCeiling(|gone|, |accounts|, ceiling) {
        return false, Report(|accounts|, 0, gone, errors, true);
      }
      var deactivated, kept := Sweep(gone, dryRun);
      r := Report(|accounts|, deactivated, gone, errors + kept, false);
    }
  }

  // ---------------------------------------------------------------------
  // what the reconcile job promises
  // ---------------------------------------------------------------------

  ghost function JustDeactivated(before: Table, after: Table): set<string> {
    set u | u in before && u in after && before[u].active && !after[u].active
  }

  /** A real run takes the flag from exactly the missing accounts minus the
      spared one; never from a local account or one whose lookup failed. */
  lemma {:induction false} RealRunDeactivatesExactly(t: Table, accounts: seq<string>, answer: string -> Answer,
                                                     ceiling: real, now: int)
    requires IsRoster(accounts, t)
    ensures var (after, r) := AfterReconcile(t, accounts, answer, ceiling, now, false);
            var gone := Missing(accounts, answer);
            && after.Keys == t.Keys
            && (forall u :: u in t ==> after[u].role == t[u].role && (after[u].active ==> t[u].active))
            && JustDeactivated(t, after) == (if r.refused then {} else Doomed(gone, t))
            && r.deactivated == |JustDeactivated(t, after)|
            && (forall u :: u in JustDeactivated(t, after) ==> t[u].auth == OIDC && answer(u) == Gone)
  {
    var r := AfterReconcile(t, accounts, answer, ceiling, now, false).1;
    RealRunTable(t, accounts, answer, ceiling, now);
    MissingFacts(accounts, answer);
    FlagsTaken(t, accounts, answer, now, if r.refused then {} else Doomed(Missing(accounts, answer), t));
  }

  /** A run is refused exactly when the missing are, in percent of the accounts
      it checked, more than the ceiling. */
  lemma {:induction false} RefusedIff(t: Table, accounts: seq<string>, answer: string -> Answer, ceiling: real,
                                      now: int, dryRun: bool)
    ensures var r := AfterReconcile(t, accounts, answer, ceiling, now, dryRun).1;
            && r.checked == |accounts| && r.missing == Missing(accounts, answer)
            && (r.refused <==> r.missing != [] && r.checked > 0 && Percent(|r.missing|, r.checked) > ceiling)
  {
  }

  lemma {:induction false} FlagsStayWhenRefused(t: Table, accounts: seq<string>, answer: string -> Answer,
                                                ceiling: real, now: int, dryRun: bool)
    ensures var (after, r) := AfterReconcile(t, accounts, answer, ceiling, now, dryRun);
            r.refused || dryRun ==> after.Keys == t.Keys && forall u :: u in t ==> after[u].active == t[u].active
  {
  }

  /** `a` of the accounts, in percent. */
  function Percent(a: nat, checked: nat): real
    requires checked > 0
  {
    100.0 * a as real / checked as real
  }

  lemma {:induction false} PercentIs(a: nat, checked: nat)
    requires checked > 0
    ensures Percent(a, checked) * checked as real == 100.0 * a as real
  {
  }

  lemma {:induction false} SmallerShare(a: nat, b: nat, checked: nat)
    requires a <= b && checked > 0
    ensures Percent(a, checked) <= Percent(b, checked)
  {
    var x, y := 100.0 * (a as real) / (checked as real), 100.0 * (b as real) / (checked as real);
    assert (y - x) * (checked as real) == 100.0 * (b as real) - 100.0 * (a as real);
  }

  lemma {:induction false} DoomedShare(t: Table, accounts: seq<string>, answer: string -> Answer, ceiling: real)
    requires accounts != [] && Percent(|Missing(accounts, answer)|, |accounts|) <= ceiling
    ensures Percent(|Doomed(Missing(accounts, answer), t)|, |accounts|) <= ceiling
  {
    var gone := Missing(accounts, answer);
    ElemsAtMost(gone);
    SubsetSize(Doomed(gone, t), Elems(gone));
    SmallerShare(|Doomed(gone, t)|, |gone|, |accounts|);
  }

  lemma {:induction false} TakenAreDoomed(t: Table, accounts: seq<string>, answer: string -> Answer,
                                          ceiling: real, now: int)
    requires IsRoster(accounts, t)
    ensures var (after, r) := AfterReconcile(t, accounts, answer, ceiling, now, false);
            var taken, gone := |JustDeactivated(t, after)|, Missing(accounts, answer);
            && (r.refused ==> taken == 0)
            && (taken > 0 ==> gone != [] && accounts != [] && taken == |Doomed(gone, t)|)
  {
    RealRunDeactivatesExactly(t, accounts, answer, ceiling, now);
    MissingAre(accounts, answer);
  }

  /** No run takes the flag from more than the ceiling's share of the accounts
      it checked, in percent. */
  lemma {:induction false} NeverAboveTheCeiling(t: Table, accounts: seq<string>, answer: string -> Answer,
                                                ceiling: real, now: int)
    requires IsRoster(accounts, t)
    ensures var (after, r) := AfterReconcile(t, accounts, answer, ceiling, now, false);
            var taken := |JustDeactivated(t, after)|;
            && (taken > 0 ==> accounts != [] && Percent(taken, |accounts|) <= ceiling)
            && (r.refused ==> taken == 0)
  {
    var (after, r) := AfterReconcile(t, accounts, answer, ceiling, now, false);
    TakenAreDoomed(t, accounts, answer, ceiling, now);
    if |JustDeactivated(t, after)| > 0 {
      RefusedIff(t, accounts, answer, ceiling, now, false);
      DoomedShare(t, accounts, answer, ceiling);
    }
  }

  /** A sign-in leaves role, flag and sources as they were, and the scope too
      unless it comes from the directory and is to be refreshed. */
  lemma {:induction false} SignInKeeps(a: Account, id: Identity, now: int)
    ensures var b := Refreshed(a, id, now);
            && b.role == a.role && b.active == a.active
            && b.scopeSource == a.scopeSource && b.roleSource == a.roleSource
            && b.externalId == Some(id.externalId) && b.auth == OIDC && b.lastSeen == now
            && (if id.refresh && id.defaultGroups != [] && a.scopeSource == SERVICENOW
                then b.scope == JoinComma(id.defaultGroups) else b.scope == a.scope)
  {
  }

  lemma {:induction false} RealRunTable(t: Table, accounts: seq<string>, answer: string -> Answer, ceiling: real,
                                        now: int)
    ensures var (after, r) := AfterReconcile(t, accounts, answer, ceiling, now, false);
            var doomed := if r.refused then {} else Doomed(Missing(accounts, answer), t);
            && after == Deactivated(Stamped(t, accounts, answer, now), doomed)
            && r.deactivated == |doomed| && r.checked == |accounts|
            && (r.deactivated > 0 ==> !r.refused && r.checked > 0
                                         && !OverCeiling(|Missing(accounts, answer)|, r.checked, ceiling))
  {
    var gone := Missing(accounts, answer);
    if gone == [] {
      assert Doomed(gone, t) == {};
    } else if OverCeiling(|gone|, |accounts|, ceiling) {
    } else {
      MissingAre(accounts, answer);
    }
  }

  lemma {:induction false} FlagsTaken(t: Table, accounts: seq<string>, answer: string -> Answer, now: int,
                                      doomed: set<string>)
    requires forall u :: u in doomed ==> u in t && t[u].active
    ensures var after := Deactivated(Stamped(t, accounts, answer, now), doomed);
            && after.Keys == t.Keys
            && (forall u :: u in t ==> after[u].role == t[u].role && (after[u].active ==> t[u].active))
            && JustDeactivated(t, after) == doomed
  {
    var after := Deactivated(Stamped(t, accounts, answer, now), doomed);
    assert forall u :: u in t ==> after[u].active == (t[u].active && u !in doomed);
  }

  /** A dry run reports word for word what the real run would, and takes no flag. */
  lemma {:induction false} DryRunForetells(t: Table, accounts: seq<string>, answer: string -> Answer, ceiling: real,
                                           now: int)
    requires IsRoster(accounts, t)
    ensures var (dry, foretold) := AfterReconcile(t, accounts, answer, ceiling, now, true);
            var (done, reported) := AfterReconcile(t, accounts, answer, ceiling, now, false);
            && foretold == reported
            && JustDeactivated(t, dry) == {}
            && foretold.deactivated == |JustDeactivated(t, done)|
  {
    RealRunDeactivatesExactly(t, accounts, answer, ceiling, now);
  }

  /** At most one account is spared, and only when every active administrator
      has gone from Keycloak. */
  lemma {:induction false} OneSparedAtMost(t: Table, accounts: seq<string>, answer: string -> Answer)
    requires IsRoster(accounts, t)
    ensures var spared := Spared(Missing(accounts, answer), t);
            && |spared| <= 1
            && (spared != {} <==> ActiveAdmins(t) != {}
                                    && forall a :: a in ActiveAdmins(t) ==> answer(a) == Gone && t[a].auth == OIDC)
            && spared <= ActiveAdmins(t)
  {
    var gone := Missing(accounts, answer);
    MissingFacts(accounts, answer);
    LastAdminFacts(gone, t);
    if ActiveAdmins(t) != {} && forall a :: a in ActiveAdmins(t) ==> answer(a) == Gone && t[a].auth == OIDC {
      var a :| a in ActiveAdmins(t);
      assert a in gone;
    }
  }

  // ---------------------------------------------------------------------
  // over every run: an active administrator remains
  // ---------------------------------------------------------------------

  datatype Op =
    | SetRoleOp(u: string, role: Role, scope: seq<string>, source: Source)
    | SetActiveOp(actor: string, u: string, active: bool)
    | SignInOp(id: Identity, now: int)
    | CreateOp(u: string, role: Role, scopeText: string)
    | ReconcileOp(accounts: seq<string>, answer: string -> Answer, ceiling: real, now: int, dryRun: bool)

  ghost function Apply(t: Table, op: Op): Table {
    match op
    case SetRoleOp(u, role, scope, source) => AfterSetRole(t, u, role, scope, source).0
    case SetActiveOp(actor, u, active) => AfterSetActive(t, actor, u, active).0
    case SignInOp(id, now) => AfterSignIn(t, id, now).0
    case CreateOp(u, role, scope) => AfterCreate(t, u, role, scope).0
    case ReconcileOp(accounts, answer, ceiling, now, dryRun) =>
      if IsRoster(accounts, t) then AfterReconcile(t, accounts, answer, ceiling, now, dryRun).0 else t
  }

  ghost function RunOps(t: Table, ops: seq<Op>): Table
    decreases |ops|
  {
    if ops == [] then t else RunOps(Apply(t, ops[0]), ops[1..])
  }

  lemma {:induction false} ReconcileKeepsAnAdmin(t: Table, accounts: seq<string>, answer: string -> Answer,
                                                 ceiling: real, now: int)
    requires IsRoster(accounts, t) && ActiveAdmins(t) != {}
    ensures ActiveAdmins(AfterReconcile(t, accounts, answer, ceiling, now, false).0) != {}
  {
    var after := AfterReconcile(t, accounts, answer, ceiling, now, false).0;
    var gone := Missing(accounts, answer);
    RealRunDeactivatesExactly(t, accounts, answer, ceiling, now);
    LastAdminFacts(gone, t);
    if ActiveAdmins(t) <= Elems(gone) {
      var a :| a in ActiveAdmins(t);
      var kept := LastAdmin(gone, t).value;
      RosterMissing(t, accounts, answer, now);
      assert kept !in JustDeactivated(t, after);
      assert kept in ActiveAdmins(after);
    } else {
      var a :| a in ActiveAdmins(t) && a !in Elems(gone);
      assert a !in JustDeactivated(t, after);
      assert a in ActiveAdmins(after);
    }
  }

  lemma {:induction false} OneOpKeepsAnAdmin(t: Table, op: Op)
    requires ActiveAdmins(t) != {}
    ensures ActiveAdmins(Apply(t, op)) != {}
  {
    match op
    case SetRoleOp(u, role, scope, source) =>
      if u in t && t[u].role == ADMIN && role != ADMIN && ActiveAdmins(t) - {u} != {} {
        var a :| a in ActiveAdmins(t) - {u};
        assert a in ActiveAdmins(Apply(t, op));
      } else {
        var a :| a in ActiveAdmins(t);
        assert a in ActiveAdmins(Apply(t, op));
      }
    case SetActiveOp(actor, u, active) =>
      var a :| a in ActiveAdmins(t) && (actor in ActiveAdmins(t) ==> a == actor);
      assert a in ActiveAdmins(Apply(t, op));
    case SignInOp(id, now) =>
      var a :| a in ActiveAdmins(t);
      assert a in ActiveAdmins(Apply(t, op));
    case CreateOp(u, role, scope) =>
      var a :| a in ActiveAdmins(t);
      assert a in ActiveAdmins(Apply(t, op));
    case ReconcileOp(accounts, answer, ceiling, now, dryRun) =>
      if IsRoster(accounts, t) {
        if dryRun {
          var a :| a in ActiveAdmins(t);
          assert a in ActiveAdmins(Apply(t, op));
        } else {
          ReconcileKeepsAnAdmin(t, accounts, answer, ceiling, now);
        }
      }
  }

  /** Starting from a service that has an active administrator, no finite
      sequence of these operations leaves it without one. */
  lemma {:induction false} AnAdminAlwaysRemains(t: Table, ops: seq<Op>)
    requires ActiveAdmins(t) != {}
    ensures ActiveAdmins(RunOps(t, ops)) != {}
    decreases |ops|
  {
    if ops != [] {
      OneOpKeepsAnAdmin(t, ops[0]);
      AnAdminAlwaysRemains(Apply(t, ops[0]), ops[1..]);
    }
  }
}
