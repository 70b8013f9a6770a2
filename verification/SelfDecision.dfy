/** web/access.py under interleaving: nobody decides their own request, and
    nobody else withdraws it. The check that says so comes some statements
    before the one that decides. */
module SelfDecision {
  import opened Text
  import opened AccessRequests
  import opened AccessProtocol

  /** A call that has read its row knows whose request it is, and one that has
      passed the check is not by that person. */
  ghost predicate ByAnother(m: Machine, t: Thread) {
    !t.Begun? && !t.Finished? ==>
      && !t.call.Cancel? && t.call.id in m.requests && m.requests[t.call.id].username == t.req.username
      && (!t.HasRequest? ==> t.call.admin != t.req.username)
  }

  /** How a row that some call has decided was decided. */
  ghost predicate DecidedByAnother(m: Machine, id: nat) {
    && id in m.requests && id in m.winner && m.winner[id] in m.threads
    && var r, c := m.requests[id], m.threads[m.winner[id]].call;
       match r.status
       case APPROVED => c.Approve? && r.decidedBy == Some(c.admin) && c.admin != r.username
       case REJECTED => c.Reject? && r.decidedBy == Some(c.admin) && c.admin != r.username
       case CANCELLED => c.Cancel? && c.user == r.username
       case _ => false
  }

  ghost predicate Fair(m: Machine) {
    && (forall i :: i in m.threads ==> ByAnother(m, m.threads[i]))
    && (forall id :: id in m.winner ==> DecidedByAnother(m, id))
  }

  /** Rows keep their owner, decided rows keep everything. */
  ghost predicate RowsStay(m: Machine, m': Machine) {
    && (forall id :: id in m.requests ==> id in m'.requests && m'.requests[id].username == m.requests[id].username)
    && (forall id :: Decided(m, id) ==> m'.requests[id] == m.requests[id])
  }

  ghost predicate CallsStay(m: Machine, m': Machine) {
    forall i :: i in m.threads ==> i in m'.threads && m'.threads[i].call == m.threads[i].call
  }

  lemma {:induction false} OldDecisionsStay(m: Machine, m': Machine, id: nat)
    requires DecidedByAnother(m, id) && RowsStay(m, m') && CallsStay(m, m')
    requires id in m'.winner && m'.winner[id] == m.winner[id]
    ensures DecidedByAnother(m', id)
  {
    assert Decided(m, id);
  }

  ghost predicate OthersStay(m: Machine, m': Machine, i: nat) {
    m'.threads.Keys == m.threads.Keys && forall j :: j in m.threads && j != i ==> m'.threads[j] == m.threads[j]
  }

  lemma {:induction false} RowsAtFirst(m: Machine, i: nat, now: int, joined: Option<string>)
    requires i in m.threads && (m.threads[i].Begun? || m.threads[i].HasRequest?)
    ensures RowsStay(m, StepThread(m, i, now, joined))
  {
  }

  lemma {:induction false} RowsAtTheGuard(m: Machine, i: nat, now: int, joined: Option<string>)
    requires i in m.threads && (m.threads[i].Cleared? || m.threads[i].HasScope?)
    ensures RowsStay(m, StepThread(m, i, now, joined))
  {
  }

  lemma {:induction false} RowsAfterStep(m: Machine, i: nat, now: int, joined: Option<string>)
    requires i in m.threads
    ensures RowsStay(m, StepThread(m, i, now, joined))
  {
    match m.threads[i]
    case Begun(_) => RowsAtFirst(m, i, now, joined);
    case HasRequest(_, _) => RowsAtFirst(m, i, now, joined);
    case Cleared(_, _) => RowsAtTheGuard(m, i, now, joined);
    case HasScope(_, _, _, _) => RowsAtTheGuard(m, i, now, joined);
    case WonRow(_, _, _, _) =>
    case Demoting(_, _, _, _) =>
    case Writing(_, _, _, _) =>
    case Finished(_, _) =>
  }

  lemma {:induction false} CallAtFirst(m: Machine, i: nat, now: int, joined: Option<string>)
    requires i in m.threads && (m.threads[i].Begun? || m.threads[i].HasRequest?)
    ensures var m' := StepThread(m, i, now, joined); i in m'.threads && m'.threads[i].call == m.threads[i].call
  {
  }

  lemma {:induction false} CallAtTheGuard(m: Machine, i: nat, now: int, joined: Option<string>)
    requires i in m.threads && (m.threads[i].Cleared? || m.threads[i].HasScope?)
    ensures var m' := StepThread(m, i, now, joined); i in m'.threads && m'.threads[i].call == m.threads[i].call
  {
  }

  lemma {:induction false} ThreadsAfterStep(m: Machine, i: nat, now: int, joined: Option<string>)
    requires i in m.threads
    ensures CallsStay(m, StepThread(m, i, now, joined)) && OthersStay(m, StepThread(m, i, now, joined), i)
  {
    var m' := StepThread(m, i, now, joined);
    OwnCall(m, i, now, joined);
    forall j | j != i ensures At(m', j) == At(m, j) {
      OthersStandStill(m, i, now, joined, j);
    }
    assert forall j :: j in m'.threads <==> At(m', j).Some?;
    assert forall j :: j in m.threads <==> At(m, j).Some?;
  }

  lemma {:induction false} OwnCall(m: Machine, i: nat, now: int, joined: Option<string>)
    requires i in m.threads
    ensures var m' := StepThread(m, i, now, joined); i in m'.threads && m'.threads[i].call == m.threads[i].call
  {
    match m.threads[i]
    case Begun(_) => CallAtFirst(m, i, now, joined);
    case HasRequest(_, _) => CallAtFirst(m, i, now, joined);
    case Cleared(_, _) => CallAtTheGuard(m, i, now, joined);
    case HasScope(_, _, _, _) => CallAtTheGuard(m, i, now, joined);
    case WonRow(_, _, _, _) =>
    case Demoting(_, _, _, _) =>
    case Writing(_, _, _, _) =>
    case Finished(_, _) =>
  }

  lemma {:induction false} OwnStepAtTheGuard(m: Machine, i: nat, now: int, joined: Option<string>)
    requires i in m.threads && ByAnother(m, m.threads[i]) && (m.threads[i].Cleared? || m.threads[i].HasScope?)
    ensures var m' := StepThread(m, i, now, joined); i in m'.threads && ByAnother(m', m'.threads[i])
  {
  }

  lemma {:induction false} OwnStepIsFair(m: Machine, i: nat, now: int, joined: Option<string>)
    requires i in m.threads && ByAnother(m, m.threads[i])
    ensures var m' := StepThread(m, i, now, joined); i in m'.threads && ByAnother(m', m'.threads[i])
  {
    match m.threads[i]
    case Begun(_) =>
    case HasRequest(c, req) => WhoMayDecide(req, c.admin, m.accounts);
    case Cleared(_, _) => OwnStepAtTheGuard(m, i, now, joined);
    case HasScope(_, _, _, _) => OwnStepAtTheGuard(m, i, now, joined);
    case WonRow(_, _, _, _) =>
    case Demoting(_, _, _, _) =>
    case Writing(_, _, _, _) =>
    case Finished(_, _) =>
  }

  /** A row decided by this very statement was decided fairly. */
  lemma {:induction false} NewDecisionIsFair(m: Machine, i: nat, now: int, joined: Option<string>, id: nat)
    requires i in m.threads && ByAnother(m, m.threads[i])
    ensures var m' := StepThread(m, i, now, joined);
            id in m'.winner ==> (id in m.winner && m'.winner[id] == m.winner[id]) || DecidedByAnother(m', id)
  {
    match m.threads[i]
    case Begun(_) =>
    case HasRequest(_, _) =>
    case Cleared(_, _) =>
    case HasScope(_, _, _, _) =>
    case WonRow(_, _, _, _) =>
    case Demoting(_, _, _, _) =>
    case Writing(_, _, _, _) =>
    case Finished(_, _) =>
  }

  lemma {:induction false} StepIsFair(m: Machine, i: nat, now: int, joined: Option<string>)
    requires Fair(m) && i in m.threads
    ensures Fair(StepThread(m, i, now, joined))
  {
    var m' := StepThread(m, i, now, joined);
    RowsAfterStep(m, i, now, joined);
    ThreadsAfterStep(m, i, now, joined);
    OwnStepIsFair(m, i, now, joined);
    forall j | j in m'.threads ensures ByAnother(m', m'.threads[j]) {
      assert j != i ==> ByAnother(m, m.threads[j]);
    }
    forall id | id in m'.winner ensures DecidedByAnother(m', id) {
      NewDecisionIsFair(m, i, now, joined, id);
      if id in m.winner && m'.winner[id] == m.winner[id] {
        OldDecisionsStay(m, m', id);
      }
    }
  }

  lemma {:induction false} TableWriteIsFair(m: Machine, m': Machine)
    requires Fair(m) && RowsStay(m, m') && m'.threads == m.threads && m'.winner == m.winner
    ensures Fair(m')
  {
    forall j | j in m'.threads ensures ByAnother(m', m'.threads[j]) {
      assert ByAnother(m, m.threads[j]);
    }
    forall id | id in m'.winner ensures DecidedByAnother(m', id) {
      OldDecisionsStay(m, m', id);
    }
  }

  lemma {:induction false} NextIsFair(m: Machine, e: Event)
    requires Fair(m)
    ensures Fair(Next(m, e))
  {
    match e
    case Start(i, c) =>
      forall id | id in m.winner ensures DecidedByAnother(Next(m, e), id) {
        OldDecisionsStay(m, Next(m, e), id);
      }
    case Step(i, now, joined) => if i in m.threads { StepIsFair(m, i, now, joined); }
    case Sweep(now, cutoff) => TableWriteIsFair(m, Next(m, e));
    case Open(id, r) => TableWriteIsFair(m, Next(m, e));
    case AccountWrite(accounts) => TableWriteIsFair(m, Next(m, e));
  }

  /** Over every run: a request that a call approved or rejected was decided by
      somebody else than the one who made it, and one that was withdrawn was
      withdrawn by them. */
  lemma {:induction false} NobodyDecidesTheirOwn(m: Machine, events: seq<Event>)
    requires Initial(m)
    ensures Fair(Run(m, events))
    ensures var s := Run(m, events);
            forall id :: id in s.winner ==>
              && id in s.requests
              && (s.requests[id].status == APPROVED || s.requests[id].status == REJECTED ==>
                    s.requests[id].decidedBy.Some? && s.requests[id].decidedBy.value != s.requests[id].username)
              && (s.requests[id].status == CANCELLED ==> s.threads[s.winner[id]].call.user == s.requests[id].username)
  {
    if events != [] {
      var front := events[..|events| - 1];
      NobodyDecidesTheirOwn(m, front);
      NextIsFair(Run(m, front), events[|events| - 1]);
    }
    assert forall id :: id in Run(m, events).winner ==> DecidedByAnother(Run(m, events), id);
  }
}
