/** The decision calls of web/access.py as concurrent threads. Each event is one
    SQL statement; between two of them anything may happen: other decisions on
    the same row, the nightly sweep, new requests, and arbitrary writes to the
    account table by everything else in the service. */
module AccessProtocol {
  import opened Text
  import opened Queues
  import opened Accounts
  import opened AccessRequests

  datatype Call =
    | Approve(id: nat, admin: string, granted: seq<string>, note: string, valid: Option<seq<string>>)
    | Reject(id: nat, admin: string, note: string)
    | Cancel(id: nat, user: string)

  datatype Outcome = WasApplied | WasDecided | WasNotFound | WasRefused | SetRoleRaised

  /** Where a call has got to, and what it has in its local variables. */
  datatype Thread =
    | Begun(call: Call)
    | HasRequest(call: Call, req: Request)
    | Cleared(call: Call, req: Request)
    | HasScope(call: Call, req: Request, groups: string, seen: Option<Account>)
    | WonRow(call: Call, req: Request, groups: string, seen: Option<Account>)
    | Demoting(call: Call, req: Request, groups: string, seen: Option<Account>)
    | Writing(call: Call, req: Request, groups: string, seen: Option<Account>)
    | Finished(call: Call, outcome: Outcome)

  /** One invocation of set_role, with its arguments. */
  datatype Invocation = Invocation(thread: nat, id: nat, username: string, role: Role, scope: seq<string>)

  /** `winner` and `invoked` record history; nothing reads them. */
  datatype Machine = Machine(
    requests: Requests, accounts: Table, threads: map<nat, Thread>,
    winner: map<nat, nat>, invoked: seq<Invocation>)

  datatype Event =
    | Start(thread: nat, call: Call)
    | Step(thread: nat, now: int, joined: Option<string>)
    | Sweep(now: int, cutoff: int)
    | Open(id: nat, request: Request)
    | AccountWrite(accounts: Table)

  function ScopeOf(t: Thread): seq<string>
    requires t.HasScope? || t.WonRow? || t.Demoting? || t.Writing?
  {
    ResultingScope(t.seen, t.req.toRole, ParseGroups(t.groups))
  }

  function Put(m: Machine, i: nat, t: Thread): Machine {
    m.(threads := m.threads[i := t])
  }

  function Finish(m: Machine, i: nat, outcome: Outcome): Machine
    requires i in m.threads
  {
    Put(m, i, Finished(m.threads[i].call, outcome))
  }

  /** The row is decided by thread i, which records the win. */
  function Win(m: Machine, i: nat, id: nat, r: Request): Machine {
    m.(requests := m.requests[id := r], winner := m.winner[id := i])
  }

  // -- one statement of one call -----------------------------------------

  /** SELECT * FROM role_request WHERE id = .. */
  function ReadRequest(m: Machine, i: nat, c: Call): Machine
    requires i in m.threads && !c.Cancel?
  {
    if c.id in m.requests then Put(m, i, HasRequest(c, m.requests[c.id]))
    else m.(threads := m.threads[i := Finished(c, WasNotFound)])
  }

  /** The account read behind `_refuse_decision`. */
  function CheckAccount(m: Machine, i: nat, c: Call, req: Request): Machine
    requires i in m.threads && !c.Cancel?
  {
    if MayDecide(req, c.admin, Live(m.accounts, req.username)) then Put(m, i, Cleared(c, req))
    else m.(threads := m.threads[i := Finished(c, WasRefused)])
  }

  /** Everything up to and including the account read in `_resulting_scope`. */
  ghost function ReadScope(m: Machine, i: nat, c: Call, req: Request, joined: Option<string>): Machine
    requires i in m.threads && c.Approve?
  {
    var groups := Granted(joined, req);
    var next := HasScope(c, req, groups, Live(m.accounts, req.username));
    if !IsJoin(c.granted, joined) then m
    else if !AllKnown(c.granted, c.valid) || groups == "" || ScopeOf(next) == []
    then m.(threads := m.threads[i := Finished(c, WasRefused)])
    else Put(m, i, next)
  }

  /** The guarded UPDATE of an approval. */
  function TryApprove(m: Machine, i: nat, t: Thread, now: int): Machine
    requires i in m.threads && t.HasScope? && t.call.Approve?
  {
    if IsOpen(m.requests, t.call.id)
    then Put(Win(m, i, t.call.id, Approved(m.requests[t.call.id], t.call.admin, now, t.groups, t.call.note)),
             i, WonRow(t.call, t.req, t.groups, t.seen))
    else m.(threads := m.threads[i := Finished(t.call, WasDecided)])
  }

  function TryReject(m: Machine, i: nat, c: Call, now: int): Machine
    requires i in m.threads && c.Reject?
  {
    if IsOpen(m.requests, c.id)
    then Put(Win(m, i, c.id, Rejected(m.requests[c.id], c.admin, now, c.note)), i, Finished(c, WasApplied))
    else m.(threads := m.threads[i := Finished(c, WasDecided)])
  }

  function TryCancel(m: Machine, i: nat, c: Call, now: int): Machine
    requires i in m.threads && c.Cancel?
  {
    if IsOpen(m.requests, c.id) && m.requests[c.id].username == c.user
    then Put(Win(m, i, c.id, Cancelled(m.requests[c.id], now)), i, Finished(c, WasApplied))
    else m.(threads := m.threads[i := Finished(c, WasDecided)])
  }

  /** set_role is called: its own account read comes first. */
  function EnterSetRole(m: Machine, i: nat, t: Thread): Machine
    requires i in m.threads && t.WonRow?
  {
    var m' := m.(invoked := m.invoked + [Invocation(i, t.call.id, t.req.username, t.req.toRole, ScopeOf(t))]);
    var account := Live(m.accounts, t.req.username);
    if account.None? then m'.(threads := m.threads[i := Finished(t.call, SetRoleRaised)])
    else if account.value.role == ADMIN && t.req.toRole != ADMIN
    then Put(m', i, Demoting(t.call, t.req, t.groups, t.seen))
    else Put(m', i, Writing(t.call, t.req, t.groups, t.seen))
  }

  /** The query for the other active administrators. */
  ghost function CheckDemotion(m: Machine, i: nat, t: Thread): Machine
    requires i in m.threads && t.Demoting?
  {
    if ActiveAdmins(m.accounts) - {t.req.username} == {}
    then m.(threads := m.threads[i := Finished(t.call, SetRoleRaised)])
    else Put(m, i, Writing(t.call, t.req, t.groups, t.seen))
  }

  /** UPDATE advisor_user .. WHERE id = .. */
  function WriteRole(m: Machine, i: nat, t: Thread): Machine
    requires i in m.threads && t.Writing?
  {
    var u := t.req.username;
    var accounts := if u in m.accounts
                    then m.accounts[u := m.accounts[u].(role := t.req.toRole, scope := JoinComma(ScopeOf(t)),
                                                          roleSource := REQUEST)]
                    else m.accounts;
    m.(accounts := accounts, threads := m.threads[i := Finished(t.call, WasApplied)])
  }

  ghost function StepThread(m: Machine, i: nat, now: int, joined: Option<string>): Machine
    requires i in m.threads
  {
    match m.threads[i]
    case Begun(c) => if c.Cancel? then TryCancel(m, i, c, now) else ReadRequest(m, i, c)
    case HasRequest(c, req) => if c.Cancel? then m else CheckAccount(m, i, c, req)
    case Cleared(c, req) =>
      (match c
       case Approve(_, _, _, _, _) => ReadScope(m, i, c, req, joined)
       case Reject(_, _, _) => TryReject(m, i, c, now)
       case Cancel(_, _) => m)
    case HasScope(c, _, _, _) => if c.Approve? then TryApprove(m, i, m.threads[i], now) else m
    case WonRow(_, _, _, _) => EnterSetRole(m, i, m.threads[i])
    case Demoting(_, _, _, _) => CheckDemotion(m, i, m.threads[i])
    case Writing(_, _, _, _) => WriteRole(m, i, m.threads[i])
    case Finished(_, _) => m
  }

  /** An INSERT succeeds only on a fresh key and against no open twin. */
  ghost predicate MayInsert(rs: Requests, id: nat, r: Request) {
    && id !in rs && r.status == PENDING
    && forall k :: IsOpen(rs, k) ==> !(rs[k].username == r.username && rs[k].toRole == r.toRole)
  }

  ghost function Next(m: Machine, e: Event): Machine {
    match e
    case Start(i, c) => if i in m.threads then m else Put(m, i, Begun(c))
    case Step(i, now, joined) => if i in m.threads then StepThread(m, i, now, joined) else m
    case Sweep(now, cutoff) => m.(requests := Aged(m.requests, now, cutoff))
    case Open(id, r) => if MayInsert(m.requests, id, r) then m.(requests := m.requests[id := r]) else m
    case AccountWrite(accounts) => m.(accounts := accounts)
  }

  ghost function Run(m: Machine, events: seq<Event>): Machine {
    if events == [] then m
    else Next(Run(m, events[..|events| - 1]), events[|events| - 1])
  }

  /** No call has begun and nothing has been decided by one. */
  ghost predicate Initial(m: Machine) {
    m.threads == map[] && m.winner == map[] && m.invoked == [] && OneOpenEach(m.requests)
  }

  // ---------------------------------------------------------------------
  // a decided row never changes
  // ---------------------------------------------------------------------

  ghost predicate Decided(m: Machine, id: nat) {
    id in m.requests && m.requests[id].status != PENDING
  }

  lemma {:induction false} DecidedRowsStay(m: Machine, e: Event, id: nat)
    requires Decided(m, id)
    ensures Decided(Next(m, e), id) && Next(m, e).requests[id] == m.requests[id]
  {
  }

  /** From the moment a request leaves PENDING, its whole row - status, who
      decided, when, what was granted and the note - is what it will always be. */
  lemma {:induction false} ADecisionIsFinal(m: Machine, before: seq<Event>, after: seq<Event>, id: nat)
    requires Decided(Run(m, before), id)
    ensures Decided(Run(m, before + after), id)
    ensures Run(m, before + after).requests[id] == Run(m, before).requests[id]
  {
    if after == [] {
      assert before + after == before;
    } else {
      var front, last := after[..|after| - 1], after[|after| - 1];
      ADecisionIsFinal(m, before, front, id);
      assert (before + after)[..|before + after| - 1] == before + front;
      DecidedRowsStay(Run(m, before + front), last, id);
    }
  }

  /** How often, over the run, the row went from open to decided. */
  ghost function Departures(m: Machine, events: seq<Event>, id: nat): nat {
    if events == [] then 0
    else
      var front := events[..|events| - 1];
      Departures(m, front, id) + if !Decided(Run(m, front), id) && Decided(Run(m, events), id) then 1 else 0
  }

  /** A request leaves PENDING at most once over any run whatever. */
  lemma {:induction false} LeavesPendingAtMostOnce(m: Machine, events: seq<Event>, id: nat)
    ensures Departures(m, events, id) <= 1
    ensures Departures(m, events, id) == 1 ==> Decided(Run(m, events), id)
  {
    if events != [] {
      var front := events[..|events| - 1];
      LeavesPendingAtMostOnce(m, front, id);
      if Decided(Run(m, front), id) {
        DecidedRowsStay(Run(m, front), events[|events| - 1], id);
      }
    }
  }

  // ---------------------------------------------------------------------
  // what every step keeps
  // ---------------------------------------------------------------------

  predicate HoldsRow(t: Thread) {
    t.WonRow? || t.Demoting? || t.Writing?
  }

  ghost predicate InvokedBy(m: Machine, i: nat) {
    exists k :: 0 <= k < |m.invoked| && m.invoked[k].thread == i
  }

  /** A thread past the guard won that row, as its call says. */
  ghost predicate WonProperly(m: Machine, i: nat, t: Thread)
    requires HoldsRow(t)
  {
    && t.call.Approve? && t.call.id in m.winner && m.winner[t.call.id] == i
    && Decided(m, t.call.id)
    && m.requests[t.call.id].status == APPROVED
    && m.requests[t.call.id].decidedBy == Some(t.call.admin)
    && m.requests[t.call.id].granted == Some(t.groups)
  }

  ghost predicate ThreadOk(m: Machine, i: nat, t: Thread) {
    && (HoldsRow(t) ==> WonProperly(m, i, t))
    && (!t.Finished? && !t.Demoting? && !t.Writing? ==> !InvokedBy(m, i))
    && (!t.Begun? && !t.Finished? ==> !t.call.Cancel? && t.call.id in m.requests)
    && (t.Finished? && (t.outcome.WasApplied? || t.outcome.SetRoleRaised?) ==>
           t.call.id in m.winner && m.winner[t.call.id] == i)
    && (t.Finished? && t.outcome.WasDecided? && !t.call.Cancel? ==> Decided(m, t.call.id))
  }

  ghost predicate InvocationOk(m: Machine, v: Invocation) {
    && v.thread in m.threads && m.threads[v.thread].call.Approve? && m.threads[v.thread].call.id == v.id
    && v.id in m.winner && m.winner[v.id] == v.thread
    && Decided(m, v.id) && m.requests[v.id].status == APPROVED
    && m.requests[v.id].decidedBy == Some(m.threads[v.thread].call.admin)
  }

  ghost predicate Inv(m: Machine) {
    && (forall i :: i in m.threads ==> ThreadOk(m, i, m.threads[i]))
    && (forall id :: id in m.winner ==> Decided(m, id) && m.winner[id] in m.threads)
    && (forall v :: v in m.invoked ==> InvocationOk(m, v))
    && (forall j, k :: 0 <= j < k < |m.invoked| ==> m.invoked[j].id != m.invoked[k].id)
    && OneOpenEach(m.requests)
  }

  /** How any step relates to the state before it, seen from everybody else. */
  ghost predicate OnlyThread(m: Machine, m': Machine, i: nat) {
    && (forall j :: j in m'.threads <==> j in m.threads || j == i)
    && (forall j :: j in m.threads && j != i ==> m'.threads[j] == m.threads[j])
    && (i in m.threads ==> m'.threads[i].call == m.threads[i].call)
    && (forall id :: Decided(m, id) ==> Decided(m', id) && m'.requests[id] == m.requests[id])
    && (forall id :: id in m.requests ==> id in m'.requests)
    && (forall id :: id in m.winner ==> id in m'.winner && m'.winner[id] == m.winner[id])
    && (m'.invoked == m.invoked || exists v: Invocation :: v.thread == i && m'.invoked == m.invoked + [v])
  }

  lemma {:induction false} OthersAreUndisturbed(m: Machine, m': Machine, i: nat)
    requires Inv(m) && OnlyThread(m, m', i)
    ensures forall j :: j in m.threads && j != i ==> ThreadOk(m', j, m'.threads[j])
    ensures forall v :: v in m.invoked ==> InvocationOk(m', v)
    ensures forall id :: id in m.winner ==> Decided(m', id) && m'.winner[id] in m'.threads
  {
    forall j | j in m.threads && j != i ensures ThreadOk(m', j, m'.threads[j]) {
      assert ThreadOk(m, j, m.threads[j]);
      if InvokedBy(m', j) {
        var k :| 0 <= k < |m'.invoked| && m'.invoked[k].thread == j;
        assert k < |m.invoked| && m.invoked[k].thread == j;
      }
    }
  }

  ghost predicate NoNewOpen(rs: Requests, rs': Requests) {
    forall id :: IsOpen(rs', id) ==> IsOpen(rs, id) && rs'[id] == rs[id]
  }

  lemma {:induction false} FewerOpenRequests(rs: Requests, rs': Requests)
    requires OneOpenEach(rs) && NoNewOpen(rs, rs')
    ensures OneOpenEach(rs')
  {
  }

  /** A step that moves only thread i's own position. */
  lemma {:induction false} MovedThread(m: Machine, i: nat, t: Thread)
    requires Inv(m) && (i in m.threads ==> t.call == m.threads[i].call)
    requires ThreadOk(m, i, t)
    ensures Inv(Put(m, i, t))
  {
    var m' := Put(m, i, t);
    OthersAreUndisturbed(m, m', i);
    assert InvokedBy(m', i) == InvokedBy(m, i);
    assert ThreadOk(m', i, t);
  }

  /** A step in which thread i decides the row `id`. */
  lemma {:induction false} WonDecision(m: Machine, i: nat, id: nat, r: Request, t: Thread)
    requires Inv(m) && i in m.threads && t.call == m.threads[i].call && t.call.id == id
    requires !m.threads[i].Finished? && !m.threads[i].Demoting? && !m.threads[i].Writing?
    requires IsOpen(m.requests, id) && r.status != PENDING
    requires if t.WonRow? then t.call.Approve? && r.status == APPROVED && r.decidedBy == Some(t.call.admin)
                            && r.granted == Some(t.groups)
             else t.Finished? && t.outcome.WasApplied?
    ensures Inv(Put(Win(m, i, id, r), i, t))
  {
    var m' := Put(Win(m, i, id, r), i, t);
    assert !Decided(m, id);
    assert id !in m.winner;
    OthersAreUndisturbed(m, m', i);
    FewerOpenRequests(m.requests, m'.requests);
    assert ThreadOk(m, i, m.threads[i]);
    assert InvokedBy(m', i) == InvokedBy(m, i);
    assert ThreadOk(m', i, t);
  }

  /** The call of set_role, as it is recorded. */
  function Invoked(i: nat, t: Thread): Invocation
    requires t.WonRow?
  {
    Invocation(i, t.call.id, t.req.username, t.req.toRole, ScopeOf(t))
  }

  lemma {:induction false} EnteringRecords(m: Machine, i: nat)
    requires i in m.threads && m.threads[i].WonRow?
    ensures var t, m' := m.threads[i], EnterSetRole(m, i, m.threads[i]);
            && m'.invoked == m.invoked + [Invoked(i, t)]
            && m'.requests == m.requests && m'.winner == m.winner && i in m'.threads
            && m'.threads == m.threads[i := m'.threads[i]] && m'.threads[i].call == t.call
            && (m'.threads[i].Demoting? || m'.threads[i].Writing? || m'.threads[i] == Finished(t.call, SetRoleRaised))
            && (HoldsRow(m'.threads[i]) ==> m'.threads[i].groups == t.groups)
  {
  }

  /** No invocation so far is for a row this thread has won. */
  lemma {:induction false} FirstInvocation(m: Machine, i: nat)
    requires Inv(m) && i in m.threads && m.threads[i].WonRow?
    ensures forall k :: 0 <= k < |m.invoked| ==> m.invoked[k].id != m.threads[i].call.id
  {
    assert ThreadOk(m, i, m.threads[i]);
    forall k | 0 <= k < |m.invoked| ensures m.invoked[k].id != m.threads[i].call.id {
      assert m.invoked[k] in m.invoked;
      assert InvocationOk(m, m.invoked[k]);
    }
  }

  /** The step in which the winner calls set_role. */
  lemma {:induction false} EnteredSetRole(m: Machine, i: nat)
    requires Inv(m) && i in m.threads && m.threads[i].WonRow?
    ensures Inv(EnterSetRole(m, i, m.threads[i]))
  {
    var t, m' := m.threads[i], EnterSetRole(m, i, m.threads[i]);
    EnteringRecords(m, i);
    FirstInvocation(m, i);
    assert ThreadOk(m, i, t);
    assert Invoked(i, t).thread == i;
    OthersAreUndisturbed(m, m', i);
    assert InvocationOk(m', Invoked(i, t));
    assert ThreadOk(m', i, m'.threads[i]);
  }

  lemma {:induction false} WroteRole(m: Machine, i: nat)
    requires Inv(m) && i in m.threads && m.threads[i].Writing?
    ensures Inv(WriteRole(m, i, m.threads[i]))
  {
    var t := m.threads[i];
    assert ThreadOk(m, i, t);
    MovedThread(m, i, Finished(t.call, WasApplied));
    OtherTables(Put(m, i, Finished(t.call, WasApplied)), WriteRole(m, i, t));
  }

  /** The account table plays no part in the invariant. */
  lemma {:induction false} OtherTables(m: Machine, m': Machine)
    requires Inv(m) && m' == m.(accounts := m'.accounts)
    ensures Inv(m')
  {
    forall i | i in m'.threads ensures ThreadOk(m', i, m'.threads[i]) {
      assert ThreadOk(m, i, m.threads[i]);
      assert InvokedBy(m', i) == InvokedBy(m, i);
    }
    forall v | v in m'.invoked ensures InvocationOk(m', v) {
      assert InvocationOk(m, v);
    }
  }

  lemma {:induction false} FirstStepKeepsInv(m: Machine, i: nat, now: int, joined: Option<string>)
    requires Inv(m) && i in m.threads && m.threads[i].Begun?
    ensures Inv(StepThread(m, i, now, joined))
  {
    var c := m.threads[i].call;
    assert ThreadOk(m, i, m.threads[i]);
    if c.Cancel? && IsOpen(m.requests, c.id) && m.requests[c.id].username == c.user {
      WonDecision(m, i, c.id, Cancelled(m.requests[c.id], now), Finished(c, WasApplied));
    } else {
      MovedThread(m, i, StepThread(m, i, now, joined).threads[i]);
    }
  }

  lemma {:induction false} TryRejectKeepsInv(m: Machine, i: nat, c: Call, now: int)
    requires Inv(m) && i in m.threads && m.threads[i].Cleared? && m.threads[i].call == c && c.Reject?
    ensures Inv(TryReject(m, i, c, now))
  {
    assert ThreadOk(m, i, m.threads[i]);
    if IsOpen(m.requests, c.id) {
      WonDecision(m, i, c.id, Rejected(m.requests[c.id], c.admin, now, c.note), Finished(c, WasApplied));
    } else {
      MovedThread(m, i, Finished(c, WasDecided));
    }
  }

  lemma {:induction false} ReadScopeKeepsInv(m: Machine, i: nat, c: Call, req: Request, joined: Option<string>)
    requires Inv(m) && i in m.threads && m.threads[i] == Cleared(c, req) && c.Approve?
    ensures Inv(ReadScope(m, i, c, req, joined))
  {
    assert ThreadOk(m, i, m.threads[i]);
    MovedThread(m, i, Finished(c, WasRefused));
    MovedThread(m, i, HasScope(c, req, Granted(joined, req), Live(m.accounts, req.username)));
  }

  lemma {:induction false} ClearedStepKeepsInv(m: Machine, i: nat, now: int, joined: Option<string>)
    requires Inv(m) && i in m.threads && m.threads[i].Cleared?
    ensures Inv(StepThread(m, i, now, joined))
  {
    var c := m.threads[i].call;
    match c
    case Approve(_, _, _, _, _) => ReadScopeKeepsInv(m, i, c, m.threads[i].req, joined);
    case Reject(_, _, _) => TryRejectKeepsInv(m, i, c, now);
    case Cancel(_, _) =>
  }

  lemma {:induction false} ApproveStepKeepsInv(m: Machine, i: nat, now: int, joined: Option<string>)
    requires Inv(m) && i in m.threads && m.threads[i].HasScope?
    ensures Inv(StepThread(m, i, now, joined))
  {
    var t := m.threads[i];
    var c := t.call;
    assert ThreadOk(m, i, t);
    if c.Approve? && IsOpen(m.requests, c.id) {
      var won := StepThread(m, i, now, joined).threads[i];
      WonDecision(m, i, c.id, Approved(m.requests[c.id], c.admin, now, won.groups, c.note), won);
    } else {
      MovedThread(m, i, StepThread(m, i, now, joined).threads[i]);
    }
  }

  lemma {:induction false} StepKeepsInv(m: Machine, i: nat, now: int, joined: Option<string>)
    requires Inv(m) && i in m.threads
    ensures Inv(StepThread(m, i, now, joined))
  {
    var t := m.threads[i];
    assert ThreadOk(m, i, t);
    match t
    case Begun(_) => FirstStepKeepsInv(m, i, now, joined);
    case HasRequest(_, _) => MovedThread(m, i, StepThread(m, i, now, joined).threads[i]);
    case Cleared(_, _) => ClearedStepKeepsInv(m, i, now, joined);
    case HasScope(_, _, _, _) => ApproveStepKeepsInv(m, i, now, joined);
    case WonRow(_, _, _, _) => EnteredSetRole(m, i);
    case Demoting(_, _, _, _) => MovedThread(m, i, StepThread(m, i, now, joined).threads[i]);
    case Writing(_, _, _, _) => WroteRole(m, i);
    case Finished(_, _) =>
  }

  /** Statements that touch the request table but no thread. */
  lemma {:induction false} RequestTableWrite(m: Machine, rs: Requests)
    requires Inv(m) && OneOpenEach(rs)
    requires forall id :: Decided(m, id) ==> id in rs && rs[id] == m.requests[id]
    requires forall id :: id in m.requests ==> id in rs
    ensures Inv(m.(requests := rs))
  {
    var m' := m.(requests := rs);
    forall i | i in m'.threads ensures ThreadOk(m', i, m'.threads[i]) {
      assert ThreadOk(m, i, m.threads[i]);
      assert InvokedBy(m', i) == InvokedBy(m, i);
    }
    forall v | v in m'.invoked ensures InvocationOk(m', v) {
      assert InvocationOk(m, v);
    }
  }

  lemma {:induction false} NextKeepsInv(m: Machine, e: Event)
    requires Inv(m)
    ensures Inv(Next(m, e))
  {
    match e
    case Start(i, c) =>
      if i !in m.threads {
        assert forall k :: 0 <= k < |m.invoked| ==> InvocationOk(m, m.invoked[k]);
        MovedThread(m, i, Begun(c));
      }
    case Step(i, now, joined) => if i in m.threads { StepKeepsInv(m, i, now, joined); }
    case Sweep(now, cutoff) =>
      FewerOpenRequests(m.requests, Aged(m.requests, now, cutoff));
      RequestTableWrite(m, Aged(m.requests, now, cutoff));
    case Open(id, r) => if MayInsert(m.requests, id, r) { RequestTableWrite(m, m.requests[id := r]); }
    case AccountWrite(accounts) => OtherTables(m, m.(accounts := accounts));
  }

  lemma {:induction false} EveryRunKeepsInv(m: Machine, events: seq<Event>)
    requires Initial(m)
    ensures Inv(Run(m, events))
  {
    if events != [] {
      EveryRunKeepsInv(m, events[..|events| - 1]);
      NextKeepsInv(Run(m, events[..|events| - 1]), events[|events| - 1]);
    }
  }

  // ---------------------------------------------------------------------
  // the promises
  // ---------------------------------------------------------------------

  /** set_role is invoked for a request at most once, only by an approval, and
      only by the one whose guarded UPDATE decided the row. */
  lemma {:induction false} SetRoleOncePerRequest(m: Machine, events: seq<Event>)
    requires Initial(m)
    ensures var s := Run(m, events);
            && (forall j, k :: 0 <= j < k < |s.invoked| ==> s.invoked[j].id != s.invoked[k].id)
            && (forall v :: v in s.invoked ==>
                  && v.thread in s.threads && s.threads[v.thread].call.Approve? && s.threads[v.thread].call.id == v.id
                  && v.id in s.requests && s.requests[v.id].status == APPROVED
                  && s.requests[v.id].decidedBy == Some(s.threads[v.thread].call.admin)
                  && v.id in s.winner && s.winner[v.id] == v.thread)
  {
    EveryRunKeepsInv(m, events);
    var s := Run(m, events);
    forall v | v in s.invoked ensures InvocationOk(s, v) {
    }
  }

  predicate TookEffect(o: Outcome) {
    o.WasApplied? || o.SetRoleRaised?
  }

  /** A call told that it was applied (or that its role change was refused) is
      the thread whose statement decided the row, so at most one is; and whoever
      is told somebody else got there first is told the truth. */
  lemma {:induction false} OutcomesAreHonest(m: Machine, events: seq<Event>, i: nat, j: nat)
    requires Initial(m)
    requires var s := Run(m, events); i in s.threads && j in s.threads
                                      && s.threads[i].Finished? && s.threads[j].Finished?
    ensures var s := Run(m, events);
            var a, b := s.threads[i], s.threads[j];
            && (TookEffect(a.outcome) ==> a.call.id in s.winner && s.winner[a.call.id] == i && Decided(s, a.call.id))
            && (a.call.id == b.call.id && TookEffect(a.outcome) && TookEffect(b.outcome) ==> i == j)
            && (a.outcome.WasDecided? && !a.call.Cancel? ==> Decided(s, a.call.id))
  {
    EveryRunKeepsInv(m, events);
    var s := Run(m, events);
    assert ThreadOk(s, i, s.threads[i]) && ThreadOk(s, j, s.threads[j]);
  }

  /** The schema's unique key holds over every run. */
  lemma {:induction false} OneOpenRequestEach(m: Machine, events: seq<Event>)
    requires Initial(m)
    ensures OneOpenEach(Run(m, events).requests)
  {
    EveryRunKeepsInv(m, events);
  }

  // ---------------------------------------------------------------------
  // an approval never narrows
  // ---------------------------------------------------------------------

  predicate PastScope(t: Thread) {
    t.HasScope? || HoldsRow(t)
  }

  /** Event `j` of the run is the one in which thread i reads the scope. */
  ghost predicate ReadsScope(m: Machine, events: seq<Event>, j: nat, i: nat)
    requires j < |events|
  {
    var s, s' := Run(m, events[..j]), Run(m, events[..j + 1]);
    && i in s.threads && s.threads[i].Cleared? && s.threads[i].call.Approve?
    && i in s'.threads && s'.threads[i].HasScope?
  }

  /** What a thread carries from the scope read on: the account as it was
      then, and the join of the names ticked. */
  ghost predicate Carries(t: Thread, seen: Option<Account>, call: Call, req: Request, joined: Option<string>) {
    t.Finished? ||
      (PastScope(t)
       && t.call == call && t.req == req && t.seen == seen && call.Approve?
       && IsJoin(call.granted, joined) && t.groups == Granted(joined, req))
  }

  lemma {:induction false} RunPrefix(m: Machine, events: seq<Event>, k: nat)
    requires k < |events|
    ensures Run(m, events[..k + 1]) == Next(Run(m, events[..k]), events[k])
  {
    assert events[..k + 1][..k] == events[..k];
  }

  function At(m: Machine, i: nat): Option<Thread> {
    if i in m.threads then Some(m.threads[i]) else None
  }

  lemma {:induction false} OthersStandStillAtFirst(m: Machine, k: nat, now: int, joined: Option<string>, i: nat)
    requires k in m.threads && i != k && (m.threads[k].Begun? || m.threads[k].HasRequest?)
    ensures At(StepThread(m, k, now, joined), i) == At(m, i)
  {
  }

  lemma {:induction false} OthersStandStillAtTheGuard(m: Machine, k: nat, now: int, joined: Option<string>, i: nat)
    requires k in m.threads && i != k && (m.threads[k].Cleared? || m.threads[k].HasScope?)
    ensures At(StepThread(m, k, now, joined), i) == At(m, i)
  {
  }

  /** A step of one thread leaves the others where they are. */
  lemma {:induction false} OthersStandStill(m: Machine, k: nat, now: int, joined: Option<string>, i: nat)
    requires k in m.threads && i != k
    ensures At(StepThread(m, k, now, joined), i) == At(m, i)
  {
    match m.threads[k]
    case WonRow(_, _, _, _) =>
    case Demoting(_, _, _, _) =>
    case Writing(_, _, _, _) =>
    case Begun(_) => OthersStandStillAtFirst(m, k, now, joined, i);
    case HasRequest(_, _) => OthersStandStillAtFirst(m, k, now, joined, i);
    case Cleared(_, _) => OthersStandStillAtTheGuard(m, k, now, joined, i);
    case HasScope(_, _, _, _) => OthersStandStillAtTheGuard(m, k, now, joined, i);
    case Finished(_, _) =>
  }

  /** Past the scope read a thread goes on with what it carries, or finishes. */
  lemma {:induction false} OwnStepCarries(m: Machine, i: nat, now: int, joined: Option<string>)
    requires i in m.threads && (PastScope(m.threads[i]) || m.threads[i].Finished?)
    ensures i in StepThread(m, i, now, joined).threads
    ensures var t, t' := m.threads[i], StepThread(m, i, now, joined).threads[i];
            t'.Finished? || (PastScope(t) && PastScope(t') && t'.call == t.call && t'.req == t.req
                             && t'.groups == t.groups && t'.seen == t.seen)
  {
    match m.threads[i]
    case HasScope(_, _, _, _) =>
    case WonRow(_, _, _, _) =>
    case Demoting(_, _, _, _) =>
    case Writing(_, _, _, _) =>
    case Finished(_, _) =>
  }

  lemma {:induction false} ScopeIsCarried(m: Machine, e: Event, i: nat, seen: Option<Account>, call: Call, req: Request,
                                          joined: Option<string>)
    requires i in m.threads && Carries(m.threads[i], seen, call, req, joined)
    ensures i in Next(m, e).threads && Carries(Next(m, e).threads[i], seen, call, req, joined)
  {
    match e
    case Step(k, now, j) =>
      if k == i {
        OwnStepCarries(m, i, now, j);
      } else if k in m.threads {
        OthersStandStill(m, k, now, j, i);
      }
    case _ =>
  }

  /** Reading the scope is a step of the thread itself. */
  lemma {:induction false} ScopeIsRead(m: Machine, e: Event, i: nat)
    requires i in m.threads && m.threads[i].Cleared? && m.threads[i].call.Approve?
    requires i in Next(m, e).threads && Next(m, e).threads[i].HasScope?
    ensures e.Step? && Next(m, e).accounts == m.accounts
    ensures var t := Next(m, e).threads[i];
            Carries(t, Live(m.accounts, t.req.username), t.call, t.req, e.joined)
  {
    match e
    case Step(k, now, j) =>
      if k != i && k in m.threads {
        OthersStandStill(m, k, now, j, i);
      }
    case _ =>
  }

  lemma {:induction false} ScopeIsKept(m: Machine, events: seq<Event>, j: nat, k: nat, i: nat,
                                       seen: Option<Account>, call: Call, req: Request, joined: Option<string>)
    requires j <= k <= |events|
    requires i in Run(m, events[..j]).threads && Carries(Run(m, events[..j]).threads[i], seen, call, req, joined)
    ensures i in Run(m, events[..k]).threads && Carries(Run(m, events[..k]).threads[i], seen, call, req, joined)
  {
    if j < k {
      ScopeIsKept(m, events, j, k - 1, i, seen, call, req, joined);
      RunPrefix(m, events, k - 1);
      ScopeIsCarried(Run(m, events[..k - 1]), events[k - 1], i, seen, call, req, joined);
    }
  }

  lemma {:induction false} EarlyStepsDoNotRead(m: Machine, i: nat, now: int, joined: Option<string>)
    requires i in m.threads && (m.threads[i].Begun? || m.threads[i].HasRequest?)
    ensures i in StepThread(m, i, now, joined).threads && !PastScope(StepThread(m, i, now, joined).threads[i])
  {
  }

  lemma {:induction false} ClearedMayRead(m: Machine, i: nat, now: int, joined: Option<string>)
    requires i in m.threads && m.threads[i].Cleared?
    ensures i in StepThread(m, i, now, joined).threads
    ensures var t' := StepThread(m, i, now, joined).threads[i];
            PastScope(t') ==> t'.HasScope? && m.threads[i].call.Approve?
  {
  }

  lemma {:induction false} OwnStepReads(m: Machine, i: nat, now: int, joined: Option<string>)
    requires i in m.threads && !PastScope(m.threads[i])
    requires i in StepThread(m, i, now, joined).threads && PastScope(StepThread(m, i, now, joined).threads[i])
    ensures m.threads[i].Cleared? && m.threads[i].call.Approve? && StepThread(m, i, now, joined).threads[i].HasScope?
  {
    match m.threads[i]
    case Cleared(_, _) => ClearedMayRead(m, i, now, joined);
    case Finished(_, _) => OwnStepCarries(m, i, now, joined);
    case _ => EarlyStepsDoNotRead(m, i, now, joined);
  }

  /** The only way past the scope read is through it. */
  lemma {:induction false} OnlyByReading(m: Machine, e: Event, i: nat)
    requires i in Next(m, e).threads && PastScope(Next(m, e).threads[i])
    requires !(i in m.threads && PastScope(m.threads[i]))
    ensures i in m.threads && m.threads[i].Cleared? && m.threads[i].call.Approve? && Next(m, e).threads[i].HasScope?
  {
    match e
    case Step(k, now, j) =>
      if k in m.threads {
        if k != i {
          OthersStandStill(m, k, now, j, i);
        } else {
          OwnStepReads(m, i, now, j);
        }
      }
    case _ =>
  }

  /** A thread past the scope read has read it at some point of its run. */
  lemma {:induction false} ScopeWasRead(m: Machine, events: seq<Event>, i: nat) returns (j: nat)
    requires Initial(m) && i in Run(m, events).threads && PastScope(Run(m, events).threads[i])
    ensures j < |events| && ReadsScope(m, events, j, i)
  {
    var last := |events| - 1;
    var front := events[..last];
    assert events[..last + 1] == events;
    var s := Run(m, front);
    if i in s.threads && PastScope(s.threads[i]) {
      j := ScopeWasRead(m, front, i);
      assert front[..j] == events[..j] && front[..j + 1] == events[..j + 1];
    } else {
      OnlyByReading(s, events[last], i);
      j := last;
    }
  }

  lemma {:induction false} WideningWrite(s: Machine, i: nat, joined: Option<string>)
    requires i in s.threads && s.threads[i].Writing? && s.threads[i].call.Approve?
    requires var t := s.threads[i];
             && t.req.username in s.accounts && t.seen == Some(s.accounts[t.req.username])
             && t.seen.value.role == t.req.toRole
             && IsJoin(t.call.granted, joined) && t.groups == Granted(joined, t.req)
    ensures var t, s' := s.threads[i], WriteRole(s, i, s.threads[i]);
            var old', new' := s.accounts[t.req.username], s'.accounts[t.req.username];
            var before, after := ParseGroups(old'.scope), ParseGroups(new'.scope);
            && new'.role == old'.role && new'.active == old'.active
            && before <= after
            && (forall g :: g in t.call.granted && Strip(g) != "" ==> (Covers(after, Strip(g)) <==> ',' !in g))
            && (forall g :: g in after[|before|..] ==> g in ParseGroups(t.groups) && !Covers(before, g))
            && (forall u :: u in s.accounts && u != t.req.username ==> s'.accounts[u] == s.accounts[u])
  {
    var t := s.threads[i];
    ApprovalNeverNarrows(t.seen.value, t.call.granted, joined, t.req);
  }

  /** Over any run: when an approval writes the role, and the account already
      held that role when its scope was read and is now as it was then, it keeps
      its role and every queue in place, gains nothing it held in another case,
      and of the names the administrator ticked covers exactly those without a
      comma. Nobody else's account is touched. */
  lemma {:induction false} ApprovalWidens(m: Machine, events: seq<Event>, j: nat, i: nat)
    requires Initial(m) && j < |events| && ReadsScope(m, events, j, i)
    requires i in Run(m, events).threads && Run(m, events).threads[i].Writing?
    requires var s, u := Run(m, events), Run(m, events).threads[i].req.username;
             && Live(s.accounts, u) == Live(Run(m, events[..j]).accounts, u)
             && u in s.accounts && s.accounts[u].role == s.threads[i].req.toRole
    ensures var s := Run(m, events);
            var t, s' := s.threads[i], WriteRole(s, i, s.threads[i]);
            var old', new' := s.accounts[t.req.username], s'.accounts[t.req.username];
            var before, after := ParseGroups(old'.scope), ParseGroups(new'.scope);
            && t.call.Approve?
            && new'.role == old'.role && new'.active == old'.active
            && before <= after
            && (forall g :: g in t.call.granted && Strip(g) != "" ==> (Covers(after, Strip(g)) <==> ',' !in g))
            && (forall g :: g in after[|before|..] ==> g in ParseGroups(t.groups) && !Covers(before, g))
            && (forall u :: u in s.accounts && u != t.req.username ==> s'.accounts[u] == s.accounts[u])
  {
    RunPrefix(m, events, j);
    ScopeIsRead(Run(m, events[..j]), events[j], i);
    var r := Run(m, events[..j + 1]).threads[i];
    ScopeIsKept(m, events, j + 1, |events|, i, Live(Run(m, events[..j]).accounts, r.req.username),
                r.call, r.req, events[j].joined);
    assert events[..|events|] == events;
    WideningWrite(Run(m, events), i, events[j].joined);
  }
}
