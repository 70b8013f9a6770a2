/** The last administrator under interleaving. `set_role` reads the other active
    administrators and then writes, in two statements. Accounts proves that
    whole operations never lose the last administrator; this module says exactly
    when statements do. */
module LastAdmin {
  import opened Text
  import opened Accounts
  import opened AccessRequests
  import opened AccessProtocol

  // ---------------------------------------------------------------------
  // two demotions, in every order of their four statements
  // ---------------------------------------------------------------------

  datatype Leg = ToCheck | ToWrite | Done

  /** Two threads inside `set_role`, each demoting one of two administrators:
      whether the two still are, and how far the threads have got. */
  datatype Duel = Duel(uIsAdmin: bool, vIsAdmin: bool, left: Leg, right: Leg)

  function Admins(d: Duel, u: string, v: string): set<string> {
    (if d.uIsAdmin then {u} else {}) + (if d.vIsAdmin then {v} else {})
  }

  /** The thread that demotes u, and the same seen from the other side. */
  function LeftNext(d: Duel): Duel {
    match d.left
    case ToCheck => d.(left := if d.vIsAdmin then ToWrite else Done)
    case ToWrite => d.(left := Done, uIsAdmin := false)
    case Done => d
  }

  function Mirrored(d: Duel): Duel { Duel(d.vIsAdmin, d.uIsAdmin, d.right, d.left) }

  function DuelNext(d: Duel, first: bool): Duel {
    if first then LeftNext(d) else Mirrored(LeftNext(Mirrored(d)))
  }

  function DuelRun(d: Duel, turns: seq<bool>): Duel {
    if turns == [] then d
    else DuelNext(DuelRun(d, turns[..|turns| - 1]), turns[|turns| - 1])
  }

  const AT_THE_CHECKS := Duel(true, true, ToCheck, ToCheck)

  /** Thread i of the machine stands where the leg says. */
  ghost predicate OnLeg(m: Machine, i: nat, u: string, leg: Leg) {
    i in m.threads &&
    match leg
    case ToCheck => m.threads[i].Demoting? && m.threads[i].req.username == u && m.threads[i].req.toRole != ADMIN
    case ToWrite => m.threads[i].Writing? && m.threads[i].req.username == u && m.threads[i].req.toRole != ADMIN
    case Done => m.threads[i].Finished?
  }

  ghost predicate StandsAs(m: Machine, i: nat, j: nat, u: string, v: string, d: Duel) {
    OnLeg(m, i, u, d.left) && OnLeg(m, j, v, d.right) && ActiveAdmins(m.accounts) == Admins(d, u, v)
  }

  lemma {:induction false} LeftStep(m: Machine, i: nat, j: nat, u: string, v: string, d: Duel, now: int)
    requires i != j && u != v && StandsAs(m, i, j, u, v, d)
    ensures StandsAs(Next(m, Step(i, now, None)), i, j, u, v, LeftNext(d))
  {
    OthersStandStill(m, i, now, None, j);
    assert Admins(d, u, v) - {u} == if d.vIsAdmin then {v} else {};
    match d.left
    case ToCheck =>
    case ToWrite => RoleWriteOnAdmins(m, i);
    case Done =>
  }

  /** What one write does to the set of active administrators. */
  lemma {:induction false} RoleWriteOnAdmins(m: Machine, i: nat)
    requires i in m.threads && m.threads[i].Writing?
    ensures var u, role := m.threads[i].req.username, m.threads[i].req.toRole;
            ActiveAdmins(WriteRole(m, i, m.threads[i]).accounts)
            == if role != ADMIN then ActiveAdmins(m.accounts) - {u}
               else if u in m.accounts && m.accounts[u].active then ActiveAdmins(m.accounts) + {u}
               else ActiveAdmins(m.accounts)
  {
  }

  function Turns(turns: seq<bool>, i: nat, j: nat, now: int): seq<Event> {
    if turns == [] then []
    else Turns(turns[..|turns| - 1], i, j, now) + [Step(if turns[|turns| - 1] then i else j, now, None)]
  }

  /** The machine, run in turns, stands where the duel stands. */
  lemma {:induction false} RunIsDuel(m: Machine, i: nat, j: nat, u: string, v: string, turns: seq<bool>, now: int)
    requires i != j && u != v && StandsAs(m, i, j, u, v, AT_THE_CHECKS)
    ensures StandsAs(Run(m, Turns(turns, i, j, now)), i, j, u, v, DuelRun(AT_THE_CHECKS, turns))
  {
    if turns != [] {
      var front, last := turns[..|turns| - 1], turns[|turns| - 1];
      RunIsDuel(m, i, j, u, v, front, now);
      var events, d := Turns(front, i, j, now), DuelRun(AT_THE_CHECKS, front);
      RunOneMore(m, events, Step(if last then i else j, now, None));
      if last {
        LeftStep(Run(m, events), i, j, u, v, d, now);
      } else {
        LeftStep(Run(m, events), j, i, v, u, Mirrored(d), now);
      }
    }
  }

  /** Two turns for either thread. */
  predicate TwoEach(turns: seq<bool>) {
    |turns| == 4 && multiset(turns) == multiset{true, true, false, false}
  }

  lemma {:induction false} SixOrders(turns: seq<bool>)
    requires TwoEach(turns)
    ensures turns in {[true, true, false, false], [true, false, true, false], [true, false, false, true],
                      [false, true, true, false], [false, true, false, true], [false, false, true, true]}
  {
    var a, b, c, d := turns[0], turns[1], turns[2], turns[3];
    assert turns == [a, b, c, d];
    assert multiset(turns)[true] == 2;
    assert multiset([a, b, c, d])[true]
        == (if a then 1 else 0) + (if b then 1 else 0) + (if c then 1 else 0) + (if d then 1 else 0);
  }

  lemma {:induction false} FourTurns(d: Duel, a: bool, b: bool, c: bool, e: bool)
    ensures DuelRun(d, [a, b, c, e]) == DuelNext(DuelNext(DuelNext(DuelNext(d, a), b), c), e)
  {
    assert [a, b, c, e][..3] == [a, b, c] && [a, b, c][..2] == [a, b] && [a, b][..1] == [a] && [a][..0] == [];
    assert DuelRun(d, [a]) == DuelNext(d, a);
    assert DuelRun(d, [a, b]) == DuelNext(DuelNext(d, a), b);
    assert DuelRun(d, [a, b, c]) == DuelNext(DuelNext(DuelNext(d, a), b), c);
  }

  lemma {:induction false} DuelIsLostIff(turns: seq<bool>)
    requires TwoEach(turns)
    ensures !DuelRun(AT_THE_CHECKS, turns).uIsAdmin && !DuelRun(AT_THE_CHECKS, turns).vIsAdmin <==> turns[0] != turns[1]
  {
    SixOrders(turns);
    FourTurns(AT_THE_CHECKS, turns[0], turns[1], turns[2], turns[3]);
    assert turns == [turns[0], turns[1], turns[2], turns[3]];
  }

  /** Of two calls about to demote the only two active administrators, each
      takes a check and a write. In whatever order the four statements come,
      nobody is left exactly when the two checks come before either write. */
  lemma {:induction false} TwoDemotionsLeaveNobodyIff(m: Machine, i: nat, j: nat, turns: seq<bool>, now: int)
    requires i != j && i in m.threads && j in m.threads && m.threads[i].Demoting? && m.threads[j].Demoting?
    requires m.threads[i].req.toRole != ADMIN && m.threads[j].req.toRole != ADMIN
    requires m.threads[i].req.username != m.threads[j].req.username
    requires ActiveAdmins(m.accounts) == {m.threads[i].req.username, m.threads[j].req.username}
    requires TwoEach(turns)
    ensures ActiveAdmins(Run(m, Turns(turns, i, j, now)).accounts) == {} <==> turns[0] != turns[1]
  {
    var u, v := m.threads[i].req.username, m.threads[j].req.username;
    RunIsDuel(m, i, j, u, v, turns, now);
    DuelIsLostIff(turns);
    var d := DuelRun(AT_THE_CHECKS, turns);
    assert Admins(d, u, v) == {} <==> !d.uIsAdmin && !d.vIsAdmin by {
      assert d.uIsAdmin ==> u in Admins(d, u, v);
      assert d.vIsAdmin ==> v in Admins(d, u, v);
    }
  }

  // ---------------------------------------------------------------------
  // a run that gets there
  // ---------------------------------------------------------------------

  lemma {:induction false} RunOneMore(m: Machine, events: seq<Event>, e: Event)
    ensures Run(m, events + [e]) == Next(Run(m, events), e)
  {
    assert (events + [e])[..|events|] == events;
  }

  lemma {:induction false} RunAppend(m: Machine, a: seq<Event>, b: seq<Event>)
    ensures Run(m, a + b) == Run(Run(m, a), b)
  {
    if b == [] {
      assert a + b == a;
    } else {
      var front, e := b[..|b| - 1], b[|b| - 1];
      RunAppend(m, a, front);
      RunOneMore(m, a + front, e);
      assert a + b == a + front + [e] && b == front + [e];
      RunOneMore(Run(m, a), front, e);
    }
  }

  /** A call that approves, ticking no queue of its own. */
  function Approval(id: nat, admin: string): Call {
    AccessProtocol.Approve(id, admin, [], "", None)
  }

  function Five(i: nat, now: int): seq<Event> {
    [Step(i, now, None), Step(i, now, None), Step(i, now, None), Step(i, now, None), Step(i, now, None)]
  }

  ghost predicate AboutToDemote(m: Machine, i: nat, id: nat, admin: string, u: string, queue: string) {
    && i in m.threads && m.threads[i] == Begun(Approval(id, admin))
    && IsOpen(m.requests, id) && m.requests[id].username == u && m.requests[id].toRole == LEAD
    && m.requests[id].requested == queue && CleanName(queue)
    && u != admin && u in m.accounts && m.accounts[u].active && m.accounts[u].role == ADMIN
  }

  lemma {:induction false} RunTwoMore(m: Machine, events: seq<Event>, a: Event, b: Event)
    ensures Run(m, events + [a, b]) == Next(Next(Run(m, events), a), b)
  {
    var more := events + [a];
    assert events + [a, b] == more + [b];
    RunOneMore(m, events, a);
    RunOneMore(m, more, b);
  }

  lemma {:induction false} RunFive(m: Machine, a: Event, b: Event, c: Event, d: Event, e: Event)
    ensures Run(m, [a, b, c, d, e]) == Next(Next(Next(Next(Next(m, a), b), c), d), e)
  {
    RunTwoMore(m, [], a, b);
    assert [] + [a, b] == [a, b];
    RunTwoMore(m, [a, b], c, d);
    assert [a, b] + [c, d] == [a, b, c, d];
    RunOneMore(m, [a, b, c, d], e);
    assert [a, b, c, d] + [e] == [a, b, c, d, e];
  }

  /** Its first five statements take such a call to the check of `set_role`. */
  lemma {:induction false} GetsToTheCheck(m: Machine, i: nat, id: nat, admin: string, u: string, queue: string,
                                          now: int)
    requires AboutToDemote(m, i, id, admin, u, queue)
    ensures var m' := Run(m, Five(i, now));
            && OnLeg(m', i, u, ToCheck) && m'.accounts == m.accounts
            && (forall j :: j in m.threads && j != i ==> j in m'.threads && m'.threads[j] == m.threads[j])
            && (forall k :: k in m.requests && k != id ==> k in m'.requests && m'.requests[k] == m.requests[k])
  {
    var c, req, e := Approval(id, admin), m.requests[id], Step(i, now, None);
    RunFive(m, e, e, e, e, e);
    NothingTicked();
    CleanNameParsesToItself(queue);
    StripFacts(queue);
    assert NonBlank([queue]) == [queue] + NonBlank([queue][1..]);
    var m1 := Next(m, e);
    assert m1 == Put(m, i, HasRequest(c, req));
    var m2 := Next(m1, e);
    assert m2 == Put(m1, i, Cleared(c, req));
    var m3 := Next(m2, e);
    assert m3 == Put(m2, i, HasScope(c, req, queue, Some(m.accounts[u])));
    var m4 := Next(m3, e);
    assert m4.threads[i] == WonRow(c, req, queue, Some(m.accounts[u])) && m4.accounts == m.accounts;
    var m5 := Next(m4, e);
    assert m5.threads[i] == Demoting(c, req, queue, Some(m.accounts[u]));
  }

  function Somebody(role: Role): Account {
    Account(role, true, OIDC, None, "", MANUAL, MANUAL, 0)
  }

  function Wish(u: string, queue: string): Request {
    Request(u, LEAD, queue, 0, PENDING, None, None, None, None)
  }

  /** Two people ask to become LEAD, are made administrators by hand instead, and
      each then approves the other's old request. */
  function Preparation(a: string, b: string, promoted: Table, queue: string): seq<Event> {
    [Open(1, Wish(a, queue)), Open(2, Wish(b, queue)), AccountWrite(promoted),
     Start(1, Approval(1, b)), Start(2, Approval(2, a))]
  }

  lemma {:induction false} Prepared(m: Machine, a: string, b: string, promoted: Table, queue: string)
    requires a != b && m.requests == map[] && m.threads == map[]
    ensures var m' := Run(m, Preparation(a, b, promoted, queue));
            && m'.accounts == promoted
            && m'.requests == map[1 := Wish(a, queue), 2 := Wish(b, queue)]
            && m'.threads == map[1 := Begun(Approval(1, b)), 2 := Begun(Approval(2, a))]
  {
    var p := Preparation(a, b, promoted, queue);
    RunFive(m, p[0], p[1], p[2], p[3], p[4]);
    var m1 := Next(m, p[0]);
    assert m1 == m.(requests := map[1 := Wish(a, queue)]);
    var m2 := Next(m1, p[1]);
    assert m2 == m.(requests := map[1 := Wish(a, queue), 2 := Wish(b, queue)]);
    var m3 := Next(m2, p[2]);
    var m4 := Next(m3, p[3]);
    assert m4.threads == map[1 := Begun(Approval(1, b))];
  }

  /** Each of the two gets to the check, and then they take turns. */
  function Crossing(now: int): seq<Event> {
    Five(1, now) + Five(2, now) + Turns([true, false, true, false], 1, 2, now)
  }

  lemma {:induction false} CrossingLeavesNobody(m: Machine, a: string, b: string, queue: string, now: int)
    requires AboutToDemote(m, 1, 1, b, a, queue) && AboutToDemote(m, 2, 2, a, b, queue)
    requires ActiveAdmins(m.accounts) == {a, b}
    ensures ActiveAdmins(Run(m, Crossing(now)).accounts) == {}
  {
    var turns := [true, false, true, false];
    GetsToTheCheck(m, 1, 1, b, a, queue, now);
    var m1 := Run(m, Five(1, now));
    GetsToTheCheck(m1, 2, 2, a, b, queue, now);
    assert multiset(turns) == multiset{true, true, false, false};
    TwoDemotionsLeaveNobodyIff(Run(m1, Five(2, now)), 1, 2, turns, now);
    RunAppend(m, Five(1, now), Five(2, now));
    RunAppend(m, Five(1, now) + Five(2, now), Turns(turns, 1, 2, now));
  }

  /** So a service that starts with an administrator, and is never written
      without one from outside, can be left with none. */
  lemma {:induction false} ApprovalsCanLeaveNobody(a: string, b: string, c: string, queue: string, now: int)
      returns (m: Machine, events: seq<Event>)
    requires a != b && b != c && a != c && CleanName(queue)
    ensures Initial(m) && ActiveAdmins(m.accounts) == {c} && KeptFromOutside(events)
    ensures ActiveAdmins(Run(m, events).accounts) == {}
  {
    var promoted := map[a := Somebody(ADMIN), b := Somebody(ADMIN), c := Somebody(VIEWER)];
    m := Machine(map[], map[a := Somebody(VIEWER), b := Somebody(VIEWER), c := Somebody(ADMIN)], map[], map[], []);
    Prepared(m, a, b, promoted, queue);
    assert ActiveAdmins(promoted) == {a, b};
    CrossingLeavesNobody(Run(m, Preparation(a, b, promoted, queue)), a, b, queue, now);
    RunAppend(m, Preparation(a, b, promoted, queue), Crossing(now));
    events := Preparation(a, b, promoted, queue) + Crossing(now);
    OutsideIsAsPrepared(a, b, promoted, queue, now);
  }

  lemma {:induction false} OutsideIsAsPrepared(a: string, b: string, promoted: Table, queue: string, now: int)
    requires ActiveAdmins(promoted) != {}
    ensures KeptFromOutside(Preparation(a, b, promoted, queue) + Crossing(now))
  {
    TurnsAreSteps([true, false, true, false], 1, 2, now);
  }

  lemma {:induction false} TurnsAreSteps(turns: seq<bool>, i: nat, j: nat, now: int)
    ensures forall e :: e in Turns(turns, i, j, now) ==> e.Step?
  {
    if turns != [] {
      TurnsAreSteps(turns[..|turns| - 1], i, j, now);
    }
  }

  // ---------------------------------------------------------------------
  // when nobody can get in between
  // ---------------------------------------------------------------------

  /** No writer outside the protocol leaves the table without an active
      administrator. */
  ghost predicate KeptFromOutside(events: seq<Event>) {
    forall e :: e in events && e.AccountWrite? ==> ActiveAdmins(e.accounts) != {}
  }

  ghost predicate IsWriting(m: Machine, i: nat) {
    i in m.threads && m.threads[i].Writing?
  }

  /** The account table as it was when thread i was last let in to write. */
  ghost function ReadTable(m: Machine, events: seq<Event>, i: nat): Table {
    if events == [] then map[]
    else
      var front := events[..|events| - 1];
      if !IsWriting(Run(m, front), i) && IsWriting(Run(m, events), i) then Run(m, front).accounts
      else ReadTable(m, front, i)
  }

  /** Between the read that lets a thread write and its write, the account
      table does not change. */
  ghost predicate NobodyInBetween(m: Machine, events: seq<Event>) {
    forall k :: 0 <= k < |events| && events[k].Step? && IsWriting(Run(m, events[..k]), events[k].thread) ==>
      ReadTable(m, events[..k], events[k].thread) == Run(m, events[..k]).accounts
  }

  /** What the read that let a thread write has made sure of. */
  ghost predicate MayWrite(t: Table, u: string, role: Role) {
    role == ADMIN || u !in ActiveAdmins(t) || ActiveAdmins(t) - {u} != {}
  }

  lemma {:induction false} LetInByARead(m: Machine, e: Event, i: nat)
    requires !IsWriting(m, i) && IsWriting(Next(m, e), i)
    ensures Next(m, e).accounts == m.accounts
    ensures var t := Next(m, e).threads[i];
            MayWrite(m.accounts, t.req.username, t.req.toRole)
  {
    match e
    case Step(k, now, joined) =>
      if k in m.threads && k != i {
        OthersStandStill(m, k, now, joined, i);
      } else if k in m.threads {
        OwnRead(m, i, now, joined);
      }
    case _ =>
  }

  lemma {:induction false} OwnRead(m: Machine, i: nat, now: int, joined: Option<string>)
    requires i in m.threads && !m.threads[i].Writing? && IsWriting(StepThread(m, i, now, joined), i)
    ensures StepThread(m, i, now, joined).accounts == m.accounts
    ensures var t := StepThread(m, i, now, joined).threads[i];
            MayWrite(m.accounts, t.req.username, t.req.toRole)
  {
    if PastScope(m.threads[i]) || m.threads[i].Finished? {
      ReadPastScope(m, i, now, joined);
    } else {
      OwnStepReads(m, i, now, joined);
    }
  }

  lemma {:induction false} ReadPastScope(m: Machine, i: nat, now: int, joined: Option<string>)
    requires i in m.threads && !m.threads[i].Writing? && IsWriting(StepThread(m, i, now, joined), i)
    requires PastScope(m.threads[i]) || m.threads[i].Finished?
    ensures StepThread(m, i, now, joined).accounts == m.accounts
    ensures var t := StepThread(m, i, now, joined).threads[i];
            MayWrite(m.accounts, t.req.username, t.req.toRole)
  {
    match m.threads[i]
    case HasScope(_, _, _, _) =>
    case WonRow(_, _, _, _) =>
    case Demoting(_, _, _, _) =>
    case Finished(_, _) =>
  }

  /** A thread allowed to write stays as it is until it does. */
  lemma {:induction false} WaitsToWrite(m: Machine, e: Event, i: nat)
    requires IsWriting(m, i) && !(e.Step? && e.thread == i)
    ensures IsWriting(Next(m, e), i) && Next(m, e).threads[i] == m.threads[i]
  {
    match e
    case Step(k, now, joined) => if k in m.threads { OthersStandStill(m, k, now, joined, i); }
    case _ =>
  }

  lemma {:induction false} WritesAndFinishes(m: Machine, i: nat, now: int, joined: Option<string>)
    requires IsWriting(m, i)
    ensures !IsWriting(Next(m, Step(i, now, joined)), i)
  {
  }

  lemma {:induction false} StillWriting(m: Machine, e: Event, i: nat)
    requires IsWriting(m, i) && IsWriting(Next(m, e), i)
    ensures Next(m, e).threads[i] == m.threads[i]
  {
    if e.Step? && e.thread == i {
      WritesAndFinishes(m, i, e.now, e.joined);
    } else {
      WaitsToWrite(m, e, i);
    }
  }

  /** Whoever may write was let in by a read of the table that allowed it. */
  lemma {:induction false} LetInProperly(m: Machine, events: seq<Event>, i: nat)
    requires Initial(m) && IsWriting(Run(m, events), i)
    ensures var t := Run(m, events).threads[i];
            MayWrite(ReadTable(m, events, i), t.req.username, t.req.toRole)
  {
    var front, e := events[..|events| - 1], events[|events| - 1];
    if IsWriting(Run(m, front), i) {
      LetInProperly(m, front, i);
      StillWriting(Run(m, front), e, i);
    } else {
      LetInByARead(Run(m, front), e, i);
    }
  }

  /** The exact moment: a write takes the last active administrator away just
      when the table it writes to no longer allows it. */
  lemma {:induction false} WriteLosesTheLastIff(m: Machine, i: nat)
    requires IsWriting(m, i) && ActiveAdmins(m.accounts) != {}
    ensures ActiveAdmins(WriteRole(m, i, m.threads[i]).accounts) == {}
            <==> !MayWrite(m.accounts, m.threads[i].req.username, m.threads[i].req.toRole)
  {
    var u := m.threads[i].req.username;
    var admins := ActiveAdmins(m.accounts);
    RoleWriteOnAdmins(m, i);
    if u !in admins {
      assert admins - {u} == admins;
    }
  }

  lemma {:induction false} OnlyWritersWrite(m: Machine, e: Event)
    requires !e.AccountWrite? && !(e.Step? && IsWriting(m, e.thread))
    ensures Next(m, e).accounts == m.accounts
  {
    match e
    case Step(k, now, joined) =>
      if k in m.threads {
        match m.threads[k]
        case Begun(_) =>
        case HasRequest(_, _) =>
        case Cleared(_, _) =>
        case HasScope(_, _, _, _) =>
        case WonRow(_, _, _, _) =>
        case Demoting(_, _, _, _) =>
        case Finished(_, _) =>
      }
    case _ =>
  }

  /** For all runs: as long as nobody gets in between a read and its write, an
      active administrator remains. */
  lemma {:induction false} AnAdminRemains(m: Machine, events: seq<Event>)
    requires Initial(m) && ActiveAdmins(m.accounts) != {}
    requires KeptFromOutside(events) && NobodyInBetween(m, events)
    ensures ActiveAdmins(Run(m, events).accounts) != {}
  {
    if events != [] {
      var k := |events| - 1;
      var front, e := events[..k], events[k];
      forall n | 0 <= n < k ensures front[..n] == events[..n] {
      }
      assert NobodyInBetween(m, front);
      AnAdminRemains(m, front);
      OneEventKeepsAnAdmin(m, front, e);
    }
  }

  lemma {:induction false} OneEventKeepsAnAdmin(m: Machine, front: seq<Event>, e: Event)
    requires Initial(m) && ActiveAdmins(Run(m, front).accounts) != {}
    requires e.AccountWrite? ==> ActiveAdmins(e.accounts) != {}
    requires e.Step? && IsWriting(Run(m, front), e.thread) ==> ReadTable(m, front, e.thread) == Run(m, front).accounts
    ensures ActiveAdmins(Next(Run(m, front), e).accounts) != {}
  {
    if e.Step? && IsWriting(Run(m, front), e.thread) {
      LetInProperly(m, front, e.thread);
    }
    EventKeepsAnAdminIff(Run(m, front), e);
  }

  /** If the event is a role write, the table still allows it. */
  ghost predicate Allowed(m: Machine, e: Event) {
    e.Step? && IsWriting(m, e.thread) ==>
      MayWrite(m.accounts, m.threads[e.thread].req.username, m.threads[e.thread].req.toRole)
  }

  lemma {:induction false} WriteIsTheStep(m: Machine, i: nat, now: int, joined: Option<string>)
    requires IsWriting(m, i)
    ensures Next(m, Step(i, now, joined)) == WriteRole(m, i, m.threads[i])
  {
  }

  lemma {:induction false} EventKeepsAnAdminIff(m: Machine, e: Event)
    requires ActiveAdmins(m.accounts) != {} && (e.AccountWrite? ==> ActiveAdmins(e.accounts) != {})
    ensures ActiveAdmins(Next(m, e).accounts) != {} <==> Allowed(m, e)
  {
    if e.Step? && IsWriting(m, e.thread) {
      WriteIsTheStep(m, e.thread, e.now, e.joined);
      WriteLosesTheLastIff(m, e.thread);
    } else if !e.AccountWrite? {
      OnlyWritersWrite(m, e);
    }
  }

  ghost predicate AnAdminThroughout(m: Machine, events: seq<Event>) {
    forall k :: 0 <= k <= |events| ==> ActiveAdmins(Run(m, events[..k]).accounts) != {}
  }

  /** Over any run in which no writer outside the protocol leaves nobody, an
      active administrator is there throughout exactly when every role write
      meets a table that still allows it. */
  lemma {:induction false} AnAdminThroughoutIff(m: Machine, events: seq<Event>)
    requires ActiveAdmins(m.accounts) != {} && KeptFromOutside(events)
    ensures AnAdminThroughout(m, events)
            <==> forall k :: 0 <= k < |events| ==> Allowed(Run(m, events[..k]), events[k])
  {
    if AnAdminThroughout(m, events) {
      forall k | 0 <= k < |events| ensures Allowed(Run(m, events[..k]), events[k]) {
        assert ActiveAdmins(Run(m, events[..k + 1]).accounts) != {};
        OneMoreEvent(m, events, k);
      }
    }
    if forall k :: 0 <= k < |events| ==> Allowed(Run(m, events[..k]), events[k]) {
      forall k | 0 <= k <= |events| ensures ActiveAdmins(Run(m, events[..k]).accounts) != {} {
        AllowedSoFar(m, events, k);
      }
    }
  }

  lemma {:induction false} RunStep(m: Machine, events: seq<Event>, k: nat)
    requires k < |events|
    ensures Run(m, events[..k + 1]) == Next(Run(m, events[..k]), events[k])
  {
    assert events[..k + 1][..k] == events[..k];
  }

  lemma {:induction false} OneMoreEvent(m: Machine, events: seq<Event>, k: nat)
    requires k < |events| && KeptFromOutside(events) && ActiveAdmins(Run(m, events[..k]).accounts) != {}
    ensures ActiveAdmins(Run(m, events[..k + 1]).accounts) != {} <==> Allowed(Run(m, events[..k]), events[k])
  {
    RunStep(m, events, k);
    EventKeepsAnAdminIff(Run(m, events[..k]), events[k]);
  }

  lemma {:induction false} AllowedSoFar(m: Machine, events: seq<Event>, k: nat)
    requires ActiveAdmins(m.accounts) != {} && KeptFromOutside(events) && k <= |events|
    requires forall n :: 0 <= n < |events| ==> Allowed(Run(m, events[..n]), events[n])
    ensures ActiveAdmins(Run(m, events[..k]).accounts) != {}
  {
    if k > 0 {
      AllowedSoFar(m, events, k - 1);
      OneMoreEvent(m, events, k - 1);
    }
  }
}
