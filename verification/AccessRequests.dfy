/** The role_request workflow of web/access.py, each call run from start to
    finish with nothing in between. AccessProtocol takes the same calls apart,
    statement by statement, and interleaves them. */
module AccessRequests {
  import opened Text
  import opened Queues
  import opened Accounts

  datatype Status = PENDING | APPROVED | REJECTED | EXPIRED | CANCELLED

  datatype Request = Request(
    username: string, toRole: Role, requested: string, expiresAt: int,
    status: Status, decidedBy: Option<string>, decidedAt: Option<int>,
    granted: Option<string>, note: Option<string>)

  type Requests = map<nat, Request>

  // -- the pieces of a decision ------------------------------------------

  /** `_refuse_decision`: one's own request, or an account no longer active. */
  predicate MayDecide(req: Request, admin: string, account: Option<Account>) {
    req.username != admin && account.Some? && account.value.active
  }

  function Live(t: Table, u: string): Option<Account> {
    if u in t then Some(t[u]) else None
  }

  /** Names the caller may not grant, when a list of valid ones was passed. */
  predicate AllKnown(granted: seq<string>, valid: Option<seq<string>>) {
    valid.Some? ==> forall g :: g in granted ==>
        Lower(Strip(g)) in (set i | 0 <= i < |valid.value| :: Lower(Strip(valid.value[i])))
  }

  /** No such account, or one that was deactivated. */
  predicate NotActive(t: Table, u: string) {
    u !in t || !t[u].active
  }

  /** Not the name of any of these queues, in whatever case. */
  predicate Unheard(g: string, valid: seq<string>) {
    forall v :: v in valid ==> Lower(Strip(v)) != Lower(Strip(g))
  }

  lemma {:induction false} WhoMayDecide(req: Request, admin: string, t: Table)
    ensures MayDecide(req, admin, Live(t, req.username)) <==> admin != req.username && !NotActive(t, req.username)
  {
  }

  lemma {:induction false} AllKnownIff(granted: seq<string>, valid: seq<string>)
    ensures AllKnown(granted, Some(valid)) <==> !exists g :: g in granted && Unheard(g, valid)
  {
    var known := set i | 0 <= i < |valid| :: Lower(Strip(valid[i]));
    forall g ensures Lower(Strip(g)) in known <==> !Unheard(g, valid) {
      if !Unheard(g, valid) {
        var v :| v in valid && Lower(Strip(v)) == Lower(Strip(g));
        var i :| 0 <= i < |valid| && valid[i] == v;
      }
    }
  }

  /** `_join(granted) or request.requested_groups`, "" when there is neither. */
  function Granted(joined: Option<string>, req: Request): string {
    if joined.Some? then joined.value else req.requested
  }

  function NonBlank(names: seq<string>): seq<string> {
    if names == [] then [] else (if Strip(names[0]) == "" then [] else [names[0]]) + NonBlank(names[1..])
  }

  /** `_resulting_scope`: a union for an account that holds the role already,
      the granted list alone for a genuine elevation. */
  function ResultingScope(account: Option<Account>, toRole: Role, granted: seq<string>): seq<string> {
    if account.Some? && account.value.role == toRole
    then Widened(ParseGroups(account.value.scope), NonBlank(granted))
    else NonBlank(granted)
  }

  /** `(note or '').strip()[:2000] or None` */
  function Note(note: string): Option<string> {
    var s := Strip(note);
    var cut := if |s| > 2000 then s[..2000] else s;
    if cut == "" then None else Some(cut)
  }

  // -- the guarded statements --------------------------------------------

  /** UPDATE ... SET status = APPROVED ... WHERE id = .. AND status = PENDING */
  function Approved(r: Request, admin: string, now: int, groups: string, note: string): Request {
    r.(status := APPROVED, decidedBy := Some(admin), decidedAt := Some(now),
       granted := Some(groups), note := Note(note))
  }

  function Rejected(r: Request, admin: string, now: int, note: string): Request {
    r.(status := REJECTED, decidedBy := Some(admin), decidedAt := Some(now), note := Note(note))
  }

  function Cancelled(r: Request, now: int): Request {
    r.(status := CANCELLED, decidedAt := Some(now))
  }

  predicate Stale(r: Request, cutoff: int) {
    r.status == PENDING && r.expiresAt <= cutoff
  }

  /** The sweep is one statement over every stale row. */
  function Aged(rs: Requests, now: int, cutoff: int): Requests {
    map id | id in rs :: if Stale(rs[id], cutoff) then rs[id].(status := EXPIRED, decidedAt := Some(now)) else rs[id]
  }

  predicate IsOpen(rs: Requests, id: nat) {
    id in rs && rs[id].status == PENDING
  }

  /** uq_pending: one open request per account and target role. */
  ghost predicate OneOpenEach(rs: Requests) {
    forall i, j | IsOpen(rs, i) && IsOpen(rs, j) && (rs[i].username, rs[i].toRole) == (rs[j].username, rs[j].toRole) ::
      i == j
  }

  datatype Decision =
    | Won(scope: seq<string>) | AlreadyDecided | NotFound | Refused
    | RoleRefused  // the row was won, and set_role then raised

  // -- widening, as the account sees it -----------------------------------

  lemma {:induction false} ParsedNamesAreNotBlank(names: seq<string>)
    requires forall g :: g in names ==> CleanName(g)
    ensures NonBlank(names) == names
  {
    if names != [] {
      assert names[0] in names;
      StripFacts(names[0]);
      assert names == [names[0]] + names[1..];
      ParsedNamesAreNotBlank(names[1..]);
    }
  }

  lemma {:induction false} StoredGrantNeverNarrows(account: Account, groups: string)
    ensures var before, asked := ParseGroups(account.scope), ParseGroups(groups);
            var after := ParseGroups(JoinComma(ResultingScope(Some(account), account.role, asked)));
            && before <= after
            && (forall g :: g in asked ==> Covers(after, g))
            && (forall g :: g in after[|before|..] ==> g in asked && !Covers(before, g))
  {
    ParsedNamesAreClean(groups);
    ParsedNamesAreNotBlank(ParseGroups(groups));
    WideningNeverNarrows(account.scope, groups);
  }

  /** An approval for an account that already holds the target role stores a
      scope that, read back, keeps every earlier queue where it was, adds none
      that was held in another case, and covers exactly those of the names the
      administrator ticked that have no comma in them. */
  lemma {:induction false} ApprovalNeverNarrows(account: Account, ticked: seq<string>, joined: Option<string>,
                                                req: Request)
    requires IsJoin(ticked, joined)
    ensures var groups := Granted(joined, req);
            var before, asked := ParseGroups(account.scope), ParseGroups(groups);
            var after := ParseGroups(JoinComma(ResultingScope(Some(account), account.role, asked)));
            && before <= after
            && (forall g :: g in asked ==> Covers(after, g))
            && (forall g :: g in ticked && Strip(g) != "" ==> (Covers(after, Strip(g)) <==> ',' !in g))
            && (forall g :: g in after[|before|..] ==> g in asked && !Covers(before, g))
  {
    var groups := Granted(joined, req);
    StoredGrantNeverNarrows(account, groups);
    var stored := JoinComma(ResultingScope(Some(account), account.role, ParseGroups(groups)));
    forall g | g in ticked && Strip(g) != "" ensures Covers(ParseGroups(stored), Strip(g)) <==> ',' !in g {
      TickedIsReadBackIff(ticked, joined, g);
      StripKeepsCommas(g);
      if ',' in g {
        CommaIsNeverCovered(stored, Strip(g));
      }
    }
  }

  /** `visible_groups`: an empty scope means everything to an administrator
      and nothing to anybody else. */
  ghost predicate Sees(role: Role, scope: seq<string>, queue: string) {
    if scope == [] then role == ADMIN else Covers(scope, queue)
  }

  /** Seen through what the account may read, the same approval takes nothing
      away unless the account is an administrator with no scope of its own. */
  lemma {:induction false} ApprovalKeepsSightIff(account: Account, groups: string)
    requires ParseGroups(groups) != []
    ensures var before := ParseGroups(account.scope);
            var after := ParseGroups(JoinComma(ResultingScope(Some(account), account.role, ParseGroups(groups))));
            (forall q :: Sees(account.role, before, q) ==> Sees(account.role, after, q))
            <==> !(account.role == ADMIN && before == [])
  {
    var before, asked := ParseGroups(account.scope), ParseGroups(groups);
    var after := ParseGroups(JoinComma(ResultingScope(Some(account), account.role, asked)));
    StoredGrantNeverNarrows(account, groups);
    assert asked[0] in asked;
    assert Covers(after, asked[0]);
    if account.role == ADMIN && before == [] {
      var q := Longer(after);
      assert Sees(ADMIN, before, q) && !Sees(ADMIN, after, q);
    } else {
      forall q | Sees(account.role, before, q) ensures Sees(account.role, after, q) {
        var i :| 0 <= i < |before| && Lower(before[i]) == Lower(q);
        assert after[i] == before[i];
      }
    }
  }

  /** A name no list of names covers: one longer than all of them. */
  lemma {:induction false} Longer(names: seq<string>) returns (q: string)
    ensures !Covers(names, q) && forall i :: 0 <= i < |names| ==> |names[i]| < |q|
  {
    if names == [] {
      q := "";
    } else {
      var shorter := Longer(names[1..]);
      q := shorter + names[0] + "x";
      forall i | 0 <= i < |names| ensures |names[i]| < |q| {
        if i > 0 { assert names[i] == names[1..][i - 1]; }
      }
    }
    LowerKeepsLength(q);
    forall i | 0 <= i < |names| ensures Lower(names[i]) != Lower(q) {
      LowerKeepsLength(names[i]);
    }
  }

  /** `scope_of`: the queues an account holds now. */
  function Held(t: Table, u: string): seq<string> {
    if u in t then ParseGroups(t[u].scope) else []
  }

  /** Held in whatever case. */
  lemma {:induction false} HeldIsCovered(t: Table, u: string)
    ensures forall g :: Lower(g) in LowerAll(Held(t, u)) <==> Covers(Held(t, u), g)
    ensures u in t ==> Held(t, u) == ParseGroups(t[u].scope)
  {
  }

  /** A genuine elevation leaves nothing of the old scope: what is read back is
      what was granted. */
  lemma {:induction false} ElevationReplacesScope(account: Option<Account>, toRole: Role, groups: string)
    requires account.None? || account.value.role != toRole
    ensures ParseGroups(JoinComma(ResultingScope(account, toRole, ParseGroups(groups)))) == ParseGroups(groups)
  {
    ParsedNamesAreClean(groups);
    ParsedNamesAreNotBlank(ParseGroups(groups));
    StoredListRoundTrip(ParseGroups(groups));
  }

  /** A note is kept without outer blanks, up to its two thousandth character,
      and not at all when it is blank. */
  lemma {:induction false} NoteIs(note: string)
    ensures Note(note).None? <==> Strip(note) == ""
    ensures var s := Strip(note);
            Note(note).Some? ==> Note(note).value <= s && |Note(note).value| == if |s| < 2000 then |s| else 2000
  {
  }

  lemma {:induction false} ChosenJoin(chosen: seq<string>, joined: Option<string>)
    requires chosen != [] && forall g :: g in chosen ==> g != "" && Trimmed(g)
    requires IsJoin(chosen, joined)
    ensures joined.Some?
  {
    var xs :| IsListing(NameSet(chosen), xs) && joined == if xs == [] then None else Some(JoinComma(xs));
    StripFacts(chosen[0]);
    assert chosen[0] in chosen;
    assert Clean(chosen)[0] in NameSet(chosen);
    EmptyListing(NameSet(chosen), xs);
  }

  lemma {:induction false} SomeJoin(names: seq<string>) returns (joined: Option<string>)
    ensures IsJoin(names, joined)
  {
    var xs := SomeListing(NameSet(names));
    joined := if xs == [] then None else Some(JoinComma(xs));
  }

  // -- the service ---------------------------------------------------------

  /** Who is asking to open a request, and for what. */
  datatype Ask = Ask(username: string, role: Role, toRole: Role, justification: string, groups: seq<string>)

  /** The auth.role_requests settings; durations in seconds. */
  datatype Policy = Policy(enabled: bool, targets: set<Role>, expireAfter: int, cooldown: int, minChars: int)

  datatype Refusal =
    | Disabled | NotRequestable | AlreadyUnrestricted | AlreadyBroader | TooShort
    | UnknownQueue | NoQueue | AlreadyHeld | CoolingDown | AlreadyOpen

  function Rank(r: Role): nat {
    match r case VIEWER => 0 case LEAD => 1 case ADMIN => 2
  }

  /** The service's own spelling of a queue, if it knows one. */
  function Canonical(valid: seq<string>, g: string): string {
    if valid == [] then ""
    else
      var last := Strip(valid[|valid| - 1]);
      if Lower(last) == Lower(Strip(g)) then last else Canonical(valid[..|valid| - 1], g)
  }

  /** A recent refusal stands in the way of the queues it named, or of any if
      it named none. */
  predicate Blocks(r: Request, ask: Ask, chosen: seq<string>, cutoff: int) {
    && r.username == ask.username && r.toRole == ask.toRole && r.status == REJECTED
    && r.decidedAt.Some? && r.decidedAt.value >= cutoff
    && var refused := LowerAll(ParseGroups(r.requested));
       refused == {} || exists i :: 0 <= i < |chosen| && Lower(Strip(chosen[i])) in refused
  }

  /** Queues the service knows, spelt its way, none of them held already. */
  ghost predicate IsDelta(chosen: seq<string>, valid: seq<string>, held: set<string>) {
    forall g :: g in chosen ==> g != "" && Trimmed(g) && Lower(g) !in held
                                && exists i :: 0 <= i < |valid| && Strip(valid[i]) == g
  }

  predicate Declined(rs: Requests, ask: Ask, chosen: seq<string>, cutoff: int) {
    exists k :: k in rs && Blocks(rs[k], ask, chosen, cutoff)
  }

  function Fresh(ask: Ask, joined: string, expiresAt: int): Request {
    Request(ask.username, ask.toRole, joined, expiresAt, PENDING, None, None, None, None)
  }

  lemma {:induction false} CanonicalFacts(valid: seq<string>, g: string)
    ensures var c := Canonical(valid, g);
            c != "" ==> Trimmed(c) && Lower(c) == Lower(Strip(g))
                        && exists i :: 0 <= i < |valid| && Strip(valid[i]) == c
  {
    if valid != [] {
      StripFacts(valid[|valid| - 1]);
      var front := valid[..|valid| - 1];
      CanonicalFacts(front, g);
      var c := Canonical(front, g);
      if c != "" {
        var i :| 0 <= i < |front| && Strip(front[i]) == c;
        assert valid[i] == front[i];
      }
    }
  }

  /** The queues asked for, in the service's spelling, minus those held. */
  function Chosen(groups: seq<string>, valid: seq<string>, held: set<string>): seq<string> {
    if groups == [] then []
    else
      var front, last := Chosen(groups[..|groups| - 1], valid, held), Canonical(valid, groups[|groups| - 1]);
      if last == "" || Lower(last) in held then front else front + [last]
  }

  lemma {:induction false} ChosenFacts(groups: seq<string>, valid: seq<string>, held: set<string>)
    ensures IsDelta(Chosen(groups, valid, held), valid, held)
    ensures forall g :: g in groups && Canonical(valid, g) != "" ==>
              Lower(Canonical(valid, g)) in held || Canonical(valid, g) in Chosen(groups, valid, held)
  {
    if groups != [] {
      var front, last := groups[..|groups| - 1], groups[|groups| - 1];
      ChosenFacts(front, valid, held);
      CanonicalFacts(valid, last);
      assert groups == front + [last];
    }
  }

  /** No spelling of the service's own, when it knows no such queue. */
  lemma {:induction false} CanonicalIff(valid: seq<string>, g: string)
    ensures Canonical(valid, g) == "" <==> Strip(g) == "" || Unheard(g, valid)
  {
    StripFacts(g);
    CanonicalFacts(valid, g);
    if valid != [] {
      var front, last := valid[..|valid| - 1], valid[|valid| - 1];
      assert valid == front + [last];
      CanonicalIff(front, g);
    }
  }

  /** A rejection stands in the way of the queues it named, or of all if it
      named none, until the cooldown is over; nothing but a rejection does. */
  lemma {:induction false} RejectionStands(r: Request, admin: string, at: int, note: string, ask: Ask, queue: string,
                                           now: int, cooldown: int)
    ensures Blocks(Rejected(r, admin, at, note), ask, [queue], now - cooldown)
            <==> && r.username == ask.username && r.toRole == ask.toRole && now <= at + cooldown
                 && (ParseGroups(r.requested) == [] || Covers(ParseGroups(r.requested), Strip(queue)))
    ensures r.status != REJECTED ==> !Blocks(r, ask, [queue], now - cooldown)
  {
    var named := ParseGroups(r.requested);
    assert LowerAll(named) == {} <==> named == [] by {
      if named != [] {
        assert Lower(named[0]) in LowerAll(named);
      }
    }
    assert [queue][0] == queue;
  }

  /** Rank is the order of the roles. */
  lemma {:induction false} BroaderRoles(a: Application)
    ensures Against(AlreadyBroader, a)
            <==> (a.ask.role == ADMIN && a.ask.toRole != ADMIN) || (a.ask.role == LEAD && a.ask.toRole == VIEWER)
  {
  }

  predicate HasOpen(rs: Requests, ask: Ask) {
    exists k :: k in rs && rs[k].status == PENDING && rs[k].username == ask.username && rs[k].toRole == ask.toRole
  }

  /** A request about to be opened, and all it is judged by. */
  datatype Application = Application(
    requests: Requests, ask: Ask, policy: Policy, valid: seq<string>, held: set<string>, now: int)

  /** What speaks against opening it. */
  predicate Against(x: Refusal, a: Application) {
    match x
    case Disabled => !a.policy.enabled
    case NotRequestable => a.ask.role != a.ask.toRole && a.ask.toRole !in a.policy.targets
    case AlreadyUnrestricted => a.ask.role == a.ask.toRole == ADMIN
    case AlreadyBroader => Rank(a.ask.role) > Rank(a.ask.toRole)
    case TooShort => |Strip(a.ask.justification)| < a.policy.minChars
    case UnknownQueue => exists i :: 0 <= i < |a.ask.groups| && Canonical(a.valid, a.ask.groups[i]) == ""
    case NoQueue => a.ask.groups == []
    case AlreadyHeld => Chosen(a.ask.groups, a.valid, a.held) == []
    case CoolingDown =>
      a.policy.cooldown > 0
      && Declined(a.requests, a.ask, Chosen(a.ask.groups, a.valid, a.held), a.now - a.policy.cooldown)
    case AlreadyOpen => HasOpen(a.requests, a.ask)
  }

  /** The order in which the grounds are looked at. */
  const GROUNDS: seq<Refusal> := [
    Disabled, NotRequestable, AlreadyUnrestricted, AlreadyBroader, TooShort,
    UnknownQueue, NoQueue, AlreadyHeld, CoolingDown, AlreadyOpen]

  ghost predicate NoneOfFirst(n: nat, a: Application)
    requires n <= |GROUNDS|
  {
    forall k :: 0 <= k < n ==> !Against(GROUNDS[k], a)
  }

  /** The first ground there is, or none. */
  ghost predicate IsVerdict(v: Option<Refusal>, a: Application) {
    match v
    case None => NoneOfFirst(|GROUNDS|, a)
    case Some(x) => exists n :: 0 <= n < |GROUNDS| && GROUNDS[n] == x && Against(x, a) && NoneOfFirst(n, a)
  }

  lemma {:induction false} Stopped(n: nat, a: Application)
    requires n < |GROUNDS| && NoneOfFirst(n, a) && Against(GROUNDS[n], a)
    ensures IsVerdict(Some(GROUNDS[n]), a)
  {
  }

  /** Whether an approval can be carried out, whatever has become of the row. */
  predicate Grantable(req: Request, account: Option<Account>, admin: string, granted: seq<string>,
                      valid: Option<seq<string>>, joined: Option<string>)
  {
    && MayDecide(req, admin, account) && AllKnown(granted, valid)
    && Granted(joined, req) != "" && ResultingScope(account, req.toRole, ParseGroups(Granted(joined, req))) != []
  }

  /** Nobody asks to become an administrator unless the settings say so, as
      those that are shipped do not. */
  lemma {:induction false} AdminIsATarget(a: Application)
    requires IsVerdict(None, a) && a.ask.toRole == ADMIN
    ensures ADMIN in a.policy.targets && a.ask.role != ADMIN
  {
    assert !Against(GROUNDS[1], a) && !Against(GROUNDS[2], a);
  }

  lemma {:induction false} GrantToUnrestricted(account: Account, groups: string)
    requires account.role == ADMIN && ParseGroups(account.scope) == []
    ensures var scope := ResultingScope(Some(account), ADMIN, ParseGroups(groups));
            && (scope != [] <==> ParseGroups(groups) != [])
            && (scope != [] ==> exists q :: Sees(ADMIN, ParseGroups(account.scope), q)
                                            && !Sees(ADMIN, ParseGroups(JoinComma(scope)), q))
  {
    StoredGrantNeverNarrows(account, groups);
    ParsedNamesAreClean(groups);
    ParsedNamesAreNotBlank(ParseGroups(groups));
    if ParseGroups(groups) != [] {
      ApprovalKeepsSightIff(account, groups);
      assert ParseGroups(groups)[0] in ParseGroups(groups);
    }
  }

  lemma {:induction false} NothingTicked()
    ensures IsJoin([], None)
  {
    assert NameSet([]) == {};
    assert IsListing({}, []);
  }

  lemma {:induction false} NoScope()
    ensures ParseGroups("") == []
  {
    StoredListRoundTrip([]);
  }

  /** How sight comes to be lost, in a service that lets ADMIN be asked for:
      somebody does, is made an administrator by hand before the request is
      looked at, with no scope and so with sight of everything, and then has
      the request approved as it stands. `recorded` is the list OpenRequest
      stored; one that holds no name at all is refused. */
  lemma {:induction false} ApprovedAfterPromotion(ask: Ask, recorded: string, expiresAt: int, rows: Table,
                                                  admin: string)
    requires ask.toRole == ADMIN
    requires ask.username in rows && rows[ask.username].active && ask.username != admin
    ensures var u, req := ask.username, Fresh(ask, recorded, expiresAt);
            var (promoted, _) := AfterSetRole(rows, u, ADMIN, [], MANUAL);
            var scope := ResultingScope(Live(promoted, u), ADMIN, ParseGroups(recorded));
            var (after, outcome) := AfterSetRole(promoted, u, ADMIN, scope, REQUEST);
            && IsJoin([], None) && Granted(None, req) == recorded
            && (Grantable(req, Live(promoted, u), admin, [], None, None) <==> ParseGroups(recorded) != [])
            && outcome == Applied
            && (ParseGroups(recorded) != [] ==>
                  exists q :: Sees(ADMIN, ParseGroups(promoted[u].scope), q)
                              && !Sees(ADMIN, ParseGroups(after[u].scope), q))
  {
    var u := ask.username;
    var promoted := AfterSetRole(rows, u, ADMIN, [], MANUAL).0;
    NothingTicked();
    NoScope();
    assert promoted[u].role == ADMIN && promoted[u].scope == "";
    GrantToUnrestricted(promoted[u], recorded);
  }

  /** A lead asks to become an administrator, for one queue. */
  function Aspiring(u: string, queue: string, now: int): Application {
    Application(map[], Ask(u, LEAD, ADMIN, "", [queue]), Policy(true, {LEAD, ADMIN}, 0, 0, 0), [queue], {}, now)
  }

  lemma {:induction false} OneQueueChosen(queue: string)
    requires CleanName(queue)
    ensures Canonical([queue], queue) == queue && Chosen([queue], [queue], {}) == [queue]
    ensures IsJoin([queue], Some(queue))
  {
    StripFacts(queue);
    assert [queue][..0] == [];
    assert Clean([queue]) == [queue];
    assert IsListing(NameSet([queue]), [queue]) && JoinComma([queue]) == queue;
  }

  lemma {:induction false} NothingAgainst(u: string, queue: string, now: int, x: Refusal)
    requires CleanName(queue)
    ensures !Against(x, Aspiring(u, queue, now))
  {
    OneQueueChosen(queue);
    match x
    case TooShort => assert |Strip("")| >= 0;
    case _ =>
  }

  /** So a lead without a scope asks, the request is opened, and by the time
      it is approved it takes sight away. */
  lemma {:induction false} AnOldRequestTakesSight(rows: Table, u: string, admin: string, queue: string, now: int)
    requires CleanName(queue) && u != admin
    requires u in rows && rows[u].active && rows[u].role == LEAD && rows[u].scope == ""
    ensures LowerAll(Held(rows, u)) == {} && IsVerdict(None, Aspiring(u, queue, now))
    ensures IsJoin(Chosen([queue], [queue], {}), Some(queue)) && IsJoin([], None)
    ensures var req := Fresh(Aspiring(u, queue, now).ask, queue, now);
            var promoted := AfterSetRole(rows, u, ADMIN, [], MANUAL).0;
            var scope := ResultingScope(Live(promoted, u), ADMIN, ParseGroups(queue));
            var after := AfterSetRole(promoted, u, ADMIN, scope, REQUEST).0;
            && Grantable(req, Live(promoted, u), admin, [], None, None)
            && exists q :: Sees(ADMIN, ParseGroups(promoted[u].scope), q)
                           && !Sees(ADMIN, ParseGroups(after[u].scope), q)
  {
    OneQueueChosen(queue);
    CleanNameParsesToItself(queue);
    NothingTicked();
    forall k | 0 <= k < |GROUNDS| ensures !Against(GROUNDS[k], Aspiring(u, queue, now)) {
      NothingAgainst(u, queue, now, GROUNDS[k]);
    }
    ApprovedAfterPromotion(Aspiring(u, queue, now).ask, queue, now, rows, admin);
  }

  class RoleRequestService {
    var requests: Requests
    const users: UserStore

    constructor (users: UserStore)
      ensures this.users == users && requests == map[]
    {
      this.users := users;
      requests := map[];
    }

    static method Choose(groups: seq<string>, valid: seq<string>, held: set<string>)
      returns (chosen: seq<string>, known: nat, unknown: bool)
      ensures chosen == Chosen(groups, valid, held) && IsDelta(chosen, valid, held)
      ensures unknown <==> exists i :: 0 <= i < |groups| && Canonical(valid, groups[i]) == ""
      ensures !unknown ==> known == |groups|
      ensures forall g :: g in groups && Canonical(valid, g) != "" ==>
                Lower(Canonical(valid, g)) in held || Canonical(valid, g) in chosen
    {
      chosen, known, unknown := [], 0, false;
      for i := 0 to |groups|
        invariant chosen == Chosen(groups[..i], valid, held)
        invariant unknown <==> exists j :: 0 <= j < i && Canonical(valid, groups[j]) == ""
        invariant !unknown ==> known == i
      {
        assert groups[..i + 1][..i] == groups[..i];
        var spelling := Canonical(valid, groups[i]);
        if spelling == "" {
          unknown := true;
        } else {
          known := known + 1;
          if Lower(spelling) !in held {
            chosen := chosen + [spelling];
          }
        }
      }
      assert groups[..|groups|] == groups;
      ChosenFacts(groups, valid, held);
    }

    /** The checks on who asks for what. */
    method VetRole(a: Application) returns (refusal: Option<Refusal>)
      ensures refusal.Some? ==> IsVerdict(refusal, a)
      ensures refusal.None? ==> NoneOfFirst(5, a)
    {
      if !a.policy.enabled {
        Stopped(0, a);
        return Some(Disabled);
      }
      var additive := a.ask.role == a.ask.toRole;
      if !additive && a.ask.toRole !in a.policy.targets {
        Stopped(1, a);
        return Some(NotRequestable);
      }
      if additive && a.ask.role == ADMIN {
        Stopped(2, a);
        return Some(AlreadyUnrestricted);
      }
      if Rank(a.ask.role) > Rank(a.ask.toRole) {
        Stopped(3, a);
        return Some(AlreadyBroader);
      }
      if |Strip(a.ask.justification)| < a.policy.minChars {
        Stopped(4, a);
        return Some(TooShort);
      }
      refusal := None;
    }

    /** The checks on the queues asked for. */
    method VetQueues(a: Application) returns (refusal: Option<Refusal>)
      requires NoneOfFirst(5, a)
      ensures refusal.Some? ==> IsVerdict(refusal, a)
      ensures refusal.None? ==> NoneOfFirst(9, a)
    {
      var chosen, known, unknown := Choose(a.ask.groups, a.valid, a.held);
      if unknown {
        Stopped(5, a);
        return Some(UnknownQueue);
      }
      if known == 0 {
        Stopped(6, a);
        return Some(NoQueue);
      }
      if chosen == [] {
        Stopped(7, a);
        return Some(AlreadyHeld);
      }
      if a.policy.cooldown > 0 && Declined(a.requests, a.ask, chosen, a.now - a.policy.cooldown) {
        Stopped(8, a);
        return Some(CoolingDown);
      }
      refusal := None;
    }

    /** `id` is the key AUTO_INCREMENT will hand out. */
    method OpenRequest(ask: Ask, policy: Policy, valid: seq<string>, now: int, id: nat)
      returns (refusal: Option<Refusal>)
      requires id !in requests && OneOpenEach(requests)
      modifies this
      ensures OneOpenEach(requests)
      // Refused for the first ground there is, opened when there is none.
      ensures IsVerdict(refusal, Application(old(requests), ask, policy, valid,
                                             LowerAll(Held(users.rows, ask.username)), now))
      ensures refusal.Some? ==> requests == old(requests)
      // What is recorded is a delta: queues the service knows, in its own
      // spelling, none of which the account holds.
      ensures var chosen := Chosen(ask.groups, valid, LowerAll(Held(users.rows, ask.username)));
              && IsDelta(chosen, valid, LowerAll(Held(users.rows, ask.username)))
              && (refusal.None? ==>
                    exists joined :: IsJoin(chosen, Some(joined))
                      && requests == old(requests)[id := Fresh(ask, joined, now + policy.expireAfter)])
              && forall g :: g in chosen ==> !Covers(Held(users.rows, ask.username), g)
      ensures refusal.None? ==>
                && id in requests && requests[id].status == PENDING && requests[id].decidedBy == None
                && requests[id].username == ask.username && requests[id].toRole == ask.toRole
                && requests[id].expiresAt == now + policy.expireAfter
                && forall k :: k in old(requests) ==> k in requests && requests[k] == old(requests)[k]
      ensures refusal == Some(AlreadyOpen) ==>
                exists k :: k in requests && requests[k].status == PENDING
                  && requests[k].username == ask.username && requests[k].toRole == ask.toRole
    {
      var held := LowerAll(Held(users.rows, ask.username));
      ChosenFacts(ask.groups, valid, held);
      HeldIsCovered(users.rows, ask.username);
      var application := Application(requests, ask, policy, valid, held, now);
      refusal := VetRole(application);
      if refusal.Some? {
        return;
      }
      refusal := VetQueues(application);
      if refusal.Some? {
        return;
      }
      assert !Against(GROUNDS[7], application);
      var joined := JoinNames(Chosen(ask.groups, valid, held));
      ChosenJoin(Chosen(ask.groups, valid, held), joined);
      // uq_pending, checked by the insert itself.
      if HasOpen(requests, ask) {
        Stopped(9, application);
        return Some(AlreadyOpen);
      }
      requests := requests[id := Fresh(ask, joined.value, now + policy.expireAfter)];
    }

    method Approve(id: nat, admin: string, granted: seq<string>, note: string,
                   valid: Option<seq<string>>, now: int) returns (d: Decision)
      modifies this, users
      ensures d.NotFound? <==> id !in old(requests)
      // Refused exactly when it cannot be carried out, too late exactly when
      // it could but the row is no longer open, won otherwise.
      ensures id in old(requests) ==>
                exists joined :: IsJoin(granted, joined) &&
                  var req := old(requests)[id];
                  var account := Live(old(users.rows), req.username);
                  var groups := Granted(joined, req);
                  var scope := ResultingScope(account, req.toRole, ParseGroups(groups));
                  var (rows, outcome) := AfterSetRole(old(users.rows), req.username, req.toRole, scope, REQUEST);
                  if !Grantable(req, account, admin, granted, valid, joined) then d == Refused
                  else if req.status != PENDING then d == AlreadyDecided
                  else
                    && d == (if outcome == Applied then Won(scope) else RoleRefused)
                    && requests == old(requests)[id := Approved(req, admin, now, groups, note)]
                    && users.rows == rows
      // Nothing is written unless the row was won.
      ensures !(d.Won? || d.RoleRefused?) ==> requests == old(requests) && users.rows == old(users.rows)
      // Nobody decides their own request, nor one of an account that is gone
      // or inactive, nor grants a queue the service does not know.
      ensures id in old(requests) && old(requests)[id].username == admin ==> d == Refused
      ensures id in old(requests) && NotActive(old(users.rows), old(requests)[id].username) ==> d == Refused
      ensures id in old(requests) && valid.Some? && (exists g :: g in granted && Unheard(g, valid.value)) ==>
                d == Refused
      ensures d.Won? || d.RoleRefused? ==>
                && requests.Keys == old(requests).Keys && requests[id].status == APPROVED
                && requests[id].decidedBy == Some(admin) && requests[id].decidedAt == Some(now)
                && (forall k :: k in requests && k != id ==> requests[k] == old(requests)[k])
    {
      if id !in requests {
        return NotFound;
      }
      var req := requests[id];
      WhoMayDecide(req, admin, users.rows);
      if valid.Some? {
        AllKnownIff(granted, valid.value);
      }
      if !MayDecide(req, admin, Live(users.rows, req.username)) || !AllKnown(granted, valid) {
        ghost var some := SomeJoin(granted);
        return Refused;
      }
      var joined := JoinNames(granted);
      var groups := Granted(joined, req);
      if groups == "" {
        return Refused;
      }
      var scope := ResultingScope(Live(users.rows, req.username), req.toRole, ParseGroups(groups));
      if scope == [] {
        return Refused;
      }
      if requests[id].status != PENDING {
        return AlreadyDecided;
      }
      requests := requests[id := Approved(req, admin, now, groups, note)];
      var outcome := users.SetRole(req.username, req.toRole, scope, REQUEST);
      d := if outcome == Applied then Won(scope) else RoleRefused;
    }

    method Reject(id: nat, admin: string, note: string, now: int) returns (d: Decision)
      modifies this
      ensures d.NotFound? <==> id !in old(requests)
      ensures d.Won? <==> IsOpen(old(requests), id)
                           && MayDecide(old(requests)[id], admin, Live(users.rows, old(requests)[id].username))
      ensures d.AlreadyDecided? ==> old(requests)[id].status != PENDING
      ensures requests == if d.Won? then old(requests)[id := Rejected(old(requests)[id], admin, now, note)]
                          else old(requests)
      ensures id in old(requests) && old(requests)[id].username == admin ==> d == Refused
      ensures id in old(requests) && NotActive(users.rows, old(requests)[id].username) ==> d == Refused
      ensures d.Won? ==> requests[id].status == REJECTED && requests[id].decidedBy == Some(admin)
                         && requests[id].decidedAt == Some(now)
    {
      if id !in requests {
        return NotFound;
      }
      var req := requests[id];
      WhoMayDecide(req, admin, users.rows);
      if !MayDecide(req, admin, Live(users.rows, req.username)) {
        return Refused;
      }
      if req.status != PENDING {
        return AlreadyDecided;
      }
      requests := requests[id := Rejected(req, admin, now, note)];
      d := Won([]);
    }

    /** Withdrawn by whoever made it; anybody else, or a second time, changes
        nothing. */
    method Cancel(id: nat, user: string, now: int) returns (d: Decision)
      modifies this
      ensures d.Won? <==> IsOpen(old(requests), id) && old(requests)[id].username == user
      ensures !d.Won? ==> d.AlreadyDecided?
      ensures requests == if d.Won? then old(requests)[id := Cancelled(old(requests)[id], now)] else old(requests)
      ensures d.Won? ==> requests[id].status == CANCELLED
    {
      if id !in requests || requests[id].username != user || requests[id].status != PENDING {
        return AlreadyDecided;
      }
      requests := requests[id := Cancelled(requests[id], now)];
      d := Won([]);
    }

    method ExpireStale(now: int, cutoff: int) returns (expired: nat)
      modifies this
      ensures requests == Aged(old(requests), now, cutoff)
      ensures requests.Keys == old(requests).Keys
      ensures forall k :: k in requests && requests[k] != old(requests)[k] ==>
                old(requests)[k].status == PENDING && requests[k].status == EXPIRED
      ensures forall k :: k in requests && old(requests)[k].status == PENDING ==>
                (requests[k].status == EXPIRED <==> old(requests)[k].expiresAt <= cutoff)
      ensures expired == |set id | id in old(requests) && Stale(old(requests)[id], cutoff)|
    {
      var stale := set id | id in requests && Stale(requests[id], cutoff);
      requests := Aged(requests, now, cutoff);
      expired := |stale|;
    }
  }
}
