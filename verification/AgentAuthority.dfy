/**
 Agent authority: who an agent acts for, when it is suspended, and which credentials still work.

 An identity edit proposes new users, assignments or access, compares every agent's position before
 and after, and in the same write suspends the agents that lost something, raises their epoch and
 revokes every token they hold.  What the permission policy derives from memberships is kept as two
 sets of facts per user: the role thresholds held, and the admissions an active account has.
 */
module AgentAuthority {
  import opened Options

  type Id = nat
  type Time = nat
  type Fact = nat

  const DAY := 86400000

  datatype Kind = Human | Agent | System

  datatype User = User(kind: Kind, active: bool, hubAdmin: bool, version: nat)

  datatype Access = Access(roles: set<Fact>, admissions: set<Fact>)

  datatype Reason = NotYetAuthorized | BindingLoss | PrincipalAuthorityLoss | OwnAuthorityLoss | PrincipalSetUnequal

  datatype Authority = Authority(
    epoch: nat, version: nat, suspended: Option<Reason>, freshContextRequired: bool,
    authorizedAt: Option<Time>, permittedUseAt: Option<Time>, freshContextAckAt: Option<Time>)

  datatype Token = Token(user: Id, principal: Option<Id>, epoch: Option<nat>, revoked: bool, expires: Option<Time>,
                         session: bool)

  /** The tables; minted holds the id of every token there ever was. */
  datatype Hub = Hub(
    users: map<Id, User>, access: map<Id, Access>, authorities: map<Id, Authority>,
    actsFor: map<Id, set<Id>>, tokens: map<Id, Token>, minted: set<Id>)

  // ---------------------------------------------------------------- signatures and comparison

  /** Everything the policy sees of one user; an inactive account is admitted nowhere. */
  datatype Signature = Signature(active: bool, hubAdmin: bool, roles: set<Fact>, admitted: set<Fact>)

  function SignatureOf(hub: Hub, id: Id): Signature {
    var active := id in hub.users && hub.users[id].active;
    var hubAdmin := id in hub.users && hub.users[id].hubAdmin;
    var held := if id in hub.access then hub.access[id] else Access({}, {});
    Signature(active, hubAdmin, held.roles, if active then held.admissions else {})
  }

  predicate Loss(before: Signature, after: Signature) {
    || (before.active && !after.active)
    || (before.hubAdmin && !after.hubAdmin)
    || !(before.roles <= after.roles)
    || !(before.admitted <= after.admitted)
  }

  /** The assigned humans whose accounts are active. */
  function Eligible(hub: Hub, agent: Id): set<Id> {
    if agent in hub.actsFor then set p | p in hub.actsFor[agent] && p in hub.users && hub.users[p].active else {}
  }

  predicate AlikeIn(hub: Hub, people: set<Id>) {
    forall p, q | p in people && q in people :: SignatureOf(hub, p) == SignatureOf(hub, q)
  }

  datatype Transition = Transition(needed: bool, alike: bool, nonempty: bool, reasons: set<Reason>)

  function Compare(was: Hub, proposed: Hub, agent: Id): Transition {
    var before, after := Eligible(was, agent), Eligible(proposed, agent);
    var people := before + after;
    var alike := AlikeIn(proposed, after);
    var same := SignatureOf(was, agent) == SignatureOf(proposed, agent) && before == after &&
                forall p | p in people :: SignatureOf(was, p) == SignatureOf(proposed, p);
    var own := Loss(SignatureOf(was, agent), SignatureOf(proposed, agent));
    var human := exists p | p in people :: Loss(SignatureOf(was, p), SignatureOf(proposed, p));
    var binding := !(before <= after);
    Transition(
      !same && (own || human || binding || !alike), alike, after != {},
      (if binding then {BindingLoss} else {}) + (if human then {PrincipalAuthorityLoss} else {}) +
      (if own then {OwnAuthorityLoss} else {}) + (if !alike then {PrincipalSetUnequal} else {}))
  }

  // ---------------------------------------------------------------- reconciliation

  /** What the edit asked of one agent beside its rows. */
  datatype Request = Request(reassigned: bool, added: bool, authorize: bool, ack: bool)

  const NO_REQUEST := Request(false, false, false, false)

  function FirstReason(reasons: set<Reason>): Reason {
    if BindingLoss in reasons then BindingLoss
    else if PrincipalAuthorityLoss in reasons then PrincipalAuthorityLoss
    else if OwnAuthorityLoss in reasons then OwnAuthorityLoss
    else PrincipalSetUnequal
  }

  /** Something was taken from the agent or its principals, so what it was told before may no longer be its to use. */
  predicate Narrowing(reasons: set<Reason>) {
    reasons * {BindingLoss, PrincipalAuthorityLoss, OwnAuthorityLoss} != {}
  }

  function Suspended(before: Authority, reasons: set<Reason>): Authority {
    before.(epoch := before.epoch + 1, suspended := Some(FirstReason(reasons)),
            freshContextRequired := before.freshContextRequired || Narrowing(reasons))
  }

  predicate Unauthorized(a: Authority) {
    a.suspended.Some? || a.freshContextRequired || a.authorizedAt.None? || a.permittedUseAt.None?
  }

  function Settle(before: Authority, t: Transition, request: Request, now: Time): Authority {
    var a := if t.needed then Suspended(before, t.reasons) else before;
    var b := if request.added then a.(permittedUseAt := Some(now)) else a;
    var c := if request.authorize && Unauthorized(before)
             then b.(suspended := None, freshContextRequired := false, authorizedAt := Some(now),
                     permittedUseAt := Some(now),
                     freshContextAckAt := if request.ack then Some(now) else before.freshContextAckAt)
             else b;
    if c != before || request.reassigned then c.(version := before.version + 1) else c
  }

  function SettleAll(was: Hub, proposed: Hub, requests: map<Id, Request>, now: Time): map<Id, Authority> {
    map a | a in was.authorities ::
      Settle(was.authorities[a], Compare(was, proposed, a), if a in requests then requests[a] else NO_REQUEST, now)
  }

  function Losers(was: Hub, proposed: Hub): set<Id> {
    set a | a in was.authorities && Compare(was, proposed, a).needed
  }

  function Revoked(tokens: map<Id, Token>, owners: set<Id>): map<Id, Token> {
    map t | t in tokens :: if tokens[t].user in owners then tokens[t].(revoked := true) else tokens[t]
  }

  // ---------------------------------------------------------------- edits

  datatype Edit =
    | SetActive(user: Id, active: bool)
    | SetAssignments(agent: Id, principals: set<Id>, confirmed: bool)
    | AuthorizeAgent(agent: Id, confirmed: bool, ack: bool)
    | ChangeAccess(changes: map<Id, Access>)

  datatype Refusal =
    | NotAdministrator | NotFound | Invalid | VersionConflict | LastAdministrator | InvalidAssignment
    | UnequalPrincipals | PermittedUseRequired | FreshContextRequired | NotEligible

  function Administrators(users: map<Id, User>): set<Id> {
    set u | u in users && users[u].kind.Human? && users[u].active && users[u].hubAdmin
  }

  predicate IsAdministrator(hub: Hub, actor: Id) {
    actor in Administrators(hub.users)
  }

  predicate ActiveAgent(hub: Hub, agent: Id) {
    agent in hub.authorities && agent in hub.actsFor && agent in hub.users && hub.users[agent].kind.Agent?
      && hub.users[agent].active
  }

  function Checked(hub: Hub, actor: Id, edit: Edit): Option<Refusal> {
    if !edit.ChangeAccess? && !IsAdministrator(hub, actor) then Some(NotAdministrator)
    else match edit
      case SetActive(user, active) =>
        if user !in hub.users then Some(NotFound)
        else if hub.users[user].kind.System? then Some(Invalid)
        else if !active && Administrators(hub.users) == {user} then Some(LastAdministrator)
        else None
      case SetAssignments(agent, principals, _) =>
        if !ActiveAgent(hub, agent) then Some(InvalidAssignment)
        else if !(principals <= hub.users.Keys) then Some(NotFound)
        else if exists p | p in principals ::
          !hub.users[p].kind.Human? || (p !in hub.actsFor[agent] && !hub.users[p].active)
          then Some(InvalidAssignment)
        else None
      case AuthorizeAgent(agent, _, _) => if !ActiveAgent(hub, agent) then Some(InvalidAssignment) else None
      case ChangeAccess(changes) => if !(changes.Keys <= hub.users.Keys) then Some(NotFound) else None
  }

  function Proposed(hub: Hub, edit: Edit): Hub {
    match edit
    case SetActive(user, active) =>
      if user in hub.users && hub.users[user].active != active
      then hub.(users := hub.users[user := hub.users[user].(active := active, version := hub.users[user].version + 1)])
      else hub
    case SetAssignments(agent, principals, _) => hub.(actsFor := hub.actsFor[agent := principals])
    case AuthorizeAgent(_, _, _) => hub
    case ChangeAccess(changes) => hub.(access := hub.access + changes)
  }

  function Requests(hub: Hub, edit: Edit): map<Id, Request> {
    match edit
    case SetAssignments(agent, principals, _) =>
      var current := if agent in hub.actsFor then hub.actsFor[agent] else {};
      map[agent := Request(principals != current, !(principals <= current), false, false)]
    case AuthorizeAgent(agent, _, ack) => map[agent := Request(false, false, true, ack)]
    case _ => map[]
  }

  /** What reconciliation itself demands before anything is settled. */
  function Demanded(hub: Hub, edit: Edit): Option<Refusal> {
    match edit
    case SetAssignments(agent, principals, confirmed) =>
      if agent !in hub.actsFor || principals <= hub.actsFor[agent] then None
      else if !confirmed then Some(PermittedUseRequired)
      else if !Compare(hub, Proposed(hub, edit), agent).alike then Some(UnequalPrincipals)
      else None
    case AuthorizeAgent(agent, confirmed, ack) =>
      var t := Compare(hub, hub, agent);
      if !t.nonempty then Some(InvalidAssignment)
      else if !t.alike then Some(UnequalPrincipals)
      else if !confirmed then Some(PermittedUseRequired)
      else if agent in hub.authorities && hub.authorities[agent].freshContextRequired && !ack
        then Some(FreshContextRequired)
      else None
    case _ => None
  }

  /** The account an edit itself retires; everything it holds is revoked whatever the comparison says. */
  function Retired(hub: Hub, edit: Edit): set<Id> {
    match edit
    case SetActive(user, active) => if user in hub.users && hub.users[user].active && !active then {user} else {}
    case _ => {}
  }

  function Apply(hub: Hub, actor: Id, now: Time, edit: Edit): Result<Hub, Refusal> {
    var refused := Checked(hub, actor, edit);
    if refused.Some? then Err(refused.value)
    else
      var demanded := Demanded(hub, edit);
      if demanded.Some? then Err(demanded.value)
      else
        var proposed := Proposed(hub, edit);
        Ok(proposed.(authorities := SettleAll(hub, proposed, Requests(hub, edit), now),
                     tokens := Revoked(hub.tokens, Losers(hub, proposed) + Retired(hub, edit))))
  }

  // ---------------------------------------------------------------- credentials

  /** The epoch a credential of this user for this principal is bound to now; None when it is not eligible. */
  function Binding(hub: Hub, user: Id, principal: Option<Id>): Option<Option<nat>> {
    if user !in hub.users || !hub.users[user].active then None
    else match hub.users[user].kind
      case Human => if principal.None? then Some(None) else None
      case System => None
      case Agent =>
        if principal.None? || user !in hub.authorities || hub.authorities[user].suspended.Some? then None
        else if principal.value !in Eligible(hub, user) || !hub.users[principal.value].kind.Human? then None
        else Some(Some(hub.authorities[user].epoch))
  }

  predicate Usable(hub: Hub, token: Id, now: Time) {
    && token in hub.tokens
    && var t := hub.tokens[token];
       && !t.revoked
       && (t.expires.None? || now < t.expires.value)
       && Binding(hub, t.user, t.principal) == Some(t.epoch)
  }

  function Issue(hub: Hub, actor: Id, id: Id, user: Id, principal: Option<Id>, expires: Option<Time>,
                 session: bool): Result<Hub, Refusal> {
    if actor !in hub.users || !hub.users[actor].active || !hub.users[actor].kind.Human? then Err(NotAdministrator)
    else if actor != user && !hub.users[actor].hubAdmin then Err(NotAdministrator)
    else match Binding(hub, user, principal)
      case None => Err(NotEligible)
      case Some(epoch) =>
        Ok(hub.(tokens := hub.tokens[id := Token(user, principal, epoch, false, expires, session)],
                minted := hub.minted + {id}))
  }

  /** A browser session that ran out more than a day ago. */
  predicate Sweepable(t: Token, now: Time) {
    t.session && t.expires.Some? && t.expires.value + DAY < now
  }

  function Unswept(tokens: map<Id, Token>, now: Time): map<Id, Token> {
    map t | t in tokens && !Sweepable(tokens[t], now) :: tokens[t]
  }

  // ---------------------------------------------------------------- commands

  datatype Command =
    | AddPerson(id: Id, administrator: bool)
    | CreateAgent(id: Id)
    | Assign(agent: Id, person: Id, confirmed: bool, expected: Option<nat>)
    | Unassign(agent: Id, person: Id, expected: Option<nat>)
    | Authorize(agent: Id, confirmed: bool, ack: bool, expected: Option<nat>)
    | SetStatus(user: Id, active: bool, expected: Option<nat>)
    | Grant(changes: map<Id, Access>)
    | IssueToken(id: Id, user: Id, principal: Option<Id>, expires: Option<Time>, session: bool)
    | RevokeToken(id: Id)
    | SweepSessions

  predicate Stale(hub: Hub, agent: Id, expected: Option<nat>) {
    agent in hub.authorities && expected.Some? && expected.value != hub.authorities[agent].version
  }

  predicate ActiveHuman(hub: Hub, person: Id) {
    person in hub.users && hub.users[person].kind.Human? && hub.users[person].active
  }

  function NewAuthority(): Authority {
    Authority(1, 1, Some(NotYetAuthorized), false, None, None, None)
  }

  /** A new account holds no access; a new agent starts suspended and acts for nobody. */
  function WithUser(hub: Hub, id: Id, user: User): Hub {
    var added := hub.(users := hub.users[id := user], access := hub.access[id := Access({}, {})]);
    if user.kind.Agent?
    then added.(authorities := hub.authorities[id := NewAuthority()], actsFor := hub.actsFor[id := {}])
    else added
  }

  function Step(hub: Hub, actor: Id, now: Time, cmd: Command): Result<Hub, Refusal> {
    match cmd
    case AddPerson(id, administrator) =>
      if !IsAdministrator(hub, actor) then Err(NotAdministrator)
      else if id in hub.users then Err(Invalid)
      else Ok(WithUser(hub, id, User(Human, true, administrator, 1)))
    case CreateAgent(id) =>
      if !IsAdministrator(hub, actor) then Err(NotAdministrator)
      else if id in hub.users then Err(Invalid)
      else Ok(WithUser(hub, id, User(Agent, true, false, 1)))
    case Assign(agent, person, confirmed, expected) =>
      if !confirmed then Err(PermittedUseRequired)
      else if !ActiveAgent(hub, agent) || !ActiveHuman(hub, person) then Err(NotFound)
      else if Stale(hub, agent, expected) then Err(VersionConflict)
      else Apply(hub, actor, now, SetAssignments(agent, hub.actsFor[agent] + {person}, true))
    case Unassign(agent, person, expected) =>
      if !ActiveAgent(hub, agent) || !ActiveHuman(hub, person) || person !in hub.actsFor[agent] then Err(NotFound)
      else if Stale(hub, agent, expected) then Err(VersionConflict)
      else Apply(hub, actor, now, SetAssignments(agent, hub.actsFor[agent] - {person}, false))
    case Authorize(agent, confirmed, ack, expected) =>
      if !confirmed then Err(PermittedUseRequired)
      else if !ActiveAgent(hub, agent) then Err(NotFound)
      else if Stale(hub, agent, expected) then Err(VersionConflict)
      else Apply(hub, actor, now, AuthorizeAgent(agent, confirmed, ack))
    case SetStatus(user, active, expected) =>
      if user !in hub.users then Err(NotFound)
      else if expected.Some? && expected.value != hub.users[user].version then Err(VersionConflict)
      else
        var r := Apply(hub, actor, now, SetActive(user, active));
        if r.Ok? && !active && user == actor then Err(Invalid) else r
    case Grant(changes) => Apply(hub, actor, now, ChangeAccess(changes))
    case IssueToken(id, user, principal, expires, session) =>
      if id in hub.minted then Err(Invalid) else Issue(hub, actor, id, user, principal, expires, session)
    case RevokeToken(id) =>
      if id !in hub.tokens then Err(NotFound)
      else if hub.tokens[id].user != actor && !IsAdministrator(hub, actor) then Err(NotFound)
      else Ok(hub.(tokens := hub.tokens[id := hub.tokens[id].(revoked := true)]))
    case SweepSessions => Ok(hub.(tokens := Unswept(hub.tokens, now)))
  }

  // ---------------------------------------------------------------- what every reachable hub keeps

  ghost predicate TablesAgree(hub: Hub) {
    && hub.authorities.Keys == hub.actsFor.Keys && hub.users.Keys <= hub.access.Keys
    && (forall a | a in hub.authorities :: a in hub.users && hub.users[a].kind.Agent?)
    && (forall u | u in hub.users && hub.users[u].kind.Agent? :: u in hub.authorities)
    && (forall a, p | a in hub.actsFor && p in hub.actsFor[a] :: p in hub.users && hub.users[p].kind.Human?)
  }

  /** An unsuspended agent is active and acts for at least one active human, all of them holding the same authority. */
  ghost predicate Standing(hub: Hub, a: Id) {
    a in hub.authorities && hub.authorities[a].suspended.None? ==>
      && SignatureOf(hub, a).active
      && Eligible(hub, a) != {}
      && AlikeIn(hub, Eligible(hub, a))
      && !Unauthorized(hub.authorities[a])
  }

  /**
   A token nobody revoked is bound to what its user is eligible for now; a suspended agent's epoch is past all
   its tokens.
   */
  ghost predicate Current(hub: Hub, t: Id) {
    t in hub.tokens ==>
      var token := hub.tokens[t];
      && token.user in hub.users
      && (!token.revoked ==> Binding(hub, token.user, token.principal) == Some(token.epoch))
      && (token.user in hub.authorities ==>
            && token.principal.Some? && token.epoch.Some?
            && token.epoch.value <= hub.authorities[token.user].epoch
            && (hub.authorities[token.user].suspended.Some? ==> token.epoch.value < hub.authorities[token.user].epoch))
  }

  ghost predicate Sound(hub: Hub) {
    && TablesAgree(hub)
    && (forall a :: Standing(hub, a))
    && (forall t :: Current(hub, t)) && hub.tokens.Keys <= hub.minted
    && Administrators(hub.users) != {}
  }

  // ---------------------------------------------------------------- one agent through one edit

  /** An agent the comparison does not suspend lost nothing: it and every human it had are still there, still alike. */
  lemma NotNeededLosesNothing(was: Hub, proposed: Hub, a: Id)
    requires !Compare(was, proposed, a).needed
    ensures SignatureOf(was, a).active ==> SignatureOf(proposed, a).active
    ensures Eligible(was, a) <= Eligible(proposed, a)
    ensures AlikeIn(was, Eligible(was, a)) ==> AlikeIn(proposed, Eligible(proposed, a))
  {
    hide SignatureOf, Eligible;
  }

  /**
   Authorities after an edit: epochs rise by one exactly for the suspended, and only an authorization lifts a
   suspension.
   */
  lemma Settled(before: Authority, t: Transition, request: Request, now: Time)
    ensures var after := Settle(before, t, request, now);
            && after.epoch == before.epoch + (if t.needed then 1 else 0)
            && (t.needed && !request.authorize ==> after.suspended.Some?)
            && (!t.needed && !request.authorize ==> after.suspended == before.suspended)
            && (before.suspended.Some? && after.suspended.None? ==> request.authorize)
            && (before.freshContextRequired && !request.authorize ==> after.freshContextRequired)
            && (!Unauthorized(before) && !t.needed ==> !Unauthorized(after))
            && (request.authorize ==> !Unauthorized(after) || !Unauthorized(before))
            && (request.authorize && !t.needed ==> !Unauthorized(after))
            && (t.needed && !request.authorize && Narrowing(t.reasons) ==> after.freshContextRequired)
            && (after.version == before.version <==> after == before)
  {
  }

  lemma SelfCompare(hub: Hub, a: Id)
    ensures !Compare(hub, hub, a).needed
  {
  }

  lemma ProposedRows(hub: Hub, edit: Edit)
    ensures Proposed(hub, edit).authorities == hub.authorities && Proposed(hub, edit).tokens == hub.tokens
    ensures hub.users.Keys == Proposed(hub, edit).users.Keys
    ensures forall u | u in hub.users :: Proposed(hub, edit).users[u].kind == hub.users[u].kind
    ensures forall u | u in hub.users && hub.users[u].active ::
        Proposed(hub, edit).users[u].active || u in Retired(hub, edit)
  {
  }

  lemma ProposedTables(hub: Hub, actor: Id, edit: Edit)
    requires Sound(hub) && Checked(hub, actor, edit).None?
    ensures TablesAgree(Proposed(hub, edit))
    ensures Proposed(hub, edit).authorities == hub.authorities && Proposed(hub, edit).tokens == hub.tokens
    ensures hub.users.Keys == Proposed(hub, edit).users.Keys
    ensures forall u | u in hub.users :: Proposed(hub, edit).users[u].kind == hub.users[u].kind
    ensures forall u | u in hub.users && hub.users[u].active ::
        Proposed(hub, edit).users[u].active || u in Retired(hub, edit)
  {
    hide Standing, Current, Demanded, Retired, Administrators, IsAdministrator;
    ProposedRows(hub, edit);
    if edit.SetAssignments? {
      assert Proposed(hub, edit).actsFor == hub.actsFor[edit.agent := edit.principals];
    } else {
      assert Proposed(hub, edit).actsFor == hub.actsFor;
    }
  }

  lemma AdministratorsRemain(hub: Hub, actor: Id, edit: Edit)
    requires Administrators(hub.users) != {} && Checked(hub, actor, edit).None?
    ensures Administrators(Proposed(hub, edit).users) != {}
  {
    var before, after := Administrators(hub.users), Administrators(Proposed(hub, edit).users);
    if edit.SetActive? {
      if edit.active {
        var u :| u in before;
        assert u in after;
      } else {
        assert before != {edit.user};
        var u :| u in before && u != edit.user;
        assert u in after;
      }
    } else {
      assert after == before;
    }
  }

  function RequestFor(hub: Hub, edit: Edit, a: Id): Request {
    if a in Requests(hub, edit) then Requests(hub, edit)[a] else NO_REQUEST
  }

  lemma ApplyParts(hub: Hub, actor: Id, now: Time, edit: Edit, a: Id)
    requires Apply(hub, actor, now, edit).Ok?
    ensures var r, proposed := Apply(hub, actor, now, edit).value, Proposed(hub, edit);
            && r.users == proposed.users && r.actsFor == proposed.actsFor && r.access == proposed.access
            && r.authorities.Keys == hub.authorities.Keys
            && SignatureOf(r, a) == SignatureOf(proposed, a) && Eligible(r, a) == Eligible(proposed, a)
            && AlikeIn(r, Eligible(r, a)) == AlikeIn(proposed, Eligible(proposed, a))
            && (a in hub.authorities ==>
                  r.authorities[a]
                    == Settle(hub.authorities[a], Compare(hub, proposed, a), RequestFor(hub, edit, a), now))
  {
    hide Compare, Settle, Checked, Demanded;
    var r, proposed := Apply(hub, actor, now, edit).value, Proposed(hub, edit);
    forall p ensures SignatureOf(r, p) == SignatureOf(proposed, p) {}
  }

  /** An accepted authorization names an agent that is active and acts for some humans, all alike. */
  lemma AuthorizedIsFit(hub: Hub, actor: Id, now: Time, edit: Edit, a: Id)
    requires Apply(hub, actor, now, edit).Ok? && RequestFor(hub, edit, a).authorize
    ensures edit.AuthorizeAgent? && edit.agent == a && Proposed(hub, edit) == hub
    ensures SignatureOf(hub, a).active && Eligible(hub, a) != {} && AlikeIn(hub, Eligible(hub, a))
    ensures a in hub.authorities && hub.authorities[a].freshContextRequired ==> edit.ack
  {
  }

  lemma ApplyStanding(hub: Hub, actor: Id, now: Time, edit: Edit, a: Id)
    requires Sound(hub) && Apply(hub, actor, now, edit).Ok?
    ensures Standing(Apply(hub, actor, now, edit).value, a)
  {
    hide Apply, SignatureOf, Eligible, AlikeIn, Compare, Settle, Requests, Checked, Proposed, Current, TablesAgree;
    ApplyParts(hub, actor, now, edit, a);
    if a in hub.authorities {
      var t := Compare(hub, Proposed(hub, edit), a);
      Settled(hub.authorities[a], t, RequestFor(hub, edit, a), now);
      assert Standing(hub, a);
      if RequestFor(hub, edit, a).authorize {
        AuthorizedIsFit(hub, actor, now, edit, a);
        SelfCompare(hub, a);
      } else if !t.needed {
        NotNeededLosesNothing(hub, Proposed(hub, edit), a);
      }
    }
  }

  lemma ApplyCurrent(hub: Hub, actor: Id, now: Time, edit: Edit, t: Id)
    requires Sound(hub) && Apply(hub, actor, now, edit).Ok?
    ensures Current(Apply(hub, actor, now, edit).value, t)
  {
    hide Apply, Compare, Settle, Checked, Demanded, Proposed, Requests, SignatureOf, AlikeIn, Standing;
    var r := Apply(hub, actor, now, edit).value;
    ApplyChecked(hub, actor, now, edit);
    ApplyTokens(hub, actor, now, edit, t);
    ProposedTables(hub, actor, edit);
    if t in hub.tokens {
      assert Current(hub, t);
      var a := hub.tokens[t].user;
      ApplyParts(hub, actor, now, edit, a);
      if a in hub.authorities {
        Settled(hub.authorities[a], Compare(hub, Proposed(hub, edit), a), RequestFor(hub, edit, a), now);
        if !Compare(hub, Proposed(hub, edit), a).needed {
          NotNeededLosesNothing(hub, Proposed(hub, edit), a);
        }
      }
    }
  }

  lemma ApplyTokens(hub: Hub, actor: Id, now: Time, edit: Edit, t: Id)
    requires Apply(hub, actor, now, edit).Ok?
    ensures var r := Apply(hub, actor, now, edit).value;
            && r.tokens.Keys == hub.tokens.Keys && r.minted == hub.minted
            && (t in hub.tokens ==>
                  var a := hub.tokens[t].user;
                  var lost := a in hub.authorities && Compare(hub, Proposed(hub, edit), a).needed;
                  r.tokens[t] == hub.tokens[t].(revoked := hub.tokens[t].revoked || a in Retired(hub, edit) || lost))
  {
    hide Compare, Checked, Demanded, SettleAll;
  }

  lemma ApplyTables(hub: Hub, actor: Id, now: Time, edit: Edit)
    requires Sound(hub) && Apply(hub, actor, now, edit).Ok?
    ensures TablesAgree(Apply(hub, actor, now, edit).value)
    ensures Administrators(Apply(hub, actor, now, edit).value.users) != {}
  {
    hide Standing, Current, Demanded, Compare, Settle, Apply, Checked, Proposed;
    hide TablesAgree, SignatureOf, Eligible, AlikeIn, Administrators;
    ApplyChecked(hub, actor, now, edit);
    ApplyParts(hub, actor, now, edit, 0);
    ProposedTables(hub, actor, edit);
    AdministratorsRemain(hub, actor, edit);
    SameTables(Proposed(hub, edit), Apply(hub, actor, now, edit).value);
  }

  lemma SameTables(hub: Hub, r: Hub)
    requires TablesAgree(hub) && r.users == hub.users && r.actsFor == hub.actsFor && r.access == hub.access
        && r.authorities.Keys == hub.authorities.Keys
    ensures TablesAgree(r)
  {
  }

  lemma ApplyChecked(hub: Hub, actor: Id, now: Time, edit: Edit)
    requires Apply(hub, actor, now, edit).Ok?
    ensures Checked(hub, actor, edit).None?
  {
    hide Checked, Demanded, SettleAll, Losers, Proposed;
  }

  lemma ApplySound(hub: Hub, actor: Id, now: Time, edit: Edit)
    requires Sound(hub) && Apply(hub, actor, now, edit).Ok?
    ensures Sound(Apply(hub, actor, now, edit).value)
  {
    hide Standing, Current, TablesAgree, Apply, Administrators;
    var r := Apply(hub, actor, now, edit).value;
    forall a ensures Standing(r, a) { ApplyStanding(hub, actor, now, edit, a); }
    forall t ensures Current(r, t) { ApplyCurrent(hub, actor, now, edit, t); }
    ApplyTables(hub, actor, now, edit);
    ApplyTokens(hub, actor, now, edit, 0);
  }

  // ---------------------------------------------------------------- one command

  lemma AddedSignatureApart(hub: Hub, id: Id, user: User)
    requires id !in hub.users
    ensures forall p | p in hub.users :: SignatureOf(WithUser(hub, id, user), p) == SignatureOf(hub, p)
  {
  }

  lemma AddedEligibleApart(hub: Hub, id: Id, user: User, a: Id)
    requires TablesAgree(hub) && id !in hub.users && a in hub.authorities
    ensures a in WithUser(hub, id, user).authorities && WithUser(hub, id, user).authorities[a] == hub.authorities[a]
    ensures Eligible(WithUser(hub, id, user), a) == Eligible(hub, a)
    ensures a in hub.users && forall p | p in Eligible(hub, a) :: p in hub.users
  {
    var r := WithUser(hub, id, user);
    assert r.actsFor[a] == hub.actsFor[a];
    assert forall p | p in hub.actsFor[a] :: p in hub.users;
  }

  lemma AddedUserIsApart(hub: Hub, id: Id, user: User, a: Id)
    requires TablesAgree(hub) && id !in hub.users && a in hub.authorities
    ensures a in WithUser(hub, id, user).authorities && WithUser(hub, id, user).authorities[a] == hub.authorities[a]
    ensures SignatureOf(WithUser(hub, id, user), a) == SignatureOf(hub, a)
    ensures Eligible(WithUser(hub, id, user), a) == Eligible(hub, a)
    ensures AlikeIn(hub, Eligible(hub, a)) ==> AlikeIn(WithUser(hub, id, user), Eligible(hub, a))
  {
    hide SignatureOf, Eligible, WithUser, TablesAgree;
    AddedSignatureApart(hub, id, user);
    AddedEligibleApart(hub, id, user, a);
  }

  lemma AddUserSound(hub: Hub, id: Id, user: User)
    requires Sound(hub) && id !in hub.users && user.active && !user.kind.System?
    ensures Sound(WithUser(hub, id, user))
  {
    var r := WithUser(hub, id, user);
    forall a ensures Standing(r, a) {
      hide SignatureOf, Eligible, AlikeIn, Current;
      assert Standing(hub, a);
      if a in hub.authorities { AddedUserIsApart(hub, id, user, a); }
    }
    forall t ensures Current(r, t) {
      hide SignatureOf, Eligible, AlikeIn, Standing;
      assert Current(hub, t);
      if t in hub.tokens && hub.tokens[t].user in hub.authorities {
        AddedUserIsApart(hub, id, user, hub.tokens[t].user);
      }
    }
    assert Administrators(hub.users) <= Administrators(r.users);
    AddUserTables(hub, id, user);
  }

  lemma AddUserTables(hub: Hub, id: Id, user: User)
    requires TablesAgree(hub) && id !in hub.users
    ensures TablesAgree(WithUser(hub, id, user))
  {
  }

  lemma TokensSound(hub: Hub, tokens: map<Id, Token>, minted: set<Id>)
    requires Sound(hub)
    requires tokens.Keys <= minted && forall t | t in tokens :: Current(hub.(tokens := tokens, minted := minted), t)
    ensures Sound(hub.(tokens := tokens, minted := minted))
  {
    var r := hub.(tokens := tokens, minted := minted);
    forall a ensures Standing(r, a) {
      assert Standing(hub, a);
      assert SignatureOf(r, a) == SignatureOf(hub, a) && Eligible(r, a) == Eligible(hub, a);
      assert forall p :: SignatureOf(r, p) == SignatureOf(hub, p);
    }
  }

  lemma StepSound(hub: Hub, actor: Id, now: Time, cmd: Command)
    requires Sound(hub) && Step(hub, actor, now, cmd).Ok?
    ensures Sound(Step(hub, actor, now, cmd).value)
  {
    hide Standing, Current, Apply, TablesAgree;
    match cmd
    case AddPerson(id, administrator) => AddUserSound(hub, id, User(Human, true, administrator, 1));
    case CreateAgent(id) => AddUserSound(hub, id, User(Agent, true, false, 1));
    case Assign(agent, person, confirmed, expected) =>
      ApplySound(hub, actor, now, SetAssignments(agent, hub.actsFor[agent] + {person}, true));
    case Unassign(agent, person, expected) =>
      ApplySound(hub, actor, now, SetAssignments(agent, hub.actsFor[agent] - {person}, false));
    case Authorize(agent, confirmed, ack, expected) =>
      ApplySound(hub, actor, now, AuthorizeAgent(agent, confirmed, ack));
    case SetStatus(user, active, expected) => ApplySound(hub, actor, now, SetActive(user, active));
    case Grant(changes) => ApplySound(hub, actor, now, ChangeAccess(changes));
    case IssueToken(id, user, principal, expires, session) =>
      IssueSound(hub, actor, id, user, principal, expires, session);
    case RevokeToken(id) => RevokeSound(hub, id);
    case SweepSessions => SweepSound(hub, now);
  }

  lemma IssueSound(hub: Hub, actor: Id, id: Id, user: Id, principal: Option<Id>, expires: Option<Time>,
                   session: bool)
    requires Sound(hub) && id !in hub.tokens && Issue(hub, actor, id, user, principal, expires, session).Ok?
    ensures Sound(Issue(hub, actor, id, user, principal, expires, session).value)
  {
    var r := Issue(hub, actor, id, user, principal, expires, session).value;
    forall t | t in r.tokens ensures Current(r, t) {
      assert Current(hub, t);
      assert Eligible(r, r.tokens[t].user) == Eligible(hub, r.tokens[t].user);
    }
    TokensSound(hub, r.tokens, r.minted);
  }

  lemma SweepSound(hub: Hub, now: Time)
    requires Sound(hub)
    ensures Sound(hub.(tokens := Unswept(hub.tokens, now)))
  {
    var r := hub.(tokens := Unswept(hub.tokens, now));
    forall t | t in r.tokens ensures Current(r, t) {
      assert Current(hub, t);
      assert Eligible(r, r.tokens[t].user) == Eligible(hub, r.tokens[t].user);
    }
    TokensSound(hub, r.tokens, r.minted);
  }

  /** The sweep takes no token that could still be used, then or later. */
  lemma SweptWereSpent(hub: Hub, now: Time, t: Id, later: Time)
    requires now <= later
    ensures Usable(hub.(tokens := Unswept(hub.tokens, now)), t, later) <==> Usable(hub, t, later)
  {
    var r := hub.(tokens := Unswept(hub.tokens, now));
    if t in hub.tokens { assert Eligible(r, hub.tokens[t].user) == Eligible(hub, hub.tokens[t].user); }
  }

  lemma RevokeSound(hub: Hub, id: Id)
    requires Sound(hub) && id in hub.tokens
    ensures Sound(hub.(tokens := hub.tokens[id := hub.tokens[id].(revoked := true)]))
  {
    var r := hub.(tokens := hub.tokens[id := hub.tokens[id].(revoked := true)]);
    forall t | t in r.tokens ensures Current(r, t) {
      assert Current(hub, t);
      assert Eligible(r, r.tokens[t].user) == Eligible(hub, r.tokens[t].user);
    }
    TokensSound(hub, r.tokens, r.minted);
  }

  // ---------------------------------------------------------------- runs

  /** One command by one caller at one time; a refused one changes nothing. */
  datatype Event = Event(actor: Id, now: Time, cmd: Command)

  function After(hub: Hub, e: Event): Hub {
    match Step(hub, e.actor, e.now, e.cmd)
    case Ok(next) => next
    case Err(_) => hub
  }

  function Run(hub: Hub, events: seq<Event>): Hub
    decreases |events|
  {
    if events == [] then hub else Run(After(hub, events[0]), events[1..])
  }

  lemma {:induction false} RunSound(hub: Hub, events: seq<Event>)
    requires Sound(hub)
    ensures Sound(Run(hub, events))
    decreases |events|
  {
    hide Sound, Step;
    if events != [] {
      if Step(hub, events[0].actor, events[0].now, events[0].cmd).Ok? {
        StepSound(hub, events[0].actor, events[0].now, events[0].cmd);
      }
      RunSound(After(hub, events[0]), events[1..]);
    }
  }

  /** In a reachable hub a token works exactly when nobody has revoked it and it has not expired. */
  lemma UsableExactly(hub: Hub, t: Id, now: Time)
    requires Sound(hub) && t in hub.tokens
    ensures Usable(hub, t, now)
        <==> !hub.tokens[t].revoked && (hub.tokens[t].expires.None? || now < hub.tokens[t].expires.value)
  {
    assert Current(hub, t);
  }

  /** What an agent's usable token says about the agent and the humans it acts for. */
  lemma UsableMeans(hub: Hub, t: Id, now: Time)
    requires Sound(hub) && Usable(hub, t, now) && hub.tokens[t].user in hub.authorities
    ensures var a := hub.tokens[t].user;
            && hub.users[a].active && hub.authorities[a].suspended.None?
            && hub.tokens[t].epoch == Some(hub.authorities[a].epoch)
            && hub.tokens[t].principal.Some? && hub.tokens[t].principal.value in Eligible(hub, a)
            && AlikeIn(hub, Eligible(hub, a))
            && (forall p, q | ActsForActive(hub, a, p) && ActsForActive(hub, a, q) :: SameStanding(hub, p, q))
            && hub.authorities[a].authorizedAt.Some? && hub.authorities[a].permittedUseAt.Some?
              && !hub.authorities[a].freshContextRequired
  {
    var a := hub.tokens[t].user;
    assert Standing(hub, a);
    forall p, q | ActsForActive(hub, a, p) && ActsForActive(hub, a, q) ensures SameStanding(hub, p, q) {
      assert SignatureOf(hub, p) == SignatureOf(hub, q);
      StandingAlike(hub, p, q);
    }
  }

  // ---------------------------------------------------------------- how tokens and authorities move

  /** The token's row stands as it was but for a revocation, which stays; or it is gone. */
  predicate SameToken(hub: Hub, g: Hub, t: Id) {
    t in g.tokens ==>
      && t in hub.tokens && (hub.tokens[t].revoked ==> g.tokens[t].revoked)
      && g.tokens[t] == hub.tokens[t].(revoked := g.tokens[t].revoked)
  }

  lemma TokenMoves(hub: Hub, e: Event, t: Id)
    requires t in hub.minted
    ensures t in After(hub, e).minted && SameToken(hub, After(hub, e), t)
  {
    hide Apply;
    match e.cmd
    case Assign(agent, person, confirmed, expected) =>
      if ActiveAgent(hub, agent) { EditTokens(hub, e, SetAssignments(agent, hub.actsFor[agent] + {person}, true), t); }
    case Unassign(agent, person, expected) =>
      if ActiveAgent(hub, agent) { EditTokens(hub, e, SetAssignments(agent, hub.actsFor[agent] - {person}, false), t); }
    case Authorize(agent, confirmed, ack, expected) => EditTokens(hub, e, AuthorizeAgent(agent, confirmed, ack), t);
    case SetStatus(user, active, expected) => EditTokens(hub, e, SetActive(user, active), t);
    case Grant(changes) => EditTokens(hub, e, ChangeAccess(changes), t);
    case _ =>
  }

  lemma EditTokens(hub: Hub, e: Event, edit: Edit, t: Id)
    ensures Apply(hub, e.actor, e.now, edit).Ok? ==>
              var r := Apply(hub, e.actor, e.now, edit).value; r.minted == hub.minted && SameToken(hub, r, t)
  {
    hide Apply, Compare, Retired, Proposed;
    if Apply(hub, e.actor, e.now, edit).Ok? { ApplyTokens(hub, e.actor, e.now, edit, t); }
  }

  lemma ApplyMoves(hub: Hub, actor: Id, now: Time, edit: Edit, a: Id)
    requires a in hub.authorities && Apply(hub, actor, now, edit).Ok?
    ensures a in Apply(hub, actor, now, edit).value.authorities
    ensures var before, after := hub.authorities[a], Apply(hub, actor, now, edit).value.authorities[a];
            && before.epoch <= after.epoch <= before.epoch + 1
            && (before.suspended.None? && after.suspended.Some? ==> after.epoch == before.epoch + 1)
            && (before.suspended.Some? && after.suspended.None? ==> edit.AuthorizeAgent? && edit.agent == a)
            && (before.freshContextRequired && !after.freshContextRequired ==>
              edit.AuthorizeAgent? && edit.agent == a && edit.ack)
  {
    hide Apply, Compare, Settle, Demanded, Checked;
    ApplyParts(hub, actor, now, edit, a);
    Settled(hub.authorities[a], Compare(hub, Proposed(hub, edit), a), RequestFor(hub, edit, a), now);
    if RequestFor(hub, edit, a).authorize {
      AuthorizedIsFit(hub, actor, now, edit, a);
    }
  }

  ghost predicate Authorizes(cmd: Command, a: Id) {
    cmd.Authorize? && cmd.agent == a
  }

  /**
   Epochs never fall, a suspension raises one, and nothing but an authorization ends a suspension or the call
   for a fresh context.
   */
  lemma AuthorityMoves(hub: Hub, e: Event, a: Id)
    requires a in hub.authorities && a in hub.users
    ensures a in After(hub, e).authorities && a in After(hub, e).users
    ensures var before, after := hub.authorities[a], After(hub, e).authorities[a];
            && before.epoch <= after.epoch
            && (before.suspended.None? && after.suspended.Some? ==> after.epoch == before.epoch + 1)
            && (before.suspended.Some? && after.suspended.None? ==> Authorizes(e.cmd, a))
            && (before.freshContextRequired && !after.freshContextRequired ==> Authorizes(e.cmd, a) && e.cmd.ack)
  {
    hide Apply;
    match e.cmd
    case Assign(agent, person, confirmed, expected) =>
      if ActiveAgent(hub, agent) { EditMoves(hub, e, SetAssignments(agent, hub.actsFor[agent] + {person}, true), a); }
    case Unassign(agent, person, expected) =>
      if ActiveAgent(hub, agent) { EditMoves(hub, e, SetAssignments(agent, hub.actsFor[agent] - {person}, false), a); }
    case Authorize(agent, confirmed, ack, expected) => EditMoves(hub, e, AuthorizeAgent(agent, confirmed, ack), a);
    case SetStatus(user, active, expected) => EditMoves(hub, e, SetActive(user, active), a);
    case Grant(changes) => EditMoves(hub, e, ChangeAccess(changes), a);
    case _ =>
  }

  lemma EditMoves(hub: Hub, e: Event, edit: Edit, a: Id)
    requires a in hub.authorities && a in hub.users
    ensures Apply(hub, e.actor, e.now, edit).Ok? ==>
              var r := Apply(hub, e.actor, e.now, edit).value;
              && a in r.authorities && a in r.users
              && var before, after := hub.authorities[a], r.authorities[a];
                 && before.epoch <= after.epoch
                 && (before.suspended.None? && after.suspended.Some? ==> after.epoch == before.epoch + 1)
                 && (before.suspended.Some? && after.suspended.None? ==> edit.AuthorizeAgent? && edit.agent == a)
                 && (before.freshContextRequired && !after.freshContextRequired ==>
                   edit.AuthorizeAgent? && edit.agent == a && edit.ack)
  {
    hide Apply;
    if Apply(hub, e.actor, e.now, edit).Ok? {
      ApplyMoves(hub, e.actor, e.now, edit, a);
      ApplyParts(hub, e.actor, e.now, edit, a);
    }
  }

  /** A credential bound to this epoch is no later than the authority, and earlier than a suspended one. */
  predicate Behind(a: Authority, epoch: nat) {
    epoch <= a.epoch && (a.suspended.Some? ==> epoch < a.epoch)
  }

  lemma {:induction false} RunMoves(hub: Hub, events: seq<Event>, t: Id, a: Id, epoch: nat)
    requires t in hub.minted && a in hub.authorities && a in hub.users
    requires Behind(hub.authorities[a], epoch)
    ensures t in Run(hub, events).minted && SameToken(hub, Run(hub, events), t)
    ensures a in Run(hub, events).authorities && a in Run(hub, events).users
    ensures hub.authorities[a].epoch <= Run(hub, events).authorities[a].epoch
    ensures Behind(Run(hub, events).authorities[a], epoch)
    decreases |events|
  {
    hide After;
    if events != [] {
      TokenMoves(hub, events[0], t);
      AuthorityMoves(hub, events[0], a);
      RunMoves(After(hub, events[0]), events[1..], t, a, epoch);
    }
  }

  /**
   A token held by an agent when it is suspended is dead for good: whatever commands follow, its epoch stays behind
   the agent's and it is revoked or swept away, so re-authorizing or reactivating the agent never revives it.
   */
  lemma SuspensionIsFinal(hub: Hub, before: seq<Event>, after: seq<Event>, t: Id, now: Time)
    requires Sound(hub) && t in hub.tokens && hub.tokens[t].user in hub.authorities
    requires var mid := Run(hub, before);
             hub.tokens[t].user in mid.authorities && mid.authorities[hub.tokens[t].user].suspended.Some?
    ensures var end, token := Run(Run(hub, before), after), hub.tokens[t];
            && t in end.minted && !Usable(end, t, now)
            && (t in end.tokens ==> end.tokens[t] == token.(revoked := true))
            && token.user in end.authorities
            && token.epoch.Some? && token.epoch.value < end.authorities[token.user].epoch
  {
    hide Run;
    var a := hub.tokens[t].user;
    UserOfAuthority(hub, a);
    assert Current(hub, t);
    var epoch := hub.tokens[t].epoch.value;
    RunSound(hub, before);
    RunMoves(hub, before, t, a, epoch);
    var mid := Run(hub, before);
    assert Current(mid, t);
    RunMoves(mid, after, t, a, epoch);
  }

  /** The k-th command is an authorization of this agent that acknowledges the change, and it is accepted. */
  ghost predicate AcknowledgedAt(hub: Hub, events: seq<Event>, a: Id, k: nat)
    requires k < |events|
  {
    && Authorizes(events[k].cmd, a) && events[k].cmd.ack
    && Step(Run(hub, events[..k]), events[k].actor, events[k].now, events[k].cmd).Ok?
  }

  /**
   An agent whose principals or authority were narrowed acts again only after an accepted authorization that
   acknowledges it.
   */
  lemma {:induction false} FreshContextNeedsAck(hub: Hub, events: seq<Event>, a: Id)
    requires Sound(hub) && a in hub.authorities && hub.authorities[a].freshContextRequired
    requires a in Run(hub, events).authorities && Run(hub, events).authorities[a].suspended.None?
    ensures exists k | 0 <= k < |events| :: AcknowledgedAt(hub, events, a, k)
    decreases |events|
  {
    hide Sound, Step, AcknowledgedAt;
    if events == [] {
      SuspendedWhenFresh(hub, a);
    } else {
      UserOfAuthority(hub, a);
      AuthorityMoves(hub, events[0], a);
      if After(hub, events[0]).authorities[a].freshContextRequired {
        AfterSound(hub, events[0]);
        FreshContextNeedsAck(After(hub, events[0]), events[1..], a);
        var k :| 0 <= k < |events[1..]| && AcknowledgedAt(After(hub, events[0]), events[1..], a, k);
        AcknowledgedLater(hub, events, a, k);
      } else {
        AcknowledgedFirst(hub, events, a);
      }
    }
  }

  lemma AcknowledgedFirst(hub: Hub, events: seq<Event>, a: Id)
    requires events != [] && Authorizes(events[0].cmd, a) && events[0].cmd.ack
    requires Step(hub, events[0].actor, events[0].now, events[0].cmd).Ok?
    ensures AcknowledgedAt(hub, events, a, 0)
  {
    hide Step;
  }

  lemma AcknowledgedLater(hub: Hub, events: seq<Event>, a: Id, k: nat)
    requires k + 1 < |events| && AcknowledgedAt(After(hub, events[0]), events[1..], a, k)
    ensures AcknowledgedAt(hub, events, a, k + 1)
  {
    hide Step, After;
    assert events[..k + 1][1..] == events[1..][..k];
  }

  lemma AfterSound(hub: Hub, e: Event)
    requires Sound(hub)
    ensures Sound(After(hub, e))
  {
    hide Sound, Step;
    if Step(hub, e.actor, e.now, e.cmd).Ok? { StepSound(hub, e.actor, e.now, e.cmd); }
  }

  lemma UserOfAuthority(hub: Hub, a: Id)
    requires Sound(hub) && a in hub.authorities
    ensures a in hub.users
  {
  }

  lemma SuspendedWhenFresh(hub: Hub, a: Id)
    requires Sound(hub) && a in hub.authorities
        && (hub.authorities[a].freshContextRequired || !SignatureOf(hub, a).active)
    ensures hub.authorities[a].suspended.Some?
  {
    assert Standing(hub, a);
  }

  /**
   Whoever loses a principal, or whose principal or own account loses anything, is suspended and must
   acknowledge it to act again.
   */
  lemma NarrowedNeedsFreshContext(hub: Hub, actor: Id, now: Time, edit: Edit, a: Id)
    requires Apply(hub, actor, now, edit).Ok? && !edit.AuthorizeAgent? && a in hub.authorities
    requires var proposed := Proposed(hub, edit);
      || !(Eligible(hub, a) <= Eligible(proposed, a))
      || Loss(SignatureOf(hub, a), SignatureOf(proposed, a))
      || exists p | p in Eligible(hub, a) + Eligible(proposed, a) :: Loss(SignatureOf(hub, p), SignatureOf(proposed, p))
    ensures var after := Apply(hub, actor, now, edit).value.authorities;
      a in after && after[a].suspended.Some? && after[a].freshContextRequired
        && after[a].epoch == hub.authorities[a].epoch + 1
  {
    hide Apply, Checked, Demanded, Settle, SignatureOf, Eligible, Proposed;
    ApplyParts(hub, actor, now, edit, a);
    var t := Compare(hub, Proposed(hub, edit), a);
    NoLossAlike(hub, Proposed(hub, edit));
    Settled(hub.authorities[a], t, RequestFor(hub, edit, a), now);
    assert t.needed;
    assert BindingLoss in t.reasons || OwnAuthorityLoss in t.reasons || PrincipalAuthorityLoss in t.reasons;
  }

  lemma NoLossAlike(was: Hub, proposed: Hub)
    ensures forall p | SignatureOf(was, p) == SignatureOf(proposed, p) ::
        !Loss(SignatureOf(was, p), SignatureOf(proposed, p))
  {
  }

  /** Retiring a person cuts off, for good, their own tokens and every token of every agent that acted for them. */
  lemma RetiredPersonIsCutOff(hub: Hub, e: Event, later: seq<Event>, t: Id, now: Time)
    requires Sound(hub) && Step(hub, e.actor, e.now, e.cmd).Ok?
    requires e.cmd.SetStatus? && !e.cmd.active && e.cmd.user in hub.users && hub.users[e.cmd.user].active
    requires t in hub.tokens
    requires hub.tokens[t].user == e.cmd.user || e.cmd.user in Eligible(hub, hub.tokens[t].user)
    ensures var end := Run(After(hub, e), later);
            t in end.minted && (t in end.tokens ==> end.tokens[t].revoked) && !Usable(end, t, now)
  {
    hide Run, Apply, Sound;
    RetiredRevokes(hub, e, t);
    RunRevoked(After(hub, e), later, t);
  }

  lemma RetiredRevokes(hub: Hub, e: Event, t: Id)
    requires Sound(hub) && Step(hub, e.actor, e.now, e.cmd).Ok?
    requires e.cmd.SetStatus? && !e.cmd.active && e.cmd.user in hub.users && hub.users[e.cmd.user].active
    requires t in hub.tokens
    requires hub.tokens[t].user == e.cmd.user || e.cmd.user in Eligible(hub, hub.tokens[t].user)
    ensures t in After(hub, e).minted && t in After(hub, e).tokens && After(hub, e).tokens[t].revoked
  {
    hide Apply, Standing, Checked;
    var edit := SetActive(e.cmd.user, false);
    assert Apply(hub, e.actor, e.now, edit).Ok?;
    ApplyTokens(hub, e.actor, e.now, edit, t);
    var a, proposed := hub.tokens[t].user, Proposed(hub, edit);
    if a != e.cmd.user {
      assert e.cmd.user in Eligible(hub, a) && e.cmd.user !in Eligible(proposed, a);
      assert Compare(hub, proposed, a).needed;
      assert a in hub.authorities;
    }
  }

  lemma {:induction false} RunRevoked(hub: Hub, events: seq<Event>, t: Id)
    requires t in hub.minted && (t in hub.tokens ==> hub.tokens[t].revoked)
    ensures t in Run(hub, events).minted && (t in Run(hub, events).tokens ==> Run(hub, events).tokens[t].revoked)
    decreases |events|
  {
    hide After;
    if events != [] {
      TokenMoves(hub, events[0], t);
      RunRevoked(After(hub, events[0]), events[1..], t);
    }
  }

  /** Bringing an agent back leaves it suspended with no token that works. */
  lemma ReactivatedStaysSuspended(hub: Hub, e: Event, a: Id, t: Id, now: Time)
    requires Sound(hub) && a in hub.authorities && a in hub.users && !hub.users[a].active
    requires e.cmd.SetStatus?
    ensures a in After(hub, e).authorities && After(hub, e).authorities[a].suspended.Some?
    ensures t in After(hub, e).tokens && After(hub, e).tokens[t].user == a ==> !Usable(After(hub, e), t, now)
  {
    hide Step, Sound;
    SuspendedWhenFresh(hub, a);
    UserOfAuthority(hub, a);
    AuthorityMoves(hub, e, a);
    AfterSound(hub, e);
    SuspendedCannotUse(After(hub, e), a, t, now);
  }

  lemma SuspendedCannotUse(hub: Hub, a: Id, t: Id, now: Time)
    requires Sound(hub) && a in hub.authorities && hub.authorities[a].suspended.Some?
    ensures t in hub.tokens && hub.tokens[t].user == a ==> !Usable(hub, t, now)
  {
    assert Current(hub, t);
  }

  // ---------------------------------------------------------------- what an accepted command leaves

  /** An active human who administers the installation. */
  predicate ActiveAdministrator(hub: Hub, actor: Id) {
    && actor in hub.users && hub.users[actor].kind.Human? && hub.users[actor].active && hub.users[actor].hubAdmin
  }

  predicate AgentAtWork(hub: Hub, agent: Id) {
    agent in hub.users && hub.users[agent].kind.Agent? && hub.users[agent].active
  }

  predicate ReadVersion(hub: Hub, agent: Id, expected: Option<nat>) {
    agent in hub.authorities && (expected.None? || expected.value == hub.authorities[agent].version)
  }

  /** The humans an agent acts for whose accounts are active. */
  predicate ActsForActive(hub: Hub, agent: Id, person: Id) {
    agent in hub.actsFor && person in hub.actsFor[agent] && person in hub.users && hub.users[person].active
  }

  /** Both hold the same thresholds, admissions and administration, and are both active or both not. */
  predicate SameStanding(hub: Hub, p: Id, q: Id) {
    && p in hub.users && q in hub.users && p in hub.access && q in hub.access
    && hub.users[p].active == hub.users[q].active && hub.users[p].hubAdmin == hub.users[q].hubAdmin
    && hub.access[p].roles == hub.access[q].roles
    && (hub.users[p].active ==> hub.access[p].admissions == hub.access[q].admissions)
  }

  lemma StandingAlike(hub: Hub, p: Id, q: Id)
    requires p in hub.users && q in hub.users && p in hub.access && q in hub.access
    ensures SignatureOf(hub, p) == SignatureOf(hub, q) <==> SameStanding(hub, p, q)
  {
  }

  lemma EligibleIs(hub: Hub, agent: Id, person: Id)
    ensures person in Eligible(hub, agent) <==> ActsForActive(hub, agent, person)
  {
  }

  /** An agent nothing about which was changed is left as it was. */
  lemma UntouchedSettled(hub: Hub, proposed: Hub, a: Id, now: Time)
    requires a in hub.authorities && Eligible(hub, a) == Eligible(proposed, a)
    requires SignatureOf(hub, a) == SignatureOf(proposed, a)
    requires forall p | p in Eligible(hub, a) :: SignatureOf(hub, p) == SignatureOf(proposed, p)
    ensures Settle(hub.authorities[a], Compare(hub, proposed, a), NO_REQUEST, now) == hub.authorities[a]
    ensures !Compare(hub, proposed, a).needed
  {
    hide SignatureOf, Eligible;
  }

  lemma SameSignatures(hub: Hub, proposed: Hub)
    requires proposed.users == hub.users && proposed.access == hub.access
    ensures forall p :: SignatureOf(proposed, p) == SignatureOf(hub, p)
  {
  }

  /** An edit of one agent's principals leaves every other agent and its tokens alone. */
  lemma OthersUntouched(hub: Hub, actor: Id, now: Time, agent: Id, principals: set<Id>, confirmed: bool, a: Id, t: Id)
    requires Apply(hub, actor, now, SetAssignments(agent, principals, confirmed)).Ok?
    ensures var r := Apply(hub, actor, now, SetAssignments(agent, principals, confirmed)).value;
      && r.users == hub.users && r.access == hub.access && r.minted == hub.minted
      && r.actsFor == hub.actsFor[agent := principals]
      && r.authorities.Keys == hub.authorities.Keys && r.tokens.Keys == hub.tokens.Keys
      && (a != agent && a in hub.authorities ==> r.authorities[a] == hub.authorities[a])
      && (t in hub.tokens && hub.tokens[t].user != agent ==> r.tokens[t] == hub.tokens[t])
  {
    hide Apply, Compare, Settle, Checked, Demanded, SignatureOf;
    var edit := SetAssignments(agent, principals, confirmed);
    var proposed := Proposed(hub, edit);
    SameSignatures(hub, proposed);
    ApplyParts(hub, actor, now, edit, a);
    ApplyTokens(hub, actor, now, edit, t);
    if a != agent && a in hub.authorities { UntouchedSettled(hub, proposed, a, now); }
    if t in hub.tokens && hub.tokens[t].user != agent && hub.tokens[t].user in hub.authorities {
      UntouchedSettled(hub, proposed, hub.tokens[t].user, now);
    }
  }

  /**
   An unassignment is accepted exactly from an administrator, of an active agent and an active person it acts
   for, at the version read.
   */
  lemma UnassignAcceptedExactly(hub: Hub, actor: Id, now: Time, agent: Id, person: Id, expected: Option<nat>)
    requires Sound(hub)
    ensures Step(hub, actor, now, Unassign(agent, person, expected)).Ok? <==>
      && ActiveAdministrator(hub, actor) && AgentAtWork(hub, agent) && ReadVersion(hub, agent, expected)
      && ActsForActive(hub, agent, person)
  {
    hide Standing, Current, Compare;
    AgentTables(hub, agent);
  }

  lemma AgentTables(hub: Hub, agent: Id)
    requires Sound(hub)
    ensures ActiveAgent(hub, agent) <==> AgentAtWork(hub, agent)
    ensures agent in hub.actsFor ==> forall p | p in hub.actsFor[agent] :: p in hub.users && hub.users[p].kind.Human?
    ensures agent in hub.authorities <==> agent in hub.actsFor
  {
    hide Standing, Current;
  }

  /**
   It takes exactly that person from the agent: suspended at the next epoch with a fresh context called for, none of
   its tokens left to use; and no other agent, user or token is touched.
   */
  lemma UnassignTakes(hub: Hub, actor: Id, now: Time, agent: Id, person: Id, expected: Option<nat>, a: Id, t: Id)
    requires Sound(hub) && Step(hub, actor, now, Unassign(agent, person, expected)).Ok?
    ensures agent in hub.actsFor && agent in hub.authorities
    ensures var r := Step(hub, actor, now, Unassign(agent, person, expected)).value;
      && r.actsFor == hub.actsFor[agent := hub.actsFor[agent] - {person}] && person in hub.actsFor[agent]
      && r.users == hub.users && r.access == hub.access && r.minted == hub.minted
      && r.authorities.Keys == hub.authorities.Keys && r.tokens.Keys == hub.tokens.Keys
      && (var was := hub.authorities[agent];
          r.authorities[agent] == was.(epoch := was.epoch + 1, version := was.version + 1,
                                       suspended := Some(BindingLoss), freshContextRequired := true))
      && (a != agent && a in hub.authorities ==> r.authorities[a] == hub.authorities[a])
      && (t in hub.tokens ==> r.tokens[t] == if hub.tokens[t].user == agent then hub.tokens[t].(revoked := true)
        else hub.tokens[t])
  {
    hide Standing, Current, Apply, Compare, Settle;
    AgentTables(hub, agent);
    var rest := hub.actsFor[agent] - {person};
    var edit := SetAssignments(agent, rest, false);
    OthersUntouched(hub, actor, now, agent, rest, false, a, t);
    EligibleIs(hub, agent, person);
    EligibleIs(Proposed(hub, edit), agent, person);
    LosesPrincipal(hub, Proposed(hub, edit), agent, person);
    ApplyParts(hub, actor, now, edit, agent);
    SettledBinding(hub.authorities[agent], Compare(hub, Proposed(hub, edit), agent), RequestFor(hub, edit, agent), now);
    ApplyTokens(hub, actor, now, edit, t);
  }

  lemma LosesPrincipal(hub: Hub, proposed: Hub, agent: Id, person: Id)
    requires person in Eligible(hub, agent) && person !in Eligible(proposed, agent)
    ensures Compare(hub, proposed, agent).needed && BindingLoss in Compare(hub, proposed, agent).reasons
  {
    hide SignatureOf, Eligible;
  }

  lemma SettledBinding(before: Authority, t: Transition, request: Request, now: Time)
    requires t.needed && BindingLoss in t.reasons && !request.added && !request.authorize
    ensures Settle(before, t, request, now)
         == before.(epoch := before.epoch + 1, version := before.version + 1, suspended := Some(BindingLoss),
                    freshContextRequired := true)
  {
    assert BindingLoss in t.reasons * {BindingLoss, PrincipalAuthorityLoss, OwnAuthorityLoss};
  }

  /** Everyone an agent acts for is alike exactly when all of them stand the same. */
  lemma AlikeExactly(hub: Hub, agent: Id)
    requires hub.users.Keys <= hub.access.Keys
    ensures AlikeIn(hub, Eligible(hub, agent)) <==>
      forall p, q | ActsForActive(hub, agent, p) && ActsForActive(hub, agent, q) :: SameStanding(hub, p, q)
    ensures Eligible(hub, agent) != {} <==> exists p :: ActsForActive(hub, agent, p)
  {
    hide SignatureOf, Eligible, SameStanding;
    forall p ensures p in Eligible(hub, agent) <==> ActsForActive(hub, agent, p) { EligibleIs(hub, agent, p); }
    forall p, q | p in Eligible(hub, agent) && q in Eligible(hub, agent)
      ensures SignatureOf(hub, p) == SignatureOf(hub, q) <==> SameStanding(hub, p, q)
    {
      StandingAlike(hub, p, q);
    }
    if Eligible(hub, agent) != {} {
      var p :| p in Eligible(hub, agent);
      assert ActsForActive(hub, agent, p);
    }
  }

  /** The person, or someone the agent acts for already. */
  predicate WouldActFor(hub: Hub, agent: Id, person: Id, p: Id) { p == person || ActsForActive(hub, agent, p) }

  lemma NewcomerAlike(hub: Hub, agent: Id, person: Id)
    requires hub.users.Keys <= hub.access.Keys && agent in hub.actsFor && ActiveHuman(hub, person)
    ensures var proposed := Proposed(hub, SetAssignments(agent, hub.actsFor[agent] + {person}, true));
      AlikeIn(proposed, Eligible(proposed, agent)) <==>
        forall p, q | WouldActFor(hub, agent, person, p) && WouldActFor(hub, agent, person, q) ::
          SameStanding(hub, p, q)
  {
    hide AlikeIn, Eligible;
    var proposed := Proposed(hub, SetAssignments(agent, hub.actsFor[agent] + {person}, true));
    AlikeExactly(proposed, agent);
    forall p ensures ActsForActive(proposed, agent, p) <==> WouldActFor(hub, agent, person, p) {}
    forall p, q ensures SameStanding(proposed, p, q) <==> SameStanding(hub, p, q) {}
  }

  lemma AssignDemands(hub: Hub, actor: Id, agent: Id, person: Id)
    requires TablesAgree(hub) && ActiveAgent(hub, agent) && ActiveHuman(hub, person)
    ensures var edit := SetAssignments(agent, hub.actsFor[agent] + {person}, true);
      var proposed := Proposed(hub, edit);
      && (Checked(hub, actor, edit).None? <==> ActiveAdministrator(hub, actor))
      && (Demanded(hub, edit).None? <==> person in hub.actsFor[agent] || AlikeIn(proposed, Eligible(proposed, agent)))
  {
    hide SignatureOf, Eligible, AlikeIn;
  }

  /**
   An assignment is accepted exactly from an administrator who confirms the permitted use, of an active agent and an
   active person, at the version read, when the person is no newcomer or stands as everyone the agent acts for.
   */
  lemma AssignAcceptedExactly(hub: Hub, actor: Id, now: Time, agent: Id, person: Id, confirmed: bool,
                              expected: Option<nat>)
    requires Sound(hub)
    ensures Step(hub, actor, now, Assign(agent, person, confirmed, expected)).Ok? <==>
      && confirmed && ActiveAdministrator(hub, actor) && AgentAtWork(hub, agent) && ReadVersion(hub, agent, expected)
      && person in hub.users && hub.users[person].kind.Human? && hub.users[person].active
      && (person in hub.actsFor[agent]
          || forall p, q | WouldActFor(hub, agent, person, p) && WouldActFor(hub, agent, person, q) ::
               SameStanding(hub, p, q))
  {
    hide Standing, Current, Settle, SignatureOf, Eligible, AlikeIn, SameStanding, ActsForActive;
    AgentTables(hub, agent);
    if ActiveAgent(hub, agent) && ActiveHuman(hub, person) {
      NewcomerAlike(hub, agent, person);
      AssignDemands(hub, actor, agent, person);
    }
  }

  /** It adds exactly that person, suspends nobody and revokes nothing; for a newcomer the permitted use is recorded. */
  lemma AssignAdds(hub: Hub, actor: Id, now: Time, agent: Id, person: Id, confirmed: bool, expected: Option<nat>,
                   a: Id, t: Id)
    requires Sound(hub) && Step(hub, actor, now, Assign(agent, person, confirmed, expected)).Ok?
    ensures agent in hub.actsFor && agent in hub.authorities
    ensures var r := Step(hub, actor, now, Assign(agent, person, confirmed, expected)).value;
      && r.actsFor == hub.actsFor[agent := hub.actsFor[agent] + {person}]
      && r.users == hub.users && r.access == hub.access && r.tokens == hub.tokens && r.minted == hub.minted
      && r.authorities.Keys == hub.authorities.Keys
      && (a != agent && a in hub.authorities ==> r.authorities[a] == hub.authorities[a])
      && r.authorities[agent] == if person in hub.actsFor[agent] then hub.authorities[agent]
           else hub.authorities[agent].(permittedUseAt := Some(now), version := hub.authorities[agent].version + 1)
  {
    hide Standing, Current, Apply, Compare, SignatureOf, Eligible;
    AgentTables(hub, agent);
    var all := hub.actsFor[agent] + {person};
    var edit := SetAssignments(agent, all, true);
    var proposed := Proposed(hub, edit);
    SameSignatures(hub, proposed);
    OthersUntouched(hub, actor, now, agent, all, true, a, t);
    AssignNeedsNothing(hub, actor, now, agent, person);
    ApplyParts(hub, actor, now, edit, agent);
    var r := Step(hub, actor, now, Assign(agent, person, confirmed, expected)).value;
    forall u | u in hub.tokens ensures r.tokens[u] == hub.tokens[u] {
      OthersUntouched(hub, actor, now, agent, all, true, a, u);
      ApplyTokens(hub, actor, now, edit, u);
    }
    assert r.tokens == hub.tokens;
  }

  /** Nobody is lost by adding someone, and whoever is added must be alike. */
  lemma AssignNeedsNothing(hub: Hub, actor: Id, now: Time, agent: Id, person: Id)
    requires agent in hub.actsFor
    requires Apply(hub, actor, now, SetAssignments(agent, hub.actsFor[agent] + {person}, true)).Ok?
    ensures !Compare(hub, Proposed(hub, SetAssignments(agent, hub.actsFor[agent] + {person}, true)), agent).needed
  {
    hide SignatureOf, Settle, SettleAll, Losers, Checked;
    var edit := SetAssignments(agent, hub.actsFor[agent] + {person}, true);
    var proposed := Proposed(hub, edit);
    SameSignatures(hub, proposed);
    if person in hub.actsFor[agent] { assert hub.actsFor[agent] + {person} == hub.actsFor[agent]; }
    assert Eligible(hub, agent) <= Eligible(proposed, agent);
    NoLossAlike(hub, proposed);
  }

  /**
   An account is switched exactly by an administrator, at the version read: not the system's, not the last
   administrator off, and nobody themselves off.
   */
  lemma StatusAcceptedExactly(hub: Hub, actor: Id, now: Time, user: Id, active: bool, expected: Option<nat>)
    requires Sound(hub)
    ensures Step(hub, actor, now, SetStatus(user, active, expected)).Ok? <==>
      && ActiveAdministrator(hub, actor) && user in hub.users && !hub.users[user].kind.System?
      && (expected.None? || expected.value == hub.users[user].version)
      && (active || user != actor)
  {
    hide Standing, Current, SettleAll, Losers;
    if ActiveAdministrator(hub, actor) && !active && user != actor {
      assert actor in Administrators(hub.users) && Administrators(hub.users) != {user};
    }
  }

  /** It sets that account's activity and nothing else of any user, access or assignment. */
  lemma StatusSets(hub: Hub, actor: Id, now: Time, user: Id, active: bool, expected: Option<nat>, u: Id)
    requires Step(hub, actor, now, SetStatus(user, active, expected)).Ok?
    ensures user in hub.users
    ensures var r, was := Step(hub, actor, now, SetStatus(user, active, expected)).value, hub.users[user];
      && r.users.Keys == hub.users.Keys && r.access == hub.access && r.actsFor == hub.actsFor && r.minted == hub.minted
      && r.users[user] == (if was.active == active then was else User(was.kind, active, was.hubAdmin, was.version + 1))
      && (u in hub.users && u != user ==> r.users[u] == hub.users[u])
  {
    hide Checked, Demanded, SettleAll, Losers;
  }

  /** Retiring a person suspends every agent that acted for them and calls each to a fresh context. */
  lemma RetiredSuspends(hub: Hub, actor: Id, now: Time, user: Id, expected: Option<nat>, agent: Id)
    requires Sound(hub) && Step(hub, actor, now, SetStatus(user, false, expected)).Ok?
    requires ActsForActive(hub, agent, user)
    ensures var r := Step(hub, actor, now, SetStatus(user, false, expected)).value;
      && agent in hub.authorities && agent in r.authorities && r.authorities[agent].suspended.Some?
      && r.authorities[agent].freshContextRequired && r.authorities[agent].epoch == hub.authorities[agent].epoch + 1
  {
    hide Standing, Current, Apply;
    AgentTables(hub, agent);
    var edit := SetActive(user, false);
    EligibleIs(hub, agent, user);
    EligibleIs(Proposed(hub, edit), agent, user);
    NarrowedNeedsFreshContext(hub, actor, now, edit, agent);
  }

  /**
   An authorization is accepted exactly from an administrator who confirms the permitted use, of an active agent that
   acts for some active people, all standing alike, at the version read, with the fresh context acknowledged where
   called for.
   */
  lemma AuthorizeAcceptedExactly(hub: Hub, actor: Id, now: Time, agent: Id, confirmed: bool, ack: bool,
                                 expected: Option<nat>)
    requires Sound(hub)
    ensures Step(hub, actor, now, Authorize(agent, confirmed, ack, expected)).Ok? <==>
      && confirmed && ActiveAdministrator(hub, actor) && AgentAtWork(hub, agent) && ReadVersion(hub, agent, expected)
      && (exists p :: ActsForActive(hub, agent, p))
      && (forall p, q | ActsForActive(hub, agent, p) && ActsForActive(hub, agent, q) :: SameStanding(hub, p, q))
      && (hub.authorities[agent].freshContextRequired ==> ack)
  {
    hide Standing, Current, Settle, SignatureOf, Eligible, AlikeIn, SameStanding, ActsForActive;
    AgentTables(hub, agent);
    if ActiveAgent(hub, agent) { AlikeExactly(hub, agent); }
  }

  /**
   It lifts the agent's suspension and its call for a fresh context, at the epoch it had, and touches nothing
   else.
   */
  lemma AuthorizeRestores(hub: Hub, actor: Id, now: Time, agent: Id, confirmed: bool, ack: bool,
                          expected: Option<nat>, a: Id)
    requires Sound(hub) && Step(hub, actor, now, Authorize(agent, confirmed, ack, expected)).Ok?
    ensures agent in hub.authorities
    ensures var r, was := Step(hub, actor, now,
                               Authorize(agent, confirmed, ack, expected)).value, hub.authorities[agent];
      && r.users == hub.users && r.access == hub.access && r.actsFor == hub.actsFor && r.tokens == hub.tokens
      && r.minted == hub.minted && r.authorities.Keys == hub.authorities.Keys
      && (a != agent && a in hub.authorities ==> r.authorities[a] == hub.authorities[a])
      && r.authorities[agent].suspended.None? && !r.authorities[agent].freshContextRequired
      && r.authorities[agent].epoch == was.epoch
      && (was.suspended.None? && !was.freshContextRequired && was.authorizedAt.Some? && was.permittedUseAt.Some? ==>
            r.authorities[agent] == was)
      && (was.suspended.Some? || was.freshContextRequired || was.authorizedAt.None? || was.permittedUseAt.None? ==>
            && r.authorities[agent].authorizedAt == r.authorities[agent].permittedUseAt == Some(now)
            && r.authorities[agent].version == was.version + 1
            && r.authorities[agent].freshContextAckAt == if ack then Some(now) else was.freshContextAckAt)
  {
    hide Standing, Current, Apply, Compare, SignatureOf, Eligible, AlikeIn;
    AgentTables(hub, agent);
    var edit := AuthorizeAgent(agent, confirmed, ack);
    ApplyParts(hub, actor, now, edit, agent);
    ApplyParts(hub, actor, now, edit, a);
    SelfCompare(hub, agent);
    SelfCompare(hub, a);
    var r := Step(hub, actor, now, Authorize(agent, confirmed, ack, expected)).value;
    ApplyTokens(hub, actor, now, edit, 0);
    forall t | t in hub.tokens ensures r.tokens[t] == hub.tokens[t] {
      ApplyTokens(hub, actor, now, edit, t);
      SelfCompare(hub, hub.tokens[t].user);
    }
    assert r.tokens == hub.tokens;
  }

  /** A change of access writes exactly the access given, and is refused exactly for someone unknown. */
  lemma AccessWritten(hub: Hub, actor: Id, now: Time, changes: map<Id, Access>)
    ensures var r := Step(hub, actor, now, Grant(changes));
      && (r.Ok? <==> forall u | u in changes :: u in hub.users)
      && (r.Ok? ==> r.value.access == hub.access + changes && r.value.users == hub.users)
      && (r.Ok? ==> r.value.actsFor == hub.actsFor && r.value.minted == hub.minted)
  {
    hide SettleAll, Losers;
  }

  /**
   Whoever it takes a threshold or an admission from, their agents, or the agent itself, are suspended at the
   next epoch.
   */
  lemma LostAccessSuspends(hub: Hub, actor: Id, now: Time, changes: map<Id, Access>, agent: Id, person: Id)
    requires Sound(hub) && Step(hub, actor, now, Grant(changes)).Ok? && agent in hub.authorities
    requires person == agent || ActsForActive(hub, agent, person)
    requires person in changes && person in hub.users && hub.users[person].active
    requires !(hub.access[person].roles <= changes[person].roles)
        || !(hub.access[person].admissions <= changes[person].admissions)
    ensures var r := Step(hub, actor, now, Grant(changes)).value;
      && agent in r.authorities && r.authorities[agent].suspended.Some? && r.authorities[agent].freshContextRequired
      && r.authorities[agent].epoch == hub.authorities[agent].epoch + 1
  {
    hide Standing, Current, Apply, Eligible;
    var edit := ChangeAccess(changes);
    var proposed := Proposed(hub, edit);
    assert Loss(SignatureOf(hub, person), SignatureOf(proposed, person));
    EligibleIs(hub, agent, person);
    NarrowedNeedsFreshContext(hub, actor, now, edit, agent);
  }

  // ---------------------------------------------------------------- exactly who is suspended, and why

  predicate Working(hub: Hub, p: Id) { p in hub.users && hub.users[p].active }

  predicate HoldsRole(hub: Hub, p: Id, fact: Fact) { p in hub.access && fact in hub.access[p].roles }

  predicate Admitted(hub: Hub, p: Id, fact: Fact) {
    Working(hub, p) && p in hub.access && fact in hub.access[p].admissions
  }

  /** An account, its administration, a threshold or an admission is taken from someone. */
  ghost predicate Takes(before: Hub, after: Hub, p: Id) {
    || (Working(before, p) && !Working(after, p))
    || (p in before.users && before.users[p].hubAdmin && !(p in after.users && after.users[p].hubAdmin))
    || (exists fact :: HoldsRole(before, p, fact) && !HoldsRole(after, p, fact))
    || (exists fact :: Admitted(before, p, fact) && !Admitted(after, p, fact))
  }

  ghost predicate LosesPerson(before: Hub, after: Hub, a: Id) {
    exists p :: ActsForActive(before, a, p) && !ActsForActive(after, a, p)
  }

  ghost predicate TakesFromPerson(before: Hub, after: Hub, a: Id) {
    exists p :: (ActsForActive(before, a, p) || ActsForActive(after, a, p)) && Takes(before, after, p)
  }

  ghost predicate Uneven(hub: Hub, a: Id) {
    exists p, q :: ActsForActive(hub, a, p) && ActsForActive(hub, a, q) && !SameStanding(hub, p, q)
  }

  /** Something is taken from or given to an agent or someone it acts for, or whom it acts for changes. */
  ghost predicate Moved(before: Hub, after: Hub, a: Id) {
    || (exists p :: ActsForActive(before, a, p) != ActsForActive(after, a, p))
    || (exists p :: (p == a || ActsForActive(before, a, p) || ActsForActive(after, a, p))
                    && (Takes(before, after, p) || Takes(after, before, p)))
  }

  /** Why an edit suspends an agent, if it does. */
  ghost function Cause(before: Hub, after: Hub, a: Id): Option<Reason> {
    if LosesPerson(before, after, a) then Some(BindingLoss)
    else if TakesFromPerson(before, after, a) then Some(PrincipalAuthorityLoss)
    else if Takes(before, after, a) then Some(OwnAuthorityLoss)
    else if Uneven(after, a) && Moved(before, after, a) then Some(PrincipalSetUnequal)
    else None
  }

  lemma TakesIsLoss(before: Hub, after: Hub, p: Id)
    ensures Takes(before, after, p) <==> Loss(SignatureOf(before, p), SignatureOf(after, p))
  {
    var x, y := SignatureOf(before, p), SignatureOf(after, p);
    assert forall fact :: HoldsRole(before, p, fact) <==> fact in x.roles;
    assert forall fact :: HoldsRole(after, p, fact) <==> fact in y.roles;
    assert forall fact :: Admitted(before, p, fact) <==> fact in x.admitted;
    assert forall fact :: Admitted(after, p, fact) <==> fact in y.admitted;
  }

  lemma NeitherLoses(x: Signature, y: Signature)
    ensures x == y <==> !Loss(x, y) && !Loss(y, x)
  {
  }

  /** The comparison of the signatures says what the tables say. */
  lemma ComparedCause(before: Hub, after: Hub, a: Id)
    requires after.users.Keys <= after.access.Keys
    ensures var t, why := Compare(before, after, a), Cause(before, after, a);
      && (t.needed <==> why.Some?)
      && (why.Some? ==> FirstReason(t.reasons) == why.value)
      && (why.Some? ==> (Narrowing(t.reasons) <==> why != Some(PrincipalSetUnequal)))
  {
    hide SignatureOf, Eligible, Loss, Takes, ActsForActive, AlikeIn, SameStanding;
    forall p ensures p in Eligible(before, a) <==> ActsForActive(before, a, p) { EligibleIs(before, a, p); }
    forall p ensures p in Eligible(after, a) <==> ActsForActive(after, a, p) { EligibleIs(after, a, p); }
    forall p ensures Takes(before, after, p) <==> Loss(SignatureOf(before, p), SignatureOf(after, p)) {
      TakesIsLoss(before, after, p);
    }
    forall p ensures SignatureOf(before, p) == SignatureOf(after, p) <==>
                     !Takes(before, after, p) && !Takes(after, before, p) {
      TakesIsLoss(before, after, p);
      TakesIsLoss(after, before, p);
      NeitherLoses(SignatureOf(before, p), SignatureOf(after, p));
    }
    AlikeExactly(after, a);
  }

  /** Equal tables compare alike. */
  lemma ComparedTables(before: Hub, x: Hub, y: Hub, a: Id)
    requires x.users == y.users && x.access == y.access && x.actsFor == y.actsFor
    ensures Compare(before, x, a) == Compare(before, y, a)
  {
    hide Loss;
    assert Eligible(x, a) == Eligible(y, a);
    forall p ensures SignatureOf(x, p) == SignatureOf(y, p) {}
    hide SignatureOf, Eligible;
  }

  lemma EditSuspends(hub: Hub, actor: Id, now: Time, edit: Edit, a: Id, t: Id)
    requires Sound(hub) && Apply(hub, actor, now, edit).Ok? && !edit.AuthorizeAgent? && a in hub.authorities
    ensures var r, was := Apply(hub, actor, now, edit).value, hub.authorities[a];
      var why := Cause(hub, r, a);
      && a in r.authorities && r.authorities[a].epoch == was.epoch + (if why.Some? then 1 else 0)
      && (why.None? ==> r.authorities[a].suspended == was.suspended
                        && r.authorities[a].freshContextRequired == was.freshContextRequired)
      && (why.Some? ==> r.authorities[a].suspended == why)
      && (why.Some? ==> r.authorities[a].freshContextRequired ==
                        (was.freshContextRequired || why != Some(PrincipalSetUnequal)))
      && (edit.SetActive? || edit.ChangeAccess? ==>
            r.authorities[a] == if why.None? then was
                                else was.(epoch := was.epoch + 1, version := was.version + 1, suspended := why,
                                          freshContextRequired := r.authorities[a].freshContextRequired))
      && r.tokens.Keys == hub.tokens.Keys
      && (t in hub.tokens ==>
            var u := hub.tokens[t].user;
            var lost := u in hub.authorities && Cause(hub, r, u).Some?;
            r.tokens[t] == hub.tokens[t].(revoked := hub.tokens[t].revoked || u in Retired(hub, edit) || lost))
  {
    hide Standing, Current, Apply, Compare, Checked, Demanded, Cause, TablesAgree, FirstReason, Narrowing;
    var r := Apply(hub, actor, now, edit).value;
    ApplyParts(hub, actor, now, edit, a);
    ApplyTokens(hub, actor, now, edit, t);
    ApplyTables(hub, actor, now, edit);
    TablesKeys(r);
    ComparedTables(hub, Proposed(hub, edit), r, a);
    ComparedCause(hub, r, a);
    if t in hub.tokens {
      ComparedTables(hub, Proposed(hub, edit), r, hub.tokens[t].user);
      ComparedCause(hub, r, hub.tokens[t].user);
    }
  }

  lemma TablesKeys(hub: Hub)
    requires TablesAgree(hub)
    ensures hub.users.Keys <= hub.access.Keys
  {
  }

  /**
   A command that edits users, assignments or access suspends an agent, one epoch later and for the first of these
   reasons, exactly when it loses a person it acted for, or something is taken from such a person or from the agent
   itself, or it is moved and those it then acts for stand unevenly.  It revokes every token of the agents it suspends
   and of the account it retires, and no other.
   */
  lemma SuspendedExactly(hub: Hub, actor: Id, now: Time, cmd: Command, a: Id, t: Id)
    requires Sound(hub) && (cmd.Assign? || cmd.Unassign? || cmd.SetStatus? || cmd.Grant?)
    requires Step(hub, actor, now, cmd).Ok? && a in hub.authorities
    ensures var r, was := Step(hub, actor, now, cmd).value, hub.authorities[a];
      var why := Cause(hub, r, a);
      && a in r.authorities && r.authorities[a].epoch == was.epoch + (if why.Some? then 1 else 0)
      && (why.None? ==> r.authorities[a].suspended == was.suspended
                        && r.authorities[a].freshContextRequired == was.freshContextRequired)
      && (why.Some? ==> r.authorities[a].suspended == why)
      && (why.Some? ==> r.authorities[a].freshContextRequired ==
                        (was.freshContextRequired || why != Some(PrincipalSetUnequal)))
      && (cmd.SetStatus? || cmd.Grant? ==>
            r.authorities[a] == if why.None? then was
                                else was.(epoch := was.epoch + 1, version := was.version + 1, suspended := why,
                                          freshContextRequired := r.authorities[a].freshContextRequired))
      && r.tokens.Keys == hub.tokens.Keys
      && (t in hub.tokens ==>
            var u := hub.tokens[t].user;
            var lost := u in hub.authorities && Cause(hub, r, u).Some?;
            r.tokens[t] == hub.tokens[t].(revoked := hub.tokens[t].revoked || RetiresUser(hub, cmd, u) || lost))
  {
    hide Standing, Current, Apply, Cause, Checked, Demanded;
    match cmd
    case Assign(agent, person, confirmed, expected) =>
      EditSuspends(hub, actor, now, SetAssignments(agent, hub.actsFor[agent] + {person}, true), a, t);
    case Unassign(agent, person, expected) =>
      EditSuspends(hub, actor, now, SetAssignments(agent, hub.actsFor[agent] - {person}, false), a, t);
    case SetStatus(user, active, expected) => EditSuspends(hub, actor, now, SetActive(user, active), a, t);
    case Grant(changes) => EditSuspends(hub, actor, now, ChangeAccess(changes), a, t);
  }

  predicate RetiresUser(hub: Hub, cmd: Command, u: Id) {
    cmd.SetStatus? && cmd.user == u && !cmd.active && Working(hub, u)
  }

  /**
   A new account is made exactly by an administrator under a new id: active, without access, an agent suspended
   and acting for nobody.
   */
  lemma AddedExactly(hub: Hub, actor: Id, now: Time, id: Id, agent: bool, administrator: bool)
    ensures var cmd := if agent then CreateAgent(id) else AddPerson(id, administrator);
      var r := Step(hub, actor, now, cmd);
      && (r.Ok? <==> ActiveAdministrator(hub, actor) && id !in hub.users)
      && (r.Ok? ==>
            && r.value.users
              == hub.users[id := User(if agent then Kind.Agent else Human, true, !agent && administrator, 1)]
            && r.value.access == hub.access[id := Access({}, {})]
            && r.value.tokens == hub.tokens && r.value.minted == hub.minted
            && r.value.actsFor == (if agent then hub.actsFor[id := {}] else hub.actsFor)
            && r.value.authorities == (if agent
                 then hub.authorities[id := Authority(1, 1, Some(NotYetAuthorized), false, None, None, None)]
                 else hub.authorities))
  {
  }

  /** May a token of this user, for this principal, be minted now? */
  predicate MayHold(hub: Hub, user: Id, principal: Option<Id>) {
    && user in hub.users && hub.users[user].active
    && match hub.users[user].kind
       case Human => principal.None?
       case System => false
       case Agent =>
         && principal.Some? && user in hub.authorities && hub.authorities[user].suspended.None?
         && ActsForActive(hub, user, principal.value)
  }

  /**
   A token is minted exactly under a new id, by an active human for themselves or by an administrator, for a user who
   may hold it; it is that one token, bound to the agent's epoch of the moment, and nothing else changes.
   */
  lemma IssuedExactly(hub: Hub, actor: Id, now: Time, id: Id, user: Id, principal: Option<Id>, expires: Option<Time>,
                      session: bool)
    requires Sound(hub)
    ensures var r := Step(hub, actor, now, IssueToken(id, user, principal, expires, session));
      && (r.Ok? <==>
            && id !in hub.minted && actor in hub.users && hub.users[actor].active && hub.users[actor].kind.Human?
            && (actor == user || hub.users[actor].hubAdmin) && MayHold(hub, user, principal))
      && (r.Ok? ==>
            var epoch := if user in hub.authorities then Some(hub.authorities[user].epoch) else None;
            r.value == hub.(tokens := hub.tokens[id := Token(user, principal, epoch, false, expires, session)],
                            minted := hub.minted + {id}))
  {
    hide Standing, Current, Eligible;
    AgentTables(hub, user);
    if principal.Some? { EligibleIs(hub, user, principal.value); }
  }

  /** A token is revoked exactly by its user or an administrator, that one alone. */
  lemma RevokedExactly(hub: Hub, actor: Id, now: Time, id: Id)
    ensures var r := Step(hub, actor, now, RevokeToken(id));
      && (r.Ok? <==> id in hub.tokens && (hub.tokens[id].user == actor || ActiveAdministrator(hub, actor)))
      && (r.Ok? ==> r.value == hub.(tokens := hub.tokens[id := hub.tokens[id].(revoked := true)]))
  {
  }

  /** The sweep deletes exactly the browser sessions that ran out more than a day ago. */
  lemma SweptExactly(hub: Hub, actor: Id, now: Time, t: Id)
    ensures var r := Step(hub, actor, now, SweepSessions);
      && r.Ok? && r.value == hub.(tokens := r.value.tokens)
      && (t in r.value.tokens ==> t in hub.tokens && r.value.tokens[t] == hub.tokens[t])
      && (t in hub.tokens ==>
            (t !in r.value.tokens <==>
             hub.tokens[t].session && hub.tokens[t].expires.Some? && hub.tokens[t].expires.value + 86400000 < now))
  {
  }

  // ---------------------------------------------------------------- who may do what

  /**
   Nobody but an active human administrator adds or switches users or changes whom an agent acts for; an agent's
   authority is moved by nobody else but through a change of access; and nobody else mints a token for another or
   revokes another's.
   */
  lemma OnlyAdministrators(hub: Hub, e: Event, t: Id)
    requires Sound(hub) && !ActiveAdministrator(hub, e.actor)
    ensures var g := After(hub, e);
      && g.users == hub.users && g.actsFor == hub.actsFor
      && (!e.cmd.Grant? ==> g.authorities == hub.authorities && g.access == hub.access)
      && (t in g.tokens && t !in hub.tokens ==> g.tokens[t].user == e.actor)
      && (t in hub.tokens && t in g.tokens && g.tokens[t] != hub.tokens[t] ==>
        hub.tokens[t].user == e.actor || e.cmd.Grant?)
  {
    hide Apply, Sound, ActiveAdministrator;
    var c := e.cmd;
    if c.AddPerson? || c.CreateAgent? {
      AddedExactly(hub, e.actor, e.now, c.id, c.CreateAgent?, c.AddPerson? && c.administrator);
    }
    if c.Assign? { AssignAcceptedExactly(hub, e.actor, e.now, c.agent, c.person, c.confirmed, c.expected); }
    if c.Unassign? { UnassignAcceptedExactly(hub, e.actor, e.now, c.agent, c.person, c.expected); }
    if c.Authorize? { AuthorizeAcceptedExactly(hub, e.actor, e.now, c.agent, c.confirmed, c.ack, c.expected); }
    if c.SetStatus? { StatusAcceptedExactly(hub, e.actor, e.now, c.user, c.active, c.expected); }
    if c.Grant? {
      AccessWritten(hub, e.actor, e.now, c.changes);
      EditTokens(hub, e, ChangeAccess(c.changes), t);
    }
    if c.IssueToken? { MintedForOneself(hub, e); }
    if c.RevokeToken? { RevokedExactly(hub, e.actor, e.now, c.id); }
  }

  lemma MintedForOneself(hub: Hub, e: Event)
    requires Sound(hub) && !ActiveAdministrator(hub, e.actor) && e.cmd.IssueToken?
    ensures var g := After(hub, e);
      && g == hub.(tokens := g.tokens, minted := g.minted)
      && forall t | t in g.tokens ::
        if t in hub.tokens then g.tokens[t] == hub.tokens[t] else g.tokens[t].user == e.actor
  {
    hide Standing, Current, MayHold;
    var c := e.cmd;
    IssuedExactly(hub, e.actor, e.now, c.id, c.user, c.principal, c.expires, c.session);
  }

  // ---------------------------------------------------------------- whom an agent acts for, over runs

  predicate AboutPair(cmd: Command, agent: Id, person: Id) {
    (cmd.Assign? || cmd.Unassign?) && cmd.agent == agent && cmd.person == person
  }

  /** No accepted command of the run is about this agent and this person. */
  ghost predicate NoneAboutPair(hub: Hub, events: seq<Event>, agent: Id, person: Id)
    decreases |events|
  {
    events == []
    || (!(AboutPair(events[0].cmd, agent, person) && Step(hub, events[0].actor, events[0].now, events[0].cmd).Ok?)
        && NoneAboutPair(After(hub, events[0]), events[1..], agent, person))
  }

  lemma PairUntouched(hub: Hub, e: Event, agent: Id, person: Id)
    requires Sound(hub) && agent in hub.actsFor
    requires !(AboutPair(e.cmd, agent, person) && Step(hub, e.actor, e.now, e.cmd).Ok?)
    ensures agent in After(hub, e).actsFor
    ensures person in After(hub, e).actsFor[agent] <==> person in hub.actsFor[agent]
  {
    hide Standing, Current, Apply;
    var c := e.cmd;
    AgentTables(hub, agent);
    if Step(hub, e.actor, e.now, c).Ok? {
      if c.CreateAgent? || c.AddPerson? {
        AddedExactly(hub, e.actor, e.now, c.id, c.CreateAgent?, c.AddPerson? && c.administrator);
        UserOfAuthority(hub, agent);
      }
      if c.Assign? { AssignAdds(hub, e.actor, e.now, c.agent, c.person, c.confirmed, c.expected, 0, 0); }
      if c.Unassign? { UnassignTakes(hub, e.actor, e.now, c.agent, c.person, c.expected, 0, 0); }
      if c.Authorize? { AuthorizeRestores(hub, e.actor, e.now, c.agent, c.confirmed, c.ack, c.expected, 0); }
      if c.SetStatus? { StatusSets(hub, e.actor, e.now, c.user, c.active, c.expected, 0); }
      if c.Grant? { AccessWritten(hub, e.actor, e.now, c.changes); }
    }
  }

  lemma {:induction false} PairStands(hub: Hub, events: seq<Event>, agent: Id, person: Id)
    requires Sound(hub) && agent in hub.actsFor && NoneAboutPair(hub, events, agent, person)
    ensures agent in Run(hub, events).actsFor
    ensures person in Run(hub, events).actsFor[agent] <==> person in hub.actsFor[agent]
    decreases |events|
  {
    hide Sound, Step, After;
    if events != [] {
      PairUntouched(hub, events[0], agent, person);
      AfterSound(hub, events[0]);
      PairStands(After(hub, events[0]), events[1..], agent, person);
    }
  }

  /**
   Whatever was done before and is done about others since, an agent acts for a person exactly as the last
   command accepted about them says.
   */
  lemma LastAssignmentStands(hub: Hub, e: Event, later: seq<Event>)
    requires Sound(hub) && (e.cmd.Assign? || e.cmd.Unassign?) && Step(hub, e.actor, e.now, e.cmd).Ok?
    requires NoneAboutPair(After(hub, e), later, e.cmd.agent, e.cmd.person)
    ensures var g := Run(After(hub, e), later);
      e.cmd.agent in g.actsFor && (e.cmd.person in g.actsFor[e.cmd.agent] <==> e.cmd.Assign?)
  {
    hide Sound, Run, Apply;
    var c := e.cmd;
    if c.Assign? {
      AssignAdds(hub, e.actor, e.now, c.agent, c.person, c.confirmed, c.expected, 0, 0);
    } else {
      UnassignTakes(hub, e.actor, e.now, c.agent, c.person, c.expected, 0, 0);
    }
    AfterSound(hub, e);
    PairStands(After(hub, e), later, c.agent, c.person);
  }

  // ---------------------------------------------------------------- the store

  /** The hub's identity tables, written by the commands. */
  class AuthorityStore {
    var users: map<Id, User>
    var access: map<Id, Access>
    var authorities: map<Id, Authority>
    var actsFor: map<Id, set<Id>>
    var tokens: map<Id, Token>
    var minted: set<Id>

    /** A new installation: one human administrator. */
    constructor (administrator: Id)
      ensures State() == Hub(map[administrator := User(Human, true, true, 1)], map[administrator := Access({}, {})],
                             map[], map[], map[], {})
      ensures Sound(State())
    {
      users := map[administrator := User(Human, true, true, 1)];
      access := map[administrator := Access({}, {})];
      authorities, actsFor, tokens, minted := map[], map[], map[], {};
      new;
      assert administrator in Administrators(users);
    }

    function State(): Hub
      reads this
    {
      Hub(users, access, authorities, actsFor, tokens, minted)
    }

    /** Settle every agent against the proposal, collecting those whose tokens must go. */
    method Reconcile(proposed: Hub, requests: map<Id, Request>, now: Time)
      returns (settled: map<Id, Authority>, losers: set<Id>)
      ensures settled == SettleAll(State(), proposed, requests, now)
      ensures losers == Losers(State(), proposed)
    {
      hide Compare, Settle;
      settled, losers := map[], {};
      var rest := authorities.Keys;
      while rest != {}
        invariant rest <= authorities.Keys
        invariant settled.Keys == authorities.Keys - rest
        invariant forall a | a in settled ::
                    settled[a] == Settle(authorities[a], Compare(State(), proposed, a),
                                         if a in requests then requests[a] else NO_REQUEST, now)
        invariant losers == set a | a in authorities.Keys - rest && Compare(State(), proposed, a).needed
      {
        var a :| a in rest;
        var t := Compare(State(), proposed, a);
        settled := settled[a := Settle(authorities[a], t, if a in requests then requests[a] else NO_REQUEST, now)];
        if t.needed {
          losers := losers + {a};
        }
        rest := rest - {a};
      }
    }

    method RevokeTokens(owners: set<Id>)
      modifies this`tokens
      ensures tokens == Revoked(old(tokens), owners)
    {
      var rest := tokens.Keys;
      while rest != {}
        invariant rest <= old(tokens).Keys && tokens.Keys == old(tokens).Keys
        invariant forall t | t in tokens ::
            tokens[t] == if t in rest then old(tokens)[t] else Revoked(old(tokens), owners)[t]
      {
        var t :| t in rest;
        if tokens[t].user in owners {
          tokens := tokens[t := tokens[t].(revoked := true)];
        }
        rest := rest - {t};
      }
    }

    method Edit(actor: Id, now: Time, edit: Edit) returns (refused: Option<Refusal>)
      modifies this
      ensures match Apply(old(State()), actor, now, edit)
              case Ok(next) => refused.None? && State() == next
              case Err(why) => refused == Some(why) && State() == old(State())
    {
      hide Checked, Demanded, Compare, Settle;
      refused := Checked(State(), actor, edit);
      if refused.Some? {
        return;
      }
      refused := Demanded(State(), edit);
      if refused.Some? {
        return;
      }
      var proposed := Proposed(State(), edit);
      var retired := Retired(State(), edit);
      var settled, losers := Reconcile(proposed, Requests(State(), edit), now);
      users, access, actsFor, authorities := proposed.users, proposed.access, proposed.actsFor, settled;
      RevokeTokens(losers + retired);
    }

    method AddUser(actor: Id, id: Id, user: User) returns (refused: Option<Refusal>)
      modifies this
      ensures refused == if !IsAdministrator(old(State()), actor) then Some(NotAdministrator)
                         else if id in old(users) then Some(Invalid) else None
      ensures State() == if refused.Some? then old(State()) else WithUser(old(State()), id, user)
    {
      if !IsAdministrator(State(), actor) {
        return Some(NotAdministrator);
      }
      if id in users {
        return Some(Invalid);
      }
      users, access := users[id := user], access[id := Access({}, {})];
      if user.kind.Agent? {
        authorities, actsFor := authorities[id := NewAuthority()], actsFor[id := {}];
      }
      return None;
    }

    method IssueToken(actor: Id, id: Id, user: Id, principal: Option<Id>, expires: Option<Time>, session: bool)
      returns (refused: Option<Refusal>)
      modifies this`tokens, this`minted
      ensures match Step(old(State()), actor, 0, Command.IssueToken(id, user, principal, expires, session))
              case Ok(next) => refused.None? && State() == next
              case Err(why) => refused == Some(why) && State() == old(State())
    {
      if id in minted {
        return Some(Invalid);
      }
      if actor !in users || !users[actor].active || !users[actor].kind.Human?
        || (actor != user && !users[actor].hubAdmin) {
        return Some(NotAdministrator);
      }
      var bound := Binding(State(), user, principal);
      if bound.None? {
        return Some(NotEligible);
      }
      tokens := tokens[id := Token(user, principal, bound.value, false, expires, session)];
      minted := minted + {id};
      return None;
    }

    /** Deletes the browser sessions that ran out more than a day ago. */
    method Sweep(now: Time) returns (swept: set<Id>)
      modifies this`tokens
      ensures tokens == Unswept(old(tokens), now) && swept == old(tokens).Keys - tokens.Keys
    {
      ghost var was := tokens;
      var rest := tokens.Keys;
      swept := {};
      while rest != {}
        invariant rest <= was.Keys && swept == was.Keys - tokens.Keys
        invariant tokens == map t | t in was && (t in rest || !Sweepable(was[t], now)) :: was[t]
      {
        var t :| t in rest;
        if Sweepable(tokens[t], now) {
          tokens, swept := tokens - {t}, swept + {t};
        }
        rest := rest - {t};
      }
    }

    method Assign(actor: Id, now: Time, agent: Id, person: Id, assign: bool, confirmed: bool, expected: Option<nat>)
      returns (refused: Option<Refusal>)
      modifies this
      ensures match Step(old(State()), actor, now,
                         if assign then Command.Assign(agent, person, confirmed, expected)
                           else Unassign(agent, person, expected))
              case Ok(next) => refused.None? && State() == next
              case Err(why) => refused == Some(why) && State() == old(State())
    {
      hide Apply;
      if assign && !confirmed {
        return Some(PermittedUseRequired);
      }
      if !ActiveAgent(State(), agent) || !ActiveHuman(State(), person) || (!assign && person !in actsFor[agent]) {
        return Some(NotFound);
      }
      if Stale(State(), agent, expected) {
        return Some(VersionConflict);
      }
      var wanted := if assign then actsFor[agent] + {person} else actsFor[agent] - {person};
      refused := Edit(actor, now, SetAssignments(agent, wanted, assign));
    }

    method Authorize(actor: Id, now: Time, agent: Id, confirmed: bool, ack: bool, expected: Option<nat>)
      returns (refused: Option<Refusal>)
      modifies this
      ensures match Step(old(State()), actor, now, Command.Authorize(agent, confirmed, ack, expected))
              case Ok(next) => refused.None? && State() == next
              case Err(why) => refused == Some(why) && State() == old(State())
    {
      hide Apply;
      if !confirmed {
        return Some(PermittedUseRequired);
      }
      if !ActiveAgent(State(), agent) {
        return Some(NotFound);
      }
      if Stale(State(), agent, expected) {
        return Some(VersionConflict);
      }
      refused := Edit(actor, now, AuthorizeAgent(agent, confirmed, ack));
    }

    method SetStatus(actor: Id, now: Time, user: Id, active: bool, expected: Option<nat>)
      returns (refused: Option<Refusal>)
      modifies this
      ensures match Step(old(State()), actor, now, Command.SetStatus(user, active, expected))
              case Ok(next) => refused.None? && State() == next
              case Err(why) => refused == Some(why) && State() == old(State())
    {
      hide Apply;
      if user !in users {
        return Some(NotFound);
      }
      if expected.Some? && expected.value != users[user].version {
        return Some(VersionConflict);
      }
      if !active && user == actor {
        // The edit is prepared first, so its own refusals answer before this one; nothing is written either way.
        var prepared := Apply(State(), actor, now, SetActive(user, active));
        return Some(if prepared.Err? then prepared.error else Invalid);
      }
      refused := Edit(actor, now, SetActive(user, active));
    }
  }
}
