/**
 The membership table before permission activation: who may grant or revoke access at a scope, what one
 command writes, and who is thereby in reach of a scope.
 */
module Memberships {
  import opened Options

  type Id = nat

  datatype Role = Readonly | Standard | Admin | Owner

  function Rank(r: Role): nat {
    match r
    case Readonly => 0
    case Standard => 1
    case Admin => 2
    case Owner => 3
  }

  datatype Scope = Company(id: Id) | Organization(id: Id)

  /** One stored membership; revoking keeps the row. */
  datatype Row = Row(id: Id, user: Id, scope: Scope, role: Role, active: bool, version: nat, grantedBy: Id)

  /** The registry: the organization of each company, and the people a membership may be given to. */
  datatype Registry = Registry(organizationOf: map<Id, Id>, people: set<Id>)

  /** A hub administrator has the installation shortcut; an agent may not change memberships here at all. */
  datatype Actor = Actor(id: Id, human: bool, hubAdmin: bool)

  datatype Command =
    | Grant(actor: Actor, user: Id, scope: Scope, role: Role, expected: Option<nat>, newId: Id)
    | Revoke(actor: Actor, user: Id, scope: Scope, expected: Option<nat>)

  datatype Refusal = ActivationRequired | Permission | UserNotFound | RecordNotFound | VersionConflict

  // ---------------------------------------------------------------- authority

  /** Does a membership at one scope also hold at another: a company's own and its organization's. */
  predicate Covers(g: Registry, held: Scope, scope: Scope) {
    || held == scope
    || (scope.Company? && held.Organization? && scope.id in g.organizationOf && g.organizationOf[scope.id] == held.id)
  }

  /** The best rank among a user's active rows that hold at a scope, plus one; zero when there are none. */
  function Authority(g: Registry, rows: seq<Row>, user: Id, scope: Scope): nat {
    if rows == [] then 0
    else
      var best, r := Authority(g, rows[..|rows| - 1], user, scope), rows[|rows| - 1];
      if r.user == user && r.active && Covers(g, r.scope, scope) && Rank(r.role) + 1 > best then Rank(r.role) + 1
        else best
  }

  function Floor(role: Role): Role { if role == Owner then Owner else Admin }

  predicate Administers(g: Registry, rows: seq<Row>, a: Actor, scope: Scope, required: Role) {
    a.hubAdmin || Authority(g, rows, a.id, scope) >= Rank(required) + 1
  }

  // ---------------------------------------------------------------- the commands

  predicate Keyed(r: Row, user: Id, scope: Scope) { r.user == user && r.scope == scope }

  /** The first row of a user at a scope. */
  function Find(rows: seq<Row>, user: Id, scope: Scope): (i: Option<nat>)
    ensures i.Some? ==> i.value < |rows| && Keyed(rows[i.value], user, scope)
    ensures i.None? ==> forall k | 0 <= k < |rows| :: !Keyed(rows[k], user, scope)
  {
    if rows == [] then None
    else if Keyed(rows[0], user, scope) then Some(0)
    else
      var rest := Find(rows[1..], user, scope);
      if rest.Some? then Some(rest.value + 1) else None
  }

  function GrantStep(g: Registry, rows: seq<Row>, c: Command): Result<seq<Row>, Refusal>
    requires c.Grant?
  {
    if !c.actor.human then Err(ActivationRequired)
    else if !Administers(g, rows, c.actor, c.scope, Floor(c.role)) then Err(Permission)
    else if c.user !in g.people then Err(UserNotFound)
    else
      var found := Find(rows, c.user, c.scope);
      if found.Some? && rows[found.value].active
        && !Administers(g, rows, c.actor, c.scope, Floor(rows[found.value].role))
      then Err(Permission)
      else if c.expected.Some? && c.expected.value != (if found.Some? then rows[found.value].version else 0)
        then Err(VersionConflict)
      else if found.None? then Ok(rows + [Row(c.newId, c.user, c.scope, c.role, true, 1, c.actor.id)])
      else
        var r := rows[found.value];
        if r.role == c.role && r.active then Ok(rows)
        else Ok(rows[found.value := r.(role := c.role, active := true, version := r.version + 1,
                                       grantedBy := c.actor.id)])
  }

  /** A revoked row keeps its role, and the floor for that role is asked again even to revoke it twice. */
  function RevokeStep(g: Registry, rows: seq<Row>, c: Command): Result<seq<Row>, Refusal>
    requires c.Revoke?
  {
    if !c.actor.human then Err(ActivationRequired)
    else if !Administers(g, rows, c.actor, c.scope, Admin) then Err(Permission)
    else if c.user !in g.people then Err(UserNotFound)
    else
      var found := Find(rows, c.user, c.scope);
      if found.None? then Err(RecordNotFound)
      else
        var r := rows[found.value];
        if !Administers(g, rows, c.actor, c.scope, Floor(r.role)) then Err(Permission)
        else if c.expected.Some? && c.expected.value != r.version then Err(VersionConflict)
        else if !r.active then Ok(rows)
        else Ok(rows[found.value := r.(active := false, version := r.version + 1)])
  }

  function Attempt(g: Registry, rows: seq<Row>, c: Command): Result<seq<Row>, Refusal> {
    if c.Grant? then GrantStep(g, rows, c) else RevokeStep(g, rows, c)
  }

  function Step(g: Registry, rows: seq<Row>, c: Command): seq<Row> {
    var r := Attempt(g, rows, c);
    if r.Ok? then r.value else rows
  }

  function Run(g: Registry, rows: seq<Row>, commands: seq<Command>): seq<Row>
    decreases |commands|
  {
    if commands == [] then rows else Run(g, Step(g, rows, commands[0]), commands[1..])
  }

  // ---------------------------------------------------------------- one row per person and scope

  ghost predicate OneRow(rows: seq<Row>) {
    forall i, j | 0 <= i < j < |rows| :: !Keyed(rows[j], rows[i].user, rows[i].scope)
  }

  /** Where a step changes the table: at one row, or by one row at the end. */
  lemma StepShape(g: Registry, rows: seq<Row>, c: Command)
    ensures var after, found := Step(g, rows, c), Find(rows, c.user, c.scope);
      || after == rows
      || (found.None? && c.Grant? && after == rows + [Row(c.newId, c.user, c.scope, c.role, true, 1, c.actor.id)])
      || (found.Some? && |after| == |rows| && after == rows[found.value := after[found.value]]
          && Keyed(after[found.value], c.user, c.scope)
          && after[found.value].id == rows[found.value].id
          && after[found.value].version == rows[found.value].version + 1
          && (after[found.value].active || after[found.value].role == rows[found.value].role))
  {
    hide Administers;
  }

  lemma {:induction false} StepOneRow(g: Registry, rows: seq<Row>, c: Command)
    requires OneRow(rows)
    ensures OneRow(Step(g, rows, c))
  {
    hide Step;
    StepShape(g, rows, c);
  }

  /** Over any run there is one row for each person and scope. */
  lemma {:induction false} RunOneRow(g: Registry, rows: seq<Row>, commands: seq<Command>)
    requires OneRow(rows)
    ensures OneRow(Run(g, rows, commands))
    decreases |commands|
  {
    hide Step;
    if commands != [] {
      StepOneRow(g, rows, commands[0]);
      RunOneRow(g, Step(g, rows, commands[0]), commands[1..]);
    }
  }

  function VersionAt(rows: seq<Row>, user: Id, scope: Scope): nat {
    var found := Find(rows, user, scope);
    if found.Some? then rows[found.value].version else 0
  }

  function RowAt(rows: seq<Row>, user: Id, scope: Scope): Option<Row> {
    var found := Find(rows, user, scope);
    if found.Some? then Some(rows[found.value]) else None
  }

  /** How many steps of a run change a person's row at a scope. */
  function Changes(g: Registry, rows: seq<Row>, commands: seq<Command>, user: Id, scope: Scope): nat
    decreases |commands|
  {
    if commands == [] then 0
    else
      var after := Step(g, rows, commands[0]);
      (if RowAt(after, user, scope) != RowAt(rows, user, scope) then 1 else 0)
      + Changes(g, after, commands[1..], user, scope)
  }

  lemma {:induction false} FindAppended(rows: seq<Row>, r: Row, user: Id, scope: Scope)
    ensures Find(rows + [r], user, scope) ==
      if Find(rows, user, scope).Some? then Find(rows, user, scope) else if Keyed(r, user, scope) then Some(|rows|)
        else None
  {
    if rows != [] {
      FindAppended(rows[1..], r, user, scope);
      assert (rows + [r])[1..] == rows[1..] + [r];
    }
  }

  lemma {:induction false} FindUpdated(rows: seq<Row>, i: nat, r: Row, user: Id, scope: Scope)
    requires i < |rows| && Keyed(r, rows[i].user, rows[i].scope)
    ensures Find(rows[i := r], user, scope) == Find(rows, user, scope)
  {
    if i > 0 {
      FindUpdated(rows[1..], i - 1, r, user, scope);
      assert rows[i := r][1..] == rows[1..][i - 1 := r];
    } else {
      assert rows[i := r][1..] == rows[1..];
    }
  }

  /** What a step does to any person's row at any scope. */
  lemma StepRow(g: Registry, rows: seq<Row>, c: Command, user: Id, scope: Scope)
    ensures var was, now := RowAt(rows, user, scope), RowAt(Step(g, rows, c), user, scope);
      && (was.Some? ==> now.Some?)
      && (now != was ==> user == c.user && scope == c.scope)
      && (now != was ==> VersionAt(Step(g, rows, c), user, scope) == VersionAt(rows, user, scope) + 1)
  {
    hide Step;
    StepShape(g, rows, c);
    var after, found := Step(g, rows, c), Find(rows, c.user, c.scope);
    if |after| > |rows| {
      FindAppended(rows, after[|rows|], user, scope);
    } else if after != rows {
      FindUpdated(rows, found.value, after[found.value], user, scope);
    }
  }

  /** A row's version counts the steps that changed it, and nothing else. */
  lemma {:induction false} VersionCounts(g: Registry, rows: seq<Row>, commands: seq<Command>, user: Id, scope: Scope)
    ensures VersionAt(Run(g, rows, commands), user, scope)
        == VersionAt(rows, user, scope) + Changes(g, rows, commands, user, scope)
    decreases |commands|
  {
    hide Step, Find;
    if commands != [] {
      StepRow(g, rows, commands[0], user, scope);
      VersionCounts(g, Step(g, rows, commands[0]), commands[1..], user, scope);
    }
  }

  /** Doing any command twice in a row is doing it once. */
  lemma RepeatChangesNothing(g: Registry, rows: seq<Row>, c: Command)
    ensures Step(g, Step(g, rows, c), c) == Step(g, rows, c)
  {
    hide Administers;
    var after, found := Step(g, rows, c), Find(rows, c.user, c.scope);
    if after != rows {
      if found.None? {
        FindAppended(rows, after[|rows|], c.user, c.scope);
      } else {
        FindUpdated(rows, found.value, after[found.value], c.user, c.scope);
      }
    }
  }

  // ---------------------------------------------------------------- who may change what

  /** An active row that holds at a scope with at least this role. */
  predicate Holds(g: Registry, r: Row, scope: Scope, least: Role) {
    r.active && Covers(g, r.scope, scope) && Rank(r.role) >= Rank(least)
  }

  /** Authority of a rank is an active row of that user that holds at the scope with that rank. */
  lemma {:induction false} AuthorityExactly(g: Registry, rows: seq<Row>, user: Id, scope: Scope, least: Role)
    ensures Authority(g, rows, user, scope) >= Rank(least) + 1
        <==> exists i :: 0 <= i < |rows| && rows[i].user == user && Holds(g, rows[i], scope, least)
  {
    if rows != [] {
      var front, last := rows[..|rows| - 1], rows[|rows| - 1];
      AuthorityExactly(g, front, user, scope, least);
      if exists i :: 0 <= i < |front| && front[i].user == user && Holds(g, front[i], scope, least) {
        var i :| 0 <= i < |front| && front[i].user == user && Holds(g, front[i], scope, least);
        assert rows[i].user == user && Holds(g, rows[i], scope, least);
      }
      if last.user == user && Holds(g, last, scope, least) {
        assert rows[|rows| - 1].user == user && Holds(g, rows[|rows| - 1], scope, least);
      }
      forall i | 0 <= i < |rows| && rows[i].user == user && Holds(g, rows[i], scope, least)
        ensures i == |rows| - 1 || (front[i].user == user && Holds(g, front[i], scope, least))
      {
      }
    }
  }

  predicate ActiveOwner(r: Option<Row>) { r.Some? && r.value.active && r.value.role == Owner }

  /**
   Without the shortcut, a row is changed only by an administrator of its scope, and an active owner row made or
   unmade only by an owner of it.
   */
  lemma ChangedByAuthority(g: Registry, rows: seq<Row>, c: Command)
    requires !c.actor.hubAdmin
    ensures var was, now := RowAt(rows, c.user, c.scope), RowAt(Step(g, rows, c), c.user, c.scope);
      now != was ==>
        && c.actor.human
        && Authority(g, rows, c.actor.id, c.scope) >= Rank(Admin) + 1
        && (ActiveOwner(was) || ActiveOwner(now) ==> Authority(g, rows, c.actor.id, c.scope) >= Rank(Owner) + 1)
  {
    hide Authority;
    StepShape(g, rows, c);
    var after, found := Step(g, rows, c), Find(rows, c.user, c.scope);
    if |after| > |rows| {
      FindAppended(rows, after[|rows|], c.user, c.scope);
    } else if after != rows {
      FindUpdated(rows, found.value, after[found.value], c.user, c.scope);
    }
  }

  /** Nobody holds a role of this rank at a scope. */
  ghost predicate Nobody(g: Registry, rows: seq<Row>, scope: Scope, least: Role) {
    forall i | 0 <= i < |rows| :: !Holds(g, rows[i], scope, least)
  }

  /** What holds where a scope's own covering scope is reached holds at the scope. */
  lemma CoversThrough(g: Registry, held: Scope, middle: Scope, scope: Scope)
    requires Covers(g, held, middle) && Covers(g, middle, scope)
    ensures Covers(g, held, scope)
  {
  }

  lemma NobodyActs(g: Registry, rows: seq<Row>, scope: Scope, least: Role, user: Id, at: Scope)
    requires Nobody(g, rows, scope, least) && Covers(g, at, scope)
    ensures Authority(g, rows, user, at) < Rank(least) + 1
  {
    AuthorityExactly(g, rows, user, at, least);
    forall i | 0 <= i < |rows| ensures !Holds(g, rows[i], at, least) {
      if Covers(g, rows[i].scope, at) { CoversThrough(g, rows[i].scope, at, scope); }
    }
  }

  /** Where nobody is an owner, no step without the shortcut makes one. */
  lemma StepNoOwner(g: Registry, rows: seq<Row>, c: Command, scope: Scope)
    requires !c.actor.hubAdmin && Nobody(g, rows, scope, Owner)
    ensures Nobody(g, Step(g, rows, c), scope, Owner)
  {
    hide Step, Authority;
    StepShape(g, rows, c);
    ChangedByAuthority(g, rows, c);
    var after, found := Step(g, rows, c), Find(rows, c.user, c.scope);
    if Covers(g, c.scope, scope) { NobodyActs(g, rows, scope, Owner, c.actor.id, c.scope); }
    if |after| > |rows| {
      FindAppended(rows, after[|rows|], c.user, c.scope);
    } else if after != rows {
      FindUpdated(rows, found.value, after[found.value], c.user, c.scope);
    }
  }

  ghost predicate NoShortcut(commands: seq<Command>) {
    forall i | 0 <= i < |commands| :: !commands[i].actor.hubAdmin
  }

  /** Ownership of a scope never arises from nothing, over any run without the shortcut. */
  lemma {:induction false} RunNoOwner(g: Registry, rows: seq<Row>, commands: seq<Command>, scope: Scope)
    requires NoShortcut(commands) && Nobody(g, rows, scope, Owner)
    ensures Nobody(g, Run(g, rows, commands), scope, Owner)
    decreases |commands|
  {
    hide Step;
    if commands != [] {
      StepNoOwner(g, rows, commands[0], scope);
      RunNoOwner(g, Step(g, rows, commands[0]), commands[1..], scope);
    }
  }

  /** Where nobody administers, no step without the shortcut changes any membership that holds there. */
  lemma StepFrozen(g: Registry, rows: seq<Row>, c: Command, scope: Scope, user: Id, at: Scope)
    requires !c.actor.hubAdmin && Nobody(g, rows, scope, Admin) && Covers(g, at, scope)
    ensures RowAt(Step(g, rows, c), user, at) == RowAt(rows, user, at)
  {
    hide Step, Authority, RowAt;
    StepRow(g, rows, c, user, at);
    ChangedByAuthority(g, rows, c);
    NobodyActs(g, rows, scope, Admin, c.actor.id, at);
  }

  lemma StepNoAdmin(g: Registry, rows: seq<Row>, c: Command, scope: Scope)
    requires !c.actor.hubAdmin && Nobody(g, rows, scope, Admin)
    ensures Nobody(g, Step(g, rows, c), scope, Admin)
  {
    hide Step, Authority;
    StepShape(g, rows, c);
    ChangedByAuthority(g, rows, c);
    var after, found := Step(g, rows, c), Find(rows, c.user, c.scope);
    if Covers(g, c.scope, scope) { NobodyActs(g, rows, scope, Admin, c.actor.id, c.scope); }
    if |after| > |rows| {
      FindAppended(rows, after[|rows|], c.user, c.scope);
    } else if after != rows {
      FindUpdated(rows, found.value, after[found.value], c.user, c.scope);
    }
  }

  /** A scope without an administrator is frozen: no run without the shortcut changes who holds anything there. */
  lemma {:induction false} RunFrozen(g: Registry, rows: seq<Row>, commands: seq<Command>, scope: Scope, user: Id,
                                     at: Scope)
    requires NoShortcut(commands) && Nobody(g, rows, scope, Admin) && Covers(g, at, scope)
    ensures RowAt(Run(g, rows, commands), user, at) == RowAt(rows, user, at)
    decreases |commands|
  {
    hide Step, RowAt;
    if commands != [] {
      StepFrozen(g, rows, commands[0], scope, user, at);
      StepNoAdmin(g, rows, commands[0], scope);
      RunFrozen(g, Step(g, rows, commands[0]), commands[1..], scope, user, at);
    }
  }

  // ---------------------------------------------------------------- what an accepted command leaves

  /** May this actor move a membership of this role at a scope: hand it out, change it or take it away? */
  ghost predicate MayMove(g: Registry, rows: seq<Row>, actor: Actor, scope: Scope, role: Role) {
    || actor.hubAdmin
    || exists i :: 0 <= i < |rows| && Moves(g, rows[i], actor.id, scope, role)
  }

  /**
   An active row of the actor at the scope or its organization: an owner's for ownership, an administrator's or
   owner's otherwise.
   */
  predicate Moves(g: Registry, r: Row, actor: Id, scope: Scope, role: Role) {
    && r.user == actor && r.active
    && (r.scope == scope
        || (scope.Company? && scope.id in g.organizationOf && r.scope == Organization(g.organizationOf[scope.id])))
    && (r.role == Owner || (r.role == Admin && role != Owner))
  }

  lemma MayMoveExactly(g: Registry, rows: seq<Row>, actor: Actor, scope: Scope, role: Role)
    ensures Administers(g, rows, actor, scope, Floor(role)) <==> MayMove(g, rows, actor, scope, role)
  {
    hide Authority;
    AuthorityExactly(g, rows, actor.id, scope, Floor(role));
    assert forall i | 0 <= i < |rows| ::
        Moves(g, rows[i], actor.id, scope, role) <==> rows[i].user == actor.id && Holds(g, rows[i], scope, Floor(role));
  }

  predicate VersionFits(rows: seq<Row>, c: Command) {
    c.expected.None? || c.expected.value == VersionAt(rows, c.user, c.scope)
  }

  /**
   A grant is accepted exactly from a human who may move both the role and the active one it replaces, at the
   version read.
   */
  lemma GrantAcceptedExactly(g: Registry, rows: seq<Row>, c: Command)
    requires c.Grant?
    ensures var was := RowAt(rows, c.user, c.scope);
      Attempt(g, rows, c).Ok? <==>
        && c.actor.human && c.user in g.people && VersionFits(rows, c)
        && MayMove(g, rows, c.actor, c.scope, c.role)
        && (was.Some? && was.value.active ==> MayMove(g, rows, c.actor, c.scope, was.value.role))
  {
    hide Administers, MayMove;
    MayMoveExactly(g, rows, c.actor, c.scope, c.role);
    var was := RowAt(rows, c.user, c.scope);
    if was.Some? { MayMoveExactly(g, rows, c.actor, c.scope, was.value.role); }
  }

  /** A revocation is accepted exactly from a human who may move the stored role, active or not, at the version read. */
  lemma RevokeAcceptedExactly(g: Registry, rows: seq<Row>, c: Command)
    requires c.Revoke?
    ensures var was := RowAt(rows, c.user, c.scope);
      Attempt(g, rows, c).Ok? <==>
        && c.actor.human && c.user in g.people && VersionFits(rows, c)
        && was.Some? && MayMove(g, rows, c.actor, c.scope, was.value.role)
  {
    hide Administers;
    MayMoveExactly(g, rows, c.actor, c.scope, Readonly);
    var was := RowAt(rows, c.user, c.scope);
    if was.Some? {
      MayMoveExactly(g, rows, c.actor, c.scope, was.value.role);
      OwnersAdminister(g, rows, c.actor, c.scope, was.value.role);
    }
  }

  lemma OwnersAdminister(g: Registry, rows: seq<Row>, actor: Actor, scope: Scope, role: Role)
    ensures MayMove(g, rows, actor, scope, role) ==> MayMove(g, rows, actor, scope, Readonly)
  {
    if i :| 0 <= i < |rows| && Moves(g, rows[i], actor.id, scope, role) {
      assert Moves(g, rows[i], actor.id, scope, Readonly);
    }
  }

  /** What is refused first is answered: an agent, missing authority, an unknown person, a missing row, the version. */
  lemma RefusedInOrder(g: Registry, rows: seq<Row>, c: Command)
    requires Attempt(g, rows, c).Err?
    ensures var was := RowAt(rows, c.user, c.scope);
      Attempt(g, rows, c).error ==
        if !c.actor.human then ActivationRequired
        else if !MayMove(g, rows, c.actor, c.scope, if c.Grant? then c.role else Readonly) then Permission
        else if c.user !in g.people then UserNotFound
        else if c.Revoke? && was.None? then RecordNotFound
        else if was.Some? && (c.Revoke? || was.value.active) && !MayMove(g, rows, c.actor, c.scope, was.value.role)
          then Permission
        else VersionConflict
    ensures Attempt(g, rows, c).error == VersionConflict ==> !VersionFits(rows, c)
  {
    hide Administers, MayMove;
    MayMoveExactly(g, rows, c.actor, c.scope, if c.Grant? then c.role else Readonly);
    var was := RowAt(rows, c.user, c.scope);
    if was.Some? { MayMoveExactly(g, rows, c.actor, c.scope, was.value.role); }
  }

  /**
   An accepted grant leaves the person an active row at the scope with exactly the role asked for, and every
   other row alone.
   */
  lemma GrantGives(g: Registry, rows: seq<Row>, c: Command, user: Id, scope: Scope)
    requires c.Grant? && Attempt(g, rows, c).Ok?
    ensures var was, now := RowAt(rows, c.user, c.scope), RowAt(Step(g, rows, c), c.user, c.scope);
      && now.Some? && now.value.user == c.user && now.value.scope == c.scope
      && now.value.active && now.value.role == c.role
      && (was.None? ==> now.value.id == c.newId && now.value.version == 1 && now.value.grantedBy == c.actor.id)
      && (was.Some? ==> now.value.id == was.value.id)
      && (was.Some? && was.value.active && was.value.role == c.role ==> now == was)
      && (was.Some? && !(was.value.active && was.value.role == c.role) ==>
          now.value.version == was.value.version + 1 && now.value.grantedBy == c.actor.id)
    ensures user != c.user || scope != c.scope ==> RowAt(Step(g, rows, c), user, scope) == RowAt(rows, user, scope)
  {
    hide Administers;
    StepRow(g, rows, c, user, scope);
    var after, found := Step(g, rows, c), Find(rows, c.user, c.scope);
    if found.None? {
      FindAppended(rows, after[|rows|], c.user, c.scope);
    } else {
      FindUpdated(rows, found.value, after[found.value], c.user, c.scope);
      assert rows[found.value := rows[found.value]] == rows;
    }
  }

  /** An accepted revocation leaves the person's row at the scope inactive, with its role, and every other row alone. */
  lemma RevokeTakes(g: Registry, rows: seq<Row>, c: Command, user: Id, scope: Scope)
    requires c.Revoke? && Attempt(g, rows, c).Ok?
    ensures var was, now := RowAt(rows, c.user, c.scope), RowAt(Step(g, rows, c), c.user, c.scope);
      && was.Some? && now.Some? && !now.value.active
      && now.value.id == was.value.id && now.value.user == c.user && now.value.scope == c.scope
      && now.value.role == was.value.role && now.value.grantedBy == was.value.grantedBy
      && now.value.version == was.value.version + if was.value.active then 1 else 0
    ensures user != c.user || scope != c.scope ==> RowAt(Step(g, rows, c), user, scope) == RowAt(rows, user, scope)
  {
    hide Administers;
    StepRow(g, rows, c, user, scope);
    var after, found := Step(g, rows, c), Find(rows, c.user, c.scope);
    FindUpdated(rows, found.value, after[found.value], c.user, c.scope);
    assert rows[found.value := rows[found.value]] == rows;
  }

  /** After a grant the person's authority at the scope is at least of the role asked for. */
  lemma GrantedAuthority(g: Registry, rows: seq<Row>, c: Command)
    requires c.Grant? && Attempt(g, rows, c).Ok?
    ensures Authority(g, Step(g, rows, c), c.user, c.scope) >= Rank(c.role) + 1
    ensures Rank(Readonly) < Rank(Standard) < Rank(Admin) < Rank(Owner)
  {
    hide Authority, Attempt, Step;
    GrantGives(g, rows, c, c.user, c.scope);
    var after := Step(g, rows, c);
    AuthorityExactly(g, after, c.user, c.scope, c.role);
    var i := Find(after, c.user, c.scope).value;
    assert after[i].user == c.user && Holds(g, after[i], c.scope, c.role);
  }

  /** A person whose row at a scope is inactive has no active row there. */
  lemma OffScope(rows: seq<Row>, user: Id, scope: Scope, i: nat)
    requires OneRow(rows) && i < |rows| && rows[i].user == user && rows[i].active
    requires RowAt(rows, user, scope).Some? && !RowAt(rows, user, scope).value.active
    ensures rows[i].scope != scope
  {
    hide Find;
  }

  /**
   After a revocation any authority the person still has there is an active row at the organization that covers
   the scope.
   */
  lemma RevokedAuthority(g: Registry, rows: seq<Row>, c: Command)
    requires OneRow(rows) && c.Revoke? && Attempt(g, rows, c).Ok?
    requires Authority(g, Step(g, rows, c), c.user, c.scope) > 0
    ensures exists i :: 0 <= i < |Step(g, rows, c)| &&
              var r := Step(g, rows, c)[i];
              r.user == c.user && r.active && c.scope.Company? && c.scope.id in g.organizationOf
              && r.scope == Organization(g.organizationOf[c.scope.id])
  {
    hide Authority, Attempt, Step;
    RevokeTakes(g, rows, c, c.user, c.scope);
    var after := Step(g, rows, c);
    StepOneRow(g, rows, c);
    AuthorityExactly(g, after, c.user, c.scope, Readonly);
    var i :| 0 <= i < |after| && after[i].user == c.user && Holds(g, after[i], c.scope, Readonly);
    OffScope(after, c.user, c.scope, i);
  }

  /** No accepted command of the run is about this person at this scope. */
  ghost predicate NoneAbout(g: Registry, rows: seq<Row>, commands: seq<Command>, user: Id, scope: Scope)
    decreases |commands|
  {
    commands == []
    || (!(Attempt(g, rows, commands[0]).Ok? && commands[0].user == user && commands[0].scope == scope)
        && NoneAbout(g, Step(g, rows, commands[0]), commands[1..], user, scope))
  }

  lemma {:induction false} UntouchedStands(g: Registry, rows: seq<Row>, commands: seq<Command>, user: Id, scope: Scope)
    requires NoneAbout(g, rows, commands, user, scope)
    ensures RowAt(Run(g, rows, commands), user, scope) == RowAt(rows, user, scope)
    decreases |commands|
  {
    hide Attempt, Find;
    if commands != [] {
      StepRow(g, rows, commands[0], user, scope);
      UntouchedStands(g, Step(g, rows, commands[0]), commands[1..], user, scope);
    }
  }

  /**
   Whatever was done before and is done to others since, a row's role and activity are those of the last command
   accepted about it.
   */
  lemma LastCommandStands(g: Registry, rows: seq<Row>, c: Command, later: seq<Command>)
    requires Attempt(g, rows, c).Ok? && NoneAbout(g, Step(g, rows, c), later, c.user, c.scope)
    ensures var was, now := RowAt(rows, c.user, c.scope), RowAt(Run(g, Step(g, rows, c), later), c.user, c.scope);
      && now.Some? && now.value.active == c.Grant?
      && now.value.role == if c.Grant? then c.role else if was.Some? then was.value.role else Readonly
  {
    hide Attempt, Step, Run;
    UntouchedStands(g, Step(g, rows, c), later, c.user, c.scope);
    if c.Grant? { GrantGives(g, rows, c, c.user, c.scope); } else { RevokeTakes(g, rows, c, c.user, c.scope); }
  }

  // ---------------------------------------------------------------- reach

  /** The rows a listing for a scope reads: its own, and the covering or covered ones. */
  predicate Reaches(g: Registry, scope: Scope, r: Row) {
    || r.scope == scope
    || (scope.Company? && scope.id in g.organizationOf && r.scope == Organization(g.organizationOf[scope.id]))
    || (scope.Organization? && r.scope.Company? && r.scope.id in g.organizationOf
      && g.organizationOf[r.scope.id] == scope.id)
  }

  /** An organization is reached by its own rows and by whatever reaches one of its companies. */
  lemma OrganizationReach(g: Registry, organization: Id, r: Row)
    requires r.scope.Company? ==> r.scope.id in g.organizationOf
    ensures Reaches(g, Organization(organization), r) <==>
      || r.scope == Organization(organization)
      || exists c :: c in g.organizationOf && g.organizationOf[c] == organization && Reaches(g, Company(c), r)
  {
    if r.scope.Company? && g.organizationOf[r.scope.id] == organization {
      assert Reaches(g, Company(r.scope.id), r);
    }
  }

  /** A company's listing names exactly those who hold a role there. */
  lemma CompanyReachIsAccess(g: Registry, rows: seq<Row>, user: Id, company: Id)
    ensures Authority(g, rows, user, Company(company)) > 0
        <==> exists i ::
          0 <= i < |rows| && rows[i].user == user && rows[i].active && Reaches(g, Company(company), rows[i])
  {
    AuthorityExactly(g, rows, user, Company(company), Readonly);
    forall i | 0 <= i < |rows|
      ensures Holds(g, rows[i], Company(company), Readonly) <==> rows[i].active && Reaches(g, Company(company), rows[i])
    {
    }
  }

  /** Whose memberships a listing may read: everyone's, or what reaches some scopes, perhaps only or also one's own. */
  datatype Audience = Audience(actor: Id, scopes: Option<seq<Scope>>, selfOnly: bool, includeOwn: bool)

  predicate InAudience(g: Registry, a: Audience, r: Row) {
    var reached := a.scopes.None? || exists i | 0 <= i < |a.scopes.value| :: Reaches(g, a.scopes.value[i], r);
    if a.selfOnly then reached && r.user == a.actor else reached || (a.includeOwn && r.user == a.actor)
  }

  /** The people a listing may name. */
  ghost predicate Visible(g: Registry, rows: seq<Row>, a: Audience, user: Id) {
    || a.scopes.None?
    || ((a.selfOnly || a.includeOwn) && user == a.actor)
    || exists i :: 0 <= i < |rows| && rows[i].user == user && rows[i].active && InAudience(g, a, rows[i])
  }

  /** The rows the membership listing shows by default: in the audience, not revoked, of an active account. */
  predicate Shown(g: Registry, a: Audience, accounts: set<Id>, r: Row) {
    InAudience(g, a, r) && r.active && r.user in accounts
  }

  /** Does the listing show any of this person's rows? */
  ghost predicate Listed(g: Registry, rows: seq<Row>, a: Audience, accounts: set<Id>, user: Id) {
    exists i :: 0 <= i < |rows| && rows[i].user == user && Shown(g, a, accounts, rows[i])
  }

  /**
   Whoever is listed may be named and has an active account; whoever may be named is listed, but for those without
   one, the caller's own name, and the names nobody restricts.
   */
  lemma VisibleAreListed(g: Registry, rows: seq<Row>, a: Audience, accounts: set<Id>, user: Id)
    ensures Listed(g, rows, a, accounts, user) ==> Visible(g, rows, a, user) && user in accounts
    ensures Visible(g, rows, a, user) ==>
      || Listed(g, rows, a, accounts, user) || user !in accounts || a.scopes.None?
      || ((a.selfOnly || a.includeOwn) && user == a.actor)
  {
    hide InAudience;
    if i :| 0 <= i < |rows| && rows[i].user == user && rows[i].active && InAudience(g, a, rows[i]) {
      assert user in accounts ==> Shown(g, a, accounts, rows[i]);
    }
  }

  /** The scopes of a user's active administering rows; a company no longer registered names nothing. */
  function Administered(g: Registry, rows: seq<Row>, user: Id): seq<Scope> {
    if rows == [] then []
    else
      var r := rows[|rows| - 1];
      Administered(g, rows[..|rows| - 1], user)
      + if r.user == user && r.active && Rank(r.role) >= Rank(Admin)
        && (r.scope.Company? ==> r.scope.id in g.organizationOf)
        then [r.scope] else []
  }

  /** The audience of a listing, decided before anyone is looked up: of a scope named, or of everything. */
  function AudienceFor(g: Registry, rows: seq<Row>, a: Actor, asked: Option<Scope>): Audience {
    if asked.Some? then Audience(a.id, Some([asked.value]), !Administers(g, rows, a, asked.value, Admin), false)
    else if a.hubAdmin then Audience(a.id, None, false, false)
    else Audience(a.id, Some(Administered(g, rows, a.id)), false, true)
  }

  /** An active row that makes its holder an administrator or owner of its scope, if that is still registered. */
  ghost predicate AdministersBy(g: Registry, r: Row, user: Id) {
    && r.user == user && r.active && (r.role == Admin || r.role == Owner)
    && (r.scope.Company? ==> r.scope.id in g.organizationOf)
  }

  /**
   What a caller may be shown: of a scope named, the rows at it and those it covers or that cover it, everyone's to
   whoever administers it and one's own to anyone else; of everything, one's own rows, and those around each scope one
   administers.
   */
  ghost predicate MayRead(g: Registry, rows: seq<Row>, a: Actor, asked: Option<Scope>, r: Row) {
    match asked
    case Some(s) =>
      (Covers(g, r.scope, s) || Covers(g, s, r.scope)) && (r.user == a.id || MayMove(g, rows, a, s, Admin))
    case None =>
      || a.hubAdmin || r.user == a.id
      || exists i | 0 <= i < |rows| ::
           AdministersBy(g, rows[i], a.id) && (Covers(g, r.scope, rows[i].scope) || Covers(g, rows[i].scope, r.scope))
  }

  lemma {:induction false} AdministeredExactly(g: Registry, rows: seq<Row>, user: Id, s: Scope)
    ensures s in Administered(g, rows, user) <==>
      exists i | 0 <= i < |rows| :: AdministersBy(g, rows[i], user) && rows[i].scope == s
  {
    if rows != [] {
      var front := rows[..|rows| - 1];
      AdministeredExactly(g, front, user, s);
      if i :| 0 <= i < |rows| && AdministersBy(g, rows[i], user) && rows[i].scope == s && i < |front| {
        assert rows[i] == front[i];
      }
    }
  }

  /** A listing shows exactly the active rows of active accounts that its caller may be shown. */
  lemma ShownExactly(g: Registry, rows: seq<Row>, a: Actor, asked: Option<Scope>, accounts: set<Id>, r: Row)
    ensures Shown(g, AudienceFor(g, rows, a, asked), accounts, r) <==>
      r.active && r.user in accounts && MayRead(g, rows, a, asked, r)
  {
    hide Administers, MayMove, Administered, AdministersBy;
    forall s ensures Reaches(g, s, r) <==> Covers(g, r.scope, s) || Covers(g, s, r.scope) {}
    if asked.Some? {
      MayMoveExactly(g, rows, a, asked.value, Admin);
      assert [asked.value][0] == asked.value;
    } else {
      forall s ensures s in Administered(g, rows, a.id) <==>
                       exists i | 0 <= i < |rows| :: AdministersBy(g, rows[i], a.id) && rows[i].scope == s
      {
        AdministeredExactly(g, rows, a.id, s);
      }
      var scopes := Administered(g, rows, a.id);
      if k :| 0 <= k < |rows| && AdministersBy(g, rows[k], a.id) && Reaches(g, rows[k].scope, r) {
        assert rows[k].scope in scopes;
        var i :| 0 <= i < |scopes| && scopes[i] == rows[k].scope;
        assert Reaches(g, scopes[i], r);
      }
      if i :| 0 <= i < |scopes| && Reaches(g, scopes[i], r) {
        assert scopes[i] in scopes;
        var k :| 0 <= k < |rows| && AdministersBy(g, rows[k], a.id) && rows[k].scope == scopes[i];
        assert Reaches(g, rows[k].scope, r);
      }
    }
  }

  // ---------------------------------------------------------------- the table in place

  class MembershipTable {
    const registry: Registry
    var rows: seq<Row>

    constructor (registry: Registry)
      ensures this.registry == registry && rows == [] && OneRow(rows)
    {
      this.registry, rows := registry, [];
    }

    method Lookup(user: Id, scope: Scope) returns (found: Option<nat>)
      ensures found == Find(rows, user, scope)
    {
      var i := 0;
      assert rows[0..] == rows;
      while i < |rows|
        invariant 0 <= i <= |rows|
        invariant Find(rows, user, scope) ==
          var rest := Find(rows[i..], user, scope); if rest.Some? then Some(rest.value + i) else None
      {
        if Keyed(rows[i], user, scope) { return Some(i); }
        assert rows[i..][1..] == rows[i + 1..];
        i := i + 1;
      }
      return None;
    }

    method BestRank(user: Id, scope: Scope) returns (best: nat)
      ensures best == Authority(registry, rows, user, scope)
    {
      best := 0;
      for i := 0 to |rows|
        invariant best == Authority(registry, rows[..i], user, scope)
      {
        assert rows[..i + 1][..i] == rows[..i];
        var r := rows[i];
        if r.user == user && r.active && Covers(registry, r.scope, scope) && Rank(r.role) + 1 > best {
          best := Rank(r.role) + 1;
        }
      }
      assert rows[..|rows|] == rows;
    }

    method Authorized(actor: Actor, scope: Scope, required: Role) returns (ok: bool)
      ensures ok <==> Administers(registry, rows, actor, scope, required)
    {
      var best := BestRank(actor.id, scope);
      return actor.hubAdmin || best >= Rank(required) + 1;
    }

    method GrantAccess(actor: Actor, user: Id, scope: Scope, role: Role, expected: Option<nat>, newId: Id)
      returns (refused: Option<Refusal>)
      modifies this`rows
      ensures var c := Grant(actor, user, scope, role, expected, newId);
        var r := Attempt(registry, old(rows), c);
        rows == Step(registry, old(rows), c) && refused == if r.Err? then Some(r.error) else None
    {
      hide Administers, Find;
      if !actor.human { return Some(ActivationRequired); }
      var may := Authorized(actor, scope, Floor(role));
      if !may { return Some(Permission); }
      if user !in registry.people { return Some(UserNotFound); }
      var found := Lookup(user, scope);
      if found.Some? && rows[found.value].active {
        may := Authorized(actor, scope, Floor(rows[found.value].role));
        if !may { return Some(Permission); }
      }
      var version := if found.Some? then rows[found.value].version else 0;
      if expected.Some? && expected.value != version { return Some(VersionConflict); }
      if found.None? {
        rows := rows + [Row(newId, user, scope, role, true, 1, actor.id)];
      } else {
        var r := rows[found.value];
        if r.role != role || !r.active {
          rows := rows[found.value := r.(role := role, active := true, version := r.version + 1,
                                         grantedBy := actor.id)];
        }
      }
      return None;
    }

    method RevokeAccess(actor: Actor, user: Id, scope: Scope, expected: Option<nat>) returns (refused: Option<Refusal>)
      modifies this`rows
      ensures var c := Revoke(actor, user, scope, expected);
        var r := Attempt(registry, old(rows), c);
        rows == Step(registry, old(rows), c) && refused == if r.Err? then Some(r.error) else None
    {
      hide Administers, Find;
      if !actor.human { return Some(ActivationRequired); }
      var may := Authorized(actor, scope, Admin);
      if !may { return Some(Permission); }
      if user !in registry.people { return Some(UserNotFound); }
      var found := Lookup(user, scope);
      if found.None? { return Some(RecordNotFound); }
      var r := rows[found.value];
      may := Authorized(actor, scope, Floor(r.role));
      if !may { return Some(Permission); }
      if expected.Some? && expected.value != r.version { return Some(VersionConflict); }
      if r.active { rows := rows[found.value := r.(active := false, version := r.version + 1)]; }
      return None;
    }
  }
}
