/**
  Roles, users and the one rule over both: nobody hands out, or takes away, a permission they
  do not hold themselves.

  `catalog` is the set of permission keys the code knows. A key stored in a role but gone from
  the catalog grants nothing.
 */
module Roles {
  import opened Collections
  import opened Wrappers

  type RoleId = nat
  type UserId = nat
  type Key = string

  datatype Role = Role(key: string, name: string, description: Option<string>, permissions: set<Key>, isSystem: bool)
  datatype Status = Active | Invited | Disabled
  /** `email` is the address as the database compares it, in lower case. */
  datatype User = User(email: string, name: string, status: Status, deleted: bool, roles: set<RoleId>)
  datatype Tables = Tables(roles: map<RoleId, Role>, users: map<UserId, User>)

  datatype Error = NotFound | BadRequest | Conflict | Forbidden(keys: set<Key>)

  /** `loadRolePermissions`. */
  function Grants(catalog: set<Key>, t: Tables, r: RoleId): set<Key> {
    if r in t.roles then t.roles[r].permissions * catalog else {}
  }

  /** `loadAccess`: what a user may do, through all their roles. */
  function Effective(catalog: set<Key>, t: Tables, u: UserId): set<Key> {
    if u in t.users then set r, p | r in t.users[u].roles && p in Grants(catalog, t, r) :: p else {}
  }

  /** Every assignment names a role that exists, as the foreign key demands. */
  ghost predicate Linked(t: Tables) {
    forall u, r :: u in t.users && r in t.users[u].roles ==> r in t.roles
  }

  function Checked(excess: set<Key>): Result<(), Error> {
    if excess == {} then Ok(()) else Err(Forbidden(excess))
  }

  /** `assertRolesGrantable`: the first role of the list that fails decides the answer. */
  function RolesGrantable(catalog: set<Key>, t: Tables, mine: set<Key>, roles: seq<RoleId>): Result<(), Error>
    decreases |roles|
  {
    if roles == [] then Ok(())
    else if roles[0] !in t.roles then Err(BadRequest)
    else if Grants(catalog, t, roles[0]) <= mine then RolesGrantable(catalog, t, mine, roles[1..])
    else Checked(Grants(catalog, t, roles[0]) - mine)
  }

  function RoleEdit(catalog: set<Key>, t: Tables, mine: set<Key>, r: RoleId, wanted: set<Key>): Result<(), Error> {
    if !(wanted <= mine) then Checked(wanted - mine)
    else Checked(Grants(catalog, t, r) - wanted - mine)
  }

  predicate EmailTaken(t: Tables, email: string) {
    exists u | u in t.users :: t.users[u].email == email
  }

  predicate IsUsed(t: Tables, r: RoleId) {
    exists u | u in t.users :: r in t.users[u].roles
  }

  predicate Findable(t: Tables, u: UserId) {
    u in t.users && !t.users[u].deleted
  }

  // --- Role keys -----------------------------------------------------------------------------

  const MAX_SUFFIX := 50

  predicate KeyTaken(t: Tables, key: string) {
    exists r | r in t.roles :: t.roles[r].key == key
  }

  function Decimal(n: nat): string
    requires n < 100
  {
    (if n >= 10 then ['0' + (n / 10) as char] else []) + ['0' + (n % 10) as char]
  }

  /** The key itself, then the key with a number behind it, from 2 on. */
  function Candidate(base: string, n: nat): string
    requires 1 <= n <= MAX_SUFFIX
  {
    if n == 1 then base else base + "-" + Decimal(n)
  }

  /** `uniqueKey`, from the `n`th candidate on. */
  function FreeKey(t: Tables, base: string, n: nat): Result<string, Error>
    requires 1 <= n <= MAX_SUFFIX + 1
    decreases MAX_SUFFIX + 1 - n
  {
    if n > MAX_SUFFIX then Err(Conflict)
    else if !KeyTaken(t, Candidate(base, n)) then Ok(Candidate(base, n))
    else FreeKey(t, base, n + 1)
  }

  /** The key found is nobody's, and it is refused only when all fifty candidates are taken. */
  lemma {:induction false} FreeKeyIsFree(t: Tables, base: string, n: nat)
    requires 1 <= n <= MAX_SUFFIX + 1
    ensures FreeKey(t, base, n).Ok? ==> !KeyTaken(t, FreeKey(t, base, n).value)
    ensures FreeKey(t, base, n).Err? <==> forall m | n <= m <= MAX_SUFFIX :: KeyTaken(t, Candidate(base, m))
    decreases MAX_SUFFIX + 1 - n
  {
    if n <= MAX_SUFFIX && KeyTaken(t, Candidate(base, n)) {
      FreeKeyIsFree(t, base, n + 1);
    }
  }

  /** It is the first candidate that no role has. */
  lemma {:induction false} FirstFreeKey(t: Tables, base: string, n: nat, m: nat)
    requires 1 <= n <= m <= MAX_SUFFIX && forall k | n <= k < m :: KeyTaken(t, Candidate(base, k))
    requires forall r <- t.roles :: t.roles[r].key != Candidate(base, m)
    ensures FreeKey(t, base, n) == Ok(Candidate(base, m))
    decreases m - n
  {
    if n < m {
      FirstFreeKey(t, base, n + 1, m);
    }
  }

  lemma CandidateExamples()
    ensures Candidate("editor", 1) == "editor" && Candidate("editor", 2) == "editor-2"
    ensures Candidate("editor", 9) == "editor-9" && Candidate("editor", 10) == "editor-10"
    ensures Candidate("editor", MAX_SUFFIX) == "editor-50"
  {
    assert Decimal(2) == "2" && Decimal(9) == "9" && Decimal(10) == "10" && Decimal(50) == "50";
  }

  /** No two roles share a key. */
  ghost predicate KeysUnique(t: Tables) {
    forall r, q :: r in t.roles && q in t.roles && t.roles[r].key == t.roles[q].key ==> r == q
  }

  // --- One request, as a function of the tables ----------------------------------------------

  /** What a role's edit names; what it does not name stays. */
  datatype RoleChanges = RoleChanges(
    name: Option<string>,
    description: Option<Option<string>>,
    permissions: Option<seq<Key>>)

  datatype Op =
    | CreateRole(role: RoleId, base: string, name: string, description: Option<string>, wanted: seq<Key>)
    | UpdateRole(role: RoleId, changes: RoleChanges)
    | DeleteRole(role: RoleId)
    | AddUser(user: UserId, email: string, name: string, status: Status, roles: seq<RoleId>)
    | UpdateUser(user: UserId, rename: Option<string>, reassign: Option<seq<RoleId>>)
    | ResetPassword(user: UserId)
    /** `revealed`: whether the caller is shown the new token. */
    | ResendInvite(user: UserId, revealed: bool)
    | SetStatus(user: UserId, enabled: bool)
    | DeleteUser(user: UserId)
    | RestoreUser(user: UserId)

  function DoCreateRole(
    t: Tables, mine: set<Key>, r: RoleId, base: string, name: string, description: Option<string>, wanted: seq<Key>):
    Result<Tables, Error>
  {
    match Checked(Members(wanted) - mine)
    case Err(e) => Err(e)
    case Ok(_) =>
      match FreeKey(t, base, 1)
      case Err(e) => Err(e)
      case Ok(key) => Ok(t.(roles := t.roles[r := Role(key, name, description, Members(wanted), false)]))
  }

  function Changed(role: Role, changes: RoleChanges): Role {
    role.(name := if changes.name.Some? then changes.name.value else role.name,
          description := if changes.description.Some? then changes.description.value else role.description,
          permissions := if changes.permissions.Some? then Members(changes.permissions.value) else role.permissions)
  }

  function DoUpdateRole(
    catalog: set<Key>, t: Tables, mine: set<Key>, r: RoleId, changes: RoleChanges): Result<Tables, Error> {
    if r !in t.roles then Err(NotFound)
    else
      var guard :=
        if changes.permissions.Some? then RoleEdit(catalog, t, mine, r, Members(changes.permissions.value)) else Ok(());
      match guard
      case Err(e) => Err(e)
      case Ok(_) => Ok(t.(roles := t.roles[r := Changed(t.roles[r], changes)]))
  }

  function DoDeleteRole(t: Tables, r: RoleId): Result<Tables, Error> {
    if r !in t.roles then Err(NotFound)
    else if t.roles[r].isSystem then Err(BadRequest)
    else if IsUsed(t, r) then Err(Conflict)
    else Ok(t.(roles := t.roles - {r}))
  }

  /** `createUser` and `inviteUser`: they differ only in how the account gets its password. */
  function DoAddUser(
    catalog: set<Key>, t: Tables, mine: set<Key>, u: UserId, email: string, name: string, status: Status,
    roles: seq<RoleId>):
    Result<Tables, Error>
  {
    match RolesGrantable(catalog, t, mine, roles)
    case Err(e) => Err(e)
    case Ok(_) =>
      if EmailTaken(t, email) then Err(Conflict)
      else Ok(t.(users := t.users[u := User(email, name, status, false, Members(roles))]))
  }

  function Renamed(user: User, rename: Option<string>, reassign: Option<seq<RoleId>>): User {
    user.(name := if rename.Some? then rename.value else user.name,
          roles := if reassign.Some? then Members(reassign.value) else user.roles)
  }

  function DoUpdateUser(
    catalog: set<Key>, t: Tables, mine: set<Key>, u: UserId, rename: Option<string>, reassign: Option<seq<RoleId>>):
    Result<Tables, Error>
  {
    if !Findable(t, u) then Err(NotFound)
    else
      match if reassign.Some? then RolesGrantable(catalog, t, mine, reassign.value) else Ok(())
      case Err(e) => Err(e)
      case Ok(_) => Ok(t.(users := t.users[u := Renamed(t.users[u], rename, reassign)]))
  }

  /** `triggerPasswordReset`, as far as these tables go. */
  function DoResetPassword(catalog: set<Key>, t: Tables, mine: set<Key>, u: UserId): Result<Tables, Error> {
    if !Findable(t, u) then Err(NotFound)
    else if t.users[u].status != Active then Err(BadRequest)
    else
      match Checked(Effective(catalog, t, u) - mine)
      case Err(e) => Err(e)
      case Ok(_) => Ok(t)
  }

  /** `resendInvite`, as far as these tables go. It compares no permissions. */
  function DoResendInvite(t: Tables, u: UserId): Result<Tables, Error> {
    if !Findable(t, u) then Err(NotFound)
    else if t.users[u].status != Invited then Err(BadRequest)
    else Ok(t)
  }

  function DoSetStatus(t: Tables, actor: UserId, u: UserId, enabled: bool): Result<Tables, Error> {
    if !Findable(t, u) then Err(NotFound)
    else if u == actor then Err(BadRequest)
    else if enabled && t.users[u].status == Invited then Err(BadRequest)
    else Ok(t.(users := t.users[u := t.users[u].(status := if enabled then Active else Disabled)]))
  }

  function DoDelete(t: Tables, actor: UserId, u: UserId): Result<Tables, Error> {
    if u !in t.users then Err(NotFound)
    else if u == actor then Err(BadRequest)
    else Ok(t.(users := t.users[u := t.users[u].(deleted := true)]))
  }

  function DoRestore(t: Tables, u: UserId): Result<Tables, Error> {
    if u !in t.users then Err(NotFound)
    else Ok(t.(users := t.users[u := t.users[u].(deleted := false)]))
  }

  function Apply(catalog: set<Key>, t: Tables, actor: UserId, op: Op): Result<Tables, Error> {
    var mine := Effective(catalog, t, actor);
    match op
    case CreateRole(r, base, name, description, wanted) => DoCreateRole(t, mine, r, base, name, description, wanted)
    case UpdateRole(r, changes) => DoUpdateRole(catalog, t, mine, r, changes)
    case DeleteRole(r) => DoDeleteRole(t, r)
    case AddUser(u, email, name, status, roles) => DoAddUser(catalog, t, mine, u, email, name, status, roles)
    case UpdateUser(u, rename, reassign) => DoUpdateUser(catalog, t, mine, u, rename, reassign)
    case ResetPassword(u) => DoResetPassword(catalog, t, mine, u)
    case ResendInvite(u, _) => DoResendInvite(t, u)
    case SetStatus(u, enabled) => DoSetStatus(t, actor, u, enabled)
    case DeleteUser(u) => DoDelete(t, actor, u)
    case RestoreUser(u) => DoRestore(t, u)
  }

  /** New rows get new ids. */
  predicate NewIds(t: Tables, op: Op) {
    match op
    case CreateRole(r, _, _, _, _) => r !in t.roles
    case AddUser(u, _, _, _, _) => u !in t.users
    case _ => true
  }

  // --- What the guards accept ----------------------------------------------------------------

  lemma {:induction false} RolesGrantableIff(catalog: set<Key>, t: Tables, mine: set<Key>, roles: seq<RoleId>)
    ensures RolesGrantable(catalog, t, mine, roles).Ok?
      <==> forall r <- roles :: r in t.roles && Grants(catalog, t, r) <= mine
    decreases |roles|
  {
    if roles == [] {
    } else {
      RolesGrantableIff(catalog, t, mine, roles[1..]);
      NoExcess(Grants(catalog, t, roles[0]), mine);
      assert forall r :: r in roles <==> r == roles[0] || r in roles[1..];
    }
  }

  lemma NoExcess(a: set<Key>, b: set<Key>)
    ensures Checked(a - b).Ok? <==> a <= b
  {
    if k :| k in a && k !in b { assert k in a - b; }
  }

  ghost predicate CanEdit(catalog: set<Key>, t: Tables, actor: UserId, r: RoleId) {
    exists changes: RoleChanges :: changes.permissions.Some? && Apply(catalog, t, actor, UpdateRole(r, changes)).Ok?
  }

  /** An edit is accepted exactly when the old and the new set both lie within the caller's. */
  lemma RoleEditAcceptedIff(catalog: set<Key>, t: Tables, actor: UserId, r: RoleId, changes: RoleChanges)
    requires changes.permissions.Some?
    ensures Apply(catalog, t, actor, UpdateRole(r, changes)).Ok?
      <==> r in t.roles && Grants(catalog, t, r) + Members(changes.permissions.value) <= Effective(catalog, t, actor)
  {
    var wanted := changes.permissions.value;
    var mine := Effective(catalog, t, actor);
    var held := Grants(catalog, t, r);
    NoExcess(Members(wanted), mine);
    NoExcess(held - Members(wanted), mine);
    assert Members(wanted) <= mine ==> (held - Members(wanted) <= mine <==> held <= mine);
  }

  /** The console's half of the guard. */
  function BeyondReach(held: seq<Key>, granted: seq<Key>): seq<Key> {
    if held == [] then []
    else (if held[0] in granted then [] else [held[0]]) + BeyondReach(held[1..], granted)
  }

  lemma {:induction false} BeyondReachEmptyIff(held: seq<Key>, granted: seq<Key>)
    ensures BeyondReach(held, granted) == [] <==> Members(held) <= Members(granted)
    decreases |held|
  {
    if held == [] {
    } else {
      BeyondReachEmptyIff(held[1..], granted);
      assert Members(held) == {held[0]} + Members(held[1..]);
    }
  }

  /** The console unlocks a role's ticks exactly when the server would accept some save. */
  lemma ConsoleAgreesWithServer(
    catalog: set<Key>, t: Tables, actor: UserId, r: RoleId, held: seq<Key>, granted: seq<Key>)
    requires r in t.roles
    requires Members(held) == Grants(catalog, t, r) && Members(granted) == Effective(catalog, t, actor)
    ensures BeyondReach(held, granted) == [] <==> CanEdit(catalog, t, actor, r)
  {
    BeyondReachEmptyIff(held, granted);
    if Members(held) <= Members(granted) {
      RoleEditAcceptedIff(catalog, t, actor, r, RoleChanges(None, None, Some(held)));
    }
    if changes: RoleChanges :| changes.permissions.Some? && Apply(catalog, t, actor, UpdateRole(r, changes)).Ok? {
      RoleEditAcceptedIff(catalog, t, actor, r, changes);
    }
  }

  // --- One step ------------------------------------------------------------------------------

  lemma AddUserIsBounded(catalog: set<Key>, t: Tables, mine: set<Key>, u: UserId, roles: seq<RoleId>, row: User)
    requires RolesGrantable(catalog, t, mine, roles).Ok? && row.roles == Members(roles) && Linked(t)
    ensures Linked(t.(users := t.users[u := row]))
    ensures Effective(catalog, t.(users := t.users[u := row]), u) <= mine
  {
    RolesGrantableIff(catalog, t, mine, roles);
    var t' := t.(users := t.users[u := row]);
    forall p | p in Effective(catalog, t', u)
      ensures p in mine
    {
      var r :| r in row.roles && p in Grants(catalog, t', r);
      assert r in roles && Grants(catalog, t, r) == Grants(catalog, t', r);
    }
  }

  lemma SameRowsSameRights(catalog: set<Key>, t: Tables, t': Tables, u: UserId)
    requires u in t.users && u in t'.users && t.users[u].roles == t'.users[u].roles && t.roles == t'.roles
    ensures Effective(catalog, t, u) == Effective(catalog, t', u)
  {
    assert forall r :: Grants(catalog, t, r) == Grants(catalog, t', r);
  }

  /** Changing one role adds to a user's permissions at most what the role gained. */
  lemma RoleChangeIsBounded(catalog: set<Key>, t: Tables, t': Tables, mine: set<Key>, u: UserId)
    requires t.users == t'.users
    requires forall r | r in t.roles :: Grants(catalog, t', r) <= Grants(catalog, t, r) + mine
    requires Linked(t)
    ensures Effective(catalog, t', u) <= Effective(catalog, t, u) + mine
  {
    forall p | p in Effective(catalog, t', u)
      ensures p in Effective(catalog, t, u) + mine
    {
      var r :| r in t'.users[u].roles && p in Grants(catalog, t', r);
      assert r in t.users[u].roles && r in t.roles;
      assert p in Grants(catalog, t, r) + mine;
    }
  }

  ghost predicate RolesOnly(op: Op) { op.CreateRole? || op.UpdateRole? || op.DeleteRole? }

  lemma RoleStepIsBounded(catalog: set<Key>, t: Tables, actor: UserId, op: Op, u: UserId)
    requires RolesOnly(op) && Linked(t) && NewIds(t, op) && Apply(catalog, t, actor, op).Ok?
    ensures Linked(Apply(catalog, t, actor, op).value)
    ensures Effective(catalog, Apply(catalog, t, actor, op).value, u) <=
      Effective(catalog, t, u) + Effective(catalog, t, actor)
  {
    var mine := Effective(catalog, t, actor);
    var t' := Apply(catalog, t, actor, op).value;
    if op.UpdateRole? && op.changes.permissions.Some? { RoleEditAcceptedIff(catalog, t, actor, op.role, op.changes); }
    assert forall r | r in t.roles :: Grants(catalog, t', r) <= Grants(catalog, t, r) + mine;
    RoleChangeIsBounded(catalog, t, t', mine, u);
  }

  lemma UserStepIsBounded(catalog: set<Key>, t: Tables, actor: UserId, op: Op, u: UserId)
    requires !RolesOnly(op) && Linked(t) && NewIds(t, op) && Apply(catalog, t, actor, op).Ok?
    ensures Linked(Apply(catalog, t, actor, op).value)
    ensures Effective(catalog, Apply(catalog, t, actor, op).value, u) <=
      Effective(catalog, t, u) + Effective(catalog, t, actor)
  {
    var mine := Effective(catalog, t, actor);
    var t' := Apply(catalog, t, actor, op).value;
    match op {
      case AddUser(v, _, _, _, roles) => AddUserIsBounded(catalog, t, mine, v, roles, t'.users[v]);
      case UpdateUser(v, _, Some(roles)) => AddUserIsBounded(catalog, t, mine, v, roles, t'.users[v]);
      case _ =>
    }
    if u in t.users && t.users[u].roles == t'.users[u].roles { SameRowsSameRights(catalog, t, t', u); }
  }

  /** Whatever one request by `actor` does, nobody ends up with more than they had and the
      actor has. */
  lemma StepGivesOnlyOwn(catalog: set<Key>, t: Tables, actor: UserId, op: Op, u: UserId)
    requires Linked(t) && NewIds(t, op) && Apply(catalog, t, actor, op).Ok?
    ensures Linked(Apply(catalog, t, actor, op).value)
    ensures Effective(catalog, Apply(catalog, t, actor, op).value, u) <=
      Effective(catalog, t, u) + Effective(catalog, t, actor)
  {
    if RolesOnly(op) {
      RoleStepIsBounded(catalog, t, actor, op, u);
    } else {
      UserStepIsBounded(catalog, t, actor, op, u);
    }
  }

  /** And no role that survives loses a permission the actor lacks. */
  lemma StepTakesOnlyOwn(catalog: set<Key>, t: Tables, actor: UserId, op: Op, r: RoleId)
    requires NewIds(t, op) && Apply(catalog, t, actor, op).Ok?
    requires r in t.roles && r in Apply(catalog, t, actor, op).value.roles
    ensures Grants(catalog, t, r) <=
      Grants(catalog, Apply(catalog, t, actor, op).value, r) + Effective(catalog, t, actor)
  {
    if op.UpdateRole? && op.changes.permissions.Some? { RoleEditAcceptedIff(catalog, t, actor, op.role, op.changes); }
  }

  // --- What a request does, on the rows themselves -------------------------------------------

  /** What a user may do is what one of their roles lists and the code still knows. */
  lemma EffectiveMeans(catalog: set<Key>, t: Tables, u: UserId, p: Key)
    ensures p in Effective(catalog, t, u) <==>
      u in t.users && p in catalog && exists r <- t.users[u].roles :: r in t.roles && p in t.roles[r].permissions
  {
    assert forall r :: p in Grants(catalog, t, r) <==> r in t.roles && p in t.roles[r].permissions && p in catalog;
  }

  /** A role that was accepted is new under a free key and holds exactly what was asked for; an
      edited one differs in what the edit names. */
  lemma AcceptedRoleEdit(catalog: set<Key>, t: Tables, actor: UserId, op: Op)
    requires RolesOnly(op) && Apply(catalog, t, actor, op).Ok?
    ensures var t' := Apply(catalog, t, actor, op).value;
      && t'.users == t.users
      && match op
         case CreateRole(r, base, name, description, wanted) =>
           && r in t'.roles && (forall q <- t.roles :: t.roles[q].key != t'.roles[r].key)
           && t'.roles == t.roles[r := Role(t'.roles[r].key, name, description, set p | p in wanted, false)]
         case UpdateRole(r, changes) =>
           && r in t.roles && t'.roles.Keys == t.roles.Keys
           && (forall q <- t.roles | q != r :: t'.roles[q] == t.roles[q])
           && t'.roles[r].key == t.roles[r].key && t'.roles[r].isSystem == t.roles[r].isSystem
           && t'.roles[r].name == (if changes.name == None then t.roles[r].name else changes.name.value)
           && (changes.description == None ==> t'.roles[r].description == t.roles[r].description)
           && (changes.description.Some? ==> t'.roles[r].description == changes.description.value)
           && (changes.permissions == None ==> t'.roles[r].permissions == t.roles[r].permissions)
           && (changes.permissions.Some? ==> t'.roles[r].permissions == set p | p in changes.permissions.value)
         case DeleteRole(r) => r in t.roles && !t.roles[r].isSystem && t'.roles == t.roles - {r}
         case _ => true
  {
    if op.CreateRole? { FreeKeyIsFree(t, op.base, 1); }
  }

  /** An accepted edit leaves an account with exactly the roles asked for, or with those it had. */
  lemma AcceptedUserEdit(catalog: set<Key>, t: Tables, actor: UserId, op: Op)
    requires !RolesOnly(op) && Apply(catalog, t, actor, op).Ok?
    ensures var t' := Apply(catalog, t, actor, op).value;
      && t'.roles == t.roles
      && match op
         case AddUser(u, email, name, status, roles) =>
           && (forall v <- t.users :: t.users[v].email != email)
           && t'.users == t.users[u := User(email, name, status, false, set r | r in roles)]
         case UpdateUser(u, rename, reassign) =>
           && u in t.users && !t.users[u].deleted && t'.users.Keys == t.users.Keys
           && (forall v <- t.users | v != u :: t'.users[v] == t.users[v])
           && t'.users[u] == t.users[u].(name := t'.users[u].name, roles := t'.users[u].roles)
           && t'.users[u].name == (if rename == None then t.users[u].name else rename.value)
           && (reassign == None ==> t'.users[u].roles == t.users[u].roles)
           && (reassign.Some? ==> t'.users[u].roles == set r | r in reassign.value)
         case SetStatus(u, enabled) =>
           && u in t.users && !t.users[u].deleted && u != actor
           && t'.users == t.users[u := t.users[u].(status := if enabled then Active else Disabled)]
         case DeleteUser(u) =>
           u in t.users && u != actor && t'.users == t.users[u := t.users[u].(deleted := true)]
         case RestoreUser(u) => u in t.users && t'.users == t.users[u := t.users[u].(deleted := false)]
         case _ => t'.users == t.users
  {
  }

  /** What accepts the other requests. `RoleEditAcceptedIff` has the edit of a role's permissions. */
  lemma AcceptedIff(catalog: set<Key>, t: Tables, actor: UserId, op: Op)
    ensures var mine, ok := Effective(catalog, t, actor), Apply(catalog, t, actor, op).Ok?;
      match op
      case CreateRole(_, base, _, _, wanted) =>
        ok <==> (forall p <- wanted :: p in mine) && exists n | 1 <= n <= MAX_SUFFIX :: !KeyTaken(t, Candidate(base, n))
      case UpdateRole(r, changes) => changes.permissions == None ==> (ok <==> r in t.roles)
      case DeleteRole(r) =>
        ok <==> r in t.roles && !t.roles[r].isSystem && forall u <- t.users :: r !in t.users[u].roles
      case AddUser(_, email, _, _, roles) =>
        var free := forall u <- t.users :: t.users[u].email != email;
        ok <==> (forall r <- roles :: r in t.roles && Grants(catalog, t, r) <= mine) && free
      case UpdateUser(u, _, reassign) =>
        var own := reassign == None || forall r <- reassign.value :: r in t.roles && Grants(catalog, t, r) <= mine;
        ok <==> u in t.users && !t.users[u].deleted && own
      case ResetPassword(u) =>
        ok <==> u in t.users && !t.users[u].deleted && t.users[u].status == Active && Effective(catalog, t, u) <= mine
      case ResendInvite(u, _) => ok <==> u in t.users && !t.users[u].deleted && t.users[u].status == Invited
      case SetStatus(u, enabled) =>
        ok <==> u in t.users && !t.users[u].deleted && u != actor && !(enabled && t.users[u].status == Invited)
      case DeleteUser(u) => ok <==> u in t.users && u != actor
      case RestoreUser(u) => ok <==> u in t.users
  {
    var mine := Effective(catalog, t, actor);
    match op {
      case CreateRole(_, base, _, _, wanted) => FreeKeyIsFree(t, base, 1); NoExcess(Members(wanted), mine);
      case AddUser(_, _, _, _, roles) => RolesGrantableIff(catalog, t, mine, roles);
      case UpdateUser(_, _, Some(roles)) => RolesGrantableIff(catalog, t, mine, roles);
      case ResetPassword(u) => NoExcess(Effective(catalog, t, u), mine);
      case _ =>
    }
  }

  /** The first role of the list that may not be handed out decides the answer. */
  lemma {:induction false} FirstOffenderDecides(
    catalog: set<Key>, t: Tables, mine: set<Key>, roles: seq<RoleId>, n: nat)
    requires n < |roles| && forall k :: 0 <= k < n ==> roles[k] in t.roles && Grants(catalog, t, roles[k]) <= mine
    requires roles[n] in t.roles ==> !(Grants(catalog, t, roles[n]) <= mine)
    ensures RolesGrantable(catalog, t, mine, roles) == Err(
      if roles[n] !in t.roles then BadRequest
      else Forbidden(set p | p in t.roles[roles[n]].permissions && p in catalog && p !in mine))
    decreases n
  {
    if n == 0 {
      NoExcess(Grants(catalog, t, roles[0]), mine);
      var excess := Grants(catalog, t, roles[0]) - mine;
      assert roles[0] in t.roles ==>
        excess == set p | p in t.roles[roles[0]].permissions && p in catalog && p !in mine;
    } else {
      FirstOffenderDecides(catalog, t, mine, roles[1..], n - 1);
    }
  }

  // --- Whole runs ----------------------------------------------------------------------------

  datatype Request = Request(actor: UserId, op: Op)

  function After(catalog: set<Key>, t: Tables, q: Request): Tables {
    match Apply(catalog, t, q.actor, q.op)
    case Ok(t') => t'
    case Err(_) => t
  }

  predicate Adopts(op: Op) { op.AddUser? || op.ResetPassword? || (op.ResendInvite? && op.revealed) }

  /** The accounts a group controls: its own, those it opens, those whose password it resets and
      those whose new invitation token it is shown. */
  function Joined(catalog: set<Key>, t: Tables, group: set<UserId>, q: Request): set<UserId> {
    if Apply(catalog, t, q.actor, q.op).Ok? && Adopts(q.op) then group + {q.op.user} else group
  }

  /** Every request is made by somebody who is in the group by then. */
  ghost predicate RunBy(catalog: set<Key>, t: Tables, group: set<UserId>, run: seq<Request>)
    decreases |run|
  {
    run != [] ==>
      && run[0].actor in group
      && NewIds(t, run[0].op)
      && RunBy(catalog, After(catalog, t, run[0]), Joined(catalog, t, group, run[0]), run[1..])
  }

  function Final(catalog: set<Key>, t: Tables, run: seq<Request>): Tables
    decreases |run|
  {
    if run == [] then t else Final(catalog, After(catalog, t, run[0]), run[1..])
  }

  function FinalGroup(catalog: set<Key>, t: Tables, group: set<UserId>, run: seq<Request>): set<UserId>
    decreases |run|
  {
    if run == [] then group
    else FinalGroup(catalog, After(catalog, t, run[0]), Joined(catalog, t, group, run[0]), run[1..])
  }

  function Reach(catalog: set<Key>, t: Tables, group: set<UserId>): set<Key> {
    set u, p | u in group && p in Effective(catalog, t, u) :: p
  }

  lemma RequestIsBounded(catalog: set<Key>, t: Tables, q: Request, u: UserId)
    requires Linked(t) && NewIds(t, q.op)
    ensures Linked(After(catalog, t, q))
    ensures Effective(catalog, After(catalog, t, q), u) <= Effective(catalog, t, u) + Effective(catalog, t, q.actor)
  {
    if Apply(catalog, t, q.actor, q.op).Ok? { StepGivesOnlyOwn(catalog, t, q.actor, q.op, u); }
  }

  /** An account that joins the group brings nothing its actor did not have. */
  lemma NewcomerIsWeaker(catalog: set<Key>, t: Tables, q: Request)
    requires Linked(t) && NewIds(t, q.op) && Apply(catalog, t, q.actor, q.op).Ok?
    requires q.op.AddUser? || q.op.ResetPassword?
    ensures Effective(catalog, After(catalog, t, q), q.op.user) <= Effective(catalog, t, q.actor)
  {
    StepGivesOnlyOwn(catalog, t, q.actor, q.op, q.op.user);
    if q.op.ResetPassword? { NoExcess(Effective(catalog, t, q.op.user), Effective(catalog, t, q.actor)); }
  }

  /** The account a request adopts, if any, is within the group's reach. The guards see to that
      for all but a re-sent invitation. */
  predicate WithinReach(catalog: set<Key>, t: Tables, group: set<UserId>, q: Request) {
    q.op.ResendInvite? && q.op.revealed && Apply(catalog, t, q.actor, q.op).Ok? ==>
      Effective(catalog, t, q.op.user) <= Reach(catalog, t, group)
  }

  lemma RequestKeepsReach(catalog: set<Key>, t: Tables, group: set<UserId>, q: Request)
    requires Linked(t) && NewIds(t, q.op) && q.actor in group && WithinReach(catalog, t, group, q)
    ensures Reach(catalog, After(catalog, t, q), Joined(catalog, t, group, q)) <= Reach(catalog, t, group)
  {
    var t' := After(catalog, t, q);
    var reach := Reach(catalog, t, group);
    assert forall v, p :: v in group && p in Effective(catalog, t, v) ==> p in reach;
    forall u, p | u in Joined(catalog, t, group, q) && p in Effective(catalog, t', u)
      ensures p in reach
    {
      RequestIsBounded(catalog, t, q, u);
      if u !in group && !q.op.ResendInvite? { NewcomerIsWeaker(catalog, t, q); }
    }
  }

  /** Sending an invitation again keeps the group's reach exactly when the caller is not shown the
      token or the invited account lies within that reach. */
  lemma ResendKeepsReachIff(catalog: set<Key>, t: Tables, group: set<UserId>, q: Request)
    requires Linked(t) && q.actor in group && q.op.ResendInvite? && Apply(catalog, t, q.actor, q.op).Ok?
    ensures Reach(catalog, After(catalog, t, q), Joined(catalog, t, group, q)) <= Reach(catalog, t, group)
      <==> (q.op.revealed ==> Effective(catalog, t, q.op.user) <= Reach(catalog, t, group))
  {
    if q.op.revealed && !(Effective(catalog, t, q.op.user) <= Reach(catalog, t, group)) {
      var p :| p in Effective(catalog, t, q.op.user) && p !in Reach(catalog, t, group);
      assert p in Reach(catalog, After(catalog, t, q), Joined(catalog, t, group, q));
    } else {
      RequestKeepsReach(catalog, t, group, q);
    }
  }

  /** The comparison a password reset makes would be enough for a re-sent invitation too. */
  lemma WeakerInviteIsWithinReach(catalog: set<Key>, t: Tables, group: set<UserId>, q: Request)
    requires q.actor in group && q.op.ResendInvite?
    requires Effective(catalog, t, q.op.user) <= Effective(catalog, t, q.actor)
    ensures WithinReach(catalog, t, group, q)
  {
    assert forall p <- Effective(catalog, t, q.actor) :: p in Reach(catalog, t, group);
  }

  predicate RunWithinReach(catalog: set<Key>, t: Tables, group: set<UserId>, run: seq<Request>)
    decreases |run|
  {
    run != [] ==>
      && WithinReach(catalog, t, group, run[0])
      && RunWithinReach(catalog, After(catalog, t, run[0]), Joined(catalog, t, group, run[0]), run[1..])
  }

  /** Over any run of a group that re-sends no invitation to an account beyond its reach, the
      group's permissions taken together never grow, and nobody else gains a permission the group
      did not have at the start. */
  lemma {:induction false} GroupNeverGrows(
    catalog: set<Key>, t: Tables, group: set<UserId>, run: seq<Request>, u: UserId)
    requires Linked(t) && RunBy(catalog, t, group, run) && RunWithinReach(catalog, t, group, run)
    ensures Linked(Final(catalog, t, run))
    ensures Reach(catalog, Final(catalog, t, run), FinalGroup(catalog, t, group, run)) <= Reach(catalog, t, group)
    ensures Effective(catalog, Final(catalog, t, run), u) <= Effective(catalog, t, u) + Reach(catalog, t, group)
    decreases |run|
  {
    if run == [] {
    } else {
      var q := run[0];
      RequestIsBounded(catalog, t, q, u);
      RequestKeepsReach(catalog, t, group, q);
      assert Effective(catalog, t, q.actor) <= Reach(catalog, t, group);
      GroupNeverGrows(catalog, After(catalog, t, q), Joined(catalog, t, group, q), run[1..], u);
    }
  }

  lemma RequestKeepsKeysUnique(catalog: set<Key>, t: Tables, q: Request)
    requires KeysUnique(t)
    ensures KeysUnique(After(catalog, t, q))
  {
    if q.op.CreateRole? { FreeKeyIsFree(t, q.op.base, 1); }
  }

  /** Whoever makes the requests, no two roles ever share a key. */
  lemma {:induction false} RoleKeysStayUnique(catalog: set<Key>, t: Tables, run: seq<Request>)
    requires KeysUnique(t)
    ensures KeysUnique(Final(catalog, t, run))
    decreases |run|
  {
    if run == [] {
    } else {
      RequestKeepsKeysUnique(catalog, t, run[0]);
      RoleKeysStayUnique(catalog, After(catalog, t, run[0]), run[1..]);
    }
  }

  predicate Reassigns(q: Request, u: UserId) {
    (q.op.AddUser? && q.op.user == u) || (q.op.UpdateUser? && q.op.user == u && q.op.reassign.Some?)
  }

  lemma {:induction false} RolesStay(catalog: set<Key>, t: Tables, run: seq<Request>, u: UserId)
    requires u in t.users && forall q <- run :: !Reassigns(q, u)
    ensures u in Final(catalog, t, run).users && Final(catalog, t, run).users[u].roles == t.users[u].roles
    decreases |run|
  {
    if run == [] {
    } else {
      var q := run[0];
      assert !Reassigns(q, u);
      if Apply(catalog, t, q.actor, q.op).Ok? {
        if RolesOnly(q.op) {
          AcceptedRoleEdit(catalog, t, q.actor, q.op);
        } else {
          AcceptedUserEdit(catalog, t, q.actor, q.op);
        }
      }
      RolesStay(catalog, After(catalog, t, q), run[1..], u);
    }
  }

  /** From an accepted reassignment on, until the next, a user may do exactly what the roles asked
      for then list, whatever they held before and whatever else is requested. */
  lemma ReassignmentDecides(
    catalog: set<Key>, t: Tables, actor: UserId, u: UserId, rename: Option<string>, roles: seq<RoleId>,
    run: seq<Request>, p: Key)
    requires Apply(catalog, t, actor, UpdateUser(u, rename, Some(roles))).Ok? && forall q <- run :: !Reassigns(q, u)
    ensures var last := Final(catalog, t, [Request(actor, UpdateUser(u, rename, Some(roles)))] + run);
      p in Effective(catalog, last, u) <==>
        p in catalog && exists r <- roles :: r in last.roles && p in last.roles[r].permissions
  {
    var q := Request(actor, UpdateUser(u, rename, Some(roles)));
    assert ([q] + run)[1..] == run;
    AcceptedUserEdit(catalog, t, actor, q.op);
    RolesStay(catalog, After(catalog, t, q), run, u);
    EffectiveMeans(catalog, Final(catalog, t, [q] + run), u, p);
  }

  /** The same for a role: what it lists is what the last accepted request about it asked for. */
  predicate Rewrites(q: Request, r: RoleId) {
    || (q.op.CreateRole? && q.op.role == r)
    || (q.op.UpdateRole? && q.op.role == r && q.op.changes.permissions.Some?)
    || (q.op.DeleteRole? && q.op.role == r)
  }

  lemma {:induction false} PermissionsStay(catalog: set<Key>, t: Tables, run: seq<Request>, r: RoleId)
    requires r in t.roles && forall q <- run :: !Rewrites(q, r)
    ensures r in Final(catalog, t, run).roles && Final(catalog, t, run).roles[r].permissions == t.roles[r].permissions
    decreases |run|
  {
    if run == [] {
    } else {
      var q := run[0];
      assert !Rewrites(q, r);
      if Apply(catalog, t, q.actor, q.op).Ok? {
        if RolesOnly(q.op) {
          AcceptedRoleEdit(catalog, t, q.actor, q.op);
        } else {
          AcceptedUserEdit(catalog, t, q.actor, q.op);
        }
      }
      PermissionsStay(catalog, After(catalog, t, q), run[1..], r);
    }
  }

  lemma RoleEditDecides(catalog: set<Key>, t: Tables, actor: UserId, op: Op, wanted: seq<Key>, run: seq<Request>)
    requires Apply(catalog, t, actor, op).Ok?
    requires (op.CreateRole? && op.wanted == wanted) || (op.UpdateRole? && op.changes.permissions == Some(wanted))
    requires forall q <- run :: !Rewrites(q, op.role)
    ensures var last := Final(catalog, t, [Request(actor, op)] + run);
      op.role in last.roles && last.roles[op.role].permissions == set p | p in wanted
  {
    assert ([Request(actor, op)] + run)[1..] == run;
    AcceptedRoleEdit(catalog, t, actor, op);
    PermissionsStay(catalog, After(catalog, t, Request(actor, op)), run, op.role);
  }

  /** No two accounts share an address, deleted ones included. */
  ghost predicate EmailsUnique(t: Tables) {
    forall u, v :: u in t.users && v in t.users && t.users[u].email == t.users[v].email ==> u == v
  }

  lemma {:induction false} EmailsStayUnique(catalog: set<Key>, t: Tables, run: seq<Request>)
    requires EmailsUnique(t)
    ensures EmailsUnique(Final(catalog, t, run))
    decreases |run|
  {
    if run == [] {
    } else {
      var q := run[0];
      if Apply(catalog, t, q.actor, q.op).Ok? {
        if RolesOnly(q.op) {
          AcceptedRoleEdit(catalog, t, q.actor, q.op);
        } else {
          AcceptedUserEdit(catalog, t, q.actor, q.op);
        }
      }
      EmailsStayUnique(catalog, After(catalog, t, q), run[1..]);
    }
  }

  lemma UnusedRoleGivesNothing(catalog: set<Key>, t: Tables, r: RoleId, u: UserId)
    requires !IsUsed(t, r)
    ensures Effective(catalog, t.(roles := t.roles - {r}), u) == Effective(catalog, t, u)
  {
    var t' := t.(roles := t.roles - {r});
    if u in t.users {
      assert r !in t.users[u].roles;
      assert forall q :: q in t.users[u].roles ==> Grants(catalog, t', q) == Grants(catalog, t, q);
    }
  }

  // --- The services --------------------------------------------------------------------------

  class Directory {
    const catalog: set<Key>
    var roles: map<RoleId, Role>
    var users: map<UserId, User>

    function Value(): Tables
      reads this
    {
      Tables(roles, users)
    }

    /** What a request must leave behind, given what `Apply` says of it. */
    ghost predicate Did(before: Tables, actor: UserId, op: Op, answer: Result<(), Error>)
      reads this
    {
      match Apply(catalog, before, actor, op)
      case Ok(after) => answer == Ok(()) && Value() == after
      case Err(e) => answer == Err(e) && Value() == before
    }

    constructor (catalog: set<Key>)
      ensures Value() == Tables(map[], map[]) && this.catalog == catalog
    {
      this.catalog := catalog;
      roles, users := map[], map[];
    }

    method AssertRolesGrantable(mine: set<Key>, wanted: seq<RoleId>) returns (answer: Result<(), Error>)
      ensures answer == RolesGrantable(catalog, Value(), mine, wanted)
    {
      for n := 0 to |wanted|
        invariant RolesGrantable(catalog, Value(), mine, wanted) == RolesGrantable(catalog, Value(), mine, wanted[n..])
      {
        assert wanted[n..][1..] == wanted[n + 1..];
        if wanted[n] !in roles { return Err(BadRequest); }
        var excess := Grants(catalog, Value(), wanted[n]) - mine;
        NoExcess(Grants(catalog, Value(), wanted[n]), mine);
        if excess != {} { return Err(Forbidden(excess)); }
      }
      return Ok(());
    }

    method UniqueKey(base: string) returns (key: Result<string, Error>)
      ensures key == FreeKey(Value(), base, 1)
    {
      if !KeyTaken(Value(), base) { return Ok(base); }
      for suffix := 2 to MAX_SUFFIX + 1
        invariant FreeKey(Value(), base, 1) == FreeKey(Value(), base, suffix)
      {
        var candidate := Candidate(base, suffix);
        if !KeyTaken(Value(), candidate) { return Ok(candidate); }
      }
      return Err(Conflict);
    }

    method CreateRole(
      actor: UserId, id: RoleId, base: string, name: string, description: Option<string>, wanted: seq<Key>)
      returns (answer: Result<(), Error>)
      requires id !in roles
      modifies this
      ensures Did(old(Value()), actor, Op.CreateRole(id, base, name, description, wanted), answer)
      ensures users == old(users) && (answer.Err? ==> roles == old(roles))
      ensures answer.Ok? ==> id in roles && forall r <- old(roles) :: old(roles)[r].key != roles[id].key
      ensures answer.Ok? ==>
        roles == old(roles)[id := Role(roles[id].key, name, description, set p | p in wanted, false)]
    {
      var mine := Effective(catalog, Value(), actor);
      var excess := Members(wanted) - mine;
      if excess != {} { return Err(Forbidden(excess)); }
      var key := UniqueKey(base);
      FreeKeyIsFree(Value(), base, 1);
      if key.Err? { return Err(key.error); }
      InsertRole(id, Role(key.value, name, description, {}, false), wanted);
      return Ok(());
    }

    method InsertRole(id: RoleId, row: Role, wanted: seq<Key>)
      requires id !in roles
      modifies this`roles
      ensures roles == old(roles)[id := row.(permissions := Members(wanted))]
    {
      roles := roles[id := row];
      ReplaceRolePermissions(id, wanted);
    }

    method ReplaceRolePermissions(id: RoleId, keys: seq<Key>)
      requires id in roles
      modifies this`roles
      ensures roles == old(roles)[id := old(roles)[id].(permissions := Members(keys))]
    {
      roles := roles[id := roles[id].(permissions := {})];
      assert Members(keys[..0]) == {};
      for n := 0 to |keys|
        invariant roles == old(roles)[id := old(roles)[id].(permissions := Members(keys[..n]))]
      {
        assert Members(keys[..n + 1]) == Members(keys[..n]) + {keys[n]};
        roles := roles[id := roles[id].(permissions := roles[id].permissions + {keys[n]})];
      }
      assert keys[..|keys|] == keys;
    }

    method UpdateRole(actor: UserId, id: RoleId, changes: RoleChanges) returns (answer: Result<(), Error>)
      modifies this
      ensures Did(old(Value()), actor, Op.UpdateRole(id, changes), answer)
      ensures users == old(users) && (answer.Err? ==> roles == old(roles))
      ensures answer.Ok? && changes.permissions.Some? ==>
        id in roles && roles[id].permissions == set p | p in changes.permissions.value
      ensures answer.Ok? && changes.permissions == None ==>
        id in old(roles) && id in roles && roles[id].permissions == old(roles)[id].permissions
    {
      if id !in roles { return Err(NotFound); }
      if changes.permissions.Some? {
        var mine := Effective(catalog, Value(), actor);
        var wanted := Members(changes.permissions.value);
        var excess := wanted - mine;
        NoExcess(wanted, mine);
        if excess != {} { return Err(Forbidden(excess)); }
        var removedBeyondReach := Grants(catalog, Value(), id) - wanted - mine;
        if removedBeyondReach != {} { return Err(Forbidden(removedBeyondReach)); }
      }
      if changes.name.Some? { roles := roles[id := roles[id].(name := changes.name.value)]; }
      if changes.description.Some? { roles := roles[id := roles[id].(description := changes.description.value)]; }
      if changes.permissions.Some? { ReplaceRolePermissions(id, changes.permissions.value); }
      assert roles == old(roles)[id := Changed(old(roles)[id], changes)];
      return Ok(());
    }

    /** Deleting a role takes nothing from anybody. */
    method DeleteRole(actor: UserId, id: RoleId) returns (answer: Result<(), Error>)
      modifies this
      ensures Did(old(Value()), actor, Op.DeleteRole(id), answer)
      ensures forall u :: Effective(catalog, Value(), u) == Effective(catalog, old(Value()), u)
    {
      if id !in roles { return Err(NotFound); }
      if roles[id].isSystem { return Err(BadRequest); }
      if IsUsed(Value(), id) { return Err(Conflict); }
      roles := roles - {id};
      forall u
        ensures Effective(catalog, Value(), u) == Effective(catalog, old(Value()), u)
      {
        UnusedRoleGivesNothing(catalog, old(Value()), id, u);
      }
      return Ok(());
    }

    /** `createUser` with `Active`, `inviteUser` with `Invited`. */
    method AddUser(actor: UserId, id: UserId, email: string, name: string, status: Status, wanted: seq<RoleId>)
      returns (answer: Result<(), Error>)
      requires id !in users
      modifies this
      ensures Did(old(Value()), actor, Op.AddUser(id, email, name, status, wanted), answer)
      ensures roles == old(roles) && (answer.Err? ==> users == old(users))
      ensures answer.Ok? ==> users == old(users)[id := User(email, name, status, false, set r | r in wanted)]
    {
      answer := AssertRolesGrantable(Effective(catalog, Value(), actor), wanted);
      if answer.Err? { return; }
      if EmailTaken(Value(), email) { return Err(Conflict); }
      users := users[id := User(email, name, status, false, {})];
      ReplaceUserRoles(id, wanted);
      return Ok(());
    }

    method ReplaceUserRoles(id: UserId, wanted: seq<RoleId>)
      requires id in users
      modifies this`users
      ensures users == old(users)[id := old(users)[id].(roles := Members(wanted))]
    {
      users := users[id := users[id].(roles := {})];
      assert Members(wanted[..0]) == {};
      for n := 0 to |wanted|
        invariant users == old(users)[id := old(users)[id].(roles := Members(wanted[..n]))]
      {
        assert Members(wanted[..n + 1]) == Members(wanted[..n]) + {wanted[n]};
        users := users[id := users[id].(roles := users[id].roles + {wanted[n]})];
      }
      assert wanted[..|wanted|] == wanted;
    }

    method UpdateUser(actor: UserId, id: UserId, rename: Option<string>, reassign: Option<seq<RoleId>>)
      returns (answer: Result<(), Error>)
      modifies this
      ensures Did(old(Value()), actor, Op.UpdateUser(id, rename, reassign), answer)
      ensures roles == old(roles) && (answer.Err? ==> users == old(users))
      // The name and the roles are those asked for, or those they were; nobody else changes.
      ensures answer.Ok? ==> id in old(users) && users.Keys == old(users).Keys
      ensures answer.Ok? ==> forall v <- users | v != id :: users[v] == old(users)[v]
      ensures answer.Ok? && reassign.Some? ==> users[id].roles == set r | r in reassign.value
      ensures answer.Ok? && reassign == None ==> users[id].roles == old(users)[id].roles
      ensures answer.Ok? ==> users[id].name == if rename.Some? then rename.value else old(users)[id].name
    {
      if !Findable(Value(), id) { return Err(NotFound); }
      if reassign.Some? {
        answer := AssertRolesGrantable(Effective(catalog, Value(), actor), reassign.value);
        if answer.Err? { return; }
      }
      if rename.Some? { users := users[id := users[id].(name := rename.value)]; }
      if reassign.Some? { ReplaceUserRoles(id, reassign.value); }
      assert users == old(users)[id := Renamed(old(users)[id], rename, reassign)];
      return Ok(());
    }

    /** A reset link is a way into the account, so it must not be the stronger one. */
    method TriggerPasswordReset(actor: UserId, id: UserId) returns (answer: Result<(), Error>)
      ensures Did(Value(), actor, ResetPassword(id), answer)
      ensures answer.Ok? <==>
        && Findable(Value(), id) && users[id].status == Active
        && Effective(catalog, Value(), id) <= Effective(catalog, Value(), actor)
    {
      if !Findable(Value(), id) { return Err(NotFound); }
      if users[id].status != Active { return Err(BadRequest); }
      NoExcess(Effective(catalog, Value(), id), Effective(catalog, Value(), actor));
      var excess := Effective(catalog, Value(), id) - Effective(catalog, Value(), actor);
      if excess != {} { return Err(Forbidden(excess)); }
      return Ok(());
    }
  }
}
