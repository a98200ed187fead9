/** Delegated user management: handlers that check an actor's permissions
    against a target and then write, with any number of requests interleaved. */
module UserManagement {
  import opened Text

  datatype Permission =
    | ManageSystem | ManageUsers | ManageConnections | ViewAuditLogs
    | CreateUsers | CreateUserGroups | CreateConnections | CreateSharingProfiles
    | ViewSessions | UseQuickShare | UseQuickShareOutbound

  type Flags = set<Permission>

  /** The caller, with the flags its role had when the request began. */
  datatype Actor = Actor(id: nat, flags: Flags)

  datatype User = User(role: nat, local: bool, deleted: bool, password: nat, jit: bool, approval: Option<bool>)

  datatype Request =
    | Restore(target: nat)
    | Delete(target: nat)
    | Update(target: nat, newRole: Option<nat>, jit: Option<bool>, approval: Option<Option<bool>>)
    | Create(user: nat, local: bool, role: nat)
    | ResetPassword(target: nat, password: nat)

  datatype Error = Forbidden | NotFound | Validation

  datatype Result = Ok | Err(error: Error)

  /** One statement against the users table. */
  datatype Write =
    | SetDeleted(target: nat, deleted: bool)
    | SetRole(target: nat, role: nat)
    | SetJit(target: nat, enabled: bool)
    | SetApproval(target: nat, approval: Option<bool>)
    | Insert(target: nat, local: bool, role: nat)
    | SetPassword(target: nat, password: nat)

  type Roles = map<nat, Flags>
  type Users = map<nat, User>

  // ── Authorisation ──────────────────────────────────────────────────

  /** `RoleRow::is_within`. */
  predicate IsWithin(role: Flags, actor: Flags) {
    ManageSystem in actor || role <= actor
  }

  function AuthoriseRoleGrant(roles: Roles, actor: Actor, role: nat): Result {
    if role !in roles then Err(NotFound)
    else if !IsWithin(roles[role], actor.flags) then Err(Forbidden)
    else Ok
  }

  function AuthoriseUserTarget(roles: Roles, users: Users, actor: Actor, target: nat): Result {
    if ManageSystem in actor.flags then Ok
    else if target == actor.id then Err(Forbidden)
    else if target !in users then Err(NotFound)
    else AuthoriseRoleGrant(roles, actor, users[target].role)
  }

  /** `check_user_management_permission`. */
  predicate MayManageUsers(flags: Flags) {
    ManageUsers in flags || ManageSystem in flags
  }

  /** The checks each handler makes before its first write. */
  function Authorise(roles: Roles, users: Users, actor: Actor, r: Request): Result {
    if !MayManageUsers(actor.flags) then Err(Forbidden)
    else match r
      case Restore(target) => AuthoriseUserTarget(roles, users, actor, target)
      case Delete(target) => AuthoriseUserTarget(roles, users, actor, target)
      case ResetPassword(target, _) =>
        var onTarget := AuthoriseUserTarget(roles, users, actor, target);
        if onTarget.Err? then onTarget
        else if target !in users || users[target].deleted then Err(NotFound)
        else if !users[target].local then Err(Validation)
        else Ok
      case Create(_, _, role) => AuthoriseRoleGrant(roles, actor, role)
      case Update(target, role, jit, approval) =>
        if role.None? && jit.None? && approval.None? then Err(Validation)
        else
          var onTarget := AuthoriseUserTarget(roles, users, actor, target);
          if onTarget.Err? then onTarget
          else if approval == Some(Some(false)) && ManageSystem !in actor.flags then Err(Forbidden)
          else if role.Some? then AuthoriseRoleGrant(roles, actor, role.value)
          else Ok
  }

  /** The writes a handler makes once authorised, in order. */
  function Writes(r: Request): seq<Write> {
    match r
    case Restore(target) => [SetDeleted(target, false)]
    case Delete(target) => [SetDeleted(target, true)]
    case ResetPassword(target, password) => [SetPassword(target, password)]
    case Create(user, local, role) => [Insert(user, local, role)]
    case Update(target, role, jit, approval) =>
      (if role.Some? then [SetRole(target, role.value)] else []) +
      (if jit.Some? then [SetJit(target, jit.value)] else []) +
      (if approval.Some? then [SetApproval(target, approval.value)] else [])
  }

  /** What an actor without the system permission may act on: an account other
      than its own whose role has no flag it lacks. */
  predicate Reaches(roles: Roles, users: Users, actor: Actor, target: nat) {
    || ManageSystem in actor.flags
    || (target != actor.id && target in users
        && users[target].role in roles && roles[users[target].role] <= actor.flags)
  }

  predicate MayGrant(roles: Roles, actor: Actor, role: nat) {
    role in roles && (ManageSystem in actor.flags || roles[role] <= actor.flags)
  }

  /** A request passes exactly when its actor manages users, reaches its target,
      may grant the role it gives, exempts nobody without the system permission,
      changes something, and resets only a live local account. */
  lemma PassesIff(roles: Roles, users: Users, actor: Actor, r: Request)
    ensures Authorise(roles, users, actor, r).Ok? <==>
              && (ManageUsers in actor.flags || ManageSystem in actor.flags)
              && (!r.Create? ==> Reaches(roles, users, actor, r.target))
              && (r.Create? ==> MayGrant(roles, actor, r.role))
              && (r.Update? && r.newRole.Some? ==> MayGrant(roles, actor, r.newRole.value))
              && (r.Update? && r.approval == Some(Some(false)) ==> ManageSystem in actor.flags)
              && (r.Update? ==> r.newRole.Some? || r.jit.Some? || r.approval.Some?)
              && (r.ResetPassword? ==> r.target in users && !users[r.target].deleted && users[r.target].local)
  {
  }

  /** What each refusal tells the caller. */
  lemma RefusalsMean(roles: Roles, users: Users, actor: Actor, r: Request)
    ensures var result := Authorise(roles, users, actor, r);
            && (result == Err(Validation) ==>
                  || (r.Update? && r.newRole.None? && r.jit.None? && r.approval.None?)
                  || (r.ResetPassword? && r.target in users && !users[r.target].local))
            && (result == Err(NotFound) ==>
                  || (!r.Create? && (r.target !in users || users[r.target].role !in roles))
                  || (r.ResetPassword? && r.target in users && users[r.target].deleted)
                  || (r.Create? && r.role !in roles)
                  || (r.Update? && r.newRole.Some? && r.newRole.value !in roles))
            && (result == Err(Forbidden) && (ManageUsers in actor.flags || ManageSystem in actor.flags) ==>
                  && ManageSystem !in actor.flags
                  && (|| (!r.Create? && r.target == actor.id)
                      || (!r.Create? && r.target in users && !(FlagsOf(roles, users, r.target) <= actor.flags))
                      || (r.Create? && r.role in roles && !(roles[r.role] <= actor.flags))
                      || (r.Update? && r.approval == Some(Some(false)))
                      || (r.Update? && r.newRole.Some? && r.newRole.value in roles
                          && !(roles[r.newRole.value] <= actor.flags))))
  {
  }

  // ── Writing ────────────────────────────────────────────────────────

  /** Some live user still administers the system. */
  predicate HasAdmin(roles: Roles, users: Users) {
    exists u :: u in users && !users[u].deleted && users[u].role in roles && ManageSystem in roles[users[u].role]
  }

  /** Whether a statement matches a row. */
  predicate Matches(users: Users, w: Write) {
    match w
    case Insert(target, _, _) => target !in users
    case SetPassword(target, _) => target in users
    case SetDeleted(target, deleted) => target in users && users[target].deleted != deleted
    case SetRole(target, _) => target in users && !users[target].deleted
    case SetJit(target, _) => target in users && !users[target].deleted
    case SetApproval(target, _) => target in users && !users[target].deleted
  }

  function Written(users: Users, w: Write): Users
    requires Matches(users, w)
  {
    match w
    case Insert(target, local, role) => users[target := User(role, local, false, 0, false, None)]
    case SetPassword(target, password) => users[target := users[target].(password := password)]
    case SetDeleted(target, deleted) => users[target := users[target].(deleted := deleted)]
    case SetRole(target, role) => users[target := users[target].(role := role)]
    case SetJit(target, enabled) => users[target := users[target].(jit := enabled)]
    case SetApproval(target, approval) => users[target := users[target].(approval := approval)]
  }

  /** Role changes and deletions are transactions that refuse to leave the
      system without an administrator. */
  predicate Guarded(w: Write) {
    w.SetRole? || (w.SetDeleted? && w.deleted)
  }

  predicate Commits(roles: Roles, users: Users, w: Write) {
    Matches(users, w) && (Guarded(w) && HasAdmin(roles, users) ==> HasAdmin(roles, Written(users, w)))
  }

  // ── Interleaved requests ───────────────────────────────────────────

  /** A request in progress: not yet checked, or with writes left to make and
      the flags its target had when it was checked. */
  datatype Pending =
    | Unchecked(actor: Actor, request: Request)
    | Checked(actor: Actor, atCheck: Option<Flags>, writes: seq<Write>)

  /** A write made on an existing account, with the flags the account had when
      the request was checked and when it was written. */
  datatype Touch = Touch(actor: Actor, target: nat, atCheck: Flags, atWrite: Flags)

  datatype State = State(users: Users, pending: map<nat, Pending>, touched: seq<Touch>)

  datatype Action =
    | Begin(id: nat, actor: nat, request: Request)
    | Check(id: nat)
    | Commit(id: nat)
    | Finish(id: nat)

  function FlagsOf(roles: Roles, users: Users, user: nat): Flags {
    if user in users && users[user].role in roles then roles[users[user].role] else {}
  }

  predicate Enabled(roles: Roles, s: State, a: Action) {
    match a
    case Begin(id, actor, request) =>
      id !in s.pending && actor in s.users && !s.users[actor].deleted && s.users[actor].role in roles
    case Check(id) => id in s.pending && s.pending[id].Unchecked?
    case Commit(id) => id in s.pending && s.pending[id].Checked? && s.pending[id].writes != []
    case Finish(id) => id in s.pending && s.pending[id].Checked? && s.pending[id].writes == []
  }

  function TargetFlags(roles: Roles, users: Users, r: Request): Option<Flags> {
    if r.Create? then None else Some(FlagsOf(roles, users, r.target))
  }

  function Next(roles: Roles, s: State, a: Action): State
    requires Enabled(roles, s, a)
  {
    match a
    case Begin(id, actor, request) =>
      s.(pending := s.pending[id := Unchecked(Actor(actor, roles[s.users[actor].role]), request)])
    case Check(id) =>
      var p := s.pending[id];
      if Authorise(roles, s.users, p.actor, p.request).Ok? then
        s.(pending := s.pending[id := Checked(p.actor, TargetFlags(roles, s.users, p.request), Writes(p.request))])
      else s.(pending := s.pending - {id})
    case Commit(id) =>
      var p := s.pending[id];
      var w := p.writes[0];
      if Commits(roles, s.users, w) then
        s.(users := Written(s.users, w),
           pending := s.pending[id := p.(writes := p.writes[1..])],
           touched := if p.atCheck.None? then s.touched
                      else s.touched + [Touch(p.actor, w.target, p.atCheck.value, FlagsOf(roles, s.users, w.target))])
      else s.(pending := s.pending - {id})
    case Finish(id) => s.(pending := s.pending - {id})
  }

  ghost predicate Run(roles: Roles, states: seq<State>, actions: seq<Action>) {
    && |states| == |actions| + 1
    && states[0].pending == map[] && states[0].touched == []
    && forall k :: 0 <= k < |actions| ==> Enabled(roles, states[k], actions[k]) &&
                                          states[k + 1] == Next(roles, states[k], actions[k])
  }

  /** No request of the run is begun by a system manager. */
  predicate ByDelegate(roles: Roles, s: State, a: Action) {
    a.Begin? ==> ManageSystem !in FlagsOf(roles, s.users, a.actor)
  }

  ghost predicate DelegatedRun(roles: Roles, states: seq<State>, actions: seq<Action>) {
    Run(roles, states, actions) && forall k :: 0 <= k < |actions| ==> ByDelegate(roles, states[k], actions[k])
  }

  // ── Authority does not grow ────────────────────────────────────────

  /** Some account that managed users at the start had all of `flags`. */
  ghost predicate Rooted(roles: Roles, initial: Users, flags: Flags) {
    exists u :: u in initial && ManageUsers in FlagsOf(roles, initial, u) && flags <= FlagsOf(roles, initial, u)
  }

  /** An account's flags are as they were, or within one initial manager's. */
  ghost predicate Bounded(roles: Roles, initial: Users, users: Users, user: nat) {
    || (user in initial && user in users && users[user].role == initial[user].role)
    || Rooted(roles, initial, FlagsOf(roles, users, user))
  }

  predicate Grantable(roles: Roles, actor: Actor, w: Write) {
    && (w.SetRole? || w.Insert? ==> w.role in roles && roles[w.role] <= actor.flags)
    && (!w.Insert? ==> w.target != actor.id)
  }

  ghost predicate PendingBounded(roles: Roles, initial: Users, p: Pending) {
    && ManageSystem !in p.actor.flags
    && (ManageUsers in p.actor.flags ==> Rooted(roles, initial, p.actor.flags))
    && (p.Checked? ==> ManageUsers in p.actor.flags)
    && (p.Checked? ==> forall w :: w in p.writes ==> Grantable(roles, p.actor, w) && (p.atCheck.None? <==> w.Insert?))
    && (p.Checked? && p.atCheck.Some? ==> p.atCheck.value <= p.actor.flags)
  }

  predicate TouchAllowed(t: Touch) {
    t.target != t.actor.id && t.atCheck <= t.actor.flags
  }

  ghost predicate Inv(roles: Roles, initial: Users, s: State) {
    && (forall u :: u in s.users ==> Bounded(roles, initial, s.users, u))
    && (forall id :: id in s.pending ==> PendingBounded(roles, initial, s.pending[id]))
    && (forall t :: t in s.touched ==> TouchAllowed(t))
  }

  /** An actor that manages users and not the system is itself bounded by an
      initial manager. */
  lemma ActorIsRooted(roles: Roles, initial: Users, users: Users, actor: nat)
    requires actor in users && Bounded(roles, initial, users, actor)
    requires ManageUsers in FlagsOf(roles, users, actor)
    ensures Rooted(roles, initial, FlagsOf(roles, users, actor))
  {
  }

  lemma RootedBelow(roles: Roles, initial: Users, less: Flags, more: Flags)
    requires Rooted(roles, initial, more) && less <= more
    ensures Rooted(roles, initial, less)
  {
    var u :| u in initial && ManageUsers in FlagsOf(roles, initial, u) && more <= FlagsOf(roles, initial, u);
    assert less <= FlagsOf(roles, initial, u);
  }

  /** A request that passes its checks grants only what the actor has, to
      somebody else, and its target has nothing the actor lacks. */
  lemma AuthorisedIsGrantable(roles: Roles, users: Users, actor: Actor, r: Request)
    requires ManageSystem !in actor.flags && Authorise(roles, users, actor, r).Ok?
    ensures ManageUsers in actor.flags
    ensures forall w :: w in Writes(r) ==> Grantable(roles, actor, w) && (r.Create? <==> w.Insert?)
    ensures !r.Create? ==> r.target in users && FlagsOf(roles, users, r.target) <= actor.flags
    ensures !r.Create? ==> forall w :: w in Writes(r) ==> w.target == r.target
  {
  }

  lemma WriteKeepsBounds(roles: Roles, initial: Users, users: Users, actor: Actor, w: Write)
    requires forall u :: u in users ==> Bounded(roles, initial, users, u)
    requires Grantable(roles, actor, w) && Matches(users, w) && Rooted(roles, initial, actor.flags)
    ensures forall u :: u in Written(users, w) ==> Bounded(roles, initial, Written(users, w), u)
  {
    var users' := Written(users, w);
    forall u | u in users' ensures Bounded(roles, initial, users', u) {
      if u != w.target {
        assert users'[u] == users[u];
        assert Bounded(roles, initial, users, u);
      } else if w.SetRole? || w.Insert? {
        RootedBelow(roles, initial, roles[w.role], actor.flags);
        assert FlagsOf(roles, users', u) == roles[w.role];
      } else {
        assert users'[u].role == users[u].role;
        assert Bounded(roles, initial, users, u);
      }
    }
  }

  lemma StepKeepsInv(roles: Roles, initial: Users, s: State, a: Action)
    requires Inv(roles, initial, s) && Enabled(roles, s, a) && ByDelegate(roles, s, a)
    ensures Inv(roles, initial, Next(roles, s, a))
  {
    var s' := Next(roles, s, a);
    match a
    case Begin(id, actor, request) =>
      if ManageUsers in FlagsOf(roles, s.users, actor) {
        ActorIsRooted(roles, initial, s.users, actor);
      }
      assert PendingBounded(roles, initial, s'.pending[id]);
    case Check(id) =>
      var p := s.pending[id];
      if Authorise(roles, s.users, p.actor, p.request).Ok? {
        AuthorisedIsGrantable(roles, s.users, p.actor, p.request);
        assert PendingBounded(roles, initial, s'.pending[id]);
      }
    case Commit(id) =>
      var p := s.pending[id];
      if Commits(roles, s.users, p.writes[0]) {
        WriteKeepsBounds(roles, initial, s.users, p.actor, p.writes[0]);
        assert forall w :: w in p.writes[1..] ==> w in p.writes;
        assert PendingBounded(roles, initial, s'.pending[id]);
      }
    case Finish(id) =>
  }

  lemma {:induction false} RunKeepsInv(roles: Roles, states: seq<State>, actions: seq<Action>, k: nat)
    requires DelegatedRun(roles, states, actions) && k < |states|
    ensures Inv(roles, states[0].users, states[k])
  {
    if k > 0 {
      RunKeepsInv(roles, states, actions, k - 1);
      StepKeepsInv(roles, states[0].users, states[k - 1], actions[k - 1]);
    }
  }

  /** However delegated managers' requests interleave, an account keeps its
      role or ends within the flags one account managing users began with. */
  lemma AuthorityDoesNotGrow(roles: Roles, states: seq<State>, actions: seq<Action>, k: nat, user: nat)
    requires DelegatedRun(roles, states, actions) && k < |states| && user in states[k].users
    ensures Bounded(roles, states[0].users, states[k].users, user)
  {
    RunKeepsInv(roles, states, actions, k);
  }

  /** No delegated manager writes to itself, or to an account that had a flag
      the manager lacks when the request was checked. */
  lemma TouchesAreAllowed(roles: Roles, states: seq<State>, actions: seq<Action>, k: nat, t: Touch)
    requires DelegatedRun(roles, states, actions) && k < |states| && t in states[k].touched
    ensures t.target != t.actor.id && t.atCheck <= t.actor.flags
  {
    RunKeepsInv(roles, states, actions, k);
  }

  // ── Between check and write ────────────────────────────────────────

  function RoleFlags(roles: Roles, role: nat): Flags {
    if role in roles then roles[role] else {}
  }

  /** The role a step gives `target`, if it commits a change of its role. */
  function GrantAt(roles: Roles, s: State, a: Action, target: nat): Option<nat>
    requires Enabled(roles, s, a)
  {
    if a.Commit? then
      var w := s.pending[a.id].writes[0];
      if w.SetRole? && w.target == target && Commits(roles, s.users, w) then Some(w.role) else None
    else None
  }

  /** The last role given to `target` by the steps from `j` up to `k`. */
  ghost function LastGrant(roles: Roles, states: seq<State>, actions: seq<Action>, target: nat, j: nat,
                           k: nat): Option<nat>
    requires Run(roles, states, actions) && j <= k <= |actions|
  {
    if j == k then None
    else
      var last := GrantAt(roles, states[k - 1], actions[k - 1], target);
      if last.Some? then last else LastGrant(roles, states, actions, target, j, k - 1)
  }

  lemma RoleAfterStep(roles: Roles, s: State, a: Action, target: nat)
    requires Enabled(roles, s, a) && target in s.users
    ensures target in Next(roles, s, a).users
    ensures var grant := GrantAt(roles, s, a, target);
            Next(roles, s, a).users[target].role == if grant.Some? then grant.value else s.users[target].role
  {
  }

  /** An account's role is the last one given to it. */
  lemma {:induction false} RoleIsLastGrant(roles: Roles, states: seq<State>, actions: seq<Action>, target: nat,
                                           j: nat, k: nat)
    requires Run(roles, states, actions) && j <= k <= |actions| && target in states[j].users
    ensures target in states[k].users
    ensures var grant := LastGrant(roles, states, actions, target, j, k);
            states[k].users[target].role == if grant.Some? then grant.value else states[j].users[target].role
  {
    if j < k {
      RoleIsLastGrant(roles, states, actions, target, j, k - 1);
      RoleAfterStep(roles, states[k - 1], actions[k - 1], target);
    }
  }

  /** The request `id` is the one checked at `j` in every state after it up to `k`. */
  ghost predicate Since(roles: Roles, states: seq<State>, actions: seq<Action>, id: nat, j: nat, k: nat)
    requires Run(roles, states, actions)
  {
    && j < k <= |actions| && actions[j] == Check(id)
    && (forall i :: j < i < k ==> actions[i] != Check(id))
    && id in states[k].pending && states[k].pending[id].Checked?
  }

  ghost predicate SameRequest(roles: Roles, s: State, now: State, id: nat) {
    && id in s.pending && s.pending[id].Unchecked? && id in now.pending && now.pending[id].Checked?
    && Authorise(roles, s.users, s.pending[id].actor, s.pending[id].request).Ok?
    && now.pending[id].actor == s.pending[id].actor
    && now.pending[id].atCheck == TargetFlags(roles, s.users, s.pending[id].request)
    && forall w :: w in now.pending[id].writes ==> w in Writes(s.pending[id].request)
  }

  lemma StillSameRequest(roles: Roles, s: State, now: State, a: Action, id: nat)
    requires Enabled(roles, now, a) && a != Check(id)
    requires id in Next(roles, now, a).pending && Next(roles, now, a).pending[id].Checked?
    ensures id in now.pending && now.pending[id].Checked?
    ensures SameRequest(roles, s, now, id) ==> SameRequest(roles, s, Next(roles, now, a), id)
  {
    if a == Commit(id) {
      var writes := now.pending[id].writes;
      assert forall w :: w in writes[1..] ==> w in writes;
    }
  }

  lemma {:induction false} CheckedThen(roles: Roles, states: seq<State>, actions: seq<Action>, id: nat, j: nat, k: nat)
    requires Run(roles, states, actions) && Since(roles, states, actions, id, j, k)
    ensures SameRequest(roles, states[j], states[k], id)
  {
    if j + 1 < k {
      StillSameRequest(roles, states[j], states[k - 1], actions[k - 1], id);
      CheckedThen(roles, states, actions, id, j, k - 1);
    }
  }

  lemma {:induction false} WhenChecked(roles: Roles, states: seq<State>, actions: seq<Action>, id: nat, k: nat)
    returns (j: nat)
    requires Run(roles, states, actions) && k <= |actions| && id in states[k].pending && states[k].pending[id].Checked?
    ensures Since(roles, states, actions, id, j, k)
  {
    if actions[k - 1] == Check(id) {
      j := k - 1;
    } else {
      StillSameRequest(roles, states[k - 1], states[k - 1], actions[k - 1], id);
      j := WhenChecked(roles, states, actions, id, k - 1);
    }
  }

  /** What a request was granted when it was checked. */
  lemma CheckedWithin(roles: Roles, states: seq<State>, actions: seq<Action>, id: nat, j: nat, k: nat)
    requires DelegatedRun(roles, states, actions) && Since(roles, states, actions, id, j, k)
    ensures var p := states[k].pending[id];
            forall w :: w in p.writes ==>
              && Grantable(roles, p.actor, w) && (p.atCheck.None? <==> w.Insert?)
              && (p.atCheck.Some? ==>
                    w.target in states[j].users && FlagsOf(roles, states[j].users, w.target) <= p.actor.flags)
  {
    CheckedThen(roles, states, actions, id, j, k);
    RunKeepsInv(roles, states, actions, j);
    var p := states[j].pending[id];
    assert PendingBounded(roles, states[0].users, p);
    AuthorisedIsGrantable(roles, states[j].users, p.actor, p.request);
  }

  /** Exactly when a write stays within its actor's flags: the account it touches
      has a flag the actor lacks if and only if the last role given to it between
      the request's check and the write has one. */
  lemma WriteIsWithinIff(roles: Roles, states: seq<State>, actions: seq<Action>, id: nat, j: nat, k: nat)
    requires DelegatedRun(roles, states, actions) && Since(roles, states, actions, id, j, k)
    requires k < |actions| && actions[k] == Commit(id) && states[k].pending[id].atCheck.Some?
    ensures var p := states[k].pending[id];
            var target := p.writes[0].target;
            var grant := LastGrant(roles, states, actions, target, j, k);
            FlagsOf(roles, states[k].users, target) <= p.actor.flags
            <==> (grant.Some? ==> RoleFlags(roles, grant.value) <= p.actor.flags)
  {
    var w := states[k].pending[id].writes[0];
    CheckedWithin(roles, states, actions, id, j, k);
    assert w in states[k].pending[id].writes;
    RoleIsLastGrant(roles, states, actions, w.target, j, k);
  }

  /** At most one request is between its check and its last write. */
  ghost predicate Alone(s: State) {
    forall i, j :: i in s.pending && j in s.pending && s.pending[i].Checked? && s.pending[j].Checked? ==> i == j
  }

  lemma {:induction false} SinceEarlier(roles: Roles, states: seq<State>, actions: seq<Action>, id: nat, j: nat,
                                        i: nat, k: nat)
    requires Run(roles, states, actions) && Since(roles, states, actions, id, j, k) && j < i <= k
    ensures Since(roles, states, actions, id, j, i)
  {
    if i < k {
      StillSameRequest(roles, states[j], states[k - 1], actions[k - 1], id);
      SinceEarlier(roles, states, actions, id, j, i, k - 1);
    }
  }

  ghost predicate GrantsWithin(roles: Roles, s: State, a: Action, target: nat, flags: Flags) {
    Enabled(roles, s, a) &&
    var grant := GrantAt(roles, s, a, target);
    grant.Some? ==> RoleFlags(roles, grant.value) <= flags
  }

  lemma {:induction false} LastGrantWithin(roles: Roles, states: seq<State>, actions: seq<Action>, target: nat,
                                           j: nat, k: nat, flags: Flags)
    requires Run(roles, states, actions) && j <= k <= |actions|
    requires forall i :: j <= i < k ==> GrantsWithin(roles, states[i], actions[i], target, flags)
    ensures var grant := LastGrant(roles, states, actions, target, j, k);
            grant.Some? ==> RoleFlags(roles, grant.value) <= flags
  {
    if j < k {
      LastGrantWithin(roles, states, actions, target, j, k - 1, flags);
      assert GrantsWithin(roles, states[k - 1], actions[k - 1], target, flags);
    }
  }

  /** A request alone between check and write is the only one to write. */
  lemma AloneGrants(roles: Roles, s: State, a: Action, id: nat, target: nat)
    requires Enabled(roles, s, a) && Alone(s) && id in s.pending && s.pending[id].Checked?
    requires forall w :: w in s.pending[id].writes ==> Grantable(roles, s.pending[id].actor, w)
    ensures GrantsWithin(roles, s, a, target, s.pending[id].actor.flags)
  {
    if GrantAt(roles, s, a, target).Some? {
      assert a.id == id && s.pending[id].writes[0] in s.pending[id].writes;
    }
  }

  lemma AloneGrantsWithin(roles: Roles, states: seq<State>, actions: seq<Action>, id: nat, target: nat, j: nat, k: nat)
    requires DelegatedRun(roles, states, actions) && Since(roles, states, actions, id, j, k)
    requires forall i :: 0 <= i < k ==> Alone(states[i])
    ensures var grant := LastGrant(roles, states, actions, target, j, k);
            grant.Some? ==> RoleFlags(roles, grant.value) <= states[k].pending[id].actor.flags
  {
    var flags := states[k].pending[id].actor.flags;
    CheckedThen(roles, states, actions, id, j, k);
    forall i | j <= i < k ensures GrantsWithin(roles, states[i], actions[i], target, flags) {
      if j < i {
        SinceEarlier(roles, states, actions, id, j, i, k);
        CheckedThen(roles, states, actions, id, j, i);
        CheckedWithin(roles, states, actions, id, j, i);
        AloneGrants(roles, states[i], actions[i], id, target);
      }
    }
    LastGrantWithin(roles, states, actions, target, j, k, flags);
  }

  lemma NewTouch(roles: Roles, s: State, a: Action, t: Touch)
    requires Enabled(roles, s, a) && t in Next(roles, s, a).touched && t !in s.touched
    ensures a.Commit? && s.pending[a.id].Checked? && s.pending[a.id].atCheck.Some?
    ensures var p := s.pending[a.id];
            t.actor == p.actor && t.target == p.writes[0].target && t.atWrite == FlagsOf(roles, s.users, t.target)
  {
  }

  /** While requests do not overlap between check and write, no write touches
      an account with a flag the actor lacks at that moment either. */
  lemma {:induction false} SerialTouchesAreWithin(roles: Roles, states: seq<State>, actions: seq<Action>, k: nat,
                                                  t: Touch)
    requires DelegatedRun(roles, states, actions) && k < |states| && t in states[k].touched
    requires forall j :: 0 <= j < k ==> Alone(states[j])
    ensures t.atWrite <= t.actor.flags
  {
    var i := k - 1;
    if t in states[i].touched {
      SerialTouchesAreWithin(roles, states, actions, i, t);
    } else {
      NewTouch(roles, states[i], actions[i], t);
      var id := actions[i].id;
      var j := WhenChecked(roles, states, actions, id, i);
      WriteIsWithinIff(roles, states, actions, id, j, i);
      AloneGrantsWithin(roles, states, actions, id, t.target, j, i);
    }
  }

  lemma Extend(roles: Roles, states: seq<State>, actions: seq<Action>, a: Action)
    returns (states': seq<State>, actions': seq<Action>)
    requires DelegatedRun(roles, states, actions) && Enabled(roles, states[|states| - 1], a)
    requires ByDelegate(roles, states[|states| - 1], a)
    ensures DelegatedRun(roles, states', actions')
    ensures states' == states + [Next(roles, states[|states| - 1], a)] && actions' == actions + [a]
  {
    states', actions' := states + [Next(roles, states[|states| - 1], a)], actions + [a];
  }

  /** Three accounts: plain, a manager, and a manager with one flag more. */
  ghost predicate ThreeAccounts(roles: Roles, users: Users, extra: Permission) {
    && roles.Keys == {0, 1, 2} && users.Keys == {0, 1, 2}
    && extra !in {ManageSystem, ManageUsers}
    && roles[0] == {} && roles[1] == {ManageUsers} && roles[2] == {ManageUsers, extra}
    && forall u :: u in users ==> users[u].role == u && users[u].local && !users[u].deleted
  }

  lemma ResetChecked(roles: Roles, users: Users, extra: Permission) returns (states: seq<State>, actions: seq<Action>)
    requires ThreeAccounts(roles, users, extra)
    ensures DelegatedRun(roles, states, actions) && states[0].users == users
    ensures var s := states[|states| - 1];
            s.users == users && s.touched == [] &&
            s.pending == map[10 := Checked(Actor(1, roles[1]), Some({}), [SetPassword(0, 7)])]
    ensures |actions| == 2 && actions[1] == Check(10)
  {
    states, actions := [State(users, map[], [])], [];
    states, actions := Extend(roles, states, actions, Begin(10, 1, ResetPassword(0, 7)));
    assert Authorise(roles, users, Actor(1, roles[1]), ResetPassword(0, 7)).Ok?;
    states, actions := Extend(roles, states, actions, Check(10));
  }

  /** A second manager's grant of role 2, checked while the reset waits. */
  lemma GrantChecked(roles: Roles, users: Users, extra: Permission, before: seq<State>, earlier: seq<Action>)
    returns (states: seq<State>, actions: seq<Action>)
    requires ThreeAccounts(roles, users, extra) && DelegatedRun(roles, before, earlier)
    requires var s := before[|before| - 1]; s.users == users && s.pending.Keys == {10}
    ensures DelegatedRun(roles, states, actions) && states[0] == before[0]
    ensures var s, p := states[|states| - 1], before[|before| - 1].pending[10];
            && s.users == users
            && s.pending == map[10 := p, 20 := Checked(Actor(2, roles[2]), Some({}), [SetRole(0, 2)])]
    ensures |actions| == |earlier| + 2 && actions[..|earlier|] == earlier
    ensures forall i :: |earlier| <= i < |actions| ==> actions[i] != Check(10)
  {
    var grant := Update(0, Some(2), None, None);
    states, actions := Extend(roles, before, earlier, Begin(20, 2, grant));
    assert Authorise(roles, users, Actor(2, roles[2]), grant).Ok?;
    assert Writes(grant) == [SetRole(0, 2)];
    states, actions := Extend(roles, states, actions, Check(20));
  }

  lemma GrantCommits(roles: Roles, users: Users, extra: Permission)
    requires ThreeAccounts(roles, users, extra)
    ensures Commits(roles, users, SetRole(0, 2))
  {
    assert !HasAdmin(roles, users);
  }

  lemma RoleGranted(roles: Roles, users: Users, extra: Permission, before: seq<State>, earlier: seq<Action>)
    returns (states: seq<State>, actions: seq<Action>)
    requires ThreeAccounts(roles, users, extra) && DelegatedRun(roles, before, earlier)
    requires var s := before[|before| - 1]; s.users == users && s.pending.Keys == {10}
    ensures DelegatedRun(roles, states, actions) && states[0] == before[0]
    ensures var s := states[|states| - 1];
            s.users == users[0 := users[0].(role := 2)] && 10 in s.pending &&
            s.pending[10] == before[|before| - 1].pending[10]
    ensures |actions| == |earlier| + 3 && actions[..|earlier|] == earlier
    ensures forall i :: |earlier| <= i < |actions| ==> actions[i] != Check(10)
    ensures GrantAt(roles, states[|actions| - 1], actions[|actions| - 1], 0) == Some(2)
  {
    states, actions := GrantChecked(roles, users, extra, before, earlier);
    GrantCommits(roles, users, extra);
    states, actions := Extend(roles, states, actions, Commit(20));
  }

  /** Overlapping requests can: a manager's reset, checked while the target had
      no flags, is written after another manager gave it one. */
  lemma OverlapReachesBeyond(roles: Roles, users: Users, extra: Permission)
    requires ThreeAccounts(roles, users, extra)
    ensures exists states: seq<State>, actions: seq<Action>, t: Touch ::
              && DelegatedRun(roles, states, actions) && states[0].users == users
              && t in states[|states| - 1].touched && !(t.atWrite <= t.actor.flags)
  {
    var states, actions := ResetChecked(roles, users, extra);
    states, actions := RoleGranted(roles, users, extra, states, actions);
    var k := |actions|;
    var s := states[k];
    states, actions := Extend(roles, states, actions, Commit(10));
    assert actions[1] == Check(10) && Since(roles, states, actions, 10, 1, k);
    assert LastGrant(roles, states, actions, 0, 1, k) == Some(2);
    WriteIsWithinIff(roles, states, actions, 10, 1, k);
    var t := Touch(Actor(1, roles[1]), 0, {}, FlagsOf(roles, s.users, 0));
    assert t == states[k + 1].touched[|s.touched|];
    assert extra in RoleFlags(roles, 2) && extra !in t.actor.flags;
  }

  // ── The last administrator ─────────────────────────────────────────

  lemma WriteKeepsAdmin(roles: Roles, users: Users, w: Write)
    requires HasAdmin(roles, users) && Commits(roles, users, w)
    ensures HasAdmin(roles, Written(users, w))
  {
    if !Guarded(w) {
      var u :| u in users && !users[u].deleted && users[u].role in roles && ManageSystem in roles[users[u].role];
      var users' := Written(users, w);
      assert u in users' && !users'[u].deleted && users'[u].role == users[u].role;
    }
  }

  /** In every run, by whatever actors, a system that has a live administrator
      keeps one. */
  lemma {:induction false} AnAdministratorRemains(roles: Roles, states: seq<State>, actions: seq<Action>, k: nat)
    requires Run(roles, states, actions) && k < |states| && HasAdmin(roles, states[0].users)
    ensures HasAdmin(roles, states[k].users)
  {
    if k > 0 {
      AnAdministratorRemains(roles, states, actions, k - 1);
      var s, a := states[k - 1], actions[k - 1];
      if a.Commit? && Commits(roles, s.users, s.pending[a.id].writes[0]) {
        WriteKeepsAdmin(roles, s.users, s.pending[a.id].writes[0]);
      }
    }
  }

  // ── Exemptions and passwords ───────────────────────────────────────

  predicate Exempts(w: Write) {
    w.SetApproval? && w.approval == Some(false)
  }

  /** Only a system manager has an exemption from outbound approval to write. */
  ghost predicate ExemptionsGuarded(s: State) {
    forall id :: id in s.pending && s.pending[id].Checked? && ManageSystem !in s.pending[id].actor.flags ==>
      forall w :: w in s.pending[id].writes ==> !Exempts(w)
  }

  lemma GuardedKept(roles: Roles, s: State, a: Action)
    requires ExemptionsGuarded(s) && Enabled(roles, s, a)
    ensures ExemptionsGuarded(Next(roles, s, a))
  {
    if a.Check? {
      PassesIff(roles, s.users, s.pending[a.id].actor, s.pending[a.id].request);
    } else if a.Commit? {
      var writes := s.pending[a.id].writes;
      assert forall w :: w in writes[1..] ==> w in writes;
    }
  }

  lemma {:induction false} RunKeepsGuarded(roles: Roles, states: seq<State>, actions: seq<Action>, k: nat)
    requires Run(roles, states, actions) && k < |states|
    ensures ExemptionsGuarded(states[k])
  {
    if k > 0 {
      RunKeepsGuarded(roles, states, actions, k - 1);
      GuardedKept(roles, states[k - 1], actions[k - 1]);
    }
  }

  /** The step is a system manager's write that exempts `user`. */
  predicate ExemptsAt(s: State, a: Action, user: nat) {
    && a.Commit? && a.id in s.pending && s.pending[a.id].Checked? && s.pending[a.id].writes != []
    && s.pending[a.id].writes[0] == SetApproval(user, Some(false))
    && ManageSystem in s.pending[a.id].actor.flags
  }

  predicate Exempt(users: Users, user: nat) {
    user in users && users[user].approval == Some(false)
  }

  lemma ExemptAfter(roles: Roles, s: State, a: Action, user: nat)
    requires ExemptionsGuarded(s) && Enabled(roles, s, a) && Exempt(Next(roles, s, a).users, user)
    ensures Exempt(s.users, user) || ExemptsAt(s, a, user)
  {
    if a.Commit? {
      assert s.pending[a.id].writes[0] in s.pending[a.id].writes;
    }
  }

  /** In every run, by whatever actors, an account exempt from outbound approval
      was so from the start, or a system manager's write made it so. */
  lemma {:induction false} OnlySystemManagersExempt(roles: Roles, states: seq<State>, actions: seq<Action>, k: nat,
                                                    user: nat)
    requires Run(roles, states, actions) && k < |states| && Exempt(states[k].users, user)
    ensures Exempt(states[0].users, user) || exists j :: 0 <= j < k && ExemptsAt(states[j], actions[j], user)
  {
    if k > 0 {
      RunKeepsGuarded(roles, states, actions, k - 1);
      ExemptAfter(roles, states[k - 1], actions[k - 1], user);
      if Exempt(states[k - 1].users, user) {
        OnlySystemManagersExempt(roles, states, actions, k - 1, user);
      }
    }
  }

  /** Delegated managers exempt nobody, however their requests interleave. */
  lemma DelegatesExemptNobody(roles: Roles, states: seq<State>, actions: seq<Action>, k: nat, user: nat)
    requires DelegatedRun(roles, states, actions) && k < |states| && Exempt(states[k].users, user)
    ensures Exempt(states[0].users, user)
  {
    OnlySystemManagersExempt(roles, states, actions, k, user);
    if exists j :: 0 <= j < k && ExemptsAt(states[j], actions[j], user) {
      var j :| 0 <= j < k && ExemptsAt(states[j], actions[j], user);
      RunKeepsInv(roles, states, actions, j);
      assert PendingBounded(roles, states[0].users, states[j].pending[actions[j].id]);
    }
  }

  /** Passwords are waiting to be written only for local accounts. */
  ghost predicate ResetsLocal(s: State) {
    forall id :: id in s.pending && s.pending[id].Checked? ==>
      forall w :: w in s.pending[id].writes && w.SetPassword? ==> w.target in s.users && s.users[w.target].local
  }

  lemma LocalStays(roles: Roles, s: State, a: Action, user: nat)
    requires Enabled(roles, s, a) && user in s.users
    ensures user in Next(roles, s, a).users && Next(roles, s, a).users[user].local == s.users[user].local
  {
  }

  lemma ResetsLocalKept(roles: Roles, s: State, a: Action)
    requires ResetsLocal(s) && Enabled(roles, s, a)
    ensures ResetsLocal(Next(roles, s, a))
  {
    var s' := Next(roles, s, a);
    forall id, w | id in s'.pending && s'.pending[id].Checked? && w in s'.pending[id].writes && w.SetPassword?
      ensures w.target in s'.users && s'.users[w.target].local
    {
      if a == Check(id) {
        PassesIff(roles, s.users, s.pending[id].actor, s.pending[id].request);
      } else {
        assert w in s.pending[id].writes;
        LocalStays(roles, s, a, w.target);
      }
    }
  }

  lemma {:induction false} RunKeepsResetsLocal(roles: Roles, states: seq<State>, actions: seq<Action>, k: nat)
    requires Run(roles, states, actions) && k < |states|
    ensures ResetsLocal(states[k])
  {
    if k > 0 {
      RunKeepsResetsLocal(roles, states, actions, k - 1);
      ResetsLocalKept(roles, states[k - 1], actions[k - 1]);
    }
  }

  lemma PasswordAfter(roles: Roles, s: State, a: Action, user: nat)
    requires ResetsLocal(s) && Enabled(roles, s, a) && user in s.users && !s.users[user].local
    ensures user in Next(roles, s, a).users && Next(roles, s, a).users[user].password == s.users[user].password
  {
    if a.Commit? {
      assert s.pending[a.id].writes[0] in s.pending[a.id].writes;
    }
  }

  /** In every run, by whatever actors, an account that is not local, as one from
      single sign-on, keeps its password and stays so. */
  lemma {:induction false} OnlyLocalPasswordsChange(roles: Roles, states: seq<State>, actions: seq<Action>, k: nat,
                                                    user: nat)
    requires Run(roles, states, actions) && k < |states| && user in states[0].users && !states[0].users[user].local
    ensures user in states[k].users && !states[k].users[user].local
    ensures states[k].users[user].password == states[0].users[user].password
  {
    if k > 0 {
      OnlyLocalPasswordsChange(roles, states, actions, k - 1, user);
      RunKeepsResetsLocal(roles, states, actions, k - 1);
      LocalStays(roles, states[k - 1], actions[k - 1], user);
      PasswordAfter(roles, states[k - 1], actions[k - 1], user);
    }
  }

  // ── What a request does ────────────────────────────────────────────

  /** The row a request acts on is there for it. */
  predicate Writable(users: Users, r: Request) {
    match r
    case Restore(target) => target in users && users[target].deleted
    case Delete(target) => target in users && !users[target].deleted
    case Update(target, _, _, _) => target in users && !users[target].deleted
    case Create(user, _, _) => user !in users
    case ResetPassword(target, _) => target in users
  }

  function Or<T>(o: Option<T>, default: T): T {
    if o.Some? then o.value else default
  }

  /** The table a request asks for. */
  function Requested(users: Users, r: Request): Users
    requires Writable(users, r)
  {
    match r
    case Restore(target) => users[target := users[target].(deleted := false)]
    case Delete(target) => users[target := users[target].(deleted := true)]
    case Update(target, role, jit, approval) =>
      var u := users[target];
      users[target := u.(role := Or(role, u.role), jit := Or(jit, u.jit), approval := Or(approval, u.approval))]
    case Create(user, local, role) => users[user := User(role, local, false, 0, false, None)]
    case ResetPassword(target, password) => users[target := users[target].(password := password)]
  }

  predicate Administers(roles: Roles, users: Users, u: nat) {
    u in users && !users[u].deleted && users[u].role in roles && ManageSystem in roles[users[u].role]
  }

  /** The commits of one request, undisturbed. */
  function CommitAll(roles: Roles, s: State, id: nat): State
    requires id in s.pending && s.pending[id].Checked?
    decreases |s.pending[id].writes|
  {
    if s.pending[id].writes == [] then s
    else
      var s' := Next(roles, s, Commit(id));
      if id in s'.pending then CommitAll(roles, s', id) else s'
  }

  lemma CommitOne(roles: Roles, s: State, id: nat, admin: nat)
    requires id in s.pending && s.pending[id].Checked? && s.pending[id].writes != []
    requires var w := s.pending[id].writes[0]; Matches(s.users, w) && (Guarded(w) ==> admin != w.target)
    requires Administers(roles, s.users, admin)
    ensures var s', w := Next(roles, s, Commit(id)), s.pending[id].writes[0];
            && s'.users == Written(s.users, w) && Administers(roles, s'.users, admin)
            && id in s'.pending && s'.pending[id].Checked? && s'.pending[id].writes == s.pending[id].writes[1..]
  {
    var w := s.pending[id].writes[0];
    assert Administers(roles, Written(s.users, w), admin);
  }

  lemma {:induction false} CommitAllWrites(roles: Roles, s: State, id: nat, admin: nat, target: nat)
    requires id in s.pending && s.pending[id].Checked? && admin != target && Administers(roles, s.users, admin)
    requires target in s.users && !s.users[target].deleted
    requires Settings(s.pending[id].writes, target)
    ensures CommitAll(roles, s, id).users == AllWritten(s.users, s.pending[id].writes, target)
    decreases |s.pending[id].writes|
  {
    var writes := s.pending[id].writes;
    if writes != [] {
      assert writes[0] in writes && forall w :: w in writes[1..] ==> w in writes;
      CommitOne(roles, s, id, admin);
      CommitAllWrites(roles, Next(roles, s, Commit(id)), id, admin, target);
    }
  }

  /** Settings of one live account written in turn. */
  function AllWritten(users: Users, ws: seq<Write>, target: nat): Users
    requires target in users && !users[target].deleted
    requires Settings(ws, target)
    decreases |ws|
  {
    if ws == [] then users
    else
      assert ws[0] in ws && forall w :: w in ws[1..] ==> w in ws;
      AllWritten(Written(users, ws[0]), ws[1..], target)
  }

  predicate Settings(ws: seq<Write>, target: nat) {
    forall w :: w in ws ==> w.target == target && (w.SetRole? || w.SetJit? || w.SetApproval?)
  }

  lemma SkipOrWrite(users: Users, a: seq<Write>, rest: seq<Write>, target: nat, users': Users)
    requires target in users && !users[target].deleted && |a| <= 1
    requires Settings(a, target) && Settings(rest, target)
    requires a == [] ==> users' == users
    requires a != [] ==> a[0] in a && users' == Written(users, a[0])
    ensures target in users' && !users'[target].deleted
    ensures AllWritten(users, a + rest, target) == AllWritten(users', rest, target)
  {
    if a == [] {
      assert a + rest == rest;
    } else {
      assert (a + rest)[0] == a[0] && (a + rest)[1..] == rest;
    }
  }

  lemma RoleSetting(users: Users, t: nat, role: Option<nat>, rest: seq<Write>)
    requires t in users && !users[t].deleted && Settings(rest, t)
    ensures var ws := (if role.Some? then [SetRole(t, role.value)] else []) + rest;
            var users' := users[t := users[t].(role := Or(role, users[t].role))];
            && Settings(ws, t) && AllWritten(users, ws, t) == AllWritten(users', rest, t)
  {
    SkipOrWrite(users, if role.Some? then [SetRole(t, role.value)] else [], rest, t,
                users[t := users[t].(role := Or(role, users[t].role))]);
  }

  lemma JitSetting(users: Users, t: nat, jit: Option<bool>, rest: seq<Write>)
    requires t in users && !users[t].deleted && Settings(rest, t)
    ensures var ws := (if jit.Some? then [SetJit(t, jit.value)] else []) + rest;
            var users' := users[t := users[t].(jit := Or(jit, users[t].jit))];
            && Settings(ws, t) && AllWritten(users, ws, t) == AllWritten(users', rest, t)
  {
    SkipOrWrite(users, if jit.Some? then [SetJit(t, jit.value)] else [], rest, t,
                users[t := users[t].(jit := Or(jit, users[t].jit))]);
  }

  lemma ApprovalSetting(users: Users, t: nat, approval: Option<Option<bool>>)
    requires t in users && !users[t].deleted
    ensures var ws := if approval.Some? then [SetApproval(t, approval.value)] else [];
            var users' := users[t := users[t].(approval := Or(approval, users[t].approval))];
            && Settings(ws, t) && AllWritten(users, ws, t) == users'
  {
    var ws := if approval.Some? then [SetApproval(t, approval.value)] else [];
    assert ws + [] == ws;
    SkipOrWrite(users, ws, [], t, users[t := users[t].(approval := Or(approval, users[t].approval))]);
  }

  lemma UpdateWrites(users: Users, r: Request)
    requires r.Update? && Writable(users, r)
    ensures Settings(Writes(r), r.target)
    ensures AllWritten(users, Writes(r), r.target) == Requested(users, r)
  {
    var t, u := r.target, users[r.target];
    var b := if r.jit.Some? then [SetJit(t, r.jit.value)] else [];
    var c := if r.approval.Some? then [SetApproval(t, r.approval.value)] else [];
    assert Writes(r) == (if r.newRole.Some? then [SetRole(t, r.newRole.value)] else []) + (b + c);
    var users1 := users[t := u.(role := Or(r.newRole, u.role))];
    var users2 := users1[t := users1[t].(jit := Or(r.jit, u.jit))];
    ApprovalSetting(users2, t, r.approval);
    JitSetting(users1, t, r.jit, c);
    RoleSetting(users, t, r.newRole, b + c);
  }

  /** A request that has passed, undisturbed, leaves the table it asked for, as
      long as some other account administers the system. */
  lemma RequestTakesEffect(roles: Roles, s: State, id: nat, r: Request, admin: nat)
    requires id in s.pending && s.pending[id].Checked? && s.pending[id].writes == Writes(r)
    requires Writable(s.users, r) && Administers(roles, s.users, admin) && (!r.Create? ==> admin != r.target)
    ensures CommitAll(roles, s, id).users == Requested(s.users, r)
  {
    if r.Update? {
      UpdateWrites(s.users, r);
      CommitAllWrites(roles, s, id, admin, r.target);
    } else {
      CommitOne(roles, s, id, admin);
      var s' := Next(roles, s, Commit(id));
      assert s'.pending[id].writes == [];
      assert CommitAll(roles, s, id) == CommitAll(roles, s', id) == s';
    }
  }

  /** Without its row, as for a deletion already made or a change to a deleted
      account, a request changes nothing. */
  lemma RequestWithoutItsRow(roles: Roles, s: State, id: nat, r: Request)
    requires id in s.pending && s.pending[id].Checked? && s.pending[id].writes == Writes(r)
    requires !Writable(s.users, r)
    ensures CommitAll(roles, s, id).users == s.users
  {
    var writes := s.pending[id].writes;
    if writes != [] {
      assert r.Update? ==> writes[0].target == r.target;
      assert !Matches(s.users, writes[0]);
    }
  }

  lemma GoesOn(roles: Roles, states: seq<State>, actions: seq<Action>, a: Action)
    returns (states': seq<State>, actions': seq<Action>)
    requires Run(roles, states, actions) && Enabled(roles, states[|actions|], a)
    ensures Run(roles, states', actions')
    ensures states' == states + [Next(roles, states[|actions|], a)] && actions' == actions + [a]
  {
    states', actions' := states + [Next(roles, states[|actions|], a)], actions + [a];
  }

  lemma {:induction false} CommitsInTurn(roles: Roles, states: seq<State>, actions: seq<Action>, id: nat)
    returns (states': seq<State>, actions': seq<Action>)
    requires Run(roles, states, actions)
    requires id in states[|actions|].pending && states[|actions|].pending[id].Checked?
    ensures Run(roles, states', actions') && states <= states' && actions <= actions'
    ensures id !in states'[|actions'|].pending
    ensures states'[|actions'|].users == CommitAll(roles, states[|actions|], id).users
    decreases |states[|actions|].pending[id].writes|
  {
    var s := states[|actions|];
    if s.pending[id].writes == [] {
      states', actions' := GoesOn(roles, states, actions, Finish(id));
    } else {
      states', actions' := GoesOn(roles, states, actions, Commit(id));
      if id in states'[|actions'|].pending {
        states', actions' := CommitsInTurn(roles, states', actions', id);
      }
    }
  }

  /** Wherever a run has come to, a request begun can go on to its end: refused,
      or without its row, it changes nothing; passed, it leaves the table it
      asked for, as long as some other account administers the system. */
  lemma RequestRunsItsCourse(roles: Roles, states: seq<State>, actions: seq<Action>, id: nat, admin: nat)
    returns (states': seq<State>, actions': seq<Action>)
    requires Run(roles, states, actions)
    requires id in states[|actions|].pending && states[|actions|].pending[id].Unchecked?
    ensures Run(roles, states', actions') && states <= states' && actions <= actions'
    ensures id !in states'[|actions'|].pending
    ensures var users, p := states[|actions|].users, states[|actions|].pending[id];
            var passed := Authorise(roles, users, p.actor, p.request).Ok?;
            && (!passed || !Writable(users, p.request) ==> states'[|actions'|].users == users)
            && (passed && Writable(users, p.request) && Administers(roles, users, admin)
                && (!p.request.Create? ==> admin != p.request.target) ==>
                  states'[|actions'|].users == Requested(users, p.request))
  {
    var s := states[|actions|];
    var p := s.pending[id];
    states', actions' := GoesOn(roles, states, actions, Check(id));
    if Authorise(roles, s.users, p.actor, p.request).Ok? {
      var s1 := states'[|actions'|];
      if !Writable(s.users, p.request) {
        RequestWithoutItsRow(roles, s1, id, p.request);
      } else if Administers(roles, s.users, admin) && (!p.request.Create? ==> admin != p.request.target) {
        RequestTakesEffect(roles, s1, id, p.request, admin);
      }
      states', actions' := CommitsInTurn(roles, states', actions', id);
    }
  }
}
