/** Conversations, memberships and roles as both stores present them to the service: who is an active
    member of what, with which role. Each service call is one step; the lemmas are about every run. */
module Directory {
  import opened Common

  const MEMBER := 0
  const ADMIN := 1
  const OWNER := 2
  const MAX_NAME_CHARS := 120

  datatype Error =
    | InvalidConversationID | InvalidUserID | InvalidConversation | InvalidMembershipRole
    | Forbidden | LastOwnerGuard
    | ConversationNotFound | MembershipNotFound | MembershipAlreadyExists
    | DatabaseError

  /** `roles` are those of the active memberships only; a soft-deleted conversation is not live. */
  datatype Info = Info(name: string, avatar: string, createdBy: Uuid)
  datatype Group = Group(info: Info, live: bool, roles: map<Uuid, int>)
  datatype Dir = Dir(groups: map<int, Group>, next: int)

  const EMPTY := Dir(map[], 1)

  datatype Call =
    | Create(owner: Uuid, name: string, avatar: string)
    | Get(conversation: int)
    | ListByUser(user: Uuid)
    | Add(actor: Uuid, conversation: int, user: Uuid, role: int)
    | Remove(actor: Uuid, conversation: int, user: Uuid)
    | UpdateRole(actor: Uuid, conversation: int, user: Uuid, role: int)
    | Leave(user: Uuid, conversation: int)
    | Delete(actor: Uuid, conversation: int)
    | ListMembers(actor: Uuid, conversation: int)
    | IsMember(user: Uuid, conversation: int)

  /** A result without membership numbers, timestamps and list order. */
  datatype Reply =
    | Failed(error: Error)
    | Conversation(id: int, info: Info)
    | Conversations(found: map<int, Info>)
    | Membership(conversation: int, user: Uuid, role: int)
    | Members(roles: map<Uuid, int>)
    | Truth(yes: bool)
    | Done

  predicate ValidRole(role: int) {
    role == MEMBER || role == ADMIN || role == OWNER
  }

  // ---------- What the stores are asked ----------

  predicate IsLive(d: Dir, c: int) {
    c in d.groups && d.groups[c].live
  }

  function RoleOf(d: Dir, c: int, u: Uuid): Option<int> {
    if c in d.groups && u in d.groups[c].roles then Some(d.groups[c].roles[u]) else None
  }

  function OwnersIn(roles: map<Uuid, int>): set<Uuid> {
    set u | u in roles && roles[u] == OWNER
  }

  function Owners(d: Dir, c: int): set<Uuid> {
    if c in d.groups then OwnersIn(d.groups[c].roles) else {}
  }

  function Opened(d: Dir, info: Info): Dir {
    Dir(d.groups[d.next := Group(info, true, map[])], d.next + 1)
  }

  function WithRole(d: Dir, c: int, u: Uuid, role: int): Dir
    requires c in d.groups
  {
    d.(groups := d.groups[c := d.groups[c].(roles := d.groups[c].roles[u := role])])
  }

  function WithoutRole(d: Dir, c: int, u: Uuid): Dir
    requires c in d.groups
  {
    d.(groups := d.groups[c := d.groups[c].(roles := d.groups[c].roles - {u})])
  }

  function Closed(d: Dir, c: int): Dir
    requires c in d.groups
  {
    d.(groups := d.groups[c := d.groups[c].(live := false)])
  }

  function Emptied(d: Dir, c: int): Dir {
    if c in d.groups then d.(groups := d.groups[c := d.groups[c].(roles := map[])]) else d
  }

  function GroupsOf(d: Dir, u: Uuid): map<int, Info> {
    map c | c in d.groups && d.groups[c].live && u in d.groups[c].roles :: d.groups[c].info
  }

  // ---------- The service calls ----------

  function Validate(c: int, u: Uuid): Option<Error> {
    if c == 0 then Some(InvalidConversationID)
    else if u == NIL_UUID then Some(InvalidUserID)
    else None
  }

  /** The role with which the actor may act in a live conversation. */
  function ActorRole(d: Dir, c: int, a: Uuid): Result<int, Error> {
    if !IsLive(d, c) then Err(ConversationNotFound)
    else if RoleOf(d, c, a).None? then Err(Forbidden)
    else Ok(RoleOf(d, c, a).value)
  }

  function CreateStep(d: Dir, owner: Uuid, name: string, avatar: string): (Dir, Reply) {
    if owner == NIL_UUID then (d, Failed(InvalidUserID))
    else if |TrimSpace(name)| > MAX_NAME_CHARS then (d, Failed(InvalidConversation))
    else
      var info := Info(TrimSpace(name), TrimSpace(avatar), owner);
      (WithRole(Opened(d, info), d.next, owner, OWNER), Conversation(d.next, info))
  }

  function GetStep(d: Dir, c: int): Reply {
    if c == 0 then Failed(InvalidConversationID)
    else if !IsLive(d, c) then Failed(ConversationNotFound)
    else Conversation(c, d.groups[c].info)
  }

  function AddStep(d: Dir, a: Uuid, c: int, u: Uuid, role: int): (Dir, Reply) {
    if Validate(c, a).Some? then (d, Failed(Validate(c, a).value))
    else if u == NIL_UUID then (d, Failed(InvalidUserID))
    else if !ValidRole(role) then (d, Failed(InvalidMembershipRole))
    else
      var actor := ActorRole(d, c, a);
      if actor.Err? then (d, Failed(actor.error))
      else if actor.value == MEMBER then (d, Failed(Forbidden))
      else if actor.value != OWNER && role != MEMBER then (d, Failed(Forbidden))
      else if RoleOf(d, c, u).Some? then (d, Failed(MembershipAlreadyExists))
      else (WithRole(d, c, u, role), Membership(c, u, role))
  }

  function LeaveStep(d: Dir, u: Uuid, c: int): (Dir, Reply) {
    if Validate(c, u).Some? then (d, Failed(Validate(c, u).value))
    else if RoleOf(d, c, u).None? then (d, Failed(MembershipNotFound))
    else if RoleOf(d, c, u) == Some(OWNER) && |Owners(d, c)| <= 1 then (d, Failed(LastOwnerGuard))
    else (WithoutRole(d, c, u), Done)
  }

  function RemoveStep(d: Dir, a: Uuid, c: int, u: Uuid): (Dir, Reply) {
    if Validate(c, a).Some? then (d, Failed(Validate(c, a).value))
    else if u == NIL_UUID then (d, Failed(InvalidUserID))
    else if a == u then LeaveStep(d, a, c)
    else
      var actor, target := ActorRole(d, c, a), RoleOf(d, c, u);
      if actor.Err? then (d, Failed(actor.error))
      else if target.None? then (d, Failed(MembershipNotFound))
      else if actor.value == MEMBER then (d, Failed(Forbidden))
      else if actor.value == ADMIN && target.value != MEMBER then (d, Failed(Forbidden))
      else if target.value == OWNER && actor.value != OWNER then (d, Failed(Forbidden))
      else if target.value == OWNER && |Owners(d, c)| <= 1 then (d, Failed(LastOwnerGuard))
      else (WithoutRole(d, c, u), Done)
  }

  function UpdateRoleStep(d: Dir, a: Uuid, c: int, u: Uuid, role: int): (Dir, Reply) {
    if Validate(c, a).Some? then (d, Failed(Validate(c, a).value))
    else if u == NIL_UUID then (d, Failed(InvalidUserID))
    else if !ValidRole(role) then (d, Failed(InvalidMembershipRole))
    else
      var actor, target := ActorRole(d, c, a), RoleOf(d, c, u);
      if actor.Err? then (d, Failed(actor.error))
      else if actor.value != OWNER then (d, Failed(Forbidden))
      else if target.None? then (d, Failed(MembershipNotFound))
      else if target.value == role then (d, Membership(c, u, role))
      else if target.value == OWNER && |Owners(d, c)| <= 1 then (d, Failed(LastOwnerGuard))
      else (WithRole(d, c, u, role), Membership(c, u, role))
  }

  function DeleteStep(d: Dir, a: Uuid, c: int): (Dir, Reply) {
    if Validate(c, a).Some? then (d, Failed(Validate(c, a).value))
    else
      var actor := ActorRole(d, c, a);
      if actor.Err? then (d, Failed(actor.error))
      else if actor.value != OWNER then (d, Failed(Forbidden))
      else (Emptied(Closed(d, c), c), Done)
  }

  function ListMembersStep(d: Dir, a: Uuid, c: int): Reply {
    if Validate(c, a).Some? then Failed(Validate(c, a).value)
    else
      var actor := ActorRole(d, c, a);
      if actor.Err? then Failed(actor.error) else Members(d.groups[c].roles)
  }

  function IsMemberStep(d: Dir, u: Uuid, c: int): Reply {
    if Validate(c, u).Some? then Failed(Validate(c, u).value) else Truth(RoleOf(d, c, u).Some?)
  }

  function Step(d: Dir, call: Call): (Dir, Reply) {
    match call
    case Create(owner, name, avatar) => CreateStep(d, owner, name, avatar)
    case Get(c) => (d, GetStep(d, c))
    case ListByUser(u) => (d, if u == NIL_UUID then Failed(InvalidUserID) else Conversations(GroupsOf(d, u)))
    case Add(a, c, u, role) => AddStep(d, a, c, u, role)
    case Remove(a, c, u) => RemoveStep(d, a, c, u)
    case UpdateRole(a, c, u, role) => UpdateRoleStep(d, a, c, u, role)
    case Leave(u, c) => LeaveStep(d, u, c)
    case Delete(a, c) => DeleteStep(d, a, c)
    case ListMembers(a, c) => (d, ListMembersStep(d, a, c))
    case IsMember(u, c) => (d, IsMemberStep(d, u, c))
  }

  function Run(d: Dir, calls: seq<Call>): Dir
    decreases |calls|
  {
    if calls == [] then d else Step(Run(d, calls[..|calls| - 1]), calls[|calls| - 1]).0
  }

  // ---------- What every run keeps ----------

  ghost predicate GroupOk(g: Group) {
    && (forall u :: u in g.roles ==> u != NIL_UUID && ValidRole(g.roles[u]))
    && (g.live ==> exists u :: u in g.roles && g.roles[u] == OWNER)
    && (!g.live ==> g.roles == map[])
    && g.info.createdBy != NIL_UUID && |g.info.name| <= MAX_NAME_CHARS
  }

  /** Every live conversation has an active owner, every deleted one has no active membership,
      and the numbers given out are 1, 2, ... below the counter. */
  ghost predicate Inv(d: Dir) {
    && 1 <= d.next
    && (forall c :: c in d.groups <==> 1 <= c < d.next)
    && (forall c :: c in d.groups ==> GroupOk(d.groups[c]))
  }

  lemma AnotherOwner(owners: set<Uuid>, u: Uuid)
    requires |owners| > 1
    ensures exists v :: v in owners && v != u
  {
    if owners <= {u} {
      SubsetSize(owners, {u});
      assert false;
    }
  }

  lemma {:induction false} SubsetSize(a: set<Uuid>, b: set<Uuid>)
    requires a <= b
    ensures |a| <= |b|
    decreases |a|
  {
    if a != {} {
      var x :| x in a;
      SubsetSize(a - {x}, b - {x});
    }
  }

  lemma SoleOwnerCount(owners: set<Uuid>, u: Uuid)
    requires u in owners
    ensures |owners| <= 1 <==> forall v :: v in owners ==> v == u
  {
    if |owners| > 1 {
      AnotherOwner(owners, u);
    } else {
      forall v | v in owners ensures v == u {
        if v != u { SubsetSize({u, v}, owners); }
      }
    }
  }

  lemma StepKeepsInv(d: Dir, call: Call)
    requires Inv(d)
    ensures Inv(Step(d, call).0) && d.next <= Step(d, call).0.next
  {
    match call
    case Create(owner, name, avatar) => CreateKeepsInv(d, owner, name, avatar);
    case Leave(u, c) => LeaveKeepsInv(d, u, c);
    case Remove(a, c, u) =>
      if a == u { LeaveKeepsInv(d, u, c); } else { RemoveKeepsInv(d, a, c, u); }
    case UpdateRole(a, c, u, role) => UpdateKeepsInv(d, a, c, u, role);
    case Add(a, c, u, role) => AddKeepsInv(d, a, c, u, role);
    case Delete(a, c) => DeleteKeepsInv(d, a, c);
    case _ =>
  }

  lemma CreateKeepsInv(d: Dir, owner: Uuid, name: string, avatar: string)
    requires Inv(d)
    ensures Inv(CreateStep(d, owner, name, avatar).0)
  {
    var d' := CreateStep(d, owner, name, avatar).0;
    if d' != d {
      assert owner in d'.groups[d.next].roles && d'.groups[d.next].roles[owner] == OWNER;
      assert forall c :: c in d.groups ==> d'.groups[c] == d.groups[c];
    }
  }

  lemma AddKeepsInv(d: Dir, a: Uuid, c: int, u: Uuid, role: int)
    requires Inv(d)
    ensures Inv(AddStep(d, a, c, u, role).0)
  {
    var d' := AddStep(d, a, c, u, role).0;
    if d' != d {
      var v :| v in d.groups[c].roles && d.groups[c].roles[v] == OWNER;
      assert d'.groups[c].roles[v] == OWNER;
    }
  }

  lemma DeleteKeepsInv(d: Dir, a: Uuid, c: int)
    requires Inv(d)
    ensures Inv(DeleteStep(d, a, c).0)
  {
  }

  lemma OthersKeep(d: Dir, c: int, u: Uuid)
    requires Inv(d) && c in d.groups && u in d.groups[c].roles
    requires d.groups[c].roles[u] == OWNER ==> |Owners(d, c)| > 1
    ensures exists v :: v in d.groups[c].roles && d.groups[c].roles[v] == OWNER && v != u
  {
    if d.groups[c].roles[u] == OWNER {
      AnotherOwner(Owners(d, c), u);
    } else {
      var v :| v in d.groups[c].roles && d.groups[c].roles[v] == OWNER;
    }
  }

  lemma WithoutKeepsInv(d: Dir, c: int, u: Uuid)
    requires Inv(d) && c in d.groups && u in d.groups[c].roles
    requires d.groups[c].roles[u] == OWNER ==> |Owners(d, c)| > 1
    ensures Inv(WithoutRole(d, c, u))
  {
    OthersKeep(d, c, u);
    var v :| v in d.groups[c].roles && d.groups[c].roles[v] == OWNER && v != u;
    var g := WithoutRole(d, c, u).groups[c];
    assert v in g.roles && g.roles[v] == OWNER;
    assert GroupOk(g);
  }

  lemma LeaveKeepsInv(d: Dir, u: Uuid, c: int)
    requires Inv(d)
    ensures Inv(LeaveStep(d, u, c).0)
  {
    if LeaveStep(d, u, c).0 != d { WithoutKeepsInv(d, c, u); }
  }

  lemma RemoveKeepsInv(d: Dir, a: Uuid, c: int, u: Uuid)
    requires Inv(d) && a != u
    ensures Inv(RemoveStep(d, a, c, u).0)
  {
    if RemoveStep(d, a, c, u).1 == Done { WithoutKeepsInv(d, c, u); }
  }

  lemma UpdateKeepsInv(d: Dir, a: Uuid, c: int, u: Uuid, role: int)
    requires Inv(d)
    ensures Inv(UpdateRoleStep(d, a, c, u, role).0)
  {
    var d' := UpdateRoleStep(d, a, c, u, role).0;
    if d' != d {
      OthersKeep(d, c, u);
      var v :| v in d.groups[c].roles && d.groups[c].roles[v] == OWNER && v != u;
      assert v in d'.groups[c].roles && d'.groups[c].roles[v] == OWNER;
      assert GroupOk(d'.groups[c]);
    }
  }

  lemma {:induction false} RunKeepsInv(calls: seq<Call>)
    ensures Inv(Run(EMPTY, calls))
    decreases |calls|
  {
    if calls != [] {
      RunKeepsInv(calls[..|calls| - 1]);
      StepKeepsInv(Run(EMPTY, calls[..|calls| - 1]), calls[|calls| - 1]);
    }
  }

  // ---------- Who may do what ----------

  ghost predicate SoleOwner(d: Dir, c: int, u: Uuid) {
    RoleOf(d, c, u) == Some(OWNER) && forall v :: RoleOf(d, c, v) == Some(OWNER) ==> v == u
  }

  /** An owner may give any role; an admin may only bring in plain members. */
  predicate MayGrant(actor: Option<int>, role: int) {
    actor == Some(OWNER) || (actor == Some(ADMIN) && role == MEMBER)
  }

  /** The rules of the service, stated on their own: which calls succeed. */
  ghost predicate Permitted(d: Dir, call: Call) {
    match call
    case Create(owner, name, _) => owner != NIL_UUID && |TrimSpace(name)| <= MAX_NAME_CHARS
    case Get(c) => IsLive(d, c)
    case ListByUser(u) => u != NIL_UUID
    case Add(a, c, u, role) =>
      u != NIL_UUID && ValidRole(role) && MayGrant(RoleOf(d, c, a), role) && RoleOf(d, c, u).None?
    case Remove(a, c, u) =>
      if a == u then RoleOf(d, c, u).Some? && !SoleOwner(d, c, u)
      else RoleOf(d, c, u).Some? && MayGrant(RoleOf(d, c, a), RoleOf(d, c, u).value)
    case UpdateRole(a, c, u, role) =>
      && ValidRole(role) && RoleOf(d, c, a) == Some(OWNER) && RoleOf(d, c, u).Some?
      && (SoleOwner(d, c, u) ==> role == OWNER)
    case Leave(u, c) => RoleOf(d, c, u).Some? && !SoleOwner(d, c, u)
    case Delete(a, c) => RoleOf(d, c, a) == Some(OWNER)
    case ListMembers(a, c) => RoleOf(d, c, a).Some?
    case IsMember(u, c) => c != 0 && u != NIL_UUID
  }

  lemma SoleOwnerIff(d: Dir, c: int, u: Uuid)
    requires RoleOf(d, c, u) == Some(OWNER)
    ensures SoleOwner(d, c, u) <==> |Owners(d, c)| <= 1
  {
    SoleOwnerCount(Owners(d, c), u);
    assert forall v :: v in Owners(d, c) <==> RoleOf(d, c, v) == Some(OWNER);
  }

  /** In every reachable state a call succeeds exactly when the rules permit it, and a call that
      fails changes nothing. In particular the last-owner guard of RemoveMember never fires
      against another user: removing an owner takes a second owner. */
  lemma GuardsExact(d: Dir, call: Call)
    requires Inv(d)
    ensures !Step(d, call).1.Failed? <==> Permitted(d, call)
    ensures Step(d, call).1.Failed? ==> Step(d, call).0 == d
    ensures call.Remove? && call.actor != call.user ==> Step(d, call).1 != Failed(LastOwnerGuard)
  {
    match call
    case Leave(u, c) =>
      if RoleOf(d, c, u) == Some(OWNER) { SoleOwnerIff(d, c, u); }
    case Remove(a, c, u) =>
      if RoleOf(d, c, u) == Some(OWNER) {
        SoleOwnerIff(d, c, u);
        if RoleOf(d, c, a) == Some(OWNER) { SoleOwnerIff(d, c, a); }
      }
    case UpdateRole(a, c, u, role) =>
      if RoleOf(d, c, u) == Some(OWNER) { SoleOwnerIff(d, c, u); }
    case _ =>
  }

  // ---------- What a call does, seen from outside ----------

  function InfoAt(d: Dir, c: int): Option<Info> {
    if c in d.groups then Some(d.groups[c].info) else None
  }

  /** Only the role of u in c may differ. */
  ghost predicate RolesSameBut(d: Dir, t: Dir, c: int, u: Uuid) {
    forall x, v :: x != c || v != u ==> RoleOf(t, x, v) == RoleOf(d, x, v)
  }

  /** The same conversations, alive or deleted alike, with the same descriptions. */
  ghost predicate SameConversations(d: Dir, t: Dir) {
    && t.next == d.next
    && forall x :: IsLive(t, x) == IsLive(d, x) && InfoAt(t, x) == InfoAt(d, x)
  }

  /** What a successful call leaves and answers, told by liveness, descriptions, roles and the id
      counter alone. */
  ghost predicate Effect(d: Dir, call: Call, t: Dir, reply: Reply) {
    match call
    case Create(owner, name, avatar) =>
      && t.next == d.next + 1 && IsLive(t, d.next)
      && (forall x :: x != d.next ==> IsLive(t, x) == IsLive(d, x) && InfoAt(t, x) == InfoAt(d, x))
      && (forall x, v :: RoleOf(t, x, v) == if x != d.next then RoleOf(d, x, v) else if v == owner then Some(OWNER) else None)
      && InfoAt(t, d.next).Some? && InfoAt(t, d.next).value.createdBy == owner
      && InfoAt(t, d.next).value.name == TrimSpace(name) && InfoAt(t, d.next).value.avatar == TrimSpace(avatar)
      && reply.Conversation? && reply.id == d.next && Some(reply.info) == InfoAt(t, d.next)
    case Get(c) => t == d && reply.Conversation? && reply.id == c && Some(reply.info) == InfoAt(d, c)
    case ListByUser(u) =>
      && t == d && reply.Conversations?
      && (forall x :: x in reply.found <==> IsLive(d, x) && RoleOf(d, x, u).Some?)
      && forall x :: x in reply.found ==> Some(reply.found[x]) == InfoAt(d, x)
    case Add(_, c, u, role) =>
      && SameConversations(d, t) && RolesSameBut(d, t, c, u) && RoleOf(t, c, u) == Some(role)
      && reply.Membership? && reply.conversation == c && reply.user == u && reply.role == role
    case UpdateRole(_, c, u, role) =>
      && SameConversations(d, t) && RolesSameBut(d, t, c, u) && RoleOf(t, c, u) == Some(role)
      && reply.Membership? && reply.conversation == c && reply.user == u && reply.role == role
    case Remove(_, c, u) => SameConversations(d, t) && RolesSameBut(d, t, c, u) && RoleOf(t, c, u) == None && reply == Done
    case Leave(u, c) => SameConversations(d, t) && RolesSameBut(d, t, c, u) && RoleOf(t, c, u) == None && reply == Done
    case Delete(_, c) =>
      && t.next == d.next && !IsLive(t, c) && (forall v :: RoleOf(t, c, v) == None)
      && (forall x :: InfoAt(t, x) == InfoAt(d, x) && (x != c ==> IsLive(t, x) == IsLive(d, x)))
      && (forall x, v :: x != c ==> RoleOf(t, x, v) == RoleOf(d, x, v))
      && reply == Done
    case ListMembers(_, c) =>
      t == d && reply.Members? && forall v :: RoleOf(d, c, v) == if v in reply.roles then Some(reply.roles[v]) else None
    case IsMember(u, c) => t == d && reply.Truth? && (reply.yes <==> RoleOf(d, c, u).Some?)
  }

  lemma CreateEffect(d: Dir, call: Call)
    requires Inv(d) && call.Create? && !Step(d, call).1.Failed?
    ensures Effect(d, call, Step(d, call).0, Step(d, call).1)
  {
    assert d.next !in d.groups;
  }

  lemma GrantEffect(d: Dir, call: Call)
    requires Inv(d) && (call.Add? || call.UpdateRole?) && !Step(d, call).1.Failed?
    ensures Effect(d, call, Step(d, call).0, Step(d, call).1)
  {
  }

  lemma EndEffect(d: Dir, call: Call)
    requires Inv(d) && (call.Remove? || call.Leave?) && !Step(d, call).1.Failed?
    ensures Effect(d, call, Step(d, call).0, Step(d, call).1)
  {
  }

  lemma DeleteEffect(d: Dir, call: Call)
    requires Inv(d) && call.Delete? && !Step(d, call).1.Failed?
    ensures Effect(d, call, Step(d, call).0, Step(d, call).1)
  {
  }

  lemma ReadEffect(d: Dir, call: Call)
    requires Inv(d) && !Step(d, call).1.Failed?
    requires call.Get? || call.ListByUser? || call.ListMembers? || call.IsMember?
    ensures Effect(d, call, Step(d, call).0, Step(d, call).1)
  {
  }

  /** In every reachable state a call that succeeds has exactly its effect. */
  lemma CallEffect(d: Dir, call: Call)
    requires Inv(d) && !Step(d, call).1.Failed?
    ensures Effect(d, call, Step(d, call).0, Step(d, call).1)
  {
    match call
    case Create(_, _, _) => CreateEffect(d, call);
    case Add(_, _, _, _) => GrantEffect(d, call);
    case UpdateRole(_, _, _, _) => GrantEffect(d, call);
    case Remove(_, _, _) => EndEffect(d, call);
    case Leave(_, _) => EndEffect(d, call);
    case Delete(_, _) => DeleteEffect(d, call);
    case _ => ReadEffect(d, call);
  }

  // ---------- Which error a refused call gets ----------

  /** The conversation a call names and whether its caller must be an active member of it. */
  predicate NeedsActor(call: Call) {
    match call
    case Add(_, _, _, _) => true
    case Remove(a, _, u) => a != u
    case UpdateRole(_, _, _, _) => true
    case Delete(_, _) => true
    case ListMembers(_, _) => true
    case _ => false
  }

  function ConversationOf(call: Call): Option<int> {
    match call
    case Create(_, _, _) => None
    case Get(c) => Some(c)
    case ListByUser(_) => None
    case Add(_, c, _, _) => Some(c)
    case Remove(_, c, _) => Some(c)
    case UpdateRole(_, c, _, _) => Some(c)
    case Leave(_, c) => Some(c)
    case Delete(_, c) => Some(c)
    case ListMembers(_, c) => Some(c)
    case IsMember(_, c) => Some(c)
  }

  predicate NilUser(call: Call) {
    match call
    case Create(owner, _, _) => owner == NIL_UUID
    case Get(_) => false
    case ListByUser(u) => u == NIL_UUID
    case Add(a, _, u, _) => a == NIL_UUID || u == NIL_UUID
    case Remove(a, _, u) => a == NIL_UUID || u == NIL_UUID
    case UpdateRole(a, _, u, _) => a == NIL_UUID || u == NIL_UUID
    case Leave(u, _) => u == NIL_UUID
    case Delete(a, _) => a == NIL_UUID
    case ListMembers(a, _) => a == NIL_UUID
    case IsMember(u, _) => u == NIL_UUID
  }

  predicate BadRole(call: Call) {
    match call
    case Add(_, _, _, role) => role != 0 && role != 1 && role != 2
    case UpdateRole(_, _, _, role) => role != 0 && role != 1 && role != 2
    case _ => false
  }

  /** Well-formed arguments: a conversation number where one is asked for, users, a role. */
  predicate WellFormed(call: Call) {
    ConversationOf(call) != Some(0) && !NilUser(call) && !BadRole(call)
  }

  /** The actor is in the conversation, but his role does not cover the call. */
  ghost predicate RoleTooLow(d: Dir, call: Call) {
    match call
    case Add(a, c, _, role) => RoleOf(d, c, a).Some? && !MayGrant(RoleOf(d, c, a), role)
    case Remove(a, c, u) =>
      a != u && RoleOf(d, c, a).Some? && RoleOf(d, c, u).Some? && !MayGrant(RoleOf(d, c, a), RoleOf(d, c, u).value)
    case UpdateRole(a, c, _, _) => RoleOf(d, c, a).Some? && RoleOf(d, c, a) != Some(OWNER)
    case Delete(a, c) => RoleOf(d, c, a).Some? && RoleOf(d, c, a) != Some(OWNER)
    case _ => false
  }

  /** The member that the call is about is not there. */
  ghost predicate TargetMissing(d: Dir, call: Call) {
    match call
    case Remove(a, c, u) => RoleOf(d, c, u).None? && (a == u || RoleOf(d, c, a).Some?)
    case UpdateRole(a, c, u, _) => RoleOf(d, c, u).None? && RoleOf(d, c, a) == Some(OWNER)
    case Leave(u, c) => RoleOf(d, c, u).None?
    case _ => false
  }

  /** The call would take the last owner away. */
  ghost predicate TakesLastOwner(d: Dir, call: Call) {
    match call
    case Remove(a, c, u) => a == u && SoleOwner(d, c, u)
    case UpdateRole(a, c, u, role) => a == u && SoleOwner(d, c, u) && role != OWNER
    case Leave(u, c) => SoleOwner(d, c, u)
    case _ => false
  }

  ghost predicate Gone(d: Dir, call: Call) {
    (call.Get? || NeedsActor(call)) && !IsLive(d, ConversationOf(call).value)
  }

  ghost predicate Outsider(d: Dir, call: Call) {
    NeedsActor(call) && IsLive(d, ConversationOf(call).value) && RoleOf(d, ConversationOf(call).value, ActorOf(call)).None?
  }

  /** When each error is given, stated on its own. */
  ghost predicate Deserves(d: Dir, call: Call, e: Error) {
    match e
    case InvalidConversationID => ConversationOf(call) == Some(0)
    case InvalidUserID => ConversationOf(call) != Some(0) && NilUser(call)
    case InvalidMembershipRole => ConversationOf(call) != Some(0) && !NilUser(call) && BadRole(call)
    case InvalidConversation => call.Create? && WellFormed(call) && |TrimSpace(call.name)| > 120
    case ConversationNotFound => WellFormed(call) && Gone(d, call)
    case Forbidden => WellFormed(call) && (Outsider(d, call) || RoleTooLow(d, call))
    case MembershipNotFound => WellFormed(call) && TargetMissing(d, call)
    case MembershipAlreadyExists =>
      call.Add? && WellFormed(call) && MayGrant(RoleOf(d, call.conversation, call.actor), call.role)
      && RoleOf(d, call.conversation, call.user).Some?
    case LastOwnerGuard => WellFormed(call) && TakesLastOwner(d, call)
    case DatabaseError => false
  }

  lemma LeaveErrorIff(d: Dir, u: Uuid, c: int, e: Error)
    requires Inv(d)
    ensures LeaveStep(d, u, c).1 == Failed(e) <==> Deserves(d, Leave(u, c), e)
  {
    if RoleOf(d, c, u) == Some(OWNER) { SoleOwnerIff(d, c, u); }
  }

  lemma RemoveErrorIff(d: Dir, call: Call, e: Error)
    requires Inv(d) && call.Remove?
    ensures Step(d, call).1 == Failed(e) <==> Deserves(d, call, e)
  {
    var a, c, u := call.actor, call.conversation, call.user;
    if a == u {
      LeaveErrorIff(d, u, c, e);
    } else if RoleOf(d, c, u) == Some(OWNER) && RoleOf(d, c, a) == Some(OWNER) {
      SoleOwnerIff(d, c, u);
    }
  }

  lemma UpdateErrorIff(d: Dir, call: Call, e: Error)
    requires Inv(d) && call.UpdateRole?
    ensures Step(d, call).1 == Failed(e) <==> Deserves(d, call, e)
  {
    var a, c, u := call.actor, call.conversation, call.user;
    if RoleOf(d, c, u) == Some(OWNER) { SoleOwnerIff(d, c, u); }
  }

  lemma AddErrorIff(d: Dir, call: Call, e: Error)
    requires Inv(d) && call.Add?
    ensures Step(d, call).1 == Failed(e) <==> Deserves(d, call, e)
  {
  }

  lemma OtherErrorIff(d: Dir, call: Call, e: Error)
    requires Inv(d) && !call.Add? && !call.Remove? && !call.UpdateRole? && !call.Leave?
    ensures Step(d, call).1 == Failed(e) <==> Deserves(d, call, e)
  {
  }

  /** In every reachable state a call gets an error exactly when it deserves it. */
  lemma ErrorIff(d: Dir, call: Call, e: Error)
    requires Inv(d)
    ensures Step(d, call).1 == Failed(e) <==> Deserves(d, call, e)
  {
    match call
    case Leave(u, c) => LeaveErrorIff(d, u, c, e);
    case Remove(_, _, _) => RemoveErrorIff(d, call, e);
    case UpdateRole(_, _, _, _) => UpdateErrorIff(d, call, e);
    case Add(_, _, _, _) => AddErrorIff(d, call, e);
    case _ => OtherErrorIff(d, call, e);
  }

  function ActorOf(call: Call): Uuid {
    match call
    case Create(owner, _, _) => owner
    case Get(_) => NIL_UUID
    case ListByUser(u) => u
    case Add(a, _, _, _) => a
    case Remove(a, _, _) => a
    case UpdateRole(a, _, _, _) => a
    case Leave(u, _) => u
    case Delete(a, _) => a
    case ListMembers(a, _) => a
    case IsMember(u, _) => u
  }

  /** What a step changes is bounded by the role its actor has in the conversation: an outsider
      changes nothing there (but for opening a new one), a plain member can only leave, and an
      admin can only leave or bring in and remove plain members. */
  lemma StepWithinRole(d: Dir, call: Call, c: int, u: Uuid)
    requires Inv(d) && RoleOf(Step(d, call).0, c, u) != RoleOf(d, c, u)
    ensures var a, before, now := ActorOf(call), RoleOf(d, c, u), RoleOf(Step(d, call).0, c, u);
      match RoleOf(d, c, a)
      case None => call.Create? && c == d.next && u == a && now == Some(OWNER)
      case Some(role) =>
        && (role == MEMBER ==> u == a && now == None)
        && (role == ADMIN ==>
              (u == a && now == None) || (before == None && now == Some(MEMBER)) || (before == Some(MEMBER) && now == None))
  {
    assert forall x :: x in d.groups ==> x < d.next;
  }

  // ---------- Where privilege comes from ----------

  predicate HasRole(d: Dir, c: int, u: Uuid, role: int) {
    RoleOf(d, c, u) == Some(role)
  }

  /** The call opens conversation c for u as its creator, or is the giving of this very role to u
      by someone who is an active owner of c at that moment. */
  predicate Grants(d: Dir, call: Call, c: int, u: Uuid, role: int) {
    match call
    case Create(owner, _, _) => c == d.next && u == owner && role == OWNER
    case Add(a, c', u', role') => c' == c && u' == u && role' == role && HasRole(d, c, a, OWNER)
    case UpdateRole(a, c', u', role') => c' == c && u' == u && role' == role && HasRole(d, c, a, OWNER)
    case _ => false
  }

  lemma NewPrivilegeIsGranted(d: Dir, call: Call, c: int, u: Uuid, role: int)
    requires Inv(d) && role != MEMBER
    requires HasRole(Step(d, call).0, c, u, role) && !HasRole(d, c, u, role)
    ensures Grants(d, call, c, u, role)
  {
    StepWithinRole(d, call, c, u);
  }

  ghost predicate GrantedAt(calls: seq<Call>, j: nat, c: int, u: Uuid, role: int)
    requires j < |calls|
  {
    && Grants(Run(EMPTY, calls[..j]), calls[j], c, u, role)
    && forall k :: j < k <= |calls| ==> HasRole(Run(EMPTY, calls[..k]), c, u, role)
  }

  /** Over every run: a role of admin or owner held now was granted by some earlier step and has
      been held without interruption since. */
  lemma {:induction false} Provenance(calls: seq<Call>, c: int, u: Uuid, role: int)
    requires HasRole(Run(EMPTY, calls), c, u, role) && role != MEMBER
    ensures exists j :: 0 <= j < |calls| && GrantedAt(calls, j, c, u, role)
    decreases |calls|
  {
    var n := |calls| - 1;
    var init := calls[..n];
    assert calls[..|calls|] == calls;
    RunKeepsInv(init);
    if HasRole(Run(EMPTY, init), c, u, role) {
      Provenance(init, c, u, role);
      var j :| 0 <= j < n && GrantedAt(init, j, c, u, role);
      assert forall k :: 0 <= k <= n ==> init[..k] == calls[..k];
      assert GrantedAt(calls, j, c, u, role);
    } else {
      NewPrivilegeIsGranted(Run(EMPTY, init), calls[n], c, u, role);
      assert GrantedAt(calls, n, c, u, role);
    }
  }
}
