/** The conversation service over either store. Each call is proved to be one step of the directory,
    whichever store is underneath; so the two stores cannot be told apart through the service. */
module ConversationService {
  import opened Common
  import opened Directory
  import opened ConversationRecords
  import opened MemoryConversations
  import opened PostgresConversations

  /** The repository interface, with its two implementations. */
  datatype RepoRef = Memory(m: MemoryRepo) | Postgres(p: PostgresRepo) {

    ghost function Objects(): set<object> {
      if Memory? then {m} else {p}
    }

    ghost predicate Valid()
      reads Objects()
    {
      if Memory? then m.Valid() else p.Valid()
    }

    ghost function View(): Dir
      requires Valid()
      reads Objects()
    {
      if Memory? then m.View() else p.View()
    }

    /** The stores differ on names over 120 characters, which the service does not let through. */
    method CreateConversation(info: Info, now: Time) returns (r: Result<ConversationRow, Error>)
      requires Valid()
      modifies Objects()
      ensures Valid()
      ensures |info.name| <= MAX_NAME_CHARS ==>
        r == Ok(ConversationRow(old(View()).next, info.name, info.avatar, info.createdBy, now, now, None))
      ensures |info.name| <= MAX_NAME_CHARS ==> View() == Opened(old(View()), info)
    {
      if Memory? {
        var saved := m.CreateConversation(info, now);
        r := Ok(saved);
      } else {
        r := p.CreateConversation(info, now);
      }
    }

    method GetConversationByID(c: int) returns (r: Result<ConversationRow, Error>)
      requires Valid()
      ensures r.Ok? <==> IsLive(View(), c)
      ensures r.Ok? ==> r.value.id == c && InfoOf(r.value) == View().groups[c].info
      ensures r.Err? ==> r.error == ConversationNotFound
    {
      if Memory? {
        r := m.GetConversationByID(c);
      } else {
        r := p.GetConversationByID(c);
      }
    }

    method ListConversationsByUser(u: Uuid) returns (rows: seq<ConversationRow>)
      requires Valid()
      ensures ListsConversations(rows, GroupsOf(View(), u))
    {
      if Memory? {
        rows := m.ListConversationsByUser(u);
      } else {
        rows := p.ListConversationsByUser(u);
      }
    }

    method SoftDeleteConversation(c: int, now: Time) returns (error: Option<Error>)
      requires Valid()
      modifies Objects()
      ensures Valid() && error == if IsLive(old(View()), c) then None else Some(ConversationNotFound)
      ensures View() == if IsLive(old(View()), c) then Closed(old(View()), c) else old(View())
    {
      if Memory? {
        error := m.SoftDeleteConversation(c, now);
      } else {
        error := p.SoftDeleteConversation(c, now);
      }
    }

    /** The stores agree on live conversations and valid roles; see module StoreAgreement. */
    method CreateMembership(c: int, u: Uuid, role: int, now: Time) returns (r: Result<MembershipRow, Error>)
      requires Valid()
      modifies Objects()
      ensures Valid()
      ensures View() == if r.Ok? then (if c in old(View()).groups then WithRole(old(View()), c, u, role) else View())
                        else old(View())
      ensures IsLive(old(View()), c) && ValidRole(role) ==>
        if RoleOf(old(View()), c, u).Some? then r == Err(MembershipAlreadyExists)
        else r.Ok? && r.value.conversation == c && r.value.user == u && r.value.role == role
    {
      if Memory? {
        r := m.CreateMembership(c, u, role, now);
      } else {
        r := p.CreateMembership(c, u, role, now);
      }
    }

    method GetMembership(c: int, u: Uuid) returns (r: Result<MembershipRow, Error>)
      requires Valid()
      ensures r.Ok? <==> RoleOf(View(), c, u).Some?
      ensures r.Ok? ==> r.value.conversation == c && r.value.user == u && Some(r.value.role) == RoleOf(View(), c, u)
      ensures r.Err? ==> r.error == MembershipNotFound
    {
      if Memory? {
        r := m.GetMembership(c, u);
      } else {
        r := p.GetMembership(c, u);
      }
    }

    method ListMemberships(c: int) returns (r: Result<seq<MembershipRow>, Error>)
      requires Valid()
      ensures if IsLive(View(), c) then r.Ok? && ListsMembers(r.value, c, View().groups[c].roles)
              else r == Err(ConversationNotFound)
    {
      if Memory? {
        r := m.ListMemberships(c);
      } else {
        r := p.ListMemberships(c);
      }
    }

    method UpdateMembershipRole(c: int, u: Uuid, role: int) returns (r: Result<MembershipRow, Error>)
      requires Valid()
      modifies Objects()
      ensures Valid()
      ensures RoleOf(old(View()), c, u).None? ==> r == Err(MembershipNotFound)
      ensures RoleOf(old(View()), c, u).Some? && ValidRole(role) ==>
        r.Ok? && r.value.conversation == c && r.value.user == u && r.value.role == role
      ensures r.Ok? ==> RoleOf(old(View()), c, u).Some?
      ensures View() == if r.Ok? then WithRole(old(View()), c, u, role) else old(View())
    {
      if Memory? {
        r := m.UpdateMembershipRole(c, u, role);
      } else {
        r := p.UpdateMembershipRole(c, u, role);
      }
    }

    method SoftDeleteMembership(c: int, u: Uuid, now: Time) returns (error: Option<Error>)
      requires Valid()
      modifies Objects()
      ensures Valid()
      ensures error == if RoleOf(old(View()), c, u).Some? then None else Some(MembershipNotFound)
      ensures View() == if error.None? then WithoutRole(old(View()), c, u) else old(View())
    {
      if Memory? {
        error := m.SoftDeleteMembership(c, u, now);
      } else {
        error := p.SoftDeleteMembership(c, u, now);
      }
    }

    method SoftDeleteMembershipsByConversation(c: int, now: Time)
      requires Valid()
      modifies Objects()
      ensures Valid() && View() == Emptied(old(View()), c)
    {
      if Memory? {
        m.SoftDeleteMembershipsByConversation(c, now);
      } else {
        p.SoftDeleteMembershipsByConversation(c, now);
      }
    }

    method CountOwners(c: int) returns (count: nat)
      requires Valid()
      ensures count == |Owners(View(), c)|
    {
      if Memory? {
        count := m.CountOwners(c);
      } else {
        count := p.CountOwners(c);
      }
    }
  }

  // ---------- Results without numbers of memberships, times and order ----------

  function ConversationReply(r: Result<ConversationRow, Error>): Reply {
    if r.Ok? then Conversation(r.value.id, InfoOf(r.value)) else Failed(r.error)
  }

  function MembershipReply(r: Result<MembershipRow, Error>): Reply {
    if r.Ok? then Membership(r.value.conversation, r.value.user, r.value.role) else Failed(r.error)
  }

  function ErrorReply(error: Option<Error>): Reply {
    if error.None? then Done else Failed(error.value)
  }

  class Service {
    const repo: RepoRef

    constructor (repo: RepoRef)
      ensures this.repo == repo
    {
      this.repo := repo;
    }

    /** The clean-up branch after a failed CreateMembership is never entered: the conversation has
        just been opened, is live and has no member yet. */
    method CreateConversation(owner: Uuid, name: string, avatar: string, now: Time) returns (r: Result<ConversationRow, Error>)
      requires repo.Valid()
      modifies repo.Objects()
      ensures repo.Valid() && (repo.View(), ConversationReply(r)) == CreateStep(old(repo.View()), owner, name, avatar)
    {
      if owner == NIL_UUID {
        return Err(InvalidUserID);
      }
      var normalizedName := TrimSpace(name);
      if |normalizedName| > MAX_NAME_CHARS {
        return Err(InvalidConversation);
      }
      r := repo.CreateConversation(Info(normalizedName, TrimSpace(avatar), owner), now);
      if r.Err? {
        return;
      }
      var membership := repo.CreateMembership(r.value.id, owner, OWNER, now);
      if membership.Err? {
        assert false;
      }
    }

    method GetConversationByID(c: int) returns (r: Result<ConversationRow, Error>)
      requires repo.Valid()
      ensures ConversationReply(r) == GetStep(repo.View(), c)
    {
      if c == 0 {
        return Err(InvalidConversationID);
      }
      r := repo.GetConversationByID(c);
    }

    method ListConversationsByUser(u: Uuid) returns (r: Result<seq<ConversationRow>, Error>)
      requires repo.Valid()
      ensures if u == NIL_UUID then r == Err(InvalidUserID)
              else r.Ok? && ListsConversations(r.value, GroupsOf(repo.View(), u))
    {
      if u == NIL_UUID {
        return Err(InvalidUserID);
      }
      var rows := repo.ListConversationsByUser(u);
      r := Ok(rows);
    }

    method RequireActorMembership(c: int, a: Uuid) returns (r: Result<MembershipRow, Error>)
      requires repo.Valid()
      ensures r.Ok? <==> ActorRole(repo.View(), c, a).Ok?
      ensures r.Ok? ==> r.value.role == ActorRole(repo.View(), c, a).value
      ensures r.Err? ==> r.error == ActorRole(repo.View(), c, a).error
    {
      var conversation := repo.GetConversationByID(c);
      if conversation.Err? {
        return Err(conversation.error);
      }
      r := repo.GetMembership(c, a);
      if r.Err? && r.error == MembershipNotFound {
        return Err(Forbidden);
      }
    }

    method AddMember(a: Uuid, c: int, u: Uuid, role: int, now: Time) returns (r: Result<MembershipRow, Error>)
      requires repo.Valid()
      modifies repo.Objects()
      ensures repo.Valid() && (repo.View(), MembershipReply(r)) == AddStep(old(repo.View()), a, c, u, role)
    {
      if Validate(c, a).Some? {
        return Err(Validate(c, a).value);
      }
      if u == NIL_UUID {
        return Err(InvalidUserID);
      }
      if !ValidRole(role) {
        return Err(InvalidMembershipRole);
      }
      var actor := RequireActorMembership(c, a);
      if actor.Err? {
        return Err(actor.error);
      }
      if actor.value.role == MEMBER {
        return Err(Forbidden);
      }
      if actor.value.role != OWNER && role != MEMBER {
        return Err(Forbidden);
      }
      var present := repo.GetMembership(c, u);
      match present {
        case Ok(_) => return Err(MembershipAlreadyExists);
        case Err(e) => if e != MembershipNotFound { return Err(e); }
      }
      r := repo.CreateMembership(c, u, role, now);
    }

    method RemoveMember(a: Uuid, c: int, u: Uuid, now: Time) returns (error: Option<Error>)
      requires repo.Valid()
      modifies repo.Objects()
      ensures repo.Valid() && (repo.View(), ErrorReply(error)) == RemoveStep(old(repo.View()), a, c, u)
    {
      if Validate(c, a).Some? {
        return Validate(c, a);
      }
      if u == NIL_UUID {
        return Some(InvalidUserID);
      }
      if a == u {
        error := LeaveConversation(a, c, now);
        return;
      }
      var actor := RequireActorMembership(c, a);
      if actor.Err? {
        return Some(actor.error);
      }
      var target := repo.GetMembership(c, u);
      if target.Err? {
        return Some(target.error);
      }
      if actor.value.role == MEMBER {
        return Some(Forbidden);
      }
      if actor.value.role == ADMIN && target.value.role != MEMBER {
        return Some(Forbidden);
      }
      if target.value.role == OWNER {
        if actor.value.role != OWNER {
          return Some(Forbidden);
        }
        var owners := repo.CountOwners(c);
        if owners <= 1 {
          return Some(LastOwnerGuard);
        }
      }
      error := repo.SoftDeleteMembership(c, u, now);
    }

    method UpdateMemberRole(a: Uuid, c: int, u: Uuid, role: int) returns (r: Result<MembershipRow, Error>)
      requires repo.Valid()
      modifies repo.Objects()
      ensures repo.Valid() && (repo.View(), MembershipReply(r)) == UpdateRoleStep(old(repo.View()), a, c, u, role)
    {
      if Validate(c, a).Some? {
        return Err(Validate(c, a).value);
      }
      if u == NIL_UUID {
        return Err(InvalidUserID);
      }
      if !ValidRole(role) {
        return Err(InvalidMembershipRole);
      }
      var actor := RequireActorMembership(c, a);
      if actor.Err? {
        return Err(actor.error);
      }
      if actor.value.role != OWNER {
        return Err(Forbidden);
      }
      var target := repo.GetMembership(c, u);
      if target.Err? || target.value.role == role {
        return target;
      }
      if target.value.role == OWNER && role != OWNER {
        var owners := repo.CountOwners(c);
        if owners <= 1 {
          return Err(LastOwnerGuard);
        }
      }
      r := repo.UpdateMembershipRole(c, u, role);
    }

    method LeaveConversation(u: Uuid, c: int, now: Time) returns (error: Option<Error>)
      requires repo.Valid()
      modifies repo.Objects()
      ensures repo.Valid() && (repo.View(), ErrorReply(error)) == LeaveStep(old(repo.View()), u, c)
    {
      if Validate(c, u).Some? {
        return Validate(c, u);
      }
      var membership := repo.GetMembership(c, u);
      if membership.Err? {
        return Some(membership.error);
      }
      if membership.value.role == OWNER {
        var owners := repo.CountOwners(c);
        if owners <= 1 {
          return Some(LastOwnerGuard);
        }
      }
      error := repo.SoftDeleteMembership(c, u, now);
    }

    method DeleteConversation(a: Uuid, c: int, now: Time) returns (error: Option<Error>)
      requires repo.Valid()
      modifies repo.Objects()
      ensures repo.Valid() && (repo.View(), ErrorReply(error)) == DeleteStep(old(repo.View()), a, c)
    {
      if Validate(c, a).Some? {
        return Validate(c, a);
      }
      var actor := RequireActorMembership(c, a);
      if actor.Err? {
        return Some(actor.error);
      }
      if actor.value.role != OWNER {
        return Some(Forbidden);
      }
      error := repo.SoftDeleteConversation(c, now);
      if error.Some? {
        return;
      }
      repo.SoftDeleteMembershipsByConversation(c, now);
    }

    method ListMembers(a: Uuid, c: int) returns (r: Result<seq<MembershipRow>, Error>)
      requires repo.Valid()
      ensures var reply := ListMembersStep(repo.View(), a, c);
        if reply.Failed? then r == Err(reply.error) else r.Ok? && ListsMembers(r.value, c, reply.roles)
    {
      if Validate(c, a).Some? {
        return Err(Validate(c, a).value);
      }
      var actor := RequireActorMembership(c, a);
      if actor.Err? {
        return Err(actor.error);
      }
      r := repo.ListMemberships(c);
    }

    method IsMember(u: Uuid, c: int) returns (r: Result<bool, Error>)
      requires repo.Valid()
      ensures IsMemberStep(repo.View(), u, c) == if r.Ok? then Truth(r.value) else Failed(r.error)
    {
      if Validate(c, u).Some? {
        return Err(Validate(c, u).value);
      }
      var membership := repo.GetMembership(c, u);
      match membership {
        case Ok(_) => r := Ok(true);
        case Err(e) =>
          if e == MembershipNotFound {
            return Ok(false);
          }
          if e == ConversationNotFound {
            return Ok(false);
          }
          return Err(e);
      }
    }

    /** One call, with its result stripped of what the stores may choose freely. */
    method Execute(call: Call, now: Time) returns (reply: Reply)
      requires repo.Valid()
      modifies repo.Objects()
      ensures repo.Valid() && (repo.View(), reply) == Step(old(repo.View()), call)
    {
      match call
      case Create(owner, name, avatar) =>
        var r := CreateConversation(owner, name, avatar, now);
        reply := ConversationReply(r);
      case Get(c) =>
        var r := GetConversationByID(c);
        reply := ConversationReply(r);
      case ListByUser(u) =>
        var r := ListConversationsByUser(u);
        if r.Err? {
          reply := Failed(r.error);
        } else {
          ConversationsByIdExact(r.value, GroupsOf(repo.View(), u));
          reply := Conversations(ConversationsById(r.value));
        }
      case Add(a, c, u, role) =>
        var r := AddMember(a, c, u, role, now);
        reply := MembershipReply(r);
      case Remove(a, c, u) =>
        var e := RemoveMember(a, c, u, now);
        reply := ErrorReply(e);
      case UpdateRole(a, c, u, role) =>
        var r := UpdateMemberRole(a, c, u, role);
        reply := MembershipReply(r);
      case Leave(u, c) =>
        var e := LeaveConversation(u, c, now);
        reply := ErrorReply(e);
      case Delete(a, c) =>
        var e := DeleteConversation(a, c, now);
        reply := ErrorReply(e);
      case ListMembers(a, c) =>
        var r := ListMembers(a, c);
        if r.Err? {
          reply := Failed(r.error);
        } else {
          RolesByUserExact(r.value, c, repo.View().groups[c].roles);
          reply := Members(RolesByUser(r.value));
        }
      case IsMember(u, c) =>
        var r := IsMember(u, c);
        reply := if r.Ok? then Truth(r.value) else Failed(r.error);
    }
  }

  function RolesByUser(rows: seq<MembershipRow>): map<Uuid, int> {
    if rows == [] then map[] else RolesByUser(rows[1..])[rows[0].user := rows[0].role]
  }

  lemma {:induction false} RolesByUserAt(rows: seq<MembershipRow>)
    requires forall i, j :: 0 <= i < j < |rows| ==> rows[i].user != rows[j].user
    ensures forall u :: u in RolesByUser(rows) <==> ListsUser(rows, u)
    ensures forall i :: 0 <= i < |rows| ==> rows[i].user in RolesByUser(rows) && RolesByUser(rows)[rows[i].user] == rows[i].role
    decreases |rows|
  {
    if rows != [] {
      var rest := rows[1..];
      RolesByUserAt(rest);
      forall u ensures ListsUser(rows, u) <==> u == rows[0].user || ListsUser(rest, u) {
        assert forall i :: 0 <= i < |rest| ==> rest[i] == rows[i + 1];
        if ListsUser(rest, u) {
          var i :| 0 <= i < |rest| && rest[i].user == u;
          assert rows[i + 1].user == u;
        }
        if i :| 0 < i < |rows| && rows[i].user == u {
          assert rest[i - 1].user == u;
        }
      }
      forall i | 0 < i < |rows| ensures RolesByUser(rows)[rows[i].user] == rows[i].role {
        assert rest[i - 1] == rows[i];
      }
    }
  }

  lemma RolesByUserExact(rows: seq<MembershipRow>, c: int, roles: map<Uuid, int>)
    requires ListsMembers(rows, c, roles)
    ensures RolesByUser(rows) == roles
  {
    RolesByUserAt(rows);
  }

  function ConversationsById(rows: seq<ConversationRow>): map<int, Info> {
    if rows == [] then map[] else ConversationsById(rows[1..])[rows[0].id := InfoOf(rows[0])]
  }

  lemma {:induction false} ConversationsByIdAt(rows: seq<ConversationRow>)
    requires forall i, j :: 0 <= i < j < |rows| ==> rows[i].id != rows[j].id
    ensures forall c :: c in ConversationsById(rows) <==> ListsId(rows, c)
    ensures forall i :: 0 <= i < |rows| ==>
      rows[i].id in ConversationsById(rows) && ConversationsById(rows)[rows[i].id] == InfoOf(rows[i])
    decreases |rows|
  {
    if rows != [] {
      var rest := rows[1..];
      ConversationsByIdAt(rest);
      forall c ensures ListsId(rows, c) <==> c == rows[0].id || ListsId(rest, c) {
        assert forall i :: 0 <= i < |rest| ==> rest[i] == rows[i + 1];
        if ListsId(rest, c) {
          var i :| 0 <= i < |rest| && rest[i].id == c;
          assert rows[i + 1].id == c;
        }
        if i :| 0 < i < |rows| && rows[i].id == c {
          assert rest[i - 1].id == c;
        }
      }
      forall i | 0 < i < |rows| ensures ConversationsById(rows)[rows[i].id] == InfoOf(rows[i]) {
        assert rest[i - 1] == rows[i];
      }
    }
  }

  lemma ConversationsByIdExact(rows: seq<ConversationRow>, found: map<int, Info>)
    requires ListsConversations(rows, found)
    ensures ConversationsById(rows) == found
  {
    ConversationsByIdAt(rows);
    forall c ensures c in ConversationsById(rows) <==> c in found {
      if ListsId(rows, c) {
        var i :| 0 <= i < |rows| && rows[i].id == c;
      }
    }
    forall c | c in found ensures ConversationsById(rows)[c] == found[c] {
      var i :| 0 <= i < |rows| && rows[i].id == c;
    }
    SameMap(ConversationsById(rows), found);
  }

  // ---------- The two stores ----------

  /** Any sequence of service calls gives the same results and errors over the in-memory maps as over
      the Postgres tables, started alike, whatever the clocks of the two say. */
  method RunBoth(memory: Service, postgres: Service, calls: seq<Call>, times1: seq<Time>, times2: seq<Time>)
    returns (replies1: seq<Reply>, replies2: seq<Reply>)
    requires memory.repo.Memory? && postgres.repo.Postgres?
    requires memory.repo.Valid() && postgres.repo.Valid() && memory.repo.View() == postgres.repo.View()
    requires |times1| == |times2| == |calls|
    modifies memory.repo.Objects(), postgres.repo.Objects()
    ensures replies1 == replies2 && |replies1| == |calls|
    ensures memory.repo.Valid() && postgres.repo.Valid()
    ensures memory.repo.View() == postgres.repo.View() == Run(old(memory.repo.View()), calls)
  {
    replies1, replies2 := [], [];
    for i := 0 to |calls|
      invariant memory.repo.Valid() && postgres.repo.Valid()
      invariant memory.repo.View() == postgres.repo.View() == Run(old(memory.repo.View()), calls[..i])
      invariant replies1 == replies2 && |replies1| == i
    {
      assert calls[..i + 1][..i] == calls[..i];
      var r1 := memory.Execute(calls[i], times1[i]);
      var r2 := postgres.Execute(calls[i], times2[i]);
      replies1, replies2 := replies1 + [r1], replies2 + [r2];
    }
    assert calls[..|calls|] == calls;
  }
}
