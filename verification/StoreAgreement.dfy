/** Below the service: exactly when the two stores answer a call alike, up to row ids and times, and
    go on showing the same directory. Only three of their calls can tell them apart. */
module StoreAgreement {
  import opened Common
  import opened Directory
  import opened ConversationService
  import opened MemoryConversations
  import opened PostgresConversations

  /** The service refuses longer names before either store sees them. */
  method CreateConversationOnBoth(memory: MemoryRepo, postgres: PostgresRepo, info: Info, now1: Time, now2: Time)
    returns (r1: Reply, r2: Reply)
    requires memory.Valid() && postgres.Valid() && memory.View() == postgres.View()
    modifies memory, postgres
    ensures memory.Valid() && postgres.Valid()
    ensures r1 == r2 && memory.View() == postgres.View() <==> |info.name| <= MAX_NAME_CHARS
  {
    var saved1 := memory.CreateConversation(info, now1);
    var saved2 := postgres.CreateConversation(info, now2);
    r1, r2 := ConversationReply(Ok(saved1)), ConversationReply(saved2);
  }

  /** The service only adds members with a valid role, and only to a live conversation. */
  method CreateMembershipOnBoth(memory: MemoryRepo, postgres: PostgresRepo, c: int, u: Uuid, role: int, now1: Time, now2: Time)
    returns (r1: Reply, r2: Reply)
    requires memory.Valid() && postgres.Valid() && memory.View() == postgres.View()
    modifies memory, postgres
    ensures memory.Valid() && postgres.Valid()
    ensures r1 == r2 && memory.View() == postgres.View() <==>
      ValidRole(role) && (c in old(memory.View()).groups ==> old(memory.View()).groups[c].live)
  {
    var saved1 := memory.CreateMembership(c, u, role, now1);
    var saved2 := postgres.CreateMembership(c, u, role, now2);
    r1, r2 := MembershipReply(saved1), MembershipReply(saved2);
  }

  /** The service only gives valid roles. */
  method UpdateMembershipRoleOnBoth(memory: MemoryRepo, postgres: PostgresRepo, c: int, u: Uuid, role: int)
    returns (r1: Reply, r2: Reply)
    requires memory.Valid() && postgres.Valid() && memory.View() == postgres.View()
    modifies memory, postgres
    ensures memory.Valid() && postgres.Valid()
    ensures r1 == r2 && memory.View() == postgres.View() <==>
      ValidRole(role) || RoleOf(old(memory.View()), c, u).None?
  {
    var saved1 := memory.UpdateMembershipRole(c, u, role);
    var saved2 := postgres.UpdateMembershipRole(c, u, role);
    r1, r2 := MembershipReply(saved1), MembershipReply(saved2);
  }

  // ---------- Instances, reached from empty stores through the service ----------

  /** One live conversation with its owner as only member. */
  ghost predicate JustOpened(d: Dir, owner: Uuid) {
    && IsLive(d, 1) && RoleOf(d, 1, owner) == Some(OWNER)
    && forall u :: RoleOf(d, 1, u).Some? ==> u == owner
  }

  lemma FirstConversation(owner: Uuid)
    requires owner != NIL_UUID
    ensures JustOpened(Step(EMPTY, Create(owner, "", "")).0, owner)
  {
  }

  method OpenInMemory(owner: Uuid, now: Time) returns (memory: MemoryRepo)
    requires owner != NIL_UUID
    ensures fresh(memory) && memory.Valid() && JustOpened(memory.View(), owner)
  {
    memory := new MemoryRepo();
    var service := new Service(Memory(memory));
    var r := service.CreateConversation(owner, "", "", now);
    FirstConversation(owner);
  }

  method OpenInPostgres(owner: Uuid, now: Time) returns (postgres: PostgresRepo)
    requires owner != NIL_UUID
    ensures fresh(postgres) && postgres.Valid() && JustOpened(postgres.View(), owner)
  {
    postgres := new PostgresRepo();
    var service := new Service(Postgres(postgres));
    var r := service.CreateConversation(owner, "", "", now);
    FirstConversation(owner);
  }

  /** Create, delete, then add a member: the maps refuse ... */
  method DeletedInMemory(owner: Uuid, u: Uuid, now: Time) returns (r: Reply)
    requires owner != NIL_UUID
    ensures r == Failed(ConversationNotFound)
  {
    var memory := OpenInMemory(owner, now);
    var service := new Service(Memory(memory));
    var error := service.DeleteConversation(owner, 1, now);
    var saved := memory.CreateMembership(1, u, MEMBER, now);
    r := MembershipReply(saved);
  }

  /** ... what the table takes. */
  method DeletedInPostgres(owner: Uuid, u: Uuid, now: Time) returns (r: Reply)
    requires owner != NIL_UUID
    ensures r == Membership(1, u, MEMBER)
  {
    var postgres := OpenInPostgres(owner, now);
    var service := new Service(Postgres(postgres));
    var error := service.DeleteConversation(owner, 1, now);
    var saved := postgres.CreateMembership(1, u, MEMBER, now);
    r := MembershipReply(saved);
  }

  /** A role that does not exist, given first to a newcomer and then to the owner: the maps take ... */
  method InvalidRoleInMemory(owner: Uuid, u: Uuid, now: Time) returns (added: Reply, changed: Reply)
    requires owner != NIL_UUID && u != owner
    ensures added == Membership(1, u, 7) && changed == Membership(1, owner, 7)
  {
    var memory := OpenInMemory(owner, now);
    var saved := memory.CreateMembership(1, u, 7, now);
    var row := memory.UpdateMembershipRole(1, owner, 7);
    added, changed := MembershipReply(saved), MembershipReply(row);
  }

  /** ... what the table's check refuses. */
  method InvalidRoleInPostgres(owner: Uuid, u: Uuid, now: Time) returns (added: Reply, changed: Reply)
    requires owner != NIL_UUID && u != owner
    ensures added == Failed(DatabaseError) && changed == Failed(DatabaseError)
  {
    var postgres := OpenInPostgres(owner, now);
    var saved := postgres.CreateMembership(1, u, 7, now);
    var row := postgres.UpdateMembershipRole(1, owner, 7);
    added, changed := MembershipReply(saved), MembershipReply(row);
  }

  /** A name of more than 120 characters: likewise. */
  method LongNameDiffers(info: Info, now: Time) returns (r1: Reply, r2: Reply)
    requires |info.name| == MAX_NAME_CHARS + 1
    ensures r1 == Conversation(1, info) && r2 == Failed(DatabaseError)
  {
    var memory := new MemoryRepo();
    var postgres := new PostgresRepo();
    var saved1 := memory.CreateConversation(info, now);
    var saved2 := postgres.CreateConversation(info, now);
    r1, r2 := ConversationReply(Ok(saved1)), ConversationReply(saved2);
  }
}
