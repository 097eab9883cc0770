/** Who may edit or delete a message: the handler's check on top of the conversation service. */
module MessageAuthorization {
  import opened Common
  import opened Directory
  import opened ConversationRecords
  import opened ConversationService
  import MessageStore

  datatype AuthError = ServiceUnavailable | MessageNotFound | Refused(error: Error)

  class Handler {
    const conversations: Service?

    constructor (conversations: Service?)
      ensures this.conversations == conversations
    {
      this.conversations := conversations;
    }

    method AuthorizeConversationMember(user: Uuid, c: int) returns (error: Option<AuthError>)
      requires conversations != null ==> conversations.repo.Valid()
      ensures conversations == null ==> error == Some(ServiceUnavailable)
      ensures conversations != null && Validate(c, user).Some? ==> error == Some(Refused(Validate(c, user).value))
      ensures conversations != null && Validate(c, user).None? ==>
        error == if RoleOf(conversations.repo.View(), c, user).Some? then None else Some(Refused(Forbidden))
    {
      if conversations == null {
        return Some(ServiceUnavailable);
      }
      var r := conversations.IsMember(user, c);
      if r.Err? {
        return Some(Refused(r.error));
      }
      error := if r.value then None else Some(Refused(Forbidden));
    }

    /** The check passes exactly for an active member who is the sender, an admin or an owner; the return after the loop over the members
        is never reached, because an active member is always among the members listed. */
    method AuthorizeMessageMutation(actor: Uuid, message: Option<MessageStore.Message>) returns (error: Option<AuthError>)
      requires conversations != null ==> conversations.repo.Valid() && Inv(conversations.repo.View())
      ensures message.None? ==> error == Some(MessageNotFound)
      ensures message.Some? && conversations == null ==> error == Some(ServiceUnavailable)
      ensures message.Some? && conversations != null ==>
        && (error.None? <==>
              var role := RoleOf(conversations.repo.View(), message.value.conversation, actor);
              role.Some? && (actor == message.value.sender || role == Some(ADMIN) || role == Some(OWNER)))
        && (Validate(message.value.conversation, actor).Some? ==>
              error == Some(Refused(Validate(message.value.conversation, actor).value)))
        && (error.Some? && Validate(message.value.conversation, actor).None? ==> error == Some(Refused(Forbidden)))
    {
      if message.None? {
        return Some(MessageNotFound);
      }
      var c := message.value.conversation;
      error := AuthorizeConversationMember(actor, c);
      if error.Some? {
        return;
      }
      if actor == message.value.sender {
        return None;
      }
      var listing := conversations.ListMembers(actor, c);
      var members: seq<MembershipRow> := [];
      match listing {
        case Err(e) => return Some(Refused(e));
        case Ok(rows) => members := rows;
      }
      assert ListsUser(members, actor);
      var i := 0;
      while i < |members|
        invariant 0 <= i <= |members|
        invariant forall k :: 0 <= k < i ==> members[k].user != actor
      {
        if members[i].user == actor {
          if members[i].role == ADMIN || members[i].role == OWNER {
            return None;
          }
          return Some(Refused(Forbidden));
        }
        i := i + 1;
      }
      assert false;
    }
  }
}
