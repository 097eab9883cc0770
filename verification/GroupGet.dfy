/** The GROUP_GET request: how the gateway asks the message service whether a user may enter the
    room of a conversation, and what the answer says about memberships. */
module GroupGet {
  import opened Common
  import opened Directory
  import opened ConversationService

  /** uuid.Parse. */
  type Parser = string -> Option<Uuid>

  const MAX_INT32 := 0x7fff_ffff

  /** Go's conversion of an int to int32: the low 32 bits, read as a signed number. */
  function Int32(n: int): (r: int)
    ensures -MAX_INT32 - 1 <= r <= MAX_INT32
    ensures r == n <==> -MAX_INT32 - 1 <= n <= MAX_INT32
  {
    (n + 0x8000_0000) % 0x1_0000_0000 - 0x8000_0000
  }

  function ResolveConversationID(conversation: int, group: int): int {
    if conversation > 0 then conversation else if group > 0 then group else 0
  }

  predicate ActiveMember(d: Dir, c: int, u: Uuid) {
    IsLive(d, c) && RoleOf(d, c, u).Some?
  }

  function ParseActor(parse: Parser, actor: string): Option<Uuid> {
    if TrimSpace(actor) == "" then None else parse(actor)
  }

  predicate Answer(parse: Parser, d: Dir, actor: string, conversation: int, group: int) {
    var u, c := ParseActor(parse, actor), ResolveConversationID(conversation, group);
    u.Some? && c != 0 && GetStep(d, c).Conversation? && IsMemberStep(d, u.value, c) == Truth(true)
  }

  /** What the gateway learns about room number n: it asks for the number cut down to 32 bits. */
  predicate Asked(parse: Parser, d: Dir, actor: string, n: int) {
    Answer(parse, d, actor, Int32(n), Int32(n))
  }

  /** In every reachable directory the answer is yes exactly for an active member of the live
      conversation that the 32-bit number names. */
  lemma AskedExact(parse: Parser, d: Dir, actor: string, n: int)
    requires Inv(d)
    ensures Asked(parse, d, actor, n) <==>
      ParseActor(parse, actor).Some? && ActiveMember(d, Int32(n), ParseActor(parse, actor).value)
  {
    var c := Int32(n);
    assert c in d.groups ==> c >= 1;
  }

  /** Given two numbers, the answer is about the first if it is positive, and else about the second. */
  lemma AnswerExact(parse: Parser, d: Dir, actor: string, conversation: int, group: int)
    requires Inv(d)
    ensures Answer(parse, d, actor, conversation, group) <==>
      var u := ParseActor(parse, actor);
      u.Some? && ((conversation > 0 && ActiveMember(d, conversation, u.value))
                  || (conversation <= 0 && group > 0 && ActiveMember(d, group, u.value)))
  {
  }

  ghost predicate AsksFor(parse: Parser, actor: string, u: Uuid, n: int) {
    forall d | Inv(d) :: Asked(parse, d, actor, n) <==> ActiveMember(d, n, u)
  }

  /** The answer is about the membership of conversation n itself exactly for n up to 2^31 - 1. */
  lemma AsksForItselfIff(parse: Parser, actor: string, u: Uuid, n: int)
    requires ParseActor(parse, actor) == Some(u) && u != NIL_UUID && n >= 1
    ensures AsksFor(parse, actor, u, n) <==> n <= MAX_INT32
  {
    if n <= MAX_INT32 {
      forall d | Inv(d) ensures Asked(parse, d, actor, n) <==> ActiveMember(d, n, u) {
        AskedExact(parse, d, actor, n);
      }
    } else {
      var d := OnlyLast(u, n);
      AskedExact(parse, d, actor, n);
      assert ActiveMember(d, n, u) && !Asked(parse, d, actor, n);
    }
  }

  ghost function Slot(c: int, n: int, u: Uuid): Group {
    Group(Info("", "", u), c == n, if c == n then map[u := OWNER] else map[])
  }

  /** A directory of n conversations of which all but the last are deleted. */
  ghost function OnlyLast(u: Uuid, n: nat): (d: Dir)
    requires u != NIL_UUID
    ensures Inv(d) && forall c :: IsLive(d, c) <==> 1 <= c == n
    ensures n >= 1 ==> RoleOf(d, n, u) == Some(OWNER)
  {
    var d := Dir(map c | 1 <= c <= n :: Slot(c, n, u), n + 1);
    assert forall c :: c in d.groups ==> GroupOk(d.groups[c]) by {
      assert n >= 1 ==> u in d.groups[n].roles && d.groups[n].roles[u] == OWNER;
    }
    d
  }

  /** handleGroupGet, up to the data of the reply. */
  class Endpoint {
    const conversations: Service?
    const parse: Parser

    constructor (conversations: Service?, parse: Parser)
      ensures this.conversations == conversations && this.parse == parse
    {
      this.conversations, this.parse := conversations, parse;
    }

    method Handle(actor: string, conversation: int, group: int) returns (ok: bool)
      requires conversations != null ==> conversations.repo.Valid()
      ensures ok <==> conversations != null && Answer(parse, conversations.repo.View(), actor, conversation, group)
    {
      if conversations == null {
        return false;
      }
      if TrimSpace(actor) == "" {
        return false;
      }
      var actorID := parse(actor);
      if actorID.None? {
        return false;
      }
      var c := ResolveConversationID(conversation, group);
      if c == 0 {
        return false;
      }
      var found := conversations.GetConversationByID(c);
      if found.Err? {
        return false;
      }
      var member := conversations.IsMember(actorID.value, c);
      if member.Err? {
        return false;
      }
      ok := member.value;
    }
  }
}
