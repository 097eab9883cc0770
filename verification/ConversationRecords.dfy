/** The stored rows of conversations and memberships, shared by the two stores. */
module ConversationRecords {
  import opened Common
  import opened Directory

  datatype ConversationRow = ConversationRow(
    id: int, name: string, avatar: string, createdBy: Uuid,
    createdAt: Time, updatedAt: Time, deletedAt: Option<Time>)

  datatype MembershipRow = MembershipRow(
    id: int, user: Uuid, conversation: int, role: int, createdAt: Time, deletedAt: Option<Time>)

  function InfoOf(row: ConversationRow): Info {
    Info(row.name, row.avatar, row.createdBy)
  }

  predicate ListsId(rows: seq<ConversationRow>, c: int) {
    exists i :: 0 <= i < |rows| && rows[i].id == c
  }

  predicate ListsUser(rows: seq<MembershipRow>, u: Uuid) {
    exists i :: 0 <= i < |rows| && rows[i].user == u
  }

  /** The rows are, in some order and once each, the live conversations described by `found`. */
  ghost predicate ListsConversations(rows: seq<ConversationRow>, found: map<int, Info>) {
    && (forall i {:trigger rows[i]} :: 0 <= i < |rows| ==>
          rows[i].deletedAt.None? && rows[i].id in found && InfoOf(rows[i]) == found[rows[i].id])
    && (forall i, j :: 0 <= i < j < |rows| ==> rows[i].id != rows[j].id)
    && (forall c :: c in found ==> ListsId(rows, c))
  }

  /** The rows are, in some order and once each, the active memberships of `c` given by `roles`. */
  ghost predicate ListsMembers(rows: seq<MembershipRow>, c: int, roles: map<Uuid, int>) {
    && (forall i {:trigger rows[i]} :: 0 <= i < |rows| ==>
          && rows[i].deletedAt.None? && rows[i].conversation == c
          && rows[i].user in roles && rows[i].role == roles[rows[i].user])
    && (forall i, j :: 0 <= i < j < |rows| ==> rows[i].user != rows[j].user)
    && (forall u :: u in roles ==> ListsUser(rows, u))
  }
}
