/** The in-memory conversation store: nested maps with soft deletion and two id counters. */
module MemoryConversations {
  import opened Common
  import opened Directory
  import opened ConversationRecords

  function ActiveRoles(ms: map<Uuid, MembershipRow>): map<Uuid, int> {
    map u | u in ms && ms[u].deletedAt.None? :: ms[u].role
  }

  function GroupOf(row: ConversationRow, ms: map<Uuid, MembershipRow>): Group {
    Group(InfoOf(row), row.deletedAt.None?, ActiveRoles(ms))
  }

  /** Every active membership deleted at `now`; the earlier deletions keep their times. */
  function AllDeleted(ms: map<Uuid, MembershipRow>, now: Time): map<Uuid, MembershipRow> {
    map u | u in ms :: if ms[u].deletedAt.None? then ms[u].(deletedAt := Some(now)) else ms[u]
  }

  lemma PutActive(ms: map<Uuid, MembershipRow>, u: Uuid, row: MembershipRow)
    ensures ActiveRoles(ms[u := row]) ==
      if row.deletedAt.None? then ActiveRoles(ms)[u := row.role] else ActiveRoles(ms) - {u}
  {
  }

  function RowsIn(members: map<int, map<Uuid, MembershipRow>>, c: int): map<Uuid, MembershipRow> {
    if c in members then members[c] else map[]
  }

  ghost function GroupsIn(rows: map<int, ConversationRow>, members: map<int, map<Uuid, MembershipRow>>): map<int, Group> {
    map c | c in rows :: GroupOf(rows[c], RowsIn(members, c))
  }

  /** Replacing the memberships of one conversation shows in the roles of that one only. */
  lemma PutMembers(rows: map<int, ConversationRow>, members: map<int, map<Uuid, MembershipRow>>, c: int, ms: map<Uuid, MembershipRow>)
    requires c in rows
    ensures GroupsIn(rows, members[c := ms])
      == GroupsIn(rows, members)[c := GroupsIn(rows, members)[c].(roles := ActiveRoles(ms))]
  {
    SameMap(GroupsIn(rows, members[c := ms]),
            GroupsIn(rows, members)[c := GroupsIn(rows, members)[c].(roles := ActiveRoles(ms))]);
  }

  lemma PutConversation(rows: map<int, ConversationRow>, members: map<int, map<Uuid, MembershipRow>>, row: ConversationRow)
    ensures GroupsIn(rows[row.id := row], members[row.id := map[]])
      == GroupsIn(rows, members)[row.id := Group(InfoOf(row), row.deletedAt.None?, map[])]
  {
    assert ActiveRoles(map[]) == map[];
    SameMap(GroupsIn(rows[row.id := row], members[row.id := map[]]),
            GroupsIn(rows, members)[row.id := Group(InfoOf(row), row.deletedAt.None?, map[])]);
  }

  class MemoryRepo {
    var conversations: map<int, ConversationRow>
    var memberships: map<int, map<Uuid, MembershipRow>>
    var nextConvID: int
    var nextMemberID: int

    ghost predicate Valid()
      reads this
    {
      && memberships.Keys <= conversations.Keys
      && (forall c :: c in conversations ==> c < nextConvID && conversations[c].id == c)
      && (forall c, u :: c in memberships && u in memberships[c] ==>
            && memberships[c][u].conversation == c && memberships[c][u].user == u
            && memberships[c][u].id < nextMemberID)
    }

    function MembersOf(c: int): map<Uuid, MembershipRow>
      reads this
    {
      RowsIn(memberships, c)
    }

    ghost function View(): Dir
      requires Valid()
      reads this
    {
      Dir(GroupsIn(conversations, memberships), nextConvID)
    }

    constructor ()
      ensures Valid() && View() == EMPTY
    {
      conversations, memberships, nextConvID, nextMemberID := map[], map[], 1, 1;
    }

    method CreateConversation(info: Info, now: Time) returns (saved: ConversationRow)
      requires Valid()
      modifies this
      ensures Valid() && View() == Opened(old(View()), info)
      ensures saved == ConversationRow(old(nextConvID), info.name, info.avatar, info.createdBy, now, now, None)
      ensures conversations == old(conversations)[saved.id := saved]
      ensures memberships == old(memberships)[saved.id := map[]] && nextMemberID == old(nextMemberID)
    {
      saved := ConversationRow(nextConvID, info.name, info.avatar, info.createdBy, now, now, None);
      nextConvID := nextConvID + 1;
      PutConversation(conversations, memberships, saved);
      conversations := conversations[saved.id := saved];
      if saved.id !in memberships {
        memberships := memberships[saved.id := map[]];
      }
    }

    method GetConversationByID(c: int) returns (r: Result<ConversationRow, Error>)
      requires Valid()
      ensures r == if IsLive(View(), c) then Ok(conversations[c]) else Err(ConversationNotFound)
    {
      if c !in conversations || conversations[c].deletedAt.Some? {
        return Err(ConversationNotFound);
      }
      r := Ok(conversations[c]);
    }

    method ListConversationsByUser(u: Uuid) returns (rows: seq<ConversationRow>)
      requires Valid()
      ensures ListsConversations(rows, GroupsOf(View(), u))
      ensures forall row :: row in rows ==> row.id in conversations && row == conversations[row.id]
    {
      rows := [];
      var left := memberships.Keys;
      while left != {}
        invariant left <= memberships.Keys
        invariant forall i {:trigger rows[i]} :: 0 <= i < |rows| ==>
          Shows(rows[i].id, u) && rows[i].id !in left && rows[i] == conversations[rows[i].id]
        invariant forall i, j :: 0 <= i < j < |rows| ==> rows[i].id != rows[j].id
        invariant forall x :: Shows(x, u) && x !in left ==> ListsId(rows, x)
        decreases left
      {
        var c := Choose(left);
        left := left - {c};
        if u !in memberships[c] || memberships[c][u].deletedAt.Some? {
          continue;
        }
        if c !in conversations || conversations[c].deletedAt.Some? {
          continue;
        }
        ghost var before := rows;
        rows := rows + [conversations[c]];
        assert rows[|before|].id == c;
        assert forall i :: 0 <= i < |before| ==> rows[i] == before[i];
        assert forall x :: ListsId(before, x) ==> ListsId(rows, x);
      }
      ShownIsFound(u);
    }

    ghost predicate Shows(c: int, u: Uuid)
      reads this
    {
      && c in conversations && conversations[c].deletedAt.None?
      && c in memberships && u in memberships[c] && memberships[c][u].deletedAt.None?
    }

    lemma ShownIsFound(u: Uuid)
      requires Valid()
      ensures forall c :: c in GroupsOf(View(), u) <==> Shows(c, u)
      ensures forall c :: Shows(c, u) ==> GroupsOf(View(), u)[c] == InfoOf(conversations[c])
    {
    }

    method SoftDeleteConversation(c: int, now: Time) returns (error: Option<Error>)
      requires Valid()
      modifies this`conversations
      ensures Valid() && error == if IsLive(old(View()), c) then None else Some(ConversationNotFound)
      ensures View() == if IsLive(old(View()), c) then Closed(old(View()), c) else old(View())
      ensures error.None? ==>
        conversations == old(conversations)[c := old(conversations)[c].(deletedAt := Some(now), updatedAt := now)]
      ensures error.Some? ==> conversations == old(conversations)
    {
      if c !in conversations || conversations[c].deletedAt.Some? {
        return Some(ConversationNotFound);
      }
      conversations := conversations[c := conversations[c].(deletedAt := Some(now), updatedAt := now)];
      error := None;
    }

    /** A soft-deleted conversation is refused, an inactive former membership is replaced. */
    method CreateMembership(c: int, u: Uuid, role: int, now: Time) returns (r: Result<MembershipRow, Error>)
      requires Valid()
      modifies this
      ensures Valid() && conversations == old(conversations) && nextConvID == old(nextConvID)
      ensures r == if !IsLive(old(View()), c) then Err(ConversationNotFound)
                   else if RoleOf(old(View()), c, u).Some? then Err(MembershipAlreadyExists)
                   else Ok(MembershipRow(old(nextMemberID), u, c, role, now, None))
      ensures View() == if r.Ok? then WithRole(old(View()), c, u, role) else old(View())
      ensures r.Ok? ==> memberships == old(memberships)[c := old(MembersOf(c))[u := r.value]]
      ensures r.Err? ==> memberships == old(memberships)
    {
      if c !in conversations || conversations[c].deletedAt.Some? {
        return Err(ConversationNotFound);
      }
      var members := if c in memberships then memberships[c] else map[];
      if u in members && members[u].deletedAt.None? {
        return Err(MembershipAlreadyExists);
      }
      var saved := MembershipRow(nextMemberID, u, c, role, now, None);
      nextMemberID := nextMemberID + 1;
      PutActive(members, u, saved);
      PutMembers(conversations, memberships, c, members[u := saved]);
      memberships := memberships[c := members[u := saved]];
      r := Ok(saved);
    }

    method GetMembership(c: int, u: Uuid) returns (r: Result<MembershipRow, Error>)
      requires Valid()
      ensures r == if RoleOf(View(), c, u).Some? then Ok(memberships[c][u]) else Err(MembershipNotFound)
    {
      if c !in memberships {
        return Err(MembershipNotFound);
      }
      if u !in memberships[c] || memberships[c][u].deletedAt.Some? {
        return Err(MembershipNotFound);
      }
      r := Ok(memberships[c][u]);
    }

    method ListMemberships(c: int) returns (r: Result<seq<MembershipRow>, Error>)
      requires Valid()
      ensures if IsLive(View(), c) then r.Ok? && ListsMembers(r.value, c, View().groups[c].roles)
              else r == Err(ConversationNotFound)
      ensures r.Ok? ==> forall x :: x in r.value ==> x.user in MembersOf(c) && x == MembersOf(c)[x.user]
    {
      if c !in conversations || conversations[c].deletedAt.Some? {
        return Err(ConversationNotFound);
      }
      var members := MembersOf(c);
      var rows: seq<MembershipRow> := [];
      var left := members.Keys;
      while left != {}
        invariant left <= members.Keys
        invariant forall i {:trigger rows[i]} :: 0 <= i < |rows| ==>
          && rows[i].user in members.Keys - left && rows[i].deletedAt.None?
          && rows[i] == members[rows[i].user]
        invariant forall i, j :: 0 <= i < j < |rows| ==> rows[i].user != rows[j].user
        invariant forall u :: u in members && members[u].deletedAt.None? && u !in left ==>
          ListsUser(rows, u)
        decreases left
      {
        var u := Choose(left);
        left := left - {u};
        if members[u].deletedAt.None? {
          ghost var before := rows;
          rows := rows + [members[u]];
          assert rows[|before|].user == u;
          assert forall i :: 0 <= i < |before| ==> rows[i] == before[i];
          assert forall x :: ListsUser(before, x) ==> ListsUser(rows, x);
        }
      }
      r := Ok(rows);
    }

    method UpdateMembershipRole(c: int, u: Uuid, role: int) returns (r: Result<MembershipRow, Error>)
      requires Valid()
      modifies this`memberships
      ensures Valid()
      ensures r == if RoleOf(old(View()), c, u).Some? then Ok(old(memberships)[c][u].(role := role))
                   else Err(MembershipNotFound)
      ensures View() == if r.Ok? then WithRole(old(View()), c, u, role) else old(View())
      ensures r.Ok? ==> memberships == old(memberships)[c := old(MembersOf(c))[u := r.value]]
      ensures r.Err? ==> memberships == old(memberships)
    {
      if c !in memberships {
        return Err(MembershipNotFound);
      }
      if u !in memberships[c] || memberships[c][u].deletedAt.Some? {
        return Err(MembershipNotFound);
      }
      PutActive(memberships[c], u, memberships[c][u].(role := role));
      PutMembers(conversations, memberships, c, memberships[c][u := memberships[c][u].(role := role)]);
      memberships := memberships[c := memberships[c][u := memberships[c][u].(role := role)]];
      r := Ok(memberships[c][u]);
    }

    method SoftDeleteMembership(c: int, u: Uuid, now: Time) returns (error: Option<Error>)
      requires Valid()
      modifies this`memberships
      ensures Valid()
      ensures error == if RoleOf(old(View()), c, u).Some? then None else Some(MembershipNotFound)
      ensures View() == if error.None? then WithoutRole(old(View()), c, u) else old(View())
      ensures error.None? ==>
        memberships == old(memberships)[c := old(memberships)[c][u := old(memberships)[c][u].(deletedAt := Some(now))]]
      ensures error.Some? ==> memberships == old(memberships)
    {
      if c !in memberships {
        return Some(MembershipNotFound);
      }
      if u !in memberships[c] || memberships[c][u].deletedAt.Some? {
        return Some(MembershipNotFound);
      }
      PutActive(memberships[c], u, memberships[c][u].(deletedAt := Some(now)));
      PutMembers(conversations, memberships, c, memberships[c][u := memberships[c][u].(deletedAt := Some(now))]);
      memberships := memberships[c := memberships[c][u := memberships[c][u].(deletedAt := Some(now))]];
      error := None;
    }

    method SoftDeleteMembershipsByConversation(c: int, now: Time)
      requires Valid()
      modifies this`memberships
      ensures Valid() && View() == Emptied(old(View()), c)
      ensures c !in old(memberships) ==> memberships == old(memberships)
      ensures c in old(memberships) ==>
        memberships == old(memberships)[c := AllDeleted(old(memberships)[c], now)]
    {
      if c !in memberships {
        return;
      }
      var members := DeleteAll(memberships[c], now);
      PutMembers(conversations, memberships, c, members);
      memberships := memberships[c := members];
      assert ActiveRoles(members) == map[];
    }

    static method DeleteAll(before: map<Uuid, MembershipRow>, now: Time) returns (members: map<Uuid, MembershipRow>)
      ensures members == AllDeleted(before, now)
    {
      members := before;
      var left := members.Keys;
      while left != {}
        invariant left <= members.Keys == before.Keys
        invariant forall u :: u in members ==>
          members[u] == if u in left then before[u] else AllDeleted(before, now)[u]
        decreases left
      {
        var u := Choose(left);
        left := left - {u};
        if members[u].deletedAt.None? {
          members := members[u := members[u].(deletedAt := Some(now))];
        }
      }
    }

    method CountOwners(c: int) returns (count: nat)
      requires Valid()
      ensures count == |Owners(View(), c)|
    {
      if c !in memberships {
        return 0;
      }
      var members := memberships[c];
      count := 0;
      var left := members.Keys;
      ghost var counted: set<Uuid> := {};
      while left != {}
        invariant left <= members.Keys && count == |counted|
        invariant forall u :: u in counted <==> u in members && u !in left && members[u].deletedAt.None? && members[u].role == OWNER
        decreases left
      {
        var u := Choose(left);
        left := left - {u};
        if members[u].deletedAt.None? && members[u].role == OWNER {
          count := count + 1;
          counted := counted + {u};
        }
      }
      assert counted == Owners(View(), c);
    }
  }
}
