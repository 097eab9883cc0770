/** The Postgres conversation store: two tables read and written by single statements, with serial
    ids, a foreign key, a check on roles and a unique index over the active memberships only. */
module PostgresConversations {
  import opened Common
  import opened Directory
  import opened ConversationRecords

  /** A row of table conversations; avatar_url and created_by may be NULL. */
  datatype Tuple = Tuple(
    id: int, name: string, avatar: Option<string>, createdBy: Option<Uuid>,
    createdAt: Time, updatedAt: Time, deletedAt: Option<Time>)

  /** scanConversation over the COALESCEd columns. */
  function Scan(t: Tuple): ConversationRow {
    ConversationRow(t.id, t.name, if t.avatar.None? then "" else t.avatar.value,
                    if t.createdBy.None? then NIL_UUID else t.createdBy.value,
                    t.createdAt, t.updatedAt, t.deletedAt)
  }

  function NullUuid(u: Uuid): Option<Uuid> {
    if u == NIL_UUID then None else Some(u)
  }

  predicate ActiveFor(row: MembershipRow, c: int, u: Uuid) {
    row.conversation == c && row.user == u && row.deletedAt.None?
  }

  // UPDATE statements: each matching row is rewritten, every other row stays.

  function DeleteTuple(ts: seq<Tuple>, c: int, now: Time): (r: seq<Tuple>)
    ensures |r| == |ts|
    ensures forall i {:trigger r[i]} {:trigger ts[i]} :: 0 <= i < |ts| ==>
      r[i] == if ts[i].id == c && ts[i].deletedAt.None? then ts[i].(deletedAt := Some(now), updatedAt := now) else ts[i]
  {
    seq(|ts|, i requires 0 <= i < |ts| =>
      if ts[i].id == c && ts[i].deletedAt.None? then ts[i].(deletedAt := Some(now), updatedAt := now) else ts[i])
  }

  function SetRole(rows: seq<MembershipRow>, c: int, u: Uuid, role: int): (r: seq<MembershipRow>)
    ensures |r| == |rows|
    ensures forall i {:trigger r[i]} {:trigger rows[i]} :: 0 <= i < |rows| ==>
      r[i] == if ActiveFor(rows[i], c, u) then rows[i].(role := role) else rows[i]
  {
    seq(|rows|, i requires 0 <= i < |rows| =>
      if ActiveFor(rows[i], c, u) then rows[i].(role := role) else rows[i])
  }

  function DeleteMember(rows: seq<MembershipRow>, c: int, u: Uuid, now: Time): (r: seq<MembershipRow>)
    ensures |r| == |rows|
    ensures forall i {:trigger r[i]} {:trigger rows[i]} :: 0 <= i < |rows| ==>
      r[i] == if ActiveFor(rows[i], c, u) then rows[i].(deletedAt := Some(now)) else rows[i]
  {
    seq(|rows|, i requires 0 <= i < |rows| =>
      if ActiveFor(rows[i], c, u) then rows[i].(deletedAt := Some(now)) else rows[i])
  }

  function DeleteMembers(rows: seq<MembershipRow>, c: int, now: Time): (r: seq<MembershipRow>)
    ensures |r| == |rows|
    ensures forall i {:trigger r[i]} {:trigger rows[i]} :: 0 <= i < |rows| ==>
      r[i] == if ActiveFor(rows[i], c, rows[i].user) then rows[i].(deletedAt := Some(now)) else rows[i]
  {
    seq(|rows|, i requires 0 <= i < |rows| =>
      if ActiveFor(rows[i], c, rows[i].user) then rows[i].(deletedAt := Some(now)) else rows[i])
  }

  // ---------- The constraints of the tables, and how they mirror a directory ----------

  ghost predicate HasTuple(ts: seq<Tuple>, c: int) {
    exists i :: 0 <= i < |ts| && ts[i].id == c
  }

  ghost predicate TuplesOk(ts: seq<Tuple>, next: int) {
    && (forall i, j :: 0 <= i < j < |ts| ==> ts[i].id < ts[j].id)
    && (forall i {:trigger ts[i]} :: 0 <= i < |ts| ==> ts[i].id < next)
  }

  ghost predicate TuplesMirror(ts: seq<Tuple>, d: Dir) {
    && (forall i {:trigger ts[i]} :: 0 <= i < |ts| ==>
          && ts[i].id in d.groups
          && d.groups[ts[i].id].info == InfoOf(Scan(ts[i])) && d.groups[ts[i].id].live == ts[i].deletedAt.None?)
    && (forall c :: c in d.groups ==> HasTuple(ts, c))
  }

  ghost predicate HasActive(rows: seq<MembershipRow>, c: int, u: Uuid) {
    exists i :: 0 <= i < |rows| && ActiveFor(rows[i], c, u)
  }

  /** Primary key, check on roles, and the unique index over active rows. */
  ghost predicate RowsOk(rows: seq<MembershipRow>, next: int) {
    && (forall i, j :: 0 <= i < j < |rows| ==> rows[i].id < rows[j].id)
    && (forall i {:trigger rows[i]} :: 0 <= i < |rows| ==> rows[i].id < next && ValidRole(rows[i].role))
    && (forall i, j :: 0 <= i < j < |rows| && rows[i].deletedAt.None? ==>
          !ActiveFor(rows[j], rows[i].conversation, rows[i].user))
  }

  /** Foreign key, and the active rows are the roles of the directory. */
  ghost predicate RowsMirror(rows: seq<MembershipRow>, d: Dir) {
    && (forall i {:trigger rows[i]} :: 0 <= i < |rows| ==> rows[i].conversation in d.groups)
    && (forall i {:trigger rows[i]} :: 0 <= i < |rows| && rows[i].deletedAt.None? ==>
          RoleOf(d, rows[i].conversation, rows[i].user) == Some(rows[i].role))
    && (forall c, u :: RoleOf(d, c, u).Some? ==> HasActive(rows, c, u))
  }

  lemma NextIsFree(ts: seq<Tuple>, d: Dir)
    requires TuplesMirror(ts, d) && TuplesOk(ts, d.next)
    ensures d.next !in d.groups
  {
    assert d.next in d.groups ==> HasTuple(ts, d.next);
  }

  lemma TuplesAfterInsert(ts: seq<Tuple>, d: Dir, t: Tuple, info: Info)
    requires TuplesMirror(ts, d) && t.id == d.next && d.next !in d.groups && t.deletedAt.None? && InfoOf(Scan(t)) == info
    requires TuplesOk(ts, d.next)
    ensures TuplesOk(ts + [t], d.next + 1) && TuplesMirror(ts + [t], Opened(d, info))
  {
    assert (ts + [t])[|ts|].id == d.next;
    forall c | c in d.groups ensures HasTuple(ts + [t], c) {
      var i :| 0 <= i < |ts| && ts[i].id == c;
      assert (ts + [t])[i].id == c;
    }
  }

  lemma TuplesAfterDelete(ts: seq<Tuple>, d: Dir, c: int, now: Time)
    requires c in d.groups && TuplesMirror(ts, d)
    ensures TuplesMirror(DeleteTuple(ts, c, now), Closed(d, c))
  {
    var ts', d' := DeleteTuple(ts, c, now), Closed(d, c);
    forall i | 0 <= i < |ts'|
      ensures ts'[i].id in d'.groups && d'.groups[ts'[i].id].info == InfoOf(Scan(ts'[i]))
        && d'.groups[ts'[i].id].live == ts'[i].deletedAt.None?
    {
      assert ts[i].id in d.groups;
    }
    forall x | x in d'.groups ensures HasTuple(ts', x) {
      assert HasTuple(ts, x);
      var i :| 0 <= i < |ts| && ts[i].id == x;
      assert ts'[i].id == x;
    }
  }

  lemma TuplesOkAfterDelete(ts: seq<Tuple>, next: int, c: int, now: Time)
    requires TuplesOk(ts, next)
    ensures TuplesOk(DeleteTuple(ts, c, now), next)
  {
  }

  /** A change that leaves every role alone leaves the membership table in step. */
  lemma RowsUnaffected(rows: seq<MembershipRow>, d: Dir, d': Dir)
    requires RowsMirror(rows, d) && d.groups.Keys <= d'.groups.Keys
    requires forall c, u :: RoleOf(d', c, u) == RoleOf(d, c, u)
    ensures RowsMirror(rows, d')
  {
  }

  lemma RowsAfterClose(rows: seq<MembershipRow>, d: Dir, c: int)
    requires RowsMirror(rows, d) && c in d.groups
    ensures RowsMirror(rows, Closed(d, c))
  {
    RowsUnaffected(rows, d, Closed(d, c));
  }

  lemma RowsAfterOpen(rows: seq<MembershipRow>, d: Dir, info: Info)
    requires RowsMirror(rows, d) && d.next !in d.groups
    ensures RowsMirror(rows, Opened(d, info))
  {
    RowsUnaffected(rows, d, Opened(d, info));
  }

  /** Giving or taking a role does not show in the conversation table. */
  lemma TuplesUnaffected(ts: seq<Tuple>, d: Dir, d': Dir)
    requires TuplesMirror(ts, d) && d'.groups.Keys == d.groups.Keys
    requires forall c :: c in d.groups ==> d'.groups[c].info == d.groups[c].info && d'.groups[c].live == d.groups[c].live
    ensures TuplesMirror(ts, d')
  {
  }

  lemma RowsOkAfterInsert(rows: seq<MembershipRow>, d: Dir, row: MembershipRow, next: int)
    requires RowsMirror(rows, d) && RoleOf(d, row.conversation, row.user).None?
    requires RowsOk(rows, next) && next <= row.id && ValidRole(row.role)
    ensures RowsOk(rows + [row], row.id + 1)
  {
  }

  lemma RowsAfterInsert(rows: seq<MembershipRow>, d: Dir, row: MembershipRow)
    requires RowsMirror(rows, d) && row.conversation in d.groups && row.deletedAt.None?
    requires RoleOf(d, row.conversation, row.user).None?
    ensures RowsMirror(rows + [row], WithRole(d, row.conversation, row.user, row.role))
  {
    var rows', d' := rows + [row], WithRole(d, row.conversation, row.user, row.role);
    forall c, u | RoleOf(d', c, u).Some? ensures HasActive(rows', c, u) {
      if c == row.conversation && u == row.user {
        assert ActiveFor(rows'[|rows|], c, u);
      } else {
        assert RoleOf(d, c, u).Some?;
        var i :| 0 <= i < |rows| && ActiveFor(rows[i], c, u);
        assert ActiveFor(rows'[i], c, u);
      }
    }
  }

  lemma RowsAfterSetRole(rows: seq<MembershipRow>, d: Dir, c: int, u: Uuid, role: int)
    requires RowsMirror(rows, d) && RoleOf(d, c, u).Some?
    ensures RowsMirror(SetRole(rows, c, u, role), WithRole(d, c, u, role))
  {
    var rows', d' := SetRole(rows, c, u, role), WithRole(d, c, u, role);
    forall x, y | RoleOf(d', x, y).Some? ensures HasActive(rows', x, y) {
      assert RoleOf(d, x, y).Some?;
      var i :| 0 <= i < |rows| && ActiveFor(rows[i], x, y);
      assert ActiveFor(rows'[i], x, y);
    }
  }

  lemma RowsAfterDelete(rows: seq<MembershipRow>, d: Dir, c: int, u: Uuid, now: Time)
    requires RowsMirror(rows, d) && RoleOf(d, c, u).Some?
    ensures RowsMirror(DeleteMember(rows, c, u, now), WithoutRole(d, c, u))
  {
    var rows', d' := DeleteMember(rows, c, u, now), WithoutRole(d, c, u);
    forall x, y | RoleOf(d', x, y).Some? ensures HasActive(rows', x, y) {
      assert RoleOf(d, x, y).Some? && (x != c || y != u);
      var i :| 0 <= i < |rows| && ActiveFor(rows[i], x, y);
      assert ActiveFor(rows'[i], x, y);
    }
  }

  lemma RowsAfterDeleteAll(rows: seq<MembershipRow>, d: Dir, c: int, now: Time)
    requires RowsMirror(rows, d)
    ensures RowsMirror(DeleteMembers(rows, c, now), Emptied(d, c))
  {
    var rows', d' := DeleteMembers(rows, c, now), Emptied(d, c);
    forall x, y | RoleOf(d', x, y).Some? ensures HasActive(rows', x, y) {
      assert RoleOf(d, x, y).Some? && x != c;
      var i :| 0 <= i < |rows| && ActiveFor(rows[i], x, y);
      assert ActiveFor(rows'[i], x, y);
    }
  }

  lemma RowsOkAfterUpdate(rows: seq<MembershipRow>, rows': seq<MembershipRow>, next: int)
    requires RowsOk(rows, next) && |rows'| == |rows|
    requires forall i :: 0 <= i < |rows| ==>
      && rows'[i].id == rows[i].id && rows'[i].user == rows[i].user && rows'[i].conversation == rows[i].conversation
      && ValidRole(rows'[i].role) && (rows'[i].deletedAt.None? ==> rows[i].deletedAt.None?)
    ensures RowsOk(rows', next)
  {
  }

  // ---------- SELECT statements ----------

  /** WHERE conversation_id = c AND role = role AND deleted_at IS NULL, in id order. */
  function Picked(rows: seq<MembershipRow>, c: int, role: int): seq<MembershipRow> {
    if rows == [] then []
    else
      var last := rows[|rows| - 1];
      Picked(rows[..|rows| - 1], c, role)
        + (if ActiveFor(last, c, last.user) && last.role == role then [last] else [])
  }

  lemma {:induction false} PickedIff(rows: seq<MembershipRow>, c: int, role: int)
    ensures forall x :: x in Picked(rows, c, role) <==> x in rows && ActiveFor(x, c, x.user) && x.role == role
    decreases |rows|
  {
    if rows != [] {
      var n := |rows| - 1;
      PickedIff(rows[..n], c, role);
      assert rows == rows[..n] + [rows[n]];
    }
  }

  ghost predicate IdsUp(rows: seq<MembershipRow>) {
    forall i, j :: 0 <= i < j < |rows| ==> rows[i].id < rows[j].id
  }

  ghost predicate UsersDiffer(rows: seq<MembershipRow>) {
    forall i, j :: 0 <= i < j < |rows| ==> rows[i].user != rows[j].user
  }

  lemma {:induction false} PickedIdsUp(rows: seq<MembershipRow>, next: int, c: int, role: int)
    requires RowsOk(rows, next)
    ensures IdsUp(Picked(rows, c, role))
    decreases |rows|
  {
    if rows != [] {
      var n := |rows| - 1;
      PickedIdsUp(rows[..n], next, c, role);
      PickedIff(rows[..n], c, role);
      forall x | x in Picked(rows[..n], c, role) ensures x.id < rows[n].id {
        assert x in rows[..n];
      }
    }
  }

  lemma {:induction false} PickedUsersDiffer(rows: seq<MembershipRow>, next: int, c: int, role: int)
    requires RowsOk(rows, next)
    ensures UsersDiffer(Picked(rows, c, role))
    decreases |rows|
  {
    if rows != [] {
      var n := |rows| - 1;
      PickedUsersDiffer(rows[..n], next, c, role);
      PickedIff(rows[..n], c, role);
      if ActiveFor(rows[n], c, rows[n].user) {
        forall x | x in Picked(rows[..n], c, role) ensures x.user != rows[n].user {
          assert x in rows[..n];
          var k :| 0 <= k < n && rows[k] == x;
        }
      }
    }
  }

  ghost function Users(rows: seq<MembershipRow>): set<Uuid> {
    set i | 0 <= i < |rows| :: rows[i].user
  }

  lemma {:induction false} DistinctUsers(rows: seq<MembershipRow>)
    requires UsersDiffer(rows)
    ensures |Users(rows)| == |rows|
    decreases |rows|
  {
    if rows == [] {
      assert Users(rows) == {};
    } else {
      var n := |rows| - 1;
      DistinctUsers(rows[..n]);
      assert Users(rows) == Users(rows[..n]) + {rows[n].user};
    }
  }

  lemma OwnersPicked(rows: seq<MembershipRow>, next: int, d: Dir, c: int)
    requires RowsOk(rows, next) && RowsMirror(rows, d)
    ensures |Picked(rows, c, OWNER)| == |Owners(d, c)|
  {
    PickedUsersDiffer(rows, next, c, OWNER);
    DistinctUsers(Picked(rows, c, OWNER));
    PickedIff(rows, c, OWNER);
    OwnersAmong(Picked(rows, c, OWNER), rows, d, c);
  }

  lemma OwnersAmong(r: seq<MembershipRow>, rows: seq<MembershipRow>, d: Dir, c: int)
    requires RowsMirror(rows, d)
    requires forall x :: x in r <==> x in rows && ActiveFor(x, c, x.user) && x.role == OWNER
    ensures Users(r) == Owners(d, c)
  {
    forall u | u in Users(r) ensures u in Owners(d, c) {
      var i :| 0 <= i < |r| && r[i].user == u;
      assert r[i] in rows && RoleOf(d, c, u) == Some(OWNER);
    }
    forall u | u in Owners(d, c) ensures u in Users(r) {
      assert RoleOf(d, c, u) == Some(OWNER) && HasActive(rows, c, u);
      var i :| 0 <= i < |rows| && ActiveFor(rows[i], c, u);
      assert rows[i] in r;
      var k :| 0 <= k < |r| && r[k] == rows[i];
      assert r[k].user == u;
    }
  }

  function Passes(rows: seq<MembershipRow>, c: int): seq<MembershipRow> {
    Picked(rows, c, OWNER) + Picked(rows, c, ADMIN) + Picked(rows, c, MEMBER)
  }

  lemma PassesIff(rows: seq<MembershipRow>, next: int, c: int)
    requires RowsOk(rows, next)
    ensures forall x :: x in Passes(rows, c) <==> x in rows && ActiveFor(x, c, x.user)
  {
    PickedIff(rows, c, OWNER);
    PickedIff(rows, c, ADMIN);
    PickedIff(rows, c, MEMBER);
  }

  lemma PassesOrdered(rows: seq<MembershipRow>, next: int, c: int)
    requires RowsOk(rows, next)
    ensures Ordered(Passes(rows, c))
  {
    var o, a, m := Picked(rows, c, OWNER), Picked(rows, c, ADMIN), Picked(rows, c, MEMBER);
    PickedIdsUp(rows, next, c, OWNER);
    PickedIdsUp(rows, next, c, ADMIN);
    PickedIdsUp(rows, next, c, MEMBER);
    PickedIff(rows, c, OWNER);
    PickedIff(rows, c, ADMIN);
    PickedIff(rows, c, MEMBER);
    forall i, j | 0 <= i < j < |Passes(rows, c)|
      ensures var x, y := Passes(rows, c)[i], Passes(rows, c)[j]; x.role > y.role || (x.role == y.role && x.id < y.id)
    {
      assert i < |o| ==> o[i] in o;
      assert |o| <= i < |o| + |a| ==> a[i - |o|] in a;
      assert |o| <= j < |o| + |a| ==> a[j - |o|] in a;
      assert |o| + |a| <= j ==> m[j - |o| - |a|] in m;
      assert |o| + |a| <= i ==> m[i - |o| - |a|] in m;
    }
  }

  /** Every pass finds its rows, and the three passes one after the other list all members. */
  lemma PassesList(rows: seq<MembershipRow>, next: int, d: Dir, c: int)
    requires RowsOk(rows, next) && RowsMirror(rows, d) && c in d.groups
    ensures ListsMembers(Passes(rows, c), c, d.groups[c].roles)
  {
    PassesIff(rows, next, c);
    PassesDiffer(rows, next, c);
    ActiveRowsList(Passes(rows, c), rows, d, c);
  }

  lemma ActiveRowsList(r: seq<MembershipRow>, rows: seq<MembershipRow>, d: Dir, c: int)
    requires RowsMirror(rows, d) && c in d.groups && UsersDiffer(r)
    requires forall x :: x in r <==> x in rows && ActiveFor(x, c, x.user)
    ensures ListsMembers(r, c, d.groups[c].roles)
  {
    forall i | 0 <= i < |r|
      ensures r[i] in rows && ActiveFor(r[i], c, r[i].user) && RoleOf(d, c, r[i].user) == Some(r[i].role)
    {
      assert r[i] in r;
    }
    forall u | u in d.groups[c].roles ensures ListsUser(r, u) {
      assert RoleOf(d, c, u).Some? && HasActive(rows, c, u);
      var k :| 0 <= k < |rows| && ActiveFor(rows[k], c, u);
      assert rows[k] in r;
      var i :| 0 <= i < |r| && r[i] == rows[k];
      assert r[i].user == u;
    }
  }

  lemma PassesDiffer(rows: seq<MembershipRow>, next: int, c: int)
    requires RowsOk(rows, next)
    ensures UsersDiffer(Passes(rows, c))
  {
    var r := Passes(rows, c);
    PassesIff(rows, next, c);
    PassesOrdered(rows, next, c);
    forall i, j | 0 <= i < j < |r| ensures r[i].user != r[j].user {
      assert r[i] in r && r[j] in r;
      var k :| 0 <= k < |rows| && rows[k] == r[i];
      var l :| 0 <= l < |rows| && rows[l] == r[j];
      assert k != l;
    }
  }

  /** ORDER BY role DESC, id ASC. */
  ghost predicate Ordered(rows: seq<MembershipRow>) {
    forall i, j :: 0 <= i < j < |rows| ==>
      rows[i].role > rows[j].role || (rows[i].role == rows[j].role && rows[i].id < rows[j].id)
  }

  /** ORDER BY updated_at DESC, id DESC. */
  predicate Before(a: ConversationRow, b: ConversationRow) {
    a.updatedAt > b.updatedAt || (a.updatedAt == b.updatedAt && a.id > b.id)
  }

  ghost predicate Recent(rows: seq<ConversationRow>) {
    forall i, j :: 0 <= i < j < |rows| ==> Before(rows[i], rows[j])
  }

  ghost predicate Joins(ts: seq<Tuple>, d: Dir, u: Uuid, row: ConversationRow) {
    row.deletedAt.None? && RoleOf(d, row.id, u).Some? && exists k :: 0 <= k < |ts| && row == Scan(ts[k])
  }

  lemma JoinsNext(ts: seq<Tuple>, d: Dir, u: Uuid, i: nat)
    requires i < |ts|
    ensures forall row :: Joins(ts[..i + 1], d, u, row) <==>
      Joins(ts[..i], d, u, row) || (row == Scan(ts[i]) && row.deletedAt.None? && RoleOf(d, row.id, u).Some?)
  {
    assert ts[..i + 1] == ts[..i] + [ts[i]];
  }

  lemma JoinLists(ts: seq<Tuple>, d: Dir, u: Uuid, rows: seq<ConversationRow>)
    requires TuplesOk(ts, d.next) && TuplesMirror(ts, d) && Recent(rows)
    requires forall row :: row in rows <==> Joins(ts, d, u, row)
    ensures ListsConversations(rows, GroupsOf(d, u))
  {
    forall i | 0 <= i < |rows|
      ensures rows[i].deletedAt.None? && rows[i].id in GroupsOf(d, u) && InfoOf(rows[i]) == GroupsOf(d, u)[rows[i].id]
    {
      assert rows[i] in rows;
    }
    forall i, j | 0 <= i < j < |rows| ensures rows[i].id != rows[j].id {
      assert rows[i] in rows && rows[j] in rows;
      var k :| 0 <= k < |ts| && rows[i] == Scan(ts[k]);
      var l :| 0 <= l < |ts| && rows[j] == Scan(ts[l]);
      assert k != l;
    }
    forall c | c in GroupsOf(d, u) ensures ListsId(rows, c) {
      var k :| 0 <= k < |ts| && ts[k].id == c;
      assert Joins(ts, d, u, Scan(ts[k]));
      var i :| 0 <= i < |rows| && rows[i] == Scan(ts[k]);
      assert rows[i].id == c;
    }
  }

  method InsertRecent(rows: seq<ConversationRow>, row: ConversationRow) returns (r: seq<ConversationRow>)
    requires Recent(rows) && forall x :: x in rows ==> x.id != row.id
    ensures Recent(r) && forall x :: x in r <==> x in rows || x == row
  {
    var k := 0;
    while k < |rows| && Before(rows[k], row)
      invariant 0 <= k <= |rows|
      invariant forall i :: 0 <= i < k ==> Before(rows[i], row)
    {
      k := k + 1;
    }
    forall i | k <= i < |rows| ensures Before(row, rows[i]) {
      assert rows[k] in rows && rows[i] in rows;
    }
    RecentAround(rows, row, k);
    r := rows[..k] + [row] + rows[k..];
    assert rows == rows[..k] + rows[k..];
  }

  lemma RecentAround(rows: seq<ConversationRow>, row: ConversationRow, k: nat)
    requires Recent(rows) && k <= |rows|
    requires forall i :: 0 <= i < k ==> Before(rows[i], row)
    requires forall i :: k <= i < |rows| ==> Before(row, rows[i])
    ensures Recent(rows[..k] + [row] + rows[k..])
  {
  }

  class PostgresRepo {
    var conversations: seq<Tuple>
    var members: seq<MembershipRow>
    var nextConvID: int
    var nextMemberID: int
    ghost var dir: Dir

    ghost predicate Valid()
      reads this
    {
      && dir.next == nextConvID
      && TuplesOk(conversations, nextConvID) && TuplesMirror(conversations, dir)
      && RowsOk(members, nextMemberID) && RowsMirror(members, dir)
    }

    ghost function View(): Dir
      reads this
    {
      dir
    }

    constructor ()
      ensures Valid() && View() == EMPTY
    {
      conversations, members, nextConvID, nextMemberID, dir := [], [], 1, 1, EMPTY;
    }

    /** VARCHAR(120) refuses a longer name; the serial number is drawn either way. */
    method CreateConversation(info: Info, now: Time) returns (r: Result<ConversationRow, Error>)
      requires Valid()
      modifies this
      ensures Valid() && members == old(members) && nextMemberID == old(nextMemberID)
      ensures |info.name| <= MAX_NAME_CHARS ==>
        && r == Ok(ConversationRow(old(nextConvID), info.name, info.avatar, info.createdBy, now, now, None))
        && View() == Opened(old(View()), info)
        && conversations == old(conversations)
             + [Tuple(old(nextConvID), info.name, NullString(info.avatar), NullUuid(info.createdBy), now, now, None)]
      ensures |info.name| > MAX_NAME_CHARS ==>
        r == Err(DatabaseError) && View() == old(View()).(next := old(nextConvID) + 1) && conversations == old(conversations)
    {
      var id := nextConvID;
      nextConvID := nextConvID + 1;
      if |info.name| > MAX_NAME_CHARS {
        RowsUnaffected(members, dir, dir.(next := nextConvID));
        TuplesUnaffected(conversations, dir, dir.(next := nextConvID));
        dir := dir.(next := nextConvID);
        return Err(DatabaseError);
      }
      var row := Tuple(id, info.name, NullString(info.avatar), NullUuid(info.createdBy), now, now, None);
      NextIsFree(conversations, dir);
      TuplesAfterInsert(conversations, dir, row, info);
      RowsAfterOpen(members, dir, info);
      conversations := conversations + [row];
      dir := Opened(dir, info);
      r := Ok(Scan(row));
    }

    method FindLive(c: int) returns (k: nat)
      requires Valid()
      ensures k <= |conversations|
      ensures k < |conversations| ==> conversations[k].id == c && conversations[k].deletedAt.None?
      ensures k < |conversations| <==> IsLive(View(), c)
    {
      k := 0;
      while k < |conversations| && !(conversations[k].id == c && conversations[k].deletedAt.None?)
        invariant 0 <= k <= |conversations|
        invariant forall i :: 0 <= i < k ==> !(conversations[i].id == c && conversations[i].deletedAt.None?)
      {
        k := k + 1;
      }
      if IsLive(dir, c) { assert HasTuple(conversations, c); }
    }

    method GetConversationByID(c: int) returns (r: Result<ConversationRow, Error>)
      requires Valid()
      ensures r.Ok? <==> IsLive(View(), c)
      ensures r.Ok? ==> r.value.id == c && InfoOf(r.value) == View().groups[c].info && r.value.deletedAt.None?
      ensures r.Ok? ==> exists k :: 0 <= k < |conversations| && r.value == Scan(conversations[k])
      ensures r.Err? ==> r.error == ConversationNotFound
    {
      var k := FindLive(c);
      r := if k < |conversations| then Ok(Scan(conversations[k])) else Err(ConversationNotFound);
    }

    method SoftDeleteConversation(c: int, now: Time) returns (error: Option<Error>)
      requires Valid()
      modifies this`conversations, this`dir
      ensures Valid() && error == if IsLive(old(View()), c) then None else Some(ConversationNotFound)
      ensures View() == if IsLive(old(View()), c) then Closed(old(View()), c) else old(View())
      ensures conversations == if error.None? then DeleteTuple(old(conversations), c, now) else old(conversations)
    {
      var k := FindLive(c);
      if k == |conversations| {
        return Some(ConversationNotFound);
      }
      TuplesAfterDelete(conversations, dir, c, now);
      TuplesOkAfterDelete(conversations, nextConvID, c, now);
      RowsAfterClose(members, dir, c);
      conversations := DeleteTuple(conversations, c, now);
      dir := Closed(dir, c);
      error := None;
    }

    /** The insert checks the role, the unique index and the foreign key, and nothing else: it does
        accept a member for a soft-deleted conversation. A refused insert also uses up a number. */
    method CreateMembership(c: int, u: Uuid, role: int, now: Time) returns (r: Result<MembershipRow, Error>)
      requires Valid()
      modifies this`members, this`nextMemberID, this`dir
      ensures Valid()
      ensures r == if !ValidRole(role) then Err(DatabaseError)
                   else if RoleOf(old(View()), c, u).Some? then Err(MembershipAlreadyExists)
                   else if c !in old(View()).groups then Err(ConversationNotFound)
                   else Ok(MembershipRow(old(nextMemberID), u, c, role, now, None))
      ensures View() == if r.Ok? then WithRole(old(View()), c, u, role) else old(View())
      ensures members == if r.Ok? then old(members) + [r.value] else old(members)
    {
      var id := nextMemberID;
      nextMemberID := nextMemberID + 1;
      if !ValidRole(role) {
        return Err(DatabaseError);
      }
      var k := FindActive(c, u);
      if k < |members| {
        return Err(MembershipAlreadyExists);
      }
      var known := Exists(c);
      if !known {
        return Err(ConversationNotFound);
      }
      var row := MembershipRow(id, u, c, role, now, None);
      RowsAfterInsert(members, dir, row);
      RowsOkAfterInsert(members, dir, row, id);
      TuplesUnaffected(conversations, dir, WithRole(dir, c, u, role));
      members := members + [row];
      dir := WithRole(dir, c, u, role);
      r := Ok(row);
    }

    method Exists(c: int) returns (known: bool)
      requires Valid()
      ensures known <==> c in View().groups
    {
      known := exists i :: 0 <= i < |conversations| && conversations[i].id == c;
      assert c in dir.groups ==> HasTuple(conversations, c);
    }

    method FindActive(c: int, u: Uuid) returns (k: nat)
      requires Valid()
      ensures k <= |members|
      ensures k < |members| ==> ActiveFor(members[k], c, u)
      ensures k < |members| <==> RoleOf(View(), c, u).Some?
    {
      k := 0;
      while k < |members| && !ActiveFor(members[k], c, u)
        invariant 0 <= k <= |members|
        invariant forall i :: 0 <= i < k ==> !ActiveFor(members[i], c, u)
      {
        k := k + 1;
      }
      if RoleOf(dir, c, u).Some? { assert HasActive(members, c, u); }
    }

    method GetMembership(c: int, u: Uuid) returns (r: Result<MembershipRow, Error>)
      requires Valid()
      ensures r.Ok? <==> RoleOf(View(), c, u).Some?
      ensures r.Ok? ==> r.value in members && ActiveFor(r.value, c, u) && Some(r.value.role) == RoleOf(View(), c, u)
      ensures r.Err? ==> r.error == MembershipNotFound
    {
      var k := FindActive(c, u);
      r := if k < |members| then Ok(members[k]) else Err(MembershipNotFound);
    }

    method UpdateMembershipRole(c: int, u: Uuid, role: int) returns (r: Result<MembershipRow, Error>)
      requires Valid()
      modifies this`members, this`dir
      ensures Valid()
      ensures RoleOf(old(View()), c, u).None? ==> r == Err(MembershipNotFound)
      ensures RoleOf(old(View()), c, u).Some? && !ValidRole(role) ==> r == Err(DatabaseError)
      ensures RoleOf(old(View()), c, u).Some? && ValidRole(role) ==>
        r.Ok? && r.value in members && ActiveFor(r.value, c, u) && r.value.role == role
      ensures View() == if r.Ok? then WithRole(old(View()), c, u, role) else old(View())
      ensures members == if r.Ok? then SetRole(old(members), c, u, role) else old(members)
    {
      var k := FindActive(c, u);
      if k == |members| {
        return Err(MembershipNotFound);
      }
      if !ValidRole(role) {
        return Err(DatabaseError);
      }
      TuplesUnaffected(conversations, dir, WithRole(dir, c, u, role));
      RowsAfterSetRole(members, dir, c, u, role);
      RowsOkAfterUpdate(members, SetRole(members, c, u, role), nextMemberID);
      members := SetRole(members, c, u, role);
      dir := WithRole(dir, c, u, role);
      r := Ok(members[k]);
    }

    method SoftDeleteMembership(c: int, u: Uuid, now: Time) returns (error: Option<Error>)
      requires Valid()
      modifies this`members, this`dir
      ensures Valid()
      ensures error == if RoleOf(old(View()), c, u).Some? then None else Some(MembershipNotFound)
      ensures View() == if error.None? then WithoutRole(old(View()), c, u) else old(View())
      ensures members == if error.None? then DeleteMember(old(members), c, u, now) else old(members)
    {
      var k := FindActive(c, u);
      if k == |members| {
        return Some(MembershipNotFound);
      }
      TuplesUnaffected(conversations, dir, WithoutRole(dir, c, u));
      RowsAfterDelete(members, dir, c, u, now);
      RowsOkAfterUpdate(members, DeleteMember(members, c, u, now), nextMemberID);
      members := DeleteMember(members, c, u, now);
      dir := WithoutRole(dir, c, u);
      error := None;
    }

    method SoftDeleteMembershipsByConversation(c: int, now: Time)
      requires Valid()
      modifies this`members, this`dir
      ensures Valid() && View() == Emptied(old(View()), c)
      ensures members == DeleteMembers(old(members), c, now)
    {
      TuplesUnaffected(conversations, dir, Emptied(dir, c));
      RowsAfterDeleteAll(members, dir, c, now);
      RowsOkAfterUpdate(members, DeleteMembers(members, c, now), nextMemberID);
      members := DeleteMembers(members, c, now);
      dir := Emptied(dir, c);
    }

    method CountOwners(c: int) returns (count: nat)
      requires Valid()
      ensures count == |Owners(View(), c)|
    {
      count := 0;
      for i := 0 to |members|
        invariant count == |Picked(members[..i], c, OWNER)|
      {
        assert members[..i + 1][..i] == members[..i];
        if members[i].conversation == c && members[i].role == OWNER && members[i].deletedAt.None? {
          count := count + 1;
        }
      }
      assert members[..|members|] == members;
      OwnersPicked(members, nextMemberID, dir, c);
    }

    /** One pass per role over the rows in id order gives ORDER BY role DESC, id ASC. */
    method ListMemberships(c: int) returns (r: Result<seq<MembershipRow>, Error>)
      requires Valid()
      ensures if IsLive(View(), c)
              then r.Ok? && ListsMembers(r.value, c, View().groups[c].roles) && Ordered(r.value)
              else r == Err(ConversationNotFound)
      ensures r.Ok? ==> forall x :: x in r.value <==> x in members && ActiveFor(x, c, x.user)
    {
      var live := GetConversationByID(c);
      if live.Err? {
        return Err(live.error);
      }
      var owners := Pick(c, OWNER);
      var admins := Pick(c, ADMIN);
      var plain := Pick(c, MEMBER);
      r := Ok(owners + admins + plain);
      PassesList(members, nextMemberID, dir, c);
      PassesOrdered(members, nextMemberID, c);
      PassesIff(members, nextMemberID, c);
    }

    method Pick(c: int, role: int) returns (rows: seq<MembershipRow>)
      ensures rows == Picked(members, c, role)
    {
      rows := [];
      for i := 0 to |members|
        invariant rows == Picked(members[..i], c, role)
      {
        assert members[..i + 1][..i] == members[..i];
        if members[i].conversation == c && members[i].role == role && members[i].deletedAt.None? {
          rows := rows + [members[i]];
        }
      }
      assert members[..|members|] == members;
    }

    /** Each matching row is put before the rows it precedes. */
    method ListConversationsByUser(u: Uuid) returns (rows: seq<ConversationRow>)
      requires Valid()
      ensures ListsConversations(rows, GroupsOf(View(), u)) && Recent(rows)
      ensures forall row :: row in rows <==> Joins(conversations, View(), u, row)
    {
      rows := [];
      for i := 0 to |conversations|
        invariant Recent(rows)
        invariant forall row :: row in rows <==> Joins(conversations[..i], dir, u, row)
      {
        JoinsNext(conversations, dir, u, i);
        var at := FindActive(conversations[i].id, u);
        if conversations[i].deletedAt.None? && at < |members| {
          rows := InsertRecent(rows, Scan(conversations[i]));
        }
      }
      assert conversations[..|conversations|] == conversations;
      JoinLists(conversations, dir, u, rows);
    }
  }
}
