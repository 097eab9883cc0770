/** Migration 005 from section 4 on: missing conversations are created from the rows that refer to
    them, the id sequence is moved past every id, duplicate active memberships are closed, and the
    foreign keys, the check on roles and the unique index are put on the tables; all in one transaction. */
module Migration {
  import opened Common
  import opened RoomCodec

  const OWNER := 2

  /** The range of a SERIAL sequence and the upper end of an INTEGER column. */
  const MIN_SERIAL := 1
  const MAX_SERIAL := 0x7fff_ffff

  datatype Conversation = Conversation(id: int, name: string, createdBy: Option<Uuid>, createdAt: Time, updatedAt: Time)
  datatype Member = Member(id: int, conversation: int, user: Uuid, role: int, deletedAt: Option<Time>)

  datatype Message = Message(id: int, conversation: Option<int>)

  /** What sections 6 and 7 put on the tables, in their order. */
  datatype Constraint = MessagesFk | ReceiptsFk | MembersFk | RoleCheck | ActiveIndex

  const WANTED := [MessagesFk, ReceiptsFk, MembersFk, RoleCheck, ActiveIndex]

  /** The tables, with the columns that matter: `receipts` keeps the message_id of each row. The next
      number drawn from the sequence is lastSerial + 1. Memberships are in primary-key order.
      `constraints` are those that the tables already bear. */
  datatype Tables = Tables(
    conversations: seq<Conversation>, members: seq<Member>, messages: seq<Message>, receipts: seq<int>,
    lastSerial: int, constraints: set<Constraint>)

  /** Ids are integers of the column's type, distinct in each table. */
  ghost predicate TablesOk(t: Tables) {
    && (forall i, j :: 0 <= i < j < |t.conversations| ==> t.conversations[i].id != t.conversations[j].id)
    && (forall i, j :: 0 <= i < j < |t.members| ==> t.members[i].id < t.members[j].id)
    && (forall i :: 0 <= i < |t.conversations| ==> t.conversations[i].id <= MAX_SERIAL)
    && (forall c :: Refers(t, c) ==> c <= MAX_SERIAL)
    && (forall k :: k in t.constraints ==> Holds(t, k))
  }

  // ---------- Section 4: backfill ----------

  predicate HasRow(cs: seq<Conversation>, c: int) {
    exists i :: 0 <= i < |cs| && cs[i].id == c
  }

  ghost predicate Refers(t: Tables, c: int) {
    || (exists i :: 0 <= i < |t.members| && t.members[i].conversation == c)
    || (exists i :: 0 <= i < |t.messages| && t.messages[i].conversation == Some(c))
  }

  /** The conversation ids met in the memberships, then in the messages; NULL is skipped. */
  function SourceIds(members: seq<Member>, messages: seq<Message>): seq<int> {
    if messages != [] then
      var last := messages[|messages| - 1].conversation;
      SourceIds(members, messages[..|messages| - 1]) + (if last.Some? then [last.value] else [])
    else if members != [] then SourceIds(members[..|members| - 1], messages) + [members[|members| - 1].conversation]
    else []
  }

  /** DISTINCT ON (conversation_id) ... ORDER BY conversation_id, id: the first row of each. */
  function FirstMember(members: seq<Member>, c: int, ownersOnly: bool): Option<Uuid> {
    if members == [] then None
    else if members[0].conversation == c && (ownersOnly ==> members[0].role == OWNER) then Some(members[0].user)
    else FirstMember(members[1..], c, ownersOnly)
  }

  /** COALESCE(first owner, first member); soft-deleted memberships count too. */
  function Creator(members: seq<Member>, c: int): Option<Uuid> {
    var owner := FirstMember(members, c, true);
    if owner.Some? then owner else FirstMember(members, c, false)
  }

  function NewRow(members: seq<Member>, c: int, now: Time): Conversation {
    var digits := if c < 0 then "-" + Itoa(-c) else Itoa(c);
    Conversation(c, "Conversation " + digits, Creator(members, c), now, now)
  }

  /** INSERT ... ON CONFLICT (id) DO NOTHING, for one id after the other. */
  function Backfilled(cs: seq<Conversation>, ids: seq<int>, members: seq<Member>, now: Time): seq<Conversation>
    decreases |ids|
  {
    if ids == [] then cs
    else
      var before := Backfilled(cs, ids[..|ids| - 1], members, now);
      var c := ids[|ids| - 1];
      if HasRow(before, c) then before else before + [NewRow(members, c, now)]
  }

  // ---------- Section 4: the sequence ----------

  function MaxId(cs: seq<Conversation>): (m: int)
    requires cs != []
    ensures HasRow(cs, m) && forall i :: 0 <= i < |cs| ==> cs[i].id <= m
  {
    if |cs| == 1 then cs[0].id
    else
      var m := MaxId(cs[1..]);
      assert forall i :: 1 <= i < |cs| ==> cs[i] == cs[1..][i - 1];
      if m < cs[0].id then cs[0].id else m
  }

  /** setval refuses a value outside the bounds of the sequence. */
  function SetVal(cs: seq<Conversation>): Option<int> {
    var value := if cs == [] then 1 else MaxId(cs);
    if MIN_SERIAL <= value <= MAX_SERIAL then Some(value) else None
  }

  // ---------- Section 5: duplicates ----------

  predicate SamePair(a: Member, b: Member) {
    a.conversation == b.conversation && a.user == b.user
  }

  /** Not the first active row of its pair: ROW_NUMBER() > 1. */
  predicate Duplicate(ms: seq<Member>, i: nat)
    requires i < |ms|
  {
    ms[i].deletedAt.None? && exists j :: 0 <= j < i && ms[j].deletedAt.None? && SamePair(ms[j], ms[i])
  }

  function Deduped(ms: seq<Member>, now: Time): (r: seq<Member>)
    ensures |r| == |ms|
    ensures forall i {:trigger r[i]} {:trigger ms[i]} :: 0 <= i < |ms| ==>
      r[i] == if Duplicate(ms, i) then ms[i].(deletedAt := Some(now)) else ms[i]
  {
    seq(|ms|, i requires 0 <= i < |ms| => if Duplicate(ms, i) then ms[i].(deletedAt := Some(now)) else ms[i])
  }

  // ---------- Sections 6 and 7: constraints ----------

  predicate HasMessage(ms: seq<Message>, id: int) {
    exists i :: 0 <= i < |ms| && ms[i].id == id
  }

  predicate NoActivePair(ms: seq<Member>) {
    forall i, j :: 0 <= i < j < |ms| && ms[i].deletedAt.None? && ms[j].deletedAt.None? ==> !SamePair(ms[i], ms[j])
  }

  predicate RolesValid(ms: seq<Member>) {
    forall i :: 0 <= i < |ms| ==> ms[i].role == 0 || ms[i].role == 1 || ms[i].role == OWNER
  }

  predicate ReceiptsHaveMessages(t: Tables) {
    forall i :: 0 <= i < |t.receipts| ==> HasMessage(t.messages, t.receipts[i])
  }

  /** The rows meet the constraint. NULL refers to nothing. */
  predicate Holds(t: Tables, k: Constraint) {
    match k
    case MessagesFk => forall i :: 0 <= i < |t.messages| && t.messages[i].conversation.Some? ==>
      HasRow(t.conversations, t.messages[i].conversation.value)
    case ReceiptsFk => ReceiptsHaveMessages(t)
    case MembersFk => forall i :: 0 <= i < |t.members| ==> HasRow(t.conversations, t.members[i].conversation)
    case RoleCheck => RolesValid(t.members)
    case ActiveIndex => NoActivePair(t.members)
  }

  /** One constraint after the other, each only if it is not there yet; one that the rows do not meet
      fails. */
  function Constrained(t: Tables, ks: seq<Constraint>): Option<Tables>
    decreases |ks|
  {
    if ks == [] then Some(t)
    else
      var before := Constrained(t, ks[..|ks| - 1]);
      var k := ks[|ks| - 1];
      if before.None? || k in before.value.constraints then before
      else if Holds(before.value, k) then Some(before.value.(constraints := before.value.constraints + {k}))
      else None
  }

  // ---------- The migration as one transaction ----------

  /** Section 4, but for the sequence, and section 5. */
  function Cleaned(t: Tables, now: Time): Tables {
    t.(conversations := Backfilled(t.conversations, SourceIds(t.members, t.messages), t.members, now),
       members := Deduped(t.members, now))
  }

  /** None: some statement fails and the transaction is rolled back. */
  function Migrate(t: Tables, now: Time): Option<Tables> {
    var clean := Cleaned(t, now);
    var serial := SetVal(clean.conversations);
    if serial.None? then None else Constrained(clean.(lastSerial := serial.value), WANTED)
  }

  /** Adding constraints goes through exactly if the rows meet all that are not there yet, and
      touches no row. */
  lemma {:induction false} ConstrainedExact(t: Tables, ks: seq<Constraint>)
    requires forall k :: k in t.constraints ==> Holds(t, k)
    ensures Constrained(t, ks).Some? <==> forall k :: k in ks ==> Holds(t, k)
    ensures Constrained(t, ks).Some? ==> Constrained(t, ks).value == t.(constraints := t.constraints + set k | k in ks)
    decreases |ks|
  {
    if ks == [] {
      assert t.constraints + (set k | k in ks) == t.constraints;
    } else {
      var init, last := ks[..|ks| - 1], ks[|ks| - 1];
      ConstrainedExact(t, init);
      assert ks == init + [last];
      assert (set k | k in ks) == (set k | k in init) + {last};
      if Constrained(t, init).Some? {
        assert Holds(Constrained(t, init).value, last) == Holds(t, last);
      }
    }
  }

  lemma BackfillMeetsKeys(t: Tables, now: Time)
    requires TablesOk(t)
    ensures Holds(Cleaned(t, now), MessagesFk) && Holds(Cleaned(t, now), MembersFk)
  {
    var ids := SourceIds(t.members, t.messages);
    BackfilledExact(t.conversations, ids, t.members, now);
    forall c ensures c in ids <==> Refers(t, c) {
      SourceIdsExact(t.members, t.messages, c);
    }
    forall i | 0 <= i < |t.messages| && t.messages[i].conversation.Some?
      ensures HasRow(Cleaned(t, now).conversations, t.messages[i].conversation.value)
    {
      assert Refers(t, t.messages[i].conversation.value);
    }
    forall i | 0 <= i < |t.members| ensures HasRow(Cleaned(t, now).conversations, Deduped(t.members, now)[i].conversation) {
      assert Refers(t, t.members[i].conversation);
    }
  }

  lemma DedupMeetsIndex(ms: seq<Member>, now: Time)
    ensures NoActivePair(Deduped(ms, now))
    ensures RolesValid(Deduped(ms, now)) <==> RolesValid(ms)
  {
    var r := Deduped(ms, now);
    forall i, j | 0 <= i < j < |r| && SamePair(r[i], r[j]) && r[i].deletedAt.None? ensures r[j].deletedAt.Some? {
      assert SamePair(ms[i], ms[j]);
    }
    assert forall i :: 0 <= i < |ms| ==> r[i].role == ms[i].role;
  }

  lemma {:induction false} SourceIdsExact(members: seq<Member>, messages: seq<Message>, c: int)
    ensures c in SourceIds(members, messages) <==>
      (exists i :: 0 <= i < |members| && members[i].conversation == c)
      || exists i :: 0 <= i < |messages| && messages[i].conversation == Some(c)
    decreases |members| + |messages|
  {
    if messages != [] {
      var n := |messages| - 1;
      SourceIdsExact(members, messages[..n], c);
      assert messages[n].conversation == Some(c) || forall i :: 0 <= i < |messages| && messages[i].conversation == Some(c) ==> i < n;
    } else if members != [] {
      var n := |members| - 1;
      SourceIdsExact(members[..n], messages, c);
      assert members[n].conversation == c || forall i :: 0 <= i < |members| && members[i].conversation == c ==> i < n;
    }
  }

  /** The old rows first and untouched, then one new row for each id that was missing. */
  lemma {:induction false} BackfilledExact(cs: seq<Conversation>, ids: seq<int>, members: seq<Member>, now: Time)
    requires forall i, j :: 0 <= i < j < |cs| ==> cs[i].id != cs[j].id
    ensures var r := Backfilled(cs, ids, members, now);
      && |cs| <= |r| && r[..|cs|] == cs
      && (forall i, j :: 0 <= i < j < |r| ==> r[i].id != r[j].id)
      && (forall i :: |cs| <= i < |r| ==> r[i].id in ids && r[i] == NewRow(members, r[i].id, now))
    ensures forall c :: HasRow(Backfilled(cs, ids, members, now), c) <==> HasRow(cs, c) || c in ids
    decreases |ids|
  {
    if ids != [] {
      var n := |ids| - 1;
      BackfilledExact(cs, ids[..n], members, now);
      var before, c := Backfilled(cs, ids[..n], members, now), ids[n];
      assert ids == ids[..n] + [c];
      AppendRow(before, NewRow(members, c, now));
    }
  }

  lemma AppendRow(cs: seq<Conversation>, row: Conversation)
    ensures forall c :: HasRow(cs + [row], c) <==> HasRow(cs, c) || c == row.id
  {
    forall c ensures HasRow(cs + [row], c) <==> HasRow(cs, c) || c == row.id {
      assert (cs + [row])[|cs|] == row;
      if HasRow(cs, c) {
        var i :| 0 <= i < |cs| && cs[i].id == c;
        assert (cs + [row])[i].id == c;
      }
    }
  }

  ghost predicate KnownId(t: Tables, c: int) {
    HasRow(t.conversations, c) || Refers(t, c)
  }

  lemma SetValIff(cs: seq<Conversation>)
    requires forall i :: 0 <= i < |cs| ==> cs[i].id <= MAX_SERIAL
    ensures SetVal(cs).Some? <==> cs == [] || exists c :: c >= 1 && HasRow(cs, c)
  {
    if cs != [] { assert HasRow(cs, MaxId(cs)); }
  }

  lemma SequenceMovesIff(t: Tables, now: Time)
    requires TablesOk(t)
    ensures SetVal(Cleaned(t, now).conversations).Some? <==>
      (forall c :: !KnownId(t, c)) || exists c :: c >= 1 && KnownId(t, c)
  {
    var cs := Cleaned(t, now).conversations;
    KnownIsRow(t, now);
    forall i | 0 <= i < |cs| ensures cs[i].id <= MAX_SERIAL {
      assert HasRow(cs, cs[i].id) && KnownId(t, cs[i].id);
    }
    SetValIff(cs);
    assert cs != [] ==> HasRow(cs, cs[0].id);
  }

  lemma KnownIsRow(t: Tables, now: Time)
    requires TablesOk(t)
    ensures forall c :: HasRow(Cleaned(t, now).conversations, c) <==> KnownId(t, c)
  {
    var ids := SourceIds(t.members, t.messages);
    BackfilledExact(t.conversations, ids, t.members, now);
    forall c ensures c in ids <==> Refers(t, c) {
      SourceIdsExact(t.members, t.messages, c);
    }
  }

  /** The rows that sections 6 and 7 look at: after the backfill and the deduplication the keys on
      conversations and the unique index are always met. */
  lemma CleanedMeets(t: Tables, now: Time)
    requires TablesOk(t)
    ensures forall k :: k in t.constraints ==> Holds(Cleaned(t, now), k)
    ensures (forall k :: k in WANTED ==> Holds(Cleaned(t, now), k)) <==> RolesValid(t.members) && ReceiptsHaveMessages(t)
  {
    BackfillMeetsKeys(t, now);
    DedupMeetsIndex(t.members, now);
    var clean := Cleaned(t, now);
    assert Holds(clean, ReceiptsFk) == Holds(t, ReceiptsFk) && Holds(clean, RoleCheck) == Holds(t, RoleCheck);
    assert WANTED[0] == MessagesFk && WANTED[1] == ReceiptsFk && WANTED[2] == MembersFk && WANTED[3] == RoleCheck && WANTED[4] == ActiveIndex;
    assert RoleCheck in WANTED && ReceiptsFk in WANTED;
  }

  /** The migration goes through exactly when
      no conversation id is known at all or some known id is positive (with nothing but ids of zero
      and below, setval is handed a value it refuses), every role is 0, 1 or 2, and every receipt
      belongs to a message. The other constraints cannot fail. */
  lemma CommitsIff(t: Tables, now: Time)
    requires TablesOk(t)
    ensures Migrate(t, now).Some? <==>
      && ((forall c :: !KnownId(t, c)) || exists c :: c >= 1 && KnownId(t, c))
      && RolesValid(t.members) && ReceiptsHaveMessages(t)
  {
    SequenceMovesIff(t, now);
    CleanedMeets(t, now);
    var serial := SetVal(Cleaned(t, now).conversations);
    if serial.Some? { ConstrainAfter(Cleaned(t, now), serial.value); }
  }

  lemma ConstrainAfter(clean: Tables, serial: int)
    requires forall k :: k in clean.constraints ==> Holds(clean, k)
    ensures var r := Constrained(clean.(lastSerial := serial), WANTED);
      && (r.Some? <==> forall k :: k in WANTED ==> Holds(clean, k))
      && (r.Some? ==> r.value == clean.(lastSerial := serial, constraints := clean.constraints + set k | k in WANTED))
  {
    var t := clean.(lastSerial := serial);
    assert forall k :: Holds(t, k) == Holds(clean, k);
    ConstrainedExact(t, WANTED);
  }

  /** What a migration that goes through leaves. */
  lemma MigratedIs(t: Tables, now: Time)
    requires TablesOk(t) && Migrate(t, now).Some?
    ensures SetVal(Cleaned(t, now).conversations).Some?
    ensures Migrate(t, now).value == Cleaned(t, now).(
      lastSerial := SetVal(Cleaned(t, now).conversations).value,
      constraints := t.constraints + set k | k in WANTED)
  {
    CleanedMeets(t, now);
    ConstrainAfter(Cleaned(t, now), SetVal(Cleaned(t, now).conversations).value);
  }

  // Instances of the three refusals.

  lemma ZeroOnlyAborts(now: Time)
    ensures Migrate(Tables([], [], [Message(1, Some(0))], [], 0, {}), now) == None
  {
    var t := Tables([], [], [Message(1, Some(0))], [], 0, {});
    assert t.messages[0].conversation == Some(0);
    CommitsIff(t, now);
    assert KnownId(t, 0) && forall c :: KnownId(t, c) ==> c == 0;
  }

  lemma InvalidRoleAborts(c: int, u: Uuid, now: Time)
    requires 1 <= c <= MAX_SERIAL
    ensures Migrate(Tables([], [Member(1, c, u, 7, None)], [], [], 0, {}), now) == None
  {
    var t := Tables([], [Member(1, c, u, 7, None)], [], [], 0, {});
    assert t.members[0].role == 7;
    CommitsIff(t, now);
  }

  lemma LostMessageAborts(id: int, now: Time)
    ensures Migrate(Tables([], [], [], [id], 0, {}), now) == None
  {
    var t := Tables([], [], [], [id], 0, {});
    assert t.receipts[0] == id;
    CommitsIff(t, now);
  }

  /** After a migration that goes through: every referenced conversation has a row, rows that existed
      are as they were, and every id, old or new, is below the next number of the sequence. */
  lemma BackfillComplete(t: Tables, now: Time)
    requires TablesOk(t) && Migrate(t, now).Some?
    ensures var t' := Migrate(t, now).value;
      && (forall c :: Refers(t, c) ==> HasRow(t'.conversations, c))
      && |t.conversations| <= |t'.conversations| && t'.conversations[..|t.conversations|] == t.conversations
      && (forall i :: |t.conversations| <= i < |t'.conversations| ==>
            Refers(t, t'.conversations[i].id)
            && t'.conversations[i] == NewRow(t.members, t'.conversations[i].id, now))
      && (forall c :: HasRow(t'.conversations, c) ==> c < t'.lastSerial + 1)
  {
    MigratedIs(t, now);
    var ids := SourceIds(t.members, t.messages);
    BackfilledExact(t.conversations, ids, t.members, now);
    forall c ensures c in ids <==> Refers(t, c) {
      SourceIdsExact(t.members, t.messages, c);
    }
  }

  /** ... and the tables bear all five constraints and meet them: every message with a conversation and
      every membership refers to a stored conversation, every receipt to a stored message, every role
      is 0, 1 or 2, and no two active memberships are of one pair. */
  lemma AllConstraintsHold(t: Tables, now: Time)
    requires TablesOk(t) && Migrate(t, now).Some?
    ensures forall k :: k in WANTED ==> k in Migrate(t, now).value.constraints && Holds(Migrate(t, now).value, k)
    ensures var t' := Migrate(t, now).value;
      && (forall i :: 0 <= i < |t'.messages| && t'.messages[i].conversation.Some? ==>
            exists j :: 0 <= j < |t'.conversations| && t'.conversations[j].id == t'.messages[i].conversation.value)
      && (forall i :: 0 <= i < |t'.members| ==>
            exists j :: 0 <= j < |t'.conversations| && t'.conversations[j].id == t'.members[i].conversation)
      && (forall i :: 0 <= i < |t'.receipts| ==> exists j :: 0 <= j < |t'.messages| && t'.messages[j].id == t'.receipts[i])
      && (forall i :: 0 <= i < |t'.members| ==> 0 <= t'.members[i].role <= 2)
      && (forall i, j :: 0 <= i < j < |t'.members| && t'.members[i].deletedAt == None && t'.members[j].deletedAt == None ==>
            t'.members[i].conversation != t'.members[j].conversation || t'.members[i].user != t'.members[j].user)
  {
    MigratedIs(t, now);
    CleanedMeets(t, now);
    CommitsIff(t, now);
    assert forall k :: Holds(Migrate(t, now).value, k) == Holds(Cleaned(t, now), k);
    AllWanted(Migrate(t, now).value);
  }

  lemma AllWanted(t: Tables)
    requires forall k :: k in WANTED ==> Holds(t, k)
    ensures Holds(t, MessagesFk) && Holds(t, ReceiptsFk) && Holds(t, MembersFk) && Holds(t, RoleCheck) && Holds(t, ActiveIndex)
  {
    assert WANTED[0] == MessagesFk && WANTED[1] == ReceiptsFk && WANTED[2] == MembersFk && WANTED[3] == RoleCheck && WANTED[4] == ActiveIndex;
  }

  predicate Counts(m: Member, c: int, ownersOnly: bool) {
    m.conversation == c && (ownersOnly ==> m.role == OWNER)
  }

  ghost predicate IsFirst(members: seq<Member>, i: int, c: int, ownersOnly: bool) {
    0 <= i < |members| && Counts(members[i], c, ownersOnly) && forall j :: 0 <= j < i ==> !Counts(members[j], c, ownersOnly)
  }

  lemma {:induction false} FirstMemberExact(members: seq<Member>, c: int, ownersOnly: bool)
    ensures var first := FirstMember(members, c, ownersOnly);
      && (first.None? ==> forall i :: 0 <= i < |members| ==> !Counts(members[i], c, ownersOnly))
      && (first.Some? ==> exists i :: IsFirst(members, i, c, ownersOnly) && members[i].user == first.value)
    decreases |members|
  {
    if members != [] {
      var rest := members[1..];
      FirstMemberExact(rest, c, ownersOnly);
      if Counts(members[0], c, ownersOnly) {
        assert IsFirst(members, 0, c, ownersOnly);
      } else if FirstMember(rest, c, ownersOnly).Some? {
        var i :| IsFirst(rest, i, c, ownersOnly) && rest[i].user == FirstMember(rest, c, ownersOnly).value;
        assert forall j :: 0 < j < |members| ==> members[j] == rest[j - 1];
        assert IsFirst(members, i + 1, c, ownersOnly);
      }
    }
  }

  ghost predicate IsOwnerOf(m: Member, c: int) {
    m.conversation == c && m.role == OWNER
  }

  /** The creator entered for a conversation is the user of its first owner membership, deleted ones
      included; without any owner, that of its first membership; without any member, NULL. */
  lemma CreatorExact(members: seq<Member>, c: int)
    ensures var creator := Creator(members, c);
      || (exists i :: 0 <= i < |members| && IsOwnerOf(members[i], c) && creator == Some(members[i].user)
            && forall j :: 0 <= j < i ==> !IsOwnerOf(members[j], c))
      || ((forall i :: 0 <= i < |members| ==> !IsOwnerOf(members[i], c))
          && exists i :: 0 <= i < |members| && members[i].conversation == c && creator == Some(members[i].user)
               && forall j :: 0 <= j < i ==> members[j].conversation != c)
      || ((forall i :: 0 <= i < |members| ==> members[i].conversation != c) && creator == None)
  {
    FirstMemberExact(members, c, true);
    FirstMemberExact(members, c, false);
    assert forall i :: 0 <= i < |members| ==>
      (Counts(members[i], c, true) <==> IsOwnerOf(members[i], c)) && (Counts(members[i], c, false) <==> members[i].conversation == c);
  }

  /** A created row is named after its number in decimal and dated now. */
  lemma NewRowExact(members: seq<Member>, c: int, now: Time) returns (digits: string)
    ensures var row := NewRow(members, c, now);
      && row.id == c && row.createdBy == Creator(members, c) && row.createdAt == row.updatedAt == now
      && row.name == "Conversation " + (if c < 0 then "-" + digits else digits)
    ensures digits != "" && AllDigits(digits) && DigitsValue(digits) == (if c < 0 then -c else c)
  {
    digits := Itoa(if c < 0 then -c else c);
    ItoaExact(if c < 0 then -c else c);
  }

  /** What else a migration that goes through leaves: messages and receipts as they were, memberships
      but for the deletion time of some that were active, and the sequence at the highest id. */
  lemma MigratedRest(t: Tables, now: Time)
    requires TablesOk(t) && Migrate(t, now).Some?
    ensures var t' := Migrate(t, now).value;
      && t'.messages == t.messages && t'.receipts == t.receipts
      && |t'.members| == |t.members|
      && (forall i :: 0 <= i < |t.members| ==> OnlyClosed(t.members[i], t'.members[i], now))
      && (t'.conversations == [] ==> t'.lastSerial == 1)
      && (t'.conversations != [] ==> HasRow(t'.conversations, t'.lastSerial))
      && (forall c :: HasRow(t'.conversations, c) ==> c <= t'.lastSerial)
  {
    MigratedIs(t, now);
  }

  ghost predicate OnlyClosed(was: Member, m: Member, now: Time) {
    && m.id == was.id && m.conversation == was.conversation && m.user == was.user && m.role == was.role
    && (m.deletedAt == was.deletedAt || (was.deletedAt.None? && m.deletedAt == Some(now)))
  }

  predicate ActiveFor(m: Member, c: int, u: Uuid) {
    m.deletedAt.None? && m.conversation == c && m.user == u
  }

  /** Each pair keeps one active row exactly if it had one, and it is the active row of lowest id. */
  lemma OneActivePerPair(ms: seq<Member>, now: Time, c: int, u: Uuid)
    requires forall i, j :: 0 <= i < j < |ms| ==> ms[i].id < ms[j].id
    ensures forall i, j | 0 <= i < |ms| && 0 <= j < |ms| ::
      ActiveFor(Deduped(ms, now)[i], c, u) && ActiveFor(Deduped(ms, now)[j], c, u) ==> i == j
    ensures (exists i :: 0 <= i < |ms| && ActiveFor(ms[i], c, u))
      <==> exists i :: 0 <= i < |ms| && ActiveFor(Deduped(ms, now)[i], c, u)
    ensures forall i, j | 0 <= i < |ms| && 0 <= j < |ms| ::
      ActiveFor(Deduped(ms, now)[i], c, u) && ActiveFor(ms[j], c, u) ==> ms[i].id <= ms[j].id
  {
    var r := Deduped(ms, now);
    forall i, j | 0 <= i < |ms| && 0 <= j < |ms| && ActiveFor(r[i], c, u) && ActiveFor(ms[j], c, u)
      ensures i <= j
    {
      assert SamePair(ms[j], ms[i]);
    }
    if i :| 0 <= i < |ms| && ActiveFor(ms[i], c, u) {
      var k := FirstActive(ms, c, u, i);
      assert ActiveFor(r[k], c, u);
    }
  }

  lemma {:induction false} FirstActive(ms: seq<Member>, c: int, u: Uuid, i: nat) returns (k: nat)
    requires i < |ms| && ActiveFor(ms[i], c, u)
    ensures k < |ms| && ActiveFor(ms[k], c, u) && forall j :: 0 <= j < k ==> !ActiveFor(ms[j], c, u)
    decreases i
  {
    if j :| 0 <= j < i && ActiveFor(ms[j], c, u) {
      k := FirstActive(ms, c, u, j);
    } else {
      k := i;
    }
  }

  lemma DedupedTwice(ms: seq<Member>, now: Time, later: Time)
    ensures Deduped(Deduped(ms, now), later) == Deduped(ms, now)
  {
    var r := Deduped(ms, now);
    forall i, j | 0 <= j < i < |ms| && r[j].deletedAt.None? && SamePair(r[j], r[i])
      ensures r[i].deletedAt.Some?
    {
      assert ms[j].deletedAt.None? && SamePair(ms[j], ms[i]);
    }
  }

  lemma {:induction false} BackfilledNothing(cs: seq<Conversation>, ids: seq<int>, members: seq<Member>, now: Time)
    requires forall c :: c in ids ==> HasRow(cs, c)
    ensures Backfilled(cs, ids, members, now) == cs
    decreases |ids|
  {
    if ids != [] {
      BackfilledNothing(cs, ids[..|ids| - 1], members, now);
    }
  }

  lemma {:induction false} SameSources(a: seq<Member>, b: seq<Member>, messages: seq<Message>)
    requires |a| == |b| && forall i :: 0 <= i < |a| ==> a[i].conversation == b[i].conversation
    ensures SourceIds(a, messages) == SourceIds(b, messages)
    decreases |messages| + |a|
  {
    if messages != [] {
      SameSources(a, b, messages[..|messages| - 1]);
    } else if a != [] {
      SameSources(a[..|a| - 1], b[..|b| - 1], messages);
    }
  }

  lemma CleanedTwice(t: Tables, t': Tables, now: Time, later: Time)
    requires TablesOk(t)
    requires t'.conversations == Cleaned(t, now).conversations && t'.members == Deduped(t.members, now) && t'.messages == t.messages
    ensures Cleaned(t', later) == t'
  {
    var ids := SourceIds(t.members, t.messages);
    SameSources(t.members, t'.members, t.messages);
    BackfilledExact(t.conversations, ids, t.members, now);
    BackfilledNothing(t'.conversations, ids, t'.members, later);
    DedupedTwice(t.members, now, later);
  }

  lemma {:induction false} NothingToAdd(t: Tables, ks: seq<Constraint>)
    requires forall k :: k in ks ==> k in t.constraints
    ensures Constrained(t, ks) == Some(t)
    decreases |ks|
  {
    if ks != [] {
      NothingToAdd(t, ks[..|ks| - 1]);
    }
  }

  /** Running these steps again, at any later time, changes no table, nor the sequence. */
  lemma Idempotent(t: Tables, now: Time, later: Time)
    requires TablesOk(t) && Migrate(t, now).Some?
    ensures Migrate(Migrate(t, now).value, later) == Migrate(t, now)
  {
    var t' := Migrate(t, now).value;
    MigratedIs(t, now);
    CleanedTwice(t, t', now, later);
    NothingToAdd(t', WANTED);
  }

  // ---------- The statements in order ----------

  class Database {
    var conversations: seq<Conversation>
    var members: seq<Member>
    var messages: seq<Message>
    var receipts: seq<int>
    var lastSerial: int
    var constraints: set<Constraint>

    constructor (t: Tables)
      ensures Abs() == t
    {
      conversations, members, messages, receipts := t.conversations, t.members, t.messages, t.receipts;
      lastSerial, constraints := t.lastSerial, t.constraints;
    }

    ghost function Abs(): Tables
      reads this
    {
      Tables(conversations, members, messages, receipts, lastSerial, constraints)
    }

    /** BEGIN ... COMMIT; a failing statement rolls everything back. */
    method Run(now: Time) returns (committed: bool)
      modifies this
      ensures committed <==> Migrate(old(Abs()), now).Some?
      ensures Abs() == if committed then Migrate(old(Abs()), now).value else old(Abs())
    {
      var was1, was2, was3, was4 := conversations, members, lastSerial, constraints;
      InsertMissing(now);
      committed := ResetSequence();
      if committed {
        CloseDuplicates(now);
        committed := AddConstraints();
      }
      if !committed {
        conversations, members, lastSerial, constraints := was1, was2, was3, was4;
      }
    }

    /** The ALTER TABLE and CREATE INDEX statements of sections 6 and 7. */
    method AddConstraints() returns (ok: bool)
      modifies this`constraints
      ensures ok <==> Constrained(old(Abs()), WANTED).Some?
      ensures ok ==> Abs() == Constrained(old(Abs()), WANTED).value
    {
      ok := true;
      for i := 0 to |WANTED|
        invariant ok <==> Constrained(old(Abs()), WANTED[..i]).Some?
        invariant ok ==> Abs() == Constrained(old(Abs()), WANTED[..i]).value
      {
        assert WANTED[..i + 1][..i] == WANTED[..i];
        if ok && WANTED[i] !in constraints {
          ok := Meets(WANTED[i]);
          if ok {
            constraints := constraints + {WANTED[i]};
          }
        }
      }
      assert WANTED[..|WANTED|] == WANTED;
    }

    /** The scan of the table that adding a constraint makes. */
    method Meets(k: Constraint) returns (ok: bool)
      ensures ok <==> Holds(Abs(), k)
    {
      ok := Holds(Tables(conversations, members, messages, receipts, lastSerial, constraints), k);
    }

    method InsertMissing(now: Time)
      modifies this`conversations
      ensures conversations == Backfilled(old(conversations), SourceIds(members, messages), members, now)
    {
      var ids := CollectIds();
      for i := 0 to |ids|
        invariant conversations == Backfilled(old(conversations), ids[..i], members, now)
      {
        assert ids[..i + 1][..i] == ids[..i];
        if !exists k :: 0 <= k < |conversations| && conversations[k].id == ids[i] {
          conversations := conversations + [NewRow(members, ids[i], now)];
        }
      }
      assert ids[..|ids|] == ids;
    }

    method CollectIds() returns (ids: seq<int>)
      ensures ids == SourceIds(members, messages)
    {
      ids := [];
      for i := 0 to |members|
        invariant ids == SourceIds(members[..i], [])
      {
        assert members[..i + 1][..i] == members[..i];
        ids := ids + [members[i].conversation];
      }
      assert members[..|members|] == members;
      for i := 0 to |messages|
        invariant ids == SourceIds(members, messages[..i])
      {
        assert messages[..i + 1][..i] == messages[..i];
        if messages[i].conversation.Some? {
          ids := ids + [messages[i].conversation.value];
        }
      }
      assert messages[..|messages|] == messages;
    }

    method ResetSequence() returns (ok: bool)
      modifies this`lastSerial
      ensures ok <==> SetVal(conversations).Some?
      ensures lastSerial == if ok then SetVal(conversations).value else old(lastSerial)
    {
      var value := if conversations == [] then 1 else MaxId(conversations);
      if value < MIN_SERIAL || MAX_SERIAL < value {
        return false;
      }
      lastSerial := value;
      ok := true;
    }

    method CloseDuplicates(now: Time)
      modifies this`members
      ensures members == Deduped(old(members), now)
    {
      var ranked := members;
      for i := 0 to |ranked|
        invariant |members| == |ranked|
        invariant forall k :: 0 <= k < |ranked| ==> members[k] == if k < i then Deduped(ranked, now)[k] else ranked[k]
      {
        if ranked[i].deletedAt.None? && exists j :: 0 <= j < i && ranked[j].deletedAt.None? && SamePair(ranked[j], ranked[i]) {
          members := members[i := members[i].(deletedAt := Some(now))];
        }
      }
    }
  }
}
