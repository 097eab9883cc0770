/** The in-memory message store as a value: what each repository call does to the stored
    messages, receipts and seen-by lists, and what every run of such calls keeps. */
module MessageStore {
  import opened Common

  datatype ReplyRef = ReplyRef(id: int, senderId: Uuid, senderName: string, content: string)
  datatype SeenEntry = SeenEntry(user: Uuid, displayName: string, seenAt: int)

  datatype Message = Message(
    id: int, sender: Uuid, conversation: int, content: string, attachment: string,
    receivedAt: Option<Time>, createdAt: Time, updatedAt: Time,
    replyToId: Option<int>, status: string, forwardFromId: Option<int>,
    replyTo: Option<ReplyRef>, seenBy: seq<SeenEntry>)

  datatype Receipt = Receipt(messageId: int, user: Uuid, receivedAt: Time, createdAt: Time, updatedAt: Time)
  datatype SeenBy = SeenBy(messageId: int, user: Uuid, displayName: string, seenAt: Time)

  /** The two readings of the wall clock that SaveMessage may take. */
  datatype Clock = Clock(created: Time, updated: Time)

  datatype Store = Store(
    messages: seq<Message>,
    receipts: map<int, map<Uuid, Receipt>>,
    seenBy: map<int, seq<SeenBy>>,
    counter: nat)

  const EMPTY := Store([], map[], map[], 0)

  predicate ValidStatus(status: string) {
    status == "sent" || status == "delivered" || status == "seen"
  }

  // ---------- Operations ----------

  function IndexOf(ms: seq<Message>, id: int): (k: nat)
    ensures k <= |ms|
    ensures k < |ms| ==> ms[k].id == id
    ensures forall j :: 0 <= j < k ==> ms[j].id != id
  {
    FirstWhere(ms, (m: Message) => m.id == id)
  }

  predicate Stored(s: Store, id: int) {
    IndexOf(s.messages, id) < |s.messages|
  }

  /** The row SaveMessage stores for `msg` under the number `id`. */
  function Stamp(msg: Message, id: int, clock: Clock): Message {
    msg.(id := id,
         createdAt := if msg.createdAt == ZERO_TIME then clock.created else msg.createdAt,
         updatedAt := if msg.updatedAt == ZERO_TIME then clock.updated else msg.updatedAt,
         status := if msg.status == "" then "sent" else msg.status)
  }

  function Save(s: Store, msg: Message, clock: Clock): Store {
    s.(counter := s.counter + 1, messages := s.messages + [Stamp(msg, s.counter + 1, clock)])
  }

  /** SaveMessage called once per message, in order. */
  function SaveAll(s: Store, msgs: seq<Message>, clocks: seq<Clock>): Store
    requires |msgs| == |clocks|
    decreases |msgs|
  {
    if msgs == [] then s
    else Save(SaveAll(s, msgs[..|msgs| - 1], clocks[..|msgs| - 1]), msgs[|msgs| - 1], clocks[|msgs| - 1])
  }

  function Update(s: Store, id: int, content: string, now: Time): Store {
    var k := IndexOf(s.messages, id);
    if k == |s.messages| then s
    else s.(messages := s.messages[k := s.messages[k].(content := content, updatedAt := now)])
  }

  function ReceiptsOf(s: Store, id: int): map<Uuid, Receipt> {
    if id in s.receipts then s.receipts[id] else map[]
  }

  function Ack(s: Store, id: int, user: Uuid, at: Time, now: Time): Store {
    if !Stored(s, id) then s
    else
      var known := ReceiptsOf(s, id);
      var receipt := if user in known then known[user].(updatedAt := now) else Receipt(id, user, at, now, now);
      s.(receipts := s.receipts[id := known[user := receipt]])
  }

  function SetStatus(s: Store, id: int, status: string): Store {
    var k := IndexOf(s.messages, id);
    if !ValidStatus(status) || k == |s.messages| then s
    else s.(messages := s.messages[k := s.messages[k].(status := status)])
  }

  function SeenOf(s: Store, id: int): seq<SeenBy> {
    if id in s.seenBy then s.seenBy[id] else []
  }

  function SeenIndex(list: seq<SeenBy>, user: Uuid): (k: nat)
    ensures k <= |list|
    ensures k < |list| ==> list[k].user == user
    ensures forall j :: 0 <= j < k ==> list[j].user != user
  {
    FirstWhere(list, (e: SeenBy) => e.user == user)
  }

  function MarkSeen(s: Store, id: int, user: Uuid, name: string, now: Time): Store {
    if !Stored(s, id) then s
    else
      var list := SeenOf(s, id);
      var k := SeenIndex(list, user);
      var list' := if k < |list| then list[k := list[k].(displayName := name, seenAt := now)]
                   else list + [SeenBy(id, user, name, now)];
      s.(seenBy := s.seenBy[id := list'])
  }

  function Delete(s: Store, id: int): Store {
    var k := IndexOf(s.messages, id);
    if k == |s.messages| then s
    else s.(messages := s.messages[..k] + s.messages[k + 1..], receipts := s.receipts - {id}, seenBy := s.seenBy - {id})
  }

  // Listing a conversation also writes the joined reply and seen-by data into the stored messages.

  function Entries(list: seq<SeenBy>): (r: seq<SeenEntry>)
    ensures |r| == |list|
    ensures forall i {:trigger r[i]} {:trigger list[i]} :: 0 <= i < |list| ==>
      r[i] == SeenEntry(list[i].user, list[i].displayName, UnixSeconds(list[i].seenAt))
  {
    seq(|list|, i requires 0 <= i < |list| =>
      SeenEntry(list[i].user, list[i].displayName, UnixSeconds(list[i].seenAt)))
  }

  function JoinReply(s: Store, m: Message): Message {
    if m.replyToId.None? then m
    else
      var k := IndexOf(s.messages, m.replyToId.value);
      if k == |s.messages| then m
      else m.(replyTo := Some(ReplyRef(s.messages[k].id, s.messages[k].sender, "", s.messages[k].content)))
  }

  function JoinSeen(s: Store, m: Message): Message {
    if SeenOf(s, m.id) == [] then m else m.(seenBy := Entries(SeenOf(s, m.id)))
  }

  function Join(s: Store, m: Message): Message {
    JoinSeen(s, JoinReply(s, m))
  }

  function Select(ms: seq<Message>, conversation: int): seq<Message> {
    if ms == [] then []
    else Select(ms[..|ms| - 1], conversation)
         + (if ms[|ms| - 1].conversation == conversation then [ms[|ms| - 1]] else [])
  }

  /** The positions of a conversation's messages, in order. */
  function Places(ms: seq<Message>, conversation: int): (at: seq<nat>)
    ensures forall k :: 0 <= k < |at| ==> at[k] < |ms|
  {
    if ms == [] then []
    else Places(ms[..|ms| - 1], conversation)
         + (if ms[|ms| - 1].conversation == conversation then [|ms| - 1] else [])
  }

  function JoinAll(s: Store, ms: seq<Message>): (r: seq<Message>)
    ensures |r| == |ms|
    ensures forall i {:trigger r[i]} {:trigger ms[i]} :: 0 <= i < |ms| ==> r[i] == Join(s, ms[i])
  {
    seq(|ms|, i requires 0 <= i < |ms| => Join(s, ms[i]))
  }

  function Listing(s: Store, conversation: int): seq<Message> {
    JoinAll(s, Reverse(Select(s.messages, conversation)))
  }

  function ListWrites(s: Store, conversation: int): Store {
    s.(messages := seq(|s.messages|, i requires 0 <= i < |s.messages| =>
         if s.messages[i].conversation == conversation then Join(s, s.messages[i]) else s.messages[i]))
  }

  datatype Op =
    | OpSave(msg: Message, clock: Clock)
    | OpUpdate(id: int, content: string, now: Time)
    | OpAck(id: int, user: Uuid, at: Time, now: Time)
    | OpSetStatus(id: int, status: string)
    | OpMarkSeen(id: int, user: Uuid, name: string, now: Time)
    | OpDelete(id: int)
    | OpList(conversation: int)

  function Apply(s: Store, op: Op): Store {
    match op
    case OpSave(msg, clock) => Save(s, msg, clock)
    case OpUpdate(id, content, now) => Update(s, id, content, now)
    case OpAck(id, user, at, now) => Ack(s, id, user, at, now)
    case OpSetStatus(id, status) => SetStatus(s, id, status)
    case OpMarkSeen(id, user, name, now) => MarkSeen(s, id, user, name, now)
    case OpDelete(id) => Delete(s, id)
    case OpList(conversation) => ListWrites(s, conversation)
  }

  function Run(s: Store, ops: seq<Op>): Store
    decreases |ops|
  {
    if ops == [] then s else Run(Apply(s, ops[0]), ops[1..])
  }

  lemma {:induction false} RunSnoc(s: Store, ops: seq<Op>, op: Op)
    ensures Run(s, ops + [op]) == Apply(Run(s, ops), op)
    decreases |ops|
  {
    if ops == [] {
      assert [] + [op] == [op];
    } else {
      assert (ops + [op])[1..] == ops[1..] + [op];
      RunSnoc(Apply(s, ops[0]), ops[1..], op);
    }
  }

  // ---------- What every run keeps ----------

  ghost predicate Inv(s: Store) {
    && (forall i, j :: 0 <= i < j < |s.messages| ==> s.messages[i].id < s.messages[j].id)
    && (forall i :: 0 <= i < |s.messages| ==> 1 <= s.messages[i].id <= s.counter)
    && (forall id :: id in s.receipts ==> Stored(s, id))
    && (forall id, u :: id in s.receipts && u in s.receipts[id] ==>
          s.receipts[id][u].messageId == id && s.receipts[id][u].user == u)
    && (forall id :: id in s.seenBy ==> Stored(s, id) && SeenListOk(s.seenBy[id], id))
  }

  ghost predicate SeenListOk(list: seq<SeenBy>, id: int) {
    && (forall i :: 0 <= i < |list| ==> list[i].messageId == id)
    && (forall i, j :: 0 <= i < j < |list| ==> list[i].user != list[j].user)
  }

  lemma IndexUnique(ms: seq<Message>, id: int, k: nat)
    requires k <= |ms| && (k < |ms| ==> ms[k].id == id)
    requires forall j :: 0 <= j < k ==> ms[j].id != id
    ensures IndexOf(ms, id) == k
  {
  }

  ghost predicate SameIds(s: Store, s': Store) {
    |s'.messages| == |s.messages| && forall i :: 0 <= i < |s.messages| ==> s'.messages[i].id == s.messages[i].id
  }

  lemma SameIdsSameStored(s: Store, s': Store)
    requires SameIds(s, s')
    ensures forall id :: IndexOf(s'.messages, id) == IndexOf(s.messages, id)
  {
    forall id ensures IndexOf(s'.messages, id) == IndexOf(s.messages, id) {
      IndexUnique(s'.messages, id, IndexOf(s.messages, id));
    }
  }

  /** Only saving stores a new number, and that number is the next value of the counter. */
  lemma StepKeepsInv(s: Store, op: Op)
    requires Inv(s)
    ensures Inv(Apply(s, op))
    ensures s.counter <= Apply(s, op).counter
    ensures forall id :: Stored(Apply(s, op), id) && !Stored(s, id) ==> s.counter < id
  {
    match op
    case OpSave(msg, clock) => SaveKeepsInv(s, msg, clock);
    case OpDelete(d) => DeleteKeepsInv(s, d);
    case OpAck(id, user, at, now) => AckKeepsInv(s, id, user, at, now);
    case OpMarkSeen(id, user, name, now) => MarkSeenKeepsInv(s, id, user, name, now);
    case _ =>
      EditKeepsIds(s, op);
      SameIdsKeepsInv(s, Apply(s, op));
  }

  /** Editing, setting a status and listing rewrite stored messages in place, under their numbers. */
  lemma EditKeepsIds(s: Store, op: Op)
    requires op.OpUpdate? || op.OpSetStatus? || op.OpList?
    ensures var s' := Apply(s, op);
      SameIds(s, s') && s'.counter == s.counter && s'.receipts == s.receipts && s'.seenBy == s.seenBy
  {
  }

  lemma SameIdsKeepsInv(s: Store, s': Store)
    requires Inv(s) && SameIds(s, s')
    requires s'.counter == s.counter && s'.receipts == s.receipts && s'.seenBy == s.seenBy
    ensures Inv(s')
    ensures forall id :: Stored(s', id) ==> Stored(s, id)
  {
    SameIdsSameStored(s, s');
  }

  lemma AckKeepsInv(s: Store, id: int, user: Uuid, at: Time, now: Time)
    requires Inv(s)
    ensures Inv(Ack(s, id, user, at, now))
    ensures forall x :: Stored(Ack(s, id, user, at, now), x) ==> Stored(s, x)
  {
  }

  lemma MarkSeenKeepsInv(s: Store, id: int, user: Uuid, name: string, now: Time)
    requires Inv(s)
    ensures Inv(MarkSeen(s, id, user, name, now))
    ensures forall x :: Stored(MarkSeen(s, id, user, name, now), x) ==> Stored(s, x)
  {
    if Stored(s, id) {
      var s' := MarkSeen(s, id, user, name, now);
      assert SeenListOk(SeenOf(s, id), id);
      assert SeenListOk(s'.seenBy[id], id);
      assert forall other :: Stored(s', other) == Stored(s, other);
    }
  }

  lemma SaveKeepsInv(s: Store, msg: Message, clock: Clock)
    requires Inv(s)
    ensures Inv(Save(s, msg, clock))
    ensures forall id :: Stored(Save(s, msg, clock), id) && !Stored(s, id) ==> s.counter < id
  {
    forall id ensures Stored(Save(s, msg, clock), id) <==> Stored(s, id) || id == s.counter + 1 {
      SaveStores(s, msg, clock, id);
    }
  }

  lemma DeleteKeepsInv(s: Store, d: int)
    requires Inv(s)
    ensures Inv(Delete(s, d))
    ensures forall id :: Stored(Delete(s, d), id) ==> Stored(s, id)
  {
    forall id ensures Stored(Delete(s, d), id) <==> Stored(s, id) && id != d {
      DeleteRemoves(s, d, id);
    }
  }

  lemma SaveStores(s: Store, msg: Message, clock: Clock, id: int)
    requires Inv(s)
    ensures Stored(Save(s, msg, clock), id) <==> Stored(s, id) || id == s.counter + 1
  {
    var s' := Save(s, msg, clock);
    if Stored(s, id) { assert s'.messages[IndexOf(s.messages, id)].id == id; }
    assert s'.messages[|s.messages|].id == s.counter + 1;
  }

  lemma DeleteRemoves(s: Store, d: int, id: int)
    requires Inv(s)
    ensures Stored(Delete(s, d), id) <==> Stored(s, id) && id != d
  {
    var s', k, i := Delete(s, d), IndexOf(s.messages, d), IndexOf(s.messages, id);
    if k < |s.messages| {
      if i < k { assert s'.messages[i].id == id; }
      if k < i < |s.messages| { assert s'.messages[i - 1].id == id; }
    }
  }

  /** Every run keeps the invariant, and a number that is free but already counted is never
      given to a message again: ids are not reused after a delete. */
  lemma {:induction false} RunKeepsInv(s: Store, ops: seq<Op>)
    requires Inv(s)
    ensures Inv(Run(s, ops)) && s.counter <= Run(s, ops).counter
    ensures forall id :: id <= s.counter && !Stored(s, id) ==> !Stored(Run(s, ops), id)
    decreases |ops|
  {
    if ops != [] {
      StepKeepsInv(s, ops[0]);
      RunKeepsInv(Apply(s, ops[0]), ops[1..]);
    }
  }

  ghost predicate HasReceipt(s: Store, id: int, user: Uuid, at: Time) {
    id in s.receipts && user in s.receipts[id] && s.receipts[id][user].receivedAt == at
  }

  lemma StepKeepsReceipt(s: Store, op: Op, id: int, user: Uuid, at: Time)
    requires Inv(s) && HasReceipt(s, id, user, at)
    ensures Stored(Apply(s, op), id) ==> HasReceipt(Apply(s, op), id, user, at)
  {
    match op
    case OpDelete(d) => DeleteRemoves(s, d, id);
    case OpAck(x, u, t, now) => AckKeepsReceipt(s, x, u, t, now, id, user, at);
    case _ => ReceiptsStay(s, op);
  }

  lemma AckKeepsReceipt(s: Store, x: int, u: Uuid, t: Time, now: Time, id: int, user: Uuid, at: Time)
    requires HasReceipt(s, id, user, at)
    ensures HasReceipt(Ack(s, x, u, t, now), id, user, at)
  {
  }

  lemma ReceiptsStay(s: Store, op: Op)
    requires !op.OpDelete? && !op.OpAck?
    ensures Apply(s, op).receipts == s.receipts
  {
  }

  /** The first acknowledgement of a message by a user fixes the reception time: whatever calls
      follow, repeated acknowledgements included, it stays as long as the message is stored. */
  lemma {:induction false} FirstAckStays(s: Store, ops: seq<Op>, id: int, user: Uuid, at: Time)
    requires Inv(s) && HasReceipt(s, id, user, at)
    ensures Stored(Run(s, ops), id) ==> HasReceipt(Run(s, ops), id, user, at)
    decreases |ops|
  {
    if ops != [] {
      var s' := Apply(s, ops[0]);
      StepKeepsInv(s, ops[0]);
      StepKeepsReceipt(s, ops[0], id, user, at);
      if Stored(s', id) {
        FirstAckStays(s', ops[1..], id, user, at);
      } else {
        StoredBound(s, id);
        RunKeepsInv(s', ops[1..]);
      }
    }
  }

  lemma StoredBound(s: Store, id: int)
    requires Inv(s) && id in s.receipts
    ensures id <= s.counter
  {
    assert s.messages[IndexOf(s.messages, id)].id == id;
  }

  lemma FirstAckRecords(s: Store, id: int, user: Uuid, at: Time, now: Time)
    requires Stored(s, id) && user !in ReceiptsOf(s, id)
    ensures HasReceipt(Ack(s, id, user, at, now), id, user, at)
  {
  }

  // ---------- What each call does, field by field ----------

  /** m is msg as the store keeps it under this id: every field is the caller's own, but for a status
      left empty and a time left at zero. */
  ghost predicate SavedAs(msg: Message, m: Message, id: int, clock: Clock) {
    && m.id == id
    && m.sender == msg.sender && m.conversation == msg.conversation
    && m.content == msg.content && m.attachment == msg.attachment
    && m.receivedAt == msg.receivedAt && m.replyToId == msg.replyToId && m.forwardFromId == msg.forwardFromId
    && m.replyTo == msg.replyTo && m.seenBy == msg.seenBy
    && (msg.status == "" ==> m.status == "sent") && (msg.status != "" ==> m.status == msg.status)
    && (msg.createdAt == ZERO_TIME ==> m.createdAt == clock.created) && (msg.createdAt != ZERO_TIME ==> m.createdAt == msg.createdAt)
    && (msg.updatedAt == ZERO_TIME ==> m.updatedAt == clock.updated) && (msg.updatedAt != ZERO_TIME ==> m.updatedAt == msg.updatedAt)
  }

  lemma StampExact(msg: Message, id: int, clock: Clock)
    ensures SavedAs(msg, Stamp(msg, id, clock), id, clock)
  {
  }

  /** The stored message with this id. */
  function RowWith(s: Store, id: int): Option<Message> {
    var k := IndexOf(s.messages, id);
    if k < |s.messages| then Some(s.messages[k]) else None
  }

  function ReceiptOf(s: Store, id: int, user: Uuid): Option<Receipt> {
    if id in s.receipts && user in s.receipts[id] then Some(s.receipts[id][user]) else None
  }

  function SeenByUser(s: Store, id: int, user: Uuid): Option<SeenBy> {
    var list := SeenOf(s, id);
    var k := SeenIndex(list, user);
    if k < |list| then Some(list[k]) else None
  }

  /** A save adds one row, of the next id, at the end; all else stays. */
  lemma SaveEffect(s: Store, msg: Message, clock: Clock)
    requires Inv(s)
    ensures var t := Save(s, msg, clock);
      && t == Apply(s, OpSave(msg, clock))
      && t.counter == s.counter + 1 && t.receipts == s.receipts && t.seenBy == s.seenBy
      && |t.messages| == |s.messages| + 1 && t.messages[..|s.messages|] == s.messages
      && SavedAs(msg, t.messages[|s.messages|], s.counter + 1, clock)
  {
    StampExact(msg, s.counter + 1, clock);
  }

  lemma RowWithin(s: Store, t: Store, id: int)
    requires SameIds(s, t)
    ensures RowWith(s, id).Some? <==> RowWith(t, id).Some?
    ensures IndexOf(t.messages, id) == IndexOf(s.messages, id)
  {
    IndexUnique(t.messages, id, IndexOf(s.messages, id));
  }

  /** Editing a stored message puts in the content and the time, and touches nothing else; editing a
      missing one does nothing. */
  lemma UpdateEffect(s: Store, id: int, content: string, now: Time, x: int)
    ensures var t := Update(s, id, content, now);
      && t == Apply(s, OpUpdate(id, content, now))
      && t.counter == s.counter && t.receipts == s.receipts && t.seenBy == s.seenBy && SameIds(s, t)
      && (x != id || RowWith(s, id).None? ==> RowWith(t, x) == RowWith(s, x))
      && (RowWith(s, id).Some? ==>
            && RowWith(t, id).Some? && RowWith(t, id).value.content == content && RowWith(t, id).value.updatedAt == now
            && RowWith(t, id).value.(content := RowWith(s, id).value.content, updatedAt := RowWith(s, id).value.updatedAt)
                 == RowWith(s, id).value)
  {
    RowWithin(s, Update(s, id, content, now), id);
    RowWithin(s, Update(s, id, content, now), x);
  }

  /** Setting one of the three statuses of a stored message touches its status only; anything else
      does nothing. */
  lemma SetStatusEffect(s: Store, id: int, status: string, x: int)
    ensures SetStatus(s, id, status) == Apply(s, OpSetStatus(id, status))
    ensures var t := SetStatus(s, id, status);
      var done := RowWith(s, id).Some? && (status == "sent" || status == "delivered" || status == "seen");
      && t.counter == s.counter && t.receipts == s.receipts && t.seenBy == s.seenBy && SameIds(s, t)
      && (x != id || !done ==> RowWith(t, x) == RowWith(s, x))
      && (done ==>
            && RowWith(t, id).Some? && RowWith(t, id).value.status == status
            && RowWith(t, id).value.(status := RowWith(s, id).value.status) == RowWith(s, id).value)
  {
    RowWithin(s, SetStatus(s, id, status), id);
    RowWithin(s, SetStatus(s, id, status), x);
  }

  /** An acknowledgement of a stored message writes the receipt of its own user and message: a new one
      with the given reception time, or the old one with a new update time. */
  lemma AckEffect(s: Store, id: int, user: Uuid, at: Time, now: Time, x: int, u: Uuid)
    ensures var t := Ack(s, id, user, at, now);
      && t == Apply(s, OpAck(id, user, at, now))
      && t.messages == s.messages && t.counter == s.counter && t.seenBy == s.seenBy
      && (x != id || u != user || RowWith(s, id).None? ==> ReceiptOf(t, x, u) == ReceiptOf(s, x, u))
      && (RowWith(s, id).Some? ==>
            ReceiptOf(t, id, user) == match ReceiptOf(s, id, user)
              case None => Some(Receipt(id, user, at, now, now))
              case Some(was) => Some(Receipt(was.messageId, was.user, was.receivedAt, was.createdAt, now)))
  {
  }

  /** Marking a stored message as seen writes the entry of its own user and message, in its place or
      at the end of the list; the other entries keep their order. */
  lemma MarkSeenEffect(s: Store, id: int, user: Uuid, name: string, now: Time, x: int)
    ensures var t := MarkSeen(s, id, user, name, now);
      && t == Apply(s, OpMarkSeen(id, user, name, now))
      && t.messages == s.messages && t.counter == s.counter && t.receipts == s.receipts
      && (x != id || RowWith(s, id).None? ==> SeenOf(t, x) == SeenOf(s, x))
      && (RowWith(s, id).Some? ==>
            && SeenByUser(t, id, user).Some? && SeenByUser(t, id, user).value.displayName == name
            && SeenByUser(t, id, user).value.seenAt == now && SeenByUser(t, id, user).value.user == user
            && var k := SeenIndex(SeenOf(s, id), user);
               && |SeenOf(t, id)| == (if k < |SeenOf(s, id)| then |SeenOf(s, id)| else |SeenOf(s, id)| + 1)
               && forall i :: 0 <= i < |SeenOf(s, id)| && SeenOf(s, id)[i].user != user ==> SeenOf(t, id)[i] == SeenOf(s, id)[i])
  {
    if RowWith(s, id).Some? {
      var list, list' := SeenOf(s, id), SeenOf(MarkSeen(s, id, user, name, now), id);
      SeenIndexIs(list', user, SeenIndex(list, user));
    }
  }

  lemma SeenIndexIs(list: seq<SeenBy>, user: Uuid, k: nat)
    requires k < |list| && list[k].user == user && forall j :: 0 <= j < k ==> list[j].user != user
    ensures SeenIndex(list, user) == k
  {
  }

  /** A delete takes out the row, the receipts and the seen-by list of its own message only. */
  lemma DeleteEffect(s: Store, d: int, x: int, u: Uuid)
    requires Inv(s)
    ensures var t := Delete(s, d);
      && t == Apply(s, OpDelete(d)) && t.counter == s.counter
      && RowWith(t, x) == (if x == d then None else RowWith(s, x))
      && ReceiptOf(t, x, u) == (if x == d then None else ReceiptOf(s, x, u))
      && SeenOf(t, x) == (if x == d then [] else SeenOf(s, x))
  {
    DeleteRows(s, d, x);
    DeleteSides(s, d, x, u);
  }

  lemma DeleteRows(s: Store, d: int, x: int)
    requires Inv(s)
    ensures RowWith(Delete(s, d), x) == if x == d then None else RowWith(s, x)
  {
    var t, k, i := Delete(s, d), IndexOf(s.messages, d), IndexOf(s.messages, x);
    DeleteRemoves(s, d, x);
    if k < |s.messages| && x != d && i < |s.messages| {
      IndexUnique(t.messages, x, if i < k then i else i - 1);
    }
  }

  lemma DeleteSides(s: Store, d: int, x: int, u: Uuid)
    requires Inv(s)
    ensures var t := Delete(s, d);
      && ReceiptOf(t, x, u) == (if x == d then None else ReceiptOf(s, x, u))
      && SeenOf(t, x) == (if x == d then [] else SeenOf(s, x))
  {
    if IndexOf(s.messages, d) == |s.messages| {
      assert d !in s.receipts && d !in s.seenBy;
    }
  }

  /** A listing writes into the rows of its conversation what it joins to them, and into no other. */
  lemma ListEffect(s: Store, conversation: int, x: int)
    ensures var t := ListWrites(s, conversation);
      && t == Apply(s, OpList(conversation))
      && t.counter == s.counter && t.receipts == s.receipts && t.seenBy == s.seenBy && SameIds(s, t)
      && RowWith(t, x) == match RowWith(s, x)
           case None => None
           case Some(m) => if m.conversation == conversation then Some(Join(s, m)) else Some(m)
  {
    RowWithin(s, ListWrites(s, conversation), x);
  }

  // ---------- Listing ----------

  ghost predicate PlacedRight(ms: seq<Message>, conversation: int, at: seq<nat>, j: nat)
    requires j < |ms|
  {
    ms[j].conversation == conversation <==> j in at
  }

  lemma {:induction false} PlacesExact(ms: seq<Message>, conversation: int)
    ensures var at := Places(ms, conversation);
      && (forall k, l :: 0 <= k < l < |at| ==> at[k] < at[l])
      && (forall j :: 0 <= j < |ms| ==> PlacedRight(ms, conversation, at, j))
    ensures |Select(ms, conversation)| == |Places(ms, conversation)|
    ensures forall k :: 0 <= k < |Places(ms, conversation)| ==>
      Select(ms, conversation)[k] == ms[Places(ms, conversation)[k]]
    decreases |ms|
  {
    if ms != [] {
      var init := ms[..|ms| - 1];
      PlacesExact(init, conversation);
      forall j | 0 <= j < |ms| ensures PlacedRight(ms, conversation, Places(ms, conversation), j) {
        if j < |init| { assert PlacedRight(init, conversation, Places(init, conversation), j); }
      }
    }
  }

  lemma ListingAt(s: Store, conversation: int, i: nat)
    requires i < |Select(s.messages, conversation)|
    ensures var ms := Select(s.messages, conversation);
      |Listing(s, conversation)| == |ms| && Listing(s, conversation)[i] == Join(s, ms[|ms| - 1 - i])
  {
    assert Reverse(Select(s.messages, conversation))[i] == Select(s.messages, conversation)[|Select(s.messages, conversation)| - 1 - i];
  }

  /** Listing a conversation returns its stored messages and no others, newest number first, and
      each stored message changes only in the two joined fields:
      the reply preview is that of the target as it is stored now (kept as it was if the target
      is gone), and the seen-by field mirrors the side list in order (kept if the list is empty). */
  lemma ListingExact(s: Store, conversation: int)
    requires Inv(s)
    ensures forall i, j :: 0 <= i < j < |Listing(s, conversation)| ==>
      Listing(s, conversation)[i].id > Listing(s, conversation)[j].id
    ensures forall m :: m in Listing(s, conversation) <==>
      m in ListWrites(s, conversation).messages && m.conversation == conversation
  {
    ListingDescends(s, conversation);
    forall m | m in Listing(s, conversation)
      ensures m in ListWrites(s, conversation).messages && m.conversation == conversation
    {
      var i :| 0 <= i < |Listing(s, conversation)| && Listing(s, conversation)[i] == m;
      ListedIsStored(s, conversation, i);
    }
    forall m | m in ListWrites(s, conversation).messages && m.conversation == conversation
      ensures m in Listing(s, conversation)
    {
      var i :| 0 <= i < |s.messages| && ListWrites(s, conversation).messages[i] == m;
      assert s.messages[i].conversation == conversation;
      StoredIsListed(s, conversation, i);
    }
  }

  lemma ListingDescends(s: Store, conversation: int)
    requires Inv(s)
    ensures forall i, j :: 0 <= i < j < |Listing(s, conversation)| ==>
      Listing(s, conversation)[i].id > Listing(s, conversation)[j].id
  {
    forall i, j | 0 <= i < j < |Listing(s, conversation)|
      ensures Listing(s, conversation)[i].id > Listing(s, conversation)[j].id
    {
      ListedDescend(s, conversation, i, j);
    }
  }

  lemma ListedDescend(s: Store, conversation: int, i: nat, j: nat)
    requires Inv(s) && i < j < |Listing(s, conversation)|
    ensures Listing(s, conversation)[i].id > Listing(s, conversation)[j].id
  {
    var at := Places(s.messages, conversation);
    PlacesExact(s.messages, conversation);
    ListingAt(s, conversation, i);
    ListingAt(s, conversation, j);
    assert at[|at| - 1 - j] < at[|at| - 1 - i];
  }

  lemma ListedIsStored(s: Store, conversation: int, i: nat)
    requires Inv(s) && i < |Listing(s, conversation)|
    ensures var m := Listing(s, conversation)[i];
      m.conversation == conversation && m in ListWrites(s, conversation).messages
  {
    var at := Places(s.messages, conversation);
    PlacesExact(s.messages, conversation);
    ListingAt(s, conversation, i);
    var j := at[|at| - 1 - i];
    assert PlacedRight(s.messages, conversation, at, j);
    assert ListWrites(s, conversation).messages[j] == Join(s, s.messages[j]);
  }

  lemma StoredIsListed(s: Store, conversation: int, j: nat)
    requires Inv(s) && j < |s.messages| && s.messages[j].conversation == conversation
    ensures ListWrites(s, conversation).messages[j] in Listing(s, conversation)
  {
    var at := Places(s.messages, conversation);
    PlacesExact(s.messages, conversation);
    var k := PlaceOf(s.messages, conversation, j);
    ListingAt(s, conversation, |at| - 1 - k);
    assert Listing(s, conversation)[|at| - 1 - k] == Join(s, s.messages[j]);
  }

  lemma PlaceOf(ms: seq<Message>, conversation: int, j: nat) returns (k: nat)
    requires j < |ms| && ms[j].conversation == conversation
    ensures k < |Places(ms, conversation)| && Places(ms, conversation)[k] == j
  {
    var at := Places(ms, conversation);
    PlacesExact(ms, conversation);
    assert PlacedRight(ms, conversation, at, j);
    k :| 0 <= k < |at| && at[k] == j;
  }

  lemma JoinMeaning(s: Store, m: Message)
    ensures Join(s, m).(replyTo := m.replyTo, seenBy := m.seenBy) == m
    ensures m.replyToId.None? || !Stored(s, m.replyToId.value) ==> Join(s, m).replyTo == m.replyTo
    ensures SeenOf(s, m.id) == [] ==> Join(s, m).seenBy == m.seenBy
    ensures var list := SeenOf(s, m.id);
      list != [] ==>
        && |Join(s, m).seenBy| == |list|
        && forall i :: 0 <= i < |list| ==>
             Join(s, m).seenBy[i] == SeenEntry(list[i].user, list[i].displayName, UnixSeconds(list[i].seenAt))
  {
  }

  /** The preview of m shows a stored message, the one it replies to, as it is now. */
  ghost predicate PreviewIsCurrent(s: Store, m: Message) {
    && m.replyToId.Some? && Stored(s, m.replyToId.value)
    && var target := s.messages[IndexOf(s.messages, m.replyToId.value)];
       m.replyTo == Some(ReplyRef(target.id, target.sender, "", target.content))
  }

  /** A listed message shows its target's present sender and content exactly if it replies to a message
      that is still stored. */
  lemma ReplyIsCurrentIff(s: Store, m: Message)
    ensures PreviewIsCurrent(s, Join(s, m)) <==> m.replyToId.Some? && Stored(s, m.replyToId.value)
  {
    assert Join(s, m).replyTo == JoinReply(s, m).replyTo && Join(s, m).replyToId == m.replyToId;
  }

  /** An instance of the other case: save, reply, list, delete, list. The second listing still shows the
      message that is gone. */
  lemma DeletedTargetStillShown(m: Message, reply: Message, clock: Clock)
    requires m.replyToId == None && reply.replyToId == Some(1) && reply.conversation == m.conversation
    ensures var c := m.conversation;
      var s := Run(EMPTY, [OpSave(m, clock), OpSave(reply, clock), OpList(c), OpDelete(1), OpList(c)]);
      !Stored(s, 1) && s.messages == [WithPreview(Stamp(reply, 2, clock), Stamp(m, 1, clock))]
  {
    var c, rest := m.conversation, [OpList(m.conversation), OpDelete(1), OpList(m.conversation)];
    assert [OpSave(m, clock), OpSave(reply, clock), OpList(c), OpDelete(1), OpList(c)] == [OpSave(m, clock), OpSave(reply, clock)] + rest;
    TwoSaved(m, reply, clock, rest);
    ListDeleteList(Stamp(m, 1, clock), Stamp(reply, 2, clock), c);
  }

  lemma TwoSaved(m: Message, reply: Message, clock: Clock, rest: seq<Op>)
    ensures Run(EMPTY, [OpSave(m, clock), OpSave(reply, clock)] + rest)
      == Run(Just([Stamp(m, 1, clock), Stamp(reply, 2, clock)], 2), rest)
  {
    assert [OpSave(m, clock), OpSave(reply, clock)] + rest == [OpSave(m, clock)] + ([OpSave(reply, clock)] + rest);
    RunStep(EMPTY, OpSave(m, clock), [OpSave(reply, clock)] + rest);
    assert Apply(EMPTY, OpSave(m, clock)) == Just([Stamp(m, 1, clock)], 1);
    RunStep(Just([Stamp(m, 1, clock)], 1), OpSave(reply, clock), rest);
    assert Apply(Just([Stamp(m, 1, clock)], 1), OpSave(reply, clock)) == Just([Stamp(m, 1, clock), Stamp(reply, 2, clock)], 2);
  }

  lemma ListDeleteList(row1: Message, row2: Message, c: int)
    requires row1.id == 1 && row2.id == 2 && row1.conversation == row2.conversation == c
    requires row1.replyToId == None && row2.replyToId == Some(1)
    ensures var s := Run(Just([row1, row2], 2), [OpList(c), OpDelete(1), OpList(c)]);
      !Stored(s, 1) && s.messages == [WithPreview(row2, row1)]
  {
    RunThree(Just([row1, row2], 2), OpList(c), OpDelete(1), OpList(c));
    PairListed(row1, row2, c);
    FirstDeleted(row1, WithPreview(row2, row1));
    LostListed(WithPreview(row2, row1), c);
  }

  lemma RunThree(s: Store, a: Op, b: Op, c: Op)
    ensures Run(s, [a, b, c]) == Apply(Apply(Apply(s, a), b), c)
  {
    assert [a, b, c] == [a] + ([b] + ([c] + []));
    RunStep(s, a, [b] + ([c] + []));
    RunStep(Apply(s, a), b, [c] + []);
    RunStep(Apply(Apply(s, a), b), c, []);
  }

  function Just(ms: seq<Message>, counter: nat): Store {
    Store(ms, map[], map[], counter)
  }

  function WithPreview(reply: Message, target: Message): Message {
    reply.(replyTo := Some(ReplyRef(target.id, target.sender, "", target.content)))
  }

  lemma PairListed(row1: Message, row2: Message, c: int)
    requires row1.id == 1 && row2.id == 2 && row1.conversation == row2.conversation == c
    requires row1.replyToId == None && row2.replyToId == Some(1)
    ensures ListWrites(Just([row1, row2], 2), c) == Just([row1, WithPreview(row2, row1)], 2)
  {
    var s := Just([row1, row2], 2);
    IndexUnique(s.messages, 1, 0);
    assert Join(s, row1) == row1 && Join(s, row2) == WithPreview(row2, row1);
    assert ListWrites(s, c).messages == [Join(s, row1), Join(s, row2)];
  }

  lemma FirstDeleted(row1: Message, row2: Message)
    requires row1.id == 1
    ensures Delete(Just([row1, row2], 2), 1) == Just([row2], 2)
  {
    IndexUnique([row1, row2], 1, 0);
    assert [row1, row2][..0] + [row1, row2][0 + 1..] == [row2];
  }

  lemma LostListed(b: Message, c: int)
    requires b.id == 2 && b.conversation == c && b.replyToId == Some(1)
    ensures ListWrites(Just([b], 2), c) == Just([b], 2) && !Stored(Just([b], 2), 1)
  {
    var s := Just([b], 2);
    IndexUnique(s.messages, 1, 1);
    assert Join(s, b) == b;
    assert ListWrites(s, c).messages == [Join(s, b)];
  }

  lemma RunStep(s: Store, op: Op, ops: seq<Op>)
    ensures Run(s, [op] + ops) == Run(Apply(s, op), ops)
  {
    assert ([op] + ops)[1..] == ops;
  }

  /** Listing twice in a row answers the same and writes nothing new. */
  lemma ListingIdempotent(s: Store, conversation: int)
    requires Inv(s)
    ensures ListWrites(ListWrites(s, conversation), conversation) == ListWrites(s, conversation)
  {
    var s' := ListWrites(s, conversation);
    SameIdsSameStored(s, s');
    forall i | 0 <= i < |s.messages| && s.messages[i].conversation == conversation
      ensures Join(s', s'.messages[i]) == s'.messages[i]
    {
      JoinAgain(s, s', s.messages[i]);
    }
    forall i | 0 <= i < |s.messages| ensures ListWrites(s', conversation).messages[i] == s'.messages[i] {
      assert s'.messages[i].conversation == s.messages[i].conversation;
    }
  }

  lemma JoinAgain(s: Store, s': Store, m: Message)
    requires SameIds(s, s') && s'.seenBy == s.seenBy
    requires forall id :: IndexOf(s'.messages, id) == IndexOf(s.messages, id)
    requires forall i :: 0 <= i < |s.messages| ==>
      s'.messages[i].sender == s.messages[i].sender && s'.messages[i].content == s.messages[i].content
    ensures Join(s', Join(s, m)) == Join(s, m)
  {
    assert JoinReply(s', JoinReply(s, m)) == JoinReply(s, m);
  }

  // ---------- Bulk saving ----------

  /** t is s with one new row per message, numbered one after the other, and nothing else. */
  ghost predicate Appended(s: Store, msgs: seq<Message>, clocks: seq<Clock>, t: Store) {
    && |msgs| == |clocks| && t.counter == s.counter + |msgs|
    && t.receipts == s.receipts && t.seenBy == s.seenBy
    && |t.messages| == |s.messages| + |msgs|
    && (forall i :: 0 <= i < |s.messages| ==> t.messages[i] == s.messages[i])
    && forall i :: 0 <= i < |msgs| ==>
         t.messages[|s.messages| + i] == Stamp(msgs[i], s.counter + 1 + i, clocks[i])
  }

  /** One save per message appends exactly these rows. */
  lemma {:induction false} SaveAllAppends(s: Store, msgs: seq<Message>, clocks: seq<Clock>)
    requires |msgs| == |clocks|
    ensures Appended(s, msgs, clocks, SaveAll(s, msgs, clocks))
    decreases |msgs|
  {
    if msgs != [] {
      var n := |msgs| - 1;
      SaveAllAppends(s, msgs[..n], clocks[..n]);
      AppendedNext(s, msgs, clocks, SaveAll(s, msgs[..n], clocks[..n]));
    }
  }

  lemma AppendedNext(s: Store, msgs: seq<Message>, clocks: seq<Clock>, t: Store)
    requires msgs != [] && |msgs| == |clocks| && Appended(s, msgs[..|msgs| - 1], clocks[..|msgs| - 1], t)
    ensures Appended(s, msgs, clocks, Save(t, msgs[|msgs| - 1], clocks[|msgs| - 1]))
  {
  }

  lemma SaveAllConcat(s: Store, a: seq<Message>, b: seq<Message>, ca: seq<Clock>, cb: seq<Clock>)
    requires |a| == |ca| && |b| == |cb|
    ensures SaveAll(s, a + b, ca + cb) == SaveAll(SaveAll(s, a, ca), b, cb)
  {
    var mid := SaveAll(s, a, ca);
    SaveAllAppends(s, a, ca);
    SaveAllAppends(mid, b, cb);
    SaveAllAppends(s, a + b, ca + cb);
    AppendedTwice(s, a, b, ca, cb, mid, SaveAll(mid, b, cb), SaveAll(s, a + b, ca + cb));
  }

  lemma AppendedTwice(s: Store, a: seq<Message>, b: seq<Message>, ca: seq<Clock>, cb: seq<Clock>, mid: Store, t: Store, t': Store)
    requires Appended(s, a, ca, mid) && Appended(mid, b, cb, t) && Appended(s, a + b, ca + cb, t')
    ensures t' == t
  {
    forall i | 0 <= i < |t.messages| ensures t'.messages[i] == t.messages[i] {
      var k := i - |s.messages|;
      if k >= 0 { assert t'.messages[|s.messages| + k] == Stamp((a + b)[k], s.counter + 1 + k, (ca + cb)[k]); }
      if 0 <= k < |a| { assert mid.messages[|s.messages| + k] == Stamp(a[k], s.counter + 1 + k, ca[k]); }
      if k >= |a| { assert t.messages[|mid.messages| + (k - |a|)] == Stamp(b[k - |a|], mid.counter + 1 + (k - |a|), cb[k - |a|]); }
    }
  }

  /** The stored row of msg with the timestamps forgotten that the store generated; those that the
      caller supplied stay. */
  function Ungenerated(row: Message, msg: Message): Message {
    row.(createdAt := if msg.createdAt == ZERO_TIME then ZERO_TIME else row.createdAt,
         updatedAt := if msg.updatedAt == ZERO_TIME then ZERO_TIME else row.updatedAt)
  }

  /** Two stores that came from saving msgs are equal but for generated timestamps of the new rows. */
  ghost predicate SameButGenerated(s: Store, msgs: seq<Message>, t1: Store, t2: Store) {
    && t1.(messages := []) == t2.(messages := [])
    && |t1.messages| == |t2.messages| == |s.messages| + |msgs|
    && (forall i :: 0 <= i < |s.messages| ==> t1.messages[i] == t2.messages[i] == s.messages[i])
    && forall i :: 0 <= i < |msgs| ==>
         Ungenerated(t1.messages[|s.messages| + i], msgs[i]) == Ungenerated(t2.messages[|s.messages| + i], msgs[i])
  }

  /** The clock only reaches timestamps that the caller left open: everything else that a sequence of
      saves stores is the same whatever the clock reads. */
  lemma ClocksOnlyReachTimestamps(s: Store, msgs: seq<Message>, c1: seq<Clock>, c2: seq<Clock>)
    requires |msgs| == |c1| == |c2|
    ensures SameButGenerated(s, msgs, SaveAll(s, msgs, c1), SaveAll(s, msgs, c2))
  {
    SaveAllAppends(s, msgs, c1);
    SaveAllAppends(s, msgs, c2);
    AppendedAlike(s, msgs, c1, c2, SaveAll(s, msgs, c1), SaveAll(s, msgs, c2));
  }

  lemma AppendedAlike(s: Store, msgs: seq<Message>, c1: seq<Clock>, c2: seq<Clock>, t1: Store, t2: Store)
    requires Appended(s, msgs, c1, t1) && Appended(s, msgs, c2, t2)
    ensures SameButGenerated(s, msgs, t1, t2)
  {
  }

  lemma {:induction false} SaveAllSize(s: Store, msgs: seq<Message>, clocks: seq<Clock>)
    requires |msgs| == |clocks|
    ensures SaveAll(s, msgs, clocks).counter == s.counter + |msgs|
    ensures |SaveAll(s, msgs, clocks).messages| == |s.messages| + |msgs|
    decreases |msgs|
  {
    if msgs != [] {
      SaveAllSize(s, msgs[..|msgs| - 1], clocks[..|msgs| - 1]);
    }
  }
}
