/** The notification list of each user: a Redis list, newest first, cut to one hundred entries. */
module Notifications {
  import opened Common

  const MAX_PER_USER: nat := 100

  datatype Notification = Notification(
    id: Time, userId: string, kind: string, payload: string, createdAt: int, read: bool)

  /** A list entry: an encoded notification, or bytes that do not decode. */
  datatype Item = Encoded(n: Notification) | Unreadable(bytes: string)

  type Lists = map<string, seq<Item>>

  const KEY_PREFIX := "notifications:"

  function Key(userId: string): string {
    KEY_PREFIX + userId
  }

  function ListAt(lists: Lists, key: string): seq<Item> {
    if key in lists then lists[key] else []
  }

  // ---------- Redis commands ----------

  function LPush(list: seq<Item>, item: Item): seq<Item> {
    [item] + list
  }

  /** LTRIM key 0 n-1 */
  function Trim(list: seq<Item>, n: nat): seq<Item> {
    if |list| <= n then list else list[..n]
  }

  // ---------- The operations on one list ----------

  function Stamped(n: Notification, id: Time, now: Time): Notification {
    n.(id := id, createdAt := UnixSeconds(now), read := false)
  }

  function SendTo(list: seq<Item>, n: Notification): seq<Item> {
    Trim(LPush(list, Encoded(n)), MAX_PER_USER)
  }

  function MarkItem(item: Item): Item {
    if item.Encoded? then Encoded(item.n.(read := true)) else item
  }

  function MarkAll(list: seq<Item>): (r: seq<Item>)
    ensures |r| == |list|
    ensures forall i {:trigger r[i]} {:trigger list[i]} :: 0 <= i < |list| ==> r[i] == MarkItem(list[i])
  {
    seq(|list|, i requires 0 <= i < |list| => MarkItem(list[i]))
  }

  /** Marking touches the read flag of decodable entries and nothing else. */
  lemma MarkedEntry(item: Item)
    ensures item.Unreadable? ==> MarkItem(item) == item
    ensures item.Encoded? ==> var r := MarkItem(item);
      && r.Encoded? && r.n.read && r.n.id == item.n.id && r.n.userId == item.n.userId
      && r.n.kind == item.n.kind && r.n.payload == item.n.payload && r.n.createdAt == item.n.createdAt
  {
  }

  function Pending(list: seq<Item>): seq<Notification> {
    if list == [] then []
    else
      var last := list[|list| - 1];
      Pending(list[..|list| - 1]) + (if last.Encoded? && !last.n.read then [last.n] else [])
  }

  // ---------- Whole runs for one user ----------

  datatype Op = Send(n: Notification) | MarkRead

  function Run(ops: seq<Op>): seq<Item>
    decreases |ops|
  {
    if ops == [] then []
    else
      var list := Run(ops[..|ops| - 1]);
      match ops[|ops| - 1]
      case Send(n) => SendTo(list, n)
      case MarkRead => MarkAll(list)
  }

  /** Everything ever sent, newest first. */
  function AllSent(ops: seq<Op>): seq<Notification> {
    if ops == [] then []
    else (if ops[|ops| - 1].Send? then [ops[|ops| - 1].n] else []) + AllSent(ops[..|ops| - 1])
  }

  /** How many were sent since the last MarkRead. */
  function Unseen(ops: seq<Op>): nat {
    if ops == [] || ops[|ops| - 1].MarkRead? then 0 else 1 + Unseen(ops[..|ops| - 1])
  }

  function Min(a: nat, b: nat): nat {
    if a < b then a else b
  }

  /** What a notification sent unread looks like at position i of the newest-first order. */
  function Shown(ops: seq<Op>, i: nat): Item
    requires i < |AllSent(ops)|
  {
    Encoded(if i < Unseen(ops) then AllSent(ops)[i] else AllSent(ops)[i].(read := true))
  }

  /** Closed form: after any run of sends (which store the notification unread) and MarkReads, the
      list holds the newest min(100, total), newest first, unread exactly if sent since the last
      MarkRead and otherwise as sent. */
  lemma {:induction false} ListClosedForm(ops: seq<Op>)
    requires forall i :: 0 <= i < |ops| && ops[i].Send? ==> !ops[i].n.read
    ensures Unseen(ops) <= |AllSent(ops)|
    ensures |Run(ops)| == Min(MAX_PER_USER, |AllSent(ops)|)
    ensures forall i :: 0 <= i < |Run(ops)| ==> Run(ops)[i] == Shown(ops, i)
    ensures forall i :: 0 <= i < |AllSent(ops)| ==> !AllSent(ops)[i].read
    decreases |ops|
  {
    if ops != [] {
      var init := ops[..|ops| - 1];
      ListClosedForm(init);
      if ops[|ops| - 1].Send? {
        assert AllSent(ops) == [ops[|ops| - 1].n] + AllSent(init);
        forall i | 0 <= i < |Run(ops)| ensures Run(ops)[i] == Shown(ops, i) {
          if i > 0 { assert Run(ops)[i] == Run(init)[i - 1] == Shown(init, i - 1); }
        }
      } else {
        assert AllSent(ops) == AllSent(init);
      }
    }
  }

  lemma {:induction false} PendingPrefix(list: seq<Item>, k: nat)
    requires k <= |list|
    requires forall i :: 0 <= i < k ==> list[i].Encoded? && !list[i].n.read
    requires forall i :: k <= i < |list| ==> list[i].Encoded? && list[i].n.read
    ensures |Pending(list)| == k && forall i :: 0 <= i < k ==> Pending(list)[i] == list[i].n
    decreases |list|
  {
    if list != [] {
      PendingPrefix(list[..|list| - 1], Min(k, |list| - 1));
    }
  }

  /** GetPending answers exactly the newest min(100, sends since the last MarkRead), newest first. */
  lemma PendingClosedForm(ops: seq<Op>)
    requires forall i :: 0 <= i < |ops| && ops[i].Send? ==> !ops[i].n.read
    ensures Unseen(ops) <= |AllSent(ops)|
    ensures Pending(Run(ops)) == AllSent(ops)[..Min(MAX_PER_USER, Unseen(ops))]
  {
    ListClosedForm(ops);
    var k := Min(MAX_PER_USER, Unseen(ops));
    PendingPrefix(Run(ops), k);
  }

  // ---------- Whole runs for all users ----------

  /** Two users never share a list. */
  lemma KeysDiffer(u: string, v: string)
    ensures Key(u) == Key(v) <==> u == v
  {
    assert Key(u)[|KEY_PREFIX|..] == u && Key(v)[|KEY_PREFIX|..] == v;
  }

  datatype UserOp = UserOp(userId: string, op: Op)

  function RunAll(ops: seq<UserOp>): Lists
    decreases |ops|
  {
    if ops == [] then map[]
    else
      var lists, last := RunAll(ops[..|ops| - 1]), ops[|ops| - 1];
      var key := Key(last.userId);
      match last.op
      case Send(n) => lists[key := SendTo(ListAt(lists, key), n)]
      case MarkRead => if key in lists then lists[key := MarkAll(lists[key])] else lists
  }

  function OpsOf(ops: seq<UserOp>, userId: string): seq<Op> {
    if ops == [] then []
    else OpsOf(ops[..|ops| - 1], userId)
         + (if ops[|ops| - 1].userId == userId then [ops[|ops| - 1].op] else [])
  }

  /** What a user finds depends on that user's operations only. */
  lemma {:induction false} UsersAreSeparate(ops: seq<UserOp>, userId: string)
    ensures ListAt(RunAll(ops), Key(userId)) == Run(OpsOf(ops, userId))
    decreases |ops|
  {
    if ops != [] {
      var init, last := ops[..|ops| - 1], ops[|ops| - 1];
      UsersAreSeparate(init, userId);
      KeysDiffer(last.userId, userId);
      if last.userId == userId {
        var mine := OpsOf(ops, userId);
        assert mine[..|mine| - 1] == OpsOf(init, userId) && mine[|mine| - 1] == last.op;
        assert MarkAll([]) == [];
        assert ListAt(RunAll(ops), Key(userId)) == match last.op
          case Send(n) => SendTo(ListAt(RunAll(init), Key(userId)), n)
          case MarkRead => MarkAll(ListAt(RunAll(init), Key(userId)));
      } else {
        assert OpsOf(ops, userId) == OpsOf(init, userId);
      }
    }
  }

  // ---------- Calls of the service ----------

  datatype Call = SendCall(n: Notification, id: Time, now: Time) | MarkCall(userId: string)

  /** A send to the user that the service accepts. */
  predicate SendsTo(c: Call, userId: string) {
    c.SendCall? && c.n.userId == userId && c.n.userId != "" && c.n.kind != ""
  }

  predicate Marks(c: Call, userId: string) {
    c.MarkCall? && c.userId == userId && c.userId != ""
  }

  /** The j-th call sends to the user, and no later call marks the user's notifications read. */
  ghost predicate UnreadSend(calls: seq<Call>, userId: string, j: int) {
    0 <= j < |calls| && SendsTo(calls[j], userId) && forall k :: j < k < |calls| ==> !Marks(calls[k], userId)
  }

  /** r is what was sent: unread, with the given user, kind, payload and number, and the whole seconds
      of the time of sending. */
  ghost predicate Shows(r: Notification, c: Call) {
    && c.SendCall? && !r.read
    && r.userId == c.n.userId && r.kind == c.n.kind && r.payload == c.n.payload && r.id == c.id
    && r.createdAt * 1_000_000_000 <= c.now < (r.createdAt + 1) * 1_000_000_000
  }

  lemma StampedShows(n: Notification, id: Time, now: Time)
    ensures Shows(Stamped(n, id, now), SendCall(n, id, now))
  {
    UnixSecondsExact(now);
  }

  /** The unread sends to the user, newest first. */
  function UnreadSends(calls: seq<Call>, userId: string): seq<nat> {
    if calls == [] then []
    else
      var last, init := calls[|calls| - 1], calls[..|calls| - 1];
      if Marks(last, userId) then []
      else if SendsTo(last, userId) then [|init|] + UnreadSends(init, userId)
      else UnreadSends(init, userId)
  }

  ghost predicate NewestFirst(at: seq<nat>) {
    forall i, j :: 0 <= i < j < |at| ==> at[i] > at[j]
  }

  lemma {:induction false} UnreadSendsExact(calls: seq<Call>, userId: string)
    ensures NewestFirst(UnreadSends(calls, userId))
    ensures forall j :: j in UnreadSends(calls, userId) <==> UnreadSend(calls, userId, j)
    decreases |calls|
  {
    if calls != [] {
      var last, init := calls[|calls| - 1], calls[..|calls| - 1];
      UnreadSendsExact(init, userId);
      forall j ensures UnreadSend(calls, userId, j) <==>
        !Marks(last, userId) && (UnreadSend(init, userId, j) || (j == |init| && SendsTo(last, userId)))
      {
        UnreadSendStep(calls, userId, j);
      }
      var rest := UnreadSends(init, userId);
      forall i | 0 <= i < |rest| ensures rest[i] < |init| {
        assert rest[i] in rest;
      }
    }
  }

  lemma UnreadSendStep(calls: seq<Call>, userId: string, j: int)
    requires calls != []
    ensures var last, init := calls[|calls| - 1], calls[..|calls| - 1];
      UnreadSend(calls, userId, j) <==>
        !Marks(last, userId) && (UnreadSend(init, userId, j) || (j == |init| && SendsTo(last, userId)))
  {
    var last, init := calls[|calls| - 1], calls[..|calls| - 1];
    if UnreadSend(init, userId, j) && !Marks(last, userId) {
      forall k | j < k < |calls| ensures !Marks(calls[k], userId) {
        if k < |init| { assert calls[k] == init[k]; }
      }
    }
    if UnreadSend(calls, userId, j) && j < |init| {
      forall k | j < k < |init| ensures !Marks(init[k], userId) {
        assert calls[k] == init[k];
      }
    }
  }

  /** What an accepted call does; a refused one does nothing. */
  function OpsFor(c: Call): seq<UserOp> {
    match c
    case SendCall(n, id, now) => if SendsTo(c, n.userId) then [UserOp(n.userId, Send(Stamped(n, id, now)))] else []
    case MarkCall(userId) => if Marks(c, userId) then [UserOp(userId, MarkRead)] else []
  }

  function AllOps(calls: seq<Call>): seq<UserOp> {
    if calls == [] then [] else AllOps(calls[..|calls| - 1]) + OpsFor(calls[|calls| - 1])
  }

  lemma OneMoreOp(ops: seq<UserOp>, c: Call, userId: string)
    ensures OpsOf(ops + OpsFor(c), userId) == OpsOf(ops, userId)
      + (if Marks(c, userId) then [MarkRead] else if SendsTo(c, userId) then [Send(Stamped(c.n, c.id, c.now))] else [])
  {
    var all := ops + OpsFor(c);
    if OpsFor(c) == [] {
      assert all == ops;
    } else {
      assert all[..|all| - 1] == ops;
    }
  }

  ghost predicate OpsShow(calls: seq<Call>, ops: seq<Op>, at: seq<nat>) {
    && (forall i :: 0 <= i < |ops| && ops[i].Send? ==> !ops[i].n.read)
    && |at| == Unseen(ops) <= |AllSent(ops)|
    && forall i :: 0 <= i < |at| ==> at[i] < |calls| && Shows(AllSent(ops)[i], calls[at[i]])
  }

  lemma OneMoreCall(calls: seq<Call>, c: Call, ops: seq<Op>, at: seq<nat>)
    requires OpsShow(calls, ops, at)
    ensures OpsShow(calls + [c], ops, at)
  {
  }

  lemma OneMoreSend(calls: seq<Call>, c: Call, ops: seq<Op>, at: seq<nat>, n: Notification)
    requires OpsShow(calls, ops, at) && Shows(n, c)
    ensures OpsShow(calls + [c], ops + [Send(n)], [|calls|] + at)
  {
    var ops', at' := ops + [Send(n)], [|calls|] + at;
    assert ops'[..|ops'| - 1] == ops;
    assert AllSent(ops') == [n] + AllSent(ops);
    forall i | 0 <= i < |at'| ensures at'[i] < |calls| + 1 && Shows(AllSent(ops')[i], (calls + [c])[at'[i]]) {
      if i > 0 { assert AllSent(ops')[i] == AllSent(ops)[i - 1]; }
    }
  }

  lemma OneMoreMark(calls: seq<Call>, c: Call, ops: seq<Op>, at: seq<nat>)
    requires OpsShow(calls, ops, at)
    ensures OpsShow(calls + [c], ops + [MarkRead], [])
  {
  }

  /** The operations on the user's list are the user's accepted calls: the unseen ones are the unread
      sends. */
  lemma {:induction false} OpsShowCalls(calls: seq<Call>, userId: string)
    ensures OpsShow(calls, OpsOf(AllOps(calls), userId), UnreadSends(calls, userId))
    decreases |calls|
  {
    if calls != [] {
      var last, init := calls[|calls| - 1], calls[..|calls| - 1];
      var before, at := OpsOf(AllOps(init), userId), UnreadSends(init, userId);
      OpsShowCalls(init, userId);
      OneMoreOp(AllOps(init), last, userId);
      assert calls == init + [last];
      if Marks(last, userId) {
        OneMoreMark(init, last, before, at);
      } else if SendsTo(last, userId) {
        StampedShows(last.n, last.id, last.now);
        OneMoreSend(init, last, before, at, Stamped(last.n, last.id, last.now));
      } else {
        assert before + [] == before;
        OneMoreCall(init, last, before, at);
      }
    }
  }

  // ---------- The service ----------

  datatype Error = UserRequired | KindRequired

  class NotificationService {
    var lists: Lists

    constructor ()
      ensures lists == map[]
    {
      lists := map[];
    }

    /** Push, then cut: in one pipeline. */
    method Send(n: Notification, id: Time, now: Time) returns (error: Option<Error>)
      modifies this
      ensures error == if n.userId == "" then Some(UserRequired) else if n.kind == "" then Some(KindRequired) else None
      ensures error.Some? ==> lists == old(lists)
      ensures error.None? ==>
        && lists == old(lists)[Key(n.userId) := SendTo(ListAt(old(lists), Key(n.userId)), Stamped(n, id, now))]
        && Shows(Stamped(n, id, now), SendCall(n, id, now))
    {
      if n.userId == "" {
        return Some(UserRequired);
      }
      if n.kind == "" {
        return Some(KindRequired);
      }
      var stamped := n.(id := id);
      stamped := stamped.(createdAt := UnixSeconds(now));
      stamped := stamped.(read := false);
      var key := KEY_PREFIX + n.userId;
      var list := LPush(ListAt(lists, key), Encoded(stamped));
      list := Trim(list, MAX_PER_USER);
      lists := lists[key := list];
      StampedShows(n, id, now);
      error := None;
    }

    method GetPending(userId: string) returns (r: Result<seq<Notification>, Error>)
      ensures r == if userId == "" then Err(UserRequired) else Ok(Pending(ListAt(lists, Key(userId))))
    {
      if userId == "" {
        return Err(UserRequired);
      }
      var items := ListAt(lists, KEY_PREFIX + userId);
      var notifs: seq<Notification> := [];
      for i := 0 to |items|
        invariant notifs == Pending(items[..i])
      {
        assert items[..i + 1][..i] == items[..i];
        if items[i].Unreadable? {
          continue;
        }
        if !items[i].n.read {
          notifs := notifs + [items[i].n];
        }
      }
      assert items[..|items|] == items;
      r := Ok(notifs);
    }

    /** Rewrites each readable entry in place by index: length, order and all other fields stay. */
    method MarkRead(userId: string) returns (error: Option<Error>)
      modifies this
      ensures error == if userId == "" then Some(UserRequired) else None
      ensures error.Some? ==> lists == old(lists)
      ensures error.None? && Key(userId) in old(lists) ==>
        lists == old(lists)[Key(userId) := MarkAll(ListAt(old(lists), Key(userId)))]
      ensures error.None? && Key(userId) !in old(lists) ==> lists == old(lists)
    {
      if userId == "" {
        return Some(UserRequired);
      }
      error := None;
      var key := KEY_PREFIX + userId;
      if key !in lists {
        return;
      }
      var items := lists[key];
      for i := 0 to |items|
        invariant key in lists && |lists[key]| == |items|
        invariant lists == old(lists)[key := lists[key]]
        invariant forall j :: 0 <= j < |items| ==> lists[key][j] == if j < i then MarkItem(items[j]) else items[j]
      {
        if items[i].Unreadable? {
          continue;
        }
        var n := items[i].n.(read := true);
        lists := lists[key := lists[key][i := Encoded(n)]];
      }
      assert lists[key] == MarkAll(items);
    }
  }

  /** Serves one call. */
  method Serve(service: NotificationService, c: Call, ghost ops: seq<UserOp>)
    requires service.lists == RunAll(ops)
    modifies service
    ensures service.lists == RunAll(ops + OpsFor(c))
  {
    assert OpsFor(c) != [] ==> (ops + OpsFor(c))[..|ops|] == ops;
    assert OpsFor(c) == [] ==> ops + OpsFor(c) == ops;
    match c
    case SendCall(n, id, now) => var _ := service.Send(n, id, now);
    case MarkCall(user) => var _ := service.MarkRead(user);
  }

  /** Whatever is called on a new service, for whatever users, GetPending then answers the newest
      hundred of the user's unread sends, newest first, each as it was sent. */
  method PendingAfter(calls: seq<Call>, userId: string) returns (pending: seq<Notification>, ghost at: seq<nat>)
    requires userId != ""
    ensures NewestFirst(at) && forall j :: j in at <==> UnreadSend(calls, userId, j)
    ensures |pending| == if |at| < 100 then |at| else 100
    ensures forall i :: 0 <= i < |pending| ==> at[i] < |calls| && Shows(pending[i], calls[at[i]])
  {
    var service := new NotificationService();
    for i := 0 to |calls|
      invariant service.lists == RunAll(AllOps(calls[..i]))
    {
      assert calls[..i + 1][..i] == calls[..i];
      Serve(service, calls[i], AllOps(calls[..i]));
    }
    assert calls[..|calls|] == calls;
    var answer := service.GetPending(userId);
    pending, at := answer.value, UnreadSends(calls, userId);
    PendingIs(calls, userId);
    UnreadSendsExact(calls, userId);
  }

  lemma PendingIs(calls: seq<Call>, userId: string)
    ensures var pending, at := Pending(ListAt(RunAll(AllOps(calls)), Key(userId))), UnreadSends(calls, userId);
      && |pending| == (if |at| < 100 then |at| else 100)
      && forall i :: 0 <= i < |pending| ==> at[i] < |calls| && Shows(pending[i], calls[at[i]])
  {
    var ops := OpsOf(AllOps(calls), userId);
    UsersAreSeparate(AllOps(calls), userId);
    OpsShowCalls(calls, userId);
    PendingClosedForm(ops);
  }
}
