/** The in-memory message repository: a slice of references to stored rows, two side tables and a
    counter, all updated in place. Every method is proved against the value operations of MessageStore. */
module MessageRepository {
  import opened Common
  import opened MessageStore

  /** A *ChatMessage: a reference to a row. The repository hands these references out. */
  class StoredMessage {
    var v: Message

    constructor (v: Message)
      ensures this.v == v
    {
      this.v := v;
    }
  }

  ghost function Values(rows: seq<StoredMessage>): (r: seq<Message>)
    reads rows
    ensures |r| == |rows|
    ensures forall i {:trigger r[i]} {:trigger rows[i]} :: 0 <= i < |rows| ==> r[i] == rows[i].v
  {
    seq(|rows|, i requires 0 <= i < |rows| reads rows => rows[i].v)
  }

  function Without<T>(s: seq<T>, k: nat): seq<T> {
    if k < |s| then s[..k] + s[k + 1..] else s
  }

  lemma ValuesWithout(rows: seq<StoredMessage>, k: nat)
    requires k < |rows|
    ensures Values(Without(rows, k)) == Without(Values(rows), k)
  {
  }

  class MessageRepo {
    var messages: seq<StoredMessage>
    var receipts: map<int, map<Uuid, Receipt>>
    var seenBy: map<int, seq<SeenBy>>
    var counter: nat

    /** No two positions of the slice share a row. */
    ghost predicate Valid()
      reads this
    {
      forall i, j :: 0 <= i < j < |messages| ==> messages[i] != messages[j]
    }

    ghost function Abs(): Store
      reads this, messages
    {
      Store(Values(messages), receipts, seenBy, counter)
    }

    constructor ()
      ensures Valid() && Abs() == EMPTY
      ensures messages == []
    {
      messages, receipts, seenBy, counter := [], map[], map[], 0;
    }

    method SaveMessage(msg: Message, clock: Clock) returns (saved: StoredMessage)
      requires Valid()
      modifies this
      ensures Valid() && Abs() == Save(old(Abs()), msg, clock)
      ensures fresh(saved) && messages == old(messages) + [saved]
      ensures saved.v == Stamp(msg, old(counter) + 1, clock) && SavedAs(msg, saved.v, old(counter) + 1, clock)
    {
      counter := counter + 1;
      var row := msg.(id := counter);
      if row.createdAt == ZERO_TIME {
        row := row.(createdAt := clock.created);
      }
      if row.updatedAt == ZERO_TIME {
        row := row.(updatedAt := clock.updated);
      }
      if row.status == "" {
        row := row.(status := "sent");
      }
      saved := new StoredMessage(row);
      messages := messages + [saved];
    }

    method BulkSaveMessages(msgs: seq<Message>, clocks: seq<Clock>) returns (results: seq<StoredMessage>)
      requires Valid() && |msgs| == |clocks|
      modifies this
      ensures Valid() && Abs() == SaveAll(old(Abs()), msgs, clocks)
      ensures messages == old(messages) + results && |results| == |msgs|
      ensures fresh(results)
    {
      results := [];
      for i := 0 to |msgs|
        invariant Valid() && |results| == i && messages == old(messages) + results
        invariant fresh(results)
        invariant Abs() == SaveAll(old(Abs()), msgs[..i], clocks[..i])
      {
        var saved := SaveMessage(msgs[i], clocks[i]);
        results := results + [saved];
        assert msgs[..i + 1][..i] == msgs[..i] && clocks[..i + 1][..i] == clocks[..i];
      }
      assert msgs[..|msgs|] == msgs && clocks[..|msgs|] == clocks;
    }

    method FindById(id: int) returns (k: nat)
      requires Valid()
      ensures k == IndexOf(Abs().messages, id)
    {
      k := 0;
      while k < |messages| && messages[k].v.id != id
        invariant k <= |messages|
        invariant forall j :: 0 <= j < k ==> messages[j].v.id != id
      {
        k := k + 1;
      }
      IndexUnique(Abs().messages, id, k);
    }

    method GetMessageById(id: int) returns (r: Option<StoredMessage>)
      requires Valid()
      ensures r.Some? <==> Stored(Abs(), id)
      ensures r.Some? ==> r.value in messages && r.value.v.id == id
    {
      var k := FindById(id);
      r := if k < |messages| then Some(messages[k]) else None;
    }

    method UpdateMessageById(id: int, content: string, now: Time) returns (r: Option<StoredMessage>)
      requires Valid()
      modifies messages
      ensures Valid() && Abs() == Update(old(Abs()), id, content, now)
      ensures r.Some? <==> Stored(old(Abs()), id)
      ensures r.Some? ==> r.value in messages && r.value.v.id == id
    {
      var k := FindById(id);
      if k == |messages| {
        return None;
      }
      messages[k].v := messages[k].v.(content := content, updatedAt := now);
      r := Some(messages[k]);
      assert Abs().messages == Update(old(Abs()), id, content, now).messages;
    }

    method MarkMessageReceivedByID(id: int, user: Uuid, receivedAt: Time, now: Time) returns (r: Option<Receipt>)
      requires Valid()
      modifies this`receipts
      ensures Valid() && Abs() == Ack(old(Abs()), id, user, receivedAt, now)
      ensures r == if Stored(old(Abs()), id) then Some(receipts[id][user]) else None
    {
      var k := FindById(id);
      if k == |messages| {
        return None;
      }
      if id !in receipts {
        receipts := receipts[id := map[]];
      }
      if user in receipts[id] {
        receipts := receipts[id := receipts[id][user := receipts[id][user].(updatedAt := now)]];
      } else {
        receipts := receipts[id := receipts[id][user := Receipt(id, user, receivedAt, now, now)]];
      }
      r := Some(receipts[id][user]);
    }

    method GetMessageReceiptByID(id: int, user: Uuid) returns (r: Option<Receipt>)
      ensures r == if user in ReceiptsOf(Abs(), id) then Some(ReceiptsOf(Abs(), id)[user]) else None
    {
      if id !in receipts || user !in receipts[id] {
        return None;
      }
      r := Some(receipts[id][user]);
    }

    /** Any of the three statuses may follow any other. */
    method SetMessageStatus(id: int, status: string) returns (ok: bool)
      requires Valid()
      modifies messages
      ensures Valid() && Abs() == SetStatus(old(Abs()), id, status)
      ensures ok <==> ValidStatus(status) && Stored(old(Abs()), id)
    {
      if status != "sent" && status != "delivered" && status != "seen" {
        return false;
      }
      var k := FindById(id);
      if k == |messages| {
        return false;
      }
      messages[k].v := messages[k].v.(status := status);
      ok := true;
      assert Abs().messages == SetStatus(old(Abs()), id, status).messages;
    }

    method MarkMessageSeenBy(id: int, user: Uuid, displayName: string, now: Time) returns (r: Option<SeenBy>)
      requires Valid()
      modifies this`seenBy
      ensures Valid() && Abs() == MarkSeen(old(Abs()), id, user, displayName, now)
      ensures r.Some? <==> Stored(old(Abs()), id)
      ensures r.Some? ==> r.value in seenBy[id] && r.value.user == user && r.value.displayName == displayName && r.value.seenAt == now
    {
      var k := FindById(id);
      if k == |messages| {
        return None;
      }
      var list := if id in seenBy then seenBy[id] else [];
      var i := 0;
      while i < |list| && list[i].user != user
        invariant 0 <= i <= |list|
        invariant SeenIndex(list, user) == i + SeenIndex(list[i..], user)
      {
        assert list[i..][1..] == list[i + 1..];
        i := i + 1;
      }
      if i < |list| {
        list := list[i := list[i].(displayName := displayName, seenAt := now)];
      } else {
        list := list + [SeenBy(id, user, displayName, now)];
      }
      seenBy := seenBy[id := list];
      r := Some(list[i]);
    }

    method GetSeenByForMessage(id: int) returns (out: seq<SeenBy>)
      ensures out == SeenOf(Abs(), id)
    {
      out := if id in seenBy then seenBy[id] else [];
    }

    /** The other rows keep their place in the order and stay the same references. */
    method DeleteMessageById(id: int) returns (ok: bool)
      requires Valid()
      modifies this
      ensures Valid() && Abs() == Delete(old(Abs()), id)
      ensures ok <==> Stored(old(Abs()), id)
      ensures messages == if ok then Without(old(messages), IndexOf(old(Abs()).messages, id)) else old(messages)
    {
      var k := FindById(id);
      if k == |messages| {
        return false;
      }
      ValuesWithout(messages, k);
      messages := messages[..k] + messages[k + 1..];
      receipts := receipts - {id};
      seenBy := seenBy - {id};
      ok := true;
    }

    /** The stored rows of a conversation in insertion order, then reversed in place, then joined:
        the returned array holds references to the stored rows themselves. */
    method GetMessagesByConversationID(conversation: int) returns (page: array<StoredMessage>)
      requires Valid()
      modifies messages
      ensures fresh(page) && forall i :: 0 <= i < page.Length ==> page[i] in messages
      ensures Values(page[..]) == Listing(old(Abs()), conversation)
      ensures Valid() && Abs() == ListWrites(old(Abs()), conversation)
    {
      ghost var s, at := Abs(), Places(Abs().messages, conversation);
      page := NewestFirst(conversation);
      PlacesExact(s.messages, conversation);
      JoinRows(page, at);
      assert forall k :: 0 <= k < |at| ==> at[k] in at;
      PageIsListing(s, conversation, page, at);
      RowsAreWritten(s, conversation, at);
    }

    method NewestFirst(conversation: int) returns (page: array<StoredMessage>)
      ensures fresh(page) && page.Length == |Places(Abs().messages, conversation)|
      ensures forall i :: 0 <= i < page.Length ==>
        page[i] == messages[Places(Abs().messages, conversation)[page.Length - 1 - i]]
    {
      var picked := Pick(conversation);
      page := Backwards(picked);
      assert forall i :: 0 <= i < page.Length ==> page[i] == page[..][i];
    }

    method Pick(conversation: int) returns (picked: seq<StoredMessage>)
      ensures |picked| == |Places(Abs().messages, conversation)|
      ensures forall k :: 0 <= k < |picked| ==> picked[k] == messages[Places(Abs().messages, conversation)[k]]
    {
      picked := [];
      for i := 0 to |messages|
        invariant |picked| == |Places(Abs().messages[..i], conversation)|
        invariant forall k :: 0 <= k < |picked| ==> picked[k] == messages[Places(Abs().messages[..i], conversation)[k]]
      {
        assert Abs().messages[..i + 1][..i] == Abs().messages[..i];
        if messages[i].v.conversation == conversation {
          picked := picked + [messages[i]];
        }
      }
      assert Abs().messages[..|messages|] == Abs().messages;
    }

    /** The present rows are those of `s` but for the two joined fields. */
    ghost predicate JoinedFrom(s: Store)
      reads this, messages
    {
      && |messages| == |s.messages| && seenBy == s.seenBy
      && forall j {:trigger messages[j]} {:trigger s.messages[j]} :: 0 <= j < |messages| ==>
           messages[j].v == s.messages[j] || messages[j].v == Join(s, s.messages[j])
    }

    method JoinRow(row: StoredMessage, ghost s: Store, ghost j: nat)
      requires Valid() && JoinedFrom(s)
      requires j < |messages| && messages[j] == row && row.v == s.messages[j]
      modifies row
      ensures row.v == Join(s, s.messages[j])
    {
      assert SameIds(s, Abs());
      if row.v.replyToId.Some? {
        var k := FindById(row.v.replyToId.value);
        SameIdsSameStored(s, Abs());
        if k < |messages| {
          row.v := row.v.(replyTo := Some(ReplyRef(messages[k].v.id, messages[k].v.sender, "", messages[k].v.content)));
        }
      }
      assert row.v == JoinReply(s, s.messages[j]);
      if row.v.id in seenBy && |seenBy[row.v.id]| > 0 {
        row.v := row.v.(seenBy := Entries(seenBy[row.v.id]));
      }
    }

    /** `at` holds the positions, in stored order, of the rows that `page` shows backwards. */
    method JoinRows(page: array<StoredMessage>, ghost at: seq<nat>)
      requires Valid() && |at| == page.Length
      requires forall k :: 0 <= k < |at| ==> at[k] < |messages|
      requires forall k, l :: 0 <= k < l < |at| ==> at[k] < at[l]
      requires forall i :: 0 <= i < page.Length ==> page[i] == messages[at[page.Length - 1 - i]]
      modifies messages
      ensures forall j {:trigger messages[j]} :: 0 <= j < |messages| ==>
        messages[j].v == if j in at then Join(old(Abs()), old(messages[j].v)) else old(messages[j].v)
    {
      ghost var s := Abs();
      ghost var n := page.Length;
      ghost var joined: set<nat> := {};
      for i := 0 to page.Length
        invariant forall k :: 0 <= k < n ==> (at[k] in joined <==> n - i <= k)
        invariant forall j :: j in joined ==> j in at
        invariant forall j {:trigger messages[j]} :: 0 <= j < |messages| ==>
          messages[j].v == if j in joined then Join(s, s.messages[j]) else s.messages[j]
      {
        ghost var j := at[n - 1 - i];
        JoinRow(page[i], s, j);
        joined := joined + {j};
      }
    }

    lemma PageIsListing(s: Store, conversation: int, page: array<StoredMessage>, at: seq<nat>)
      requires |messages| == |s.messages| && at == Places(s.messages, conversation) && page.Length == |at|
      requires forall i :: 0 <= i < page.Length ==> page[i] == messages[at[page.Length - 1 - i]]
      requires forall k :: 0 <= k < |at| ==> messages[at[k]].v == Join(s, s.messages[at[k]])
      ensures Values(page[..]) == Listing(s, conversation)
    {
      PlacesExact(s.messages, conversation);
      assert |Listing(s, conversation)| == page.Length;
      forall i | 0 <= i < page.Length ensures page[i].v == Listing(s, conversation)[i] {
        RowIsListed(s, conversation, at, i, page[i]);
      }
    }

    lemma RowIsListed(s: Store, conversation: int, at: seq<nat>, i: nat, row: StoredMessage)
      requires |messages| == |s.messages| && at == Places(s.messages, conversation) && i < |at|
      requires row == messages[at[|at| - 1 - i]] && row.v == Join(s, s.messages[at[|at| - 1 - i]])
      ensures i < |Listing(s, conversation)| && row.v == Listing(s, conversation)[i]
    {
      PlacesExact(s.messages, conversation);
      ListingAt(s, conversation, i);
    }

    lemma RowsAreWritten(s: Store, conversation: int, at: seq<nat>)
      requires |messages| == |s.messages|
      requires forall j :: 0 <= j < |messages| ==> PlacedRight(s.messages, conversation, at, j)
      requires forall j :: 0 <= j < |messages| ==>
        messages[j].v == if j in at then Join(s, s.messages[j]) else s.messages[j]
      ensures Values(messages) == ListWrites(s, conversation).messages
    {
      forall j | 0 <= j < |messages| ensures Values(messages)[j] == ListWrites(s, conversation).messages[j] {
        assert PlacedRight(s.messages, conversation, at, j);
      }
    }
  }

  method Backwards(rows: seq<StoredMessage>) returns (a: array<StoredMessage>)
    ensures fresh(a) && a[..] == Reverse(rows)
  {
    a := new StoredMessage[|rows|](i requires 0 <= i < |rows| => rows[i]);
    assert a[..] == rows;
    ReverseInPlace(a);
  }

  /** The two-index loop that reverses a slice in place. */
  method ReverseInPlace(a: array<StoredMessage>)
    modifies a
    ensures a[..] == Reverse(old(a[..]))
  {
    var i, j := 0, a.Length - 1;
    while i < j
      invariant 0 <= i && i + j == a.Length - 1 && i <= j + 1
      invariant forall k :: 0 <= k < i ==> a[k] == old(a[a.Length - 1 - k])
      invariant forall k :: j < k < a.Length ==> a[k] == old(a[a.Length - 1 - k])
      invariant forall k :: i <= k <= j ==> a[k] == old(a[k])
    {
      a[i], a[j] := a[j], a[i];
      i, j := i + 1, j - 1;
    }
  }
}
