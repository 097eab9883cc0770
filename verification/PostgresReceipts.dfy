/** Acknowledgements in the Postgres message repository: an upsert guarded by the message still being
    there. The table keeps one row per message and user, and the row of a deleted message stays. */
module PostgresReceipts {
  import opened Common
  import opened MessageStore

  /** `messages` maps each primary key to its deleted_at; `receipts` in order of insertion. */
  datatype Tables = Tables(messages: map<int, Option<Time>>, receipts: seq<Receipt>)

  datatype Change =
    | Insert(id: int)
    | SoftDelete(id: int, now: Time)
    | Mark(id: int, user: Uuid, at: Time, now: Time)

  predicate Live(t: Tables, id: int) {
    id in t.messages && t.messages[id].None?
  }

  /** The row that the primary key (message_id, user_id) names. */
  function RowAt(receipts: seq<Receipt>, id: int, user: Uuid): (k: nat)
    ensures k <= |receipts|
    ensures k < |receipts| ==> receipts[k].messageId == id && receipts[k].user == user
    ensures forall j :: 0 <= j < k ==> !(receipts[j].messageId == id && receipts[j].user == user)
  {
    FirstWhere(receipts, (r: Receipt) => r.messageId == id && r.user == user)
  }

  function ReceiptAt(t: Tables, id: int, user: Uuid): Option<Receipt> {
    var k := RowAt(t.receipts, id, user);
    if k < |t.receipts| then Some(t.receipts[k]) else None
  }

  /** INSERT ... SELECT from the live message ... ON CONFLICT DO UPDATE SET updated_at. */
  function Marked(t: Tables, id: int, user: Uuid, at: Time, now: Time): Tables {
    var k := RowAt(t.receipts, id, user);
    if !Live(t, id) then t
    else if k < |t.receipts| then t.(receipts := t.receipts[k := t.receipts[k].(updatedAt := now)])
    else t.(receipts := t.receipts + [Receipt(id, user, at, now, now)])
  }

  function Applied(t: Tables, c: Change): Tables {
    match c
    case Insert(id) => if id in t.messages then t else t.(messages := t.messages[id := None])
    case SoftDelete(id, now) => if Live(t, id) then t.(messages := t.messages[id := Some(now)]) else t
    case Mark(id, user, at, now) => Marked(t, id, user, at, now)
  }

  function Run(t: Tables, cs: seq<Change>): Tables
    decreases |cs|
  {
    if cs == [] then t else Applied(Run(t, cs[..|cs| - 1]), cs[|cs| - 1])
  }

  /** The acknowledgements of one message by one user that found the message live, in order. */
  function Effective(t: Tables, cs: seq<Change>, id: int, user: Uuid): seq<Change>
    decreases |cs|
  {
    if cs == [] then []
    else
      var last := cs[|cs| - 1];
      Effective(t, cs[..|cs| - 1], id, user)
        + (if last.Mark? && last.id == id && last.user == user && Live(Run(t, cs[..|cs| - 1]), id) then [last] else [])
  }

  ghost predicate OneRowEach(receipts: seq<Receipt>) {
    forall i, j :: 0 <= i < j < |receipts| ==>
      receipts[i].messageId != receipts[j].messageId || receipts[i].user != receipts[j].user
  }

  lemma RowAtIs(receipts: seq<Receipt>, id: int, user: Uuid, k: nat)
    requires k <= |receipts| && (k < |receipts| ==> receipts[k].messageId == id && receipts[k].user == user)
    requires forall j :: 0 <= j < k ==> !(receipts[j].messageId == id && receipts[j].user == user)
    ensures RowAt(receipts, id, user) == k
  {
  }

  /** One acknowledgement touches the row of its own message and user and no other. */
  lemma MarkedExact(t: Tables, id: int, user: Uuid, at: Time, now: Time, x: int, u: Uuid)
    ensures ReceiptAt(Marked(t, id, user, at, now), x, u) ==
      if !Live(t, id) || x != id || u != user then ReceiptAt(t, x, u)
      else if ReceiptAt(t, id, user).Some? then Some(ReceiptAt(t, id, user).value.(updatedAt := now))
      else Some(Receipt(id, user, at, now, now))
  {
    var t', k, l := Marked(t, id, user, at, now), RowAt(t.receipts, id, user), RowAt(t.receipts, x, u);
    if Live(t, id) {
      if l < |t.receipts| || (x == id && u == user) {
        RowAtIs(t'.receipts, x, u, l);
      } else {
        RowAtIs(t'.receipts, x, u, |t'.receipts|);
      }
    }
  }

  /** A soft delete ends the life of its own message, for good, and touches no receipt. */
  lemma SoftDeleteExact(t: Tables, id: int, now: Time, cs: seq<Change>, x: int)
    ensures var t' := Applied(t, SoftDelete(id, now));
      && t'.receipts == t.receipts
      && (Live(t', x) <==> Live(t, x) && x != id)
      && (Live(t, id) ==> t'.messages == t.messages[id := Some(now)])
      && (x == id && Live(t, id) ==> !Live(Run(t', cs), id))
  {
    if Live(t, id) { StaysDeleted(Applied(t, SoftDelete(id, now)), cs, id); }
  }

  lemma {:induction false} StaysDeleted(t: Tables, cs: seq<Change>, id: int)
    requires id in t.messages && !Live(t, id)
    ensures id in Run(t, cs).messages && !Live(Run(t, cs), id)
    decreases |cs|
  {
    if cs != [] {
      StaysDeleted(t, cs[..|cs| - 1], id);
    }
  }

  lemma MarkedOneRowEach(t: Tables, id: int, user: Uuid, at: Time, now: Time)
    requires OneRowEach(t.receipts)
    ensures OneRowEach(Marked(t, id, user, at, now).receipts)
  {
  }

  /** Closed form over every run: the row of a message and user exists if an acknowledgement found
      the message live; it bears the reception time and creation time of the first such
      acknowledgement and the update time of the last; and no two rows share their key. */
  lemma {:induction false} ReceiptClosedForm(messages: map<int, Option<Time>>, cs: seq<Change>, id: int, user: Uuid)
    ensures var t := Tables(messages, []);
      var marks := Effective(t, cs, id, user);
      && (forall i :: 0 <= i < |marks| ==> marks[i].Mark?)
      && OneRowEach(Run(t, cs).receipts)
      && ReceiptAt(Run(t, cs), id, user) ==
         if marks == [] then None
         else Some(Receipt(id, user, marks[0].at, marks[0].now, marks[|marks| - 1].now))
    decreases |cs|
  {
    if cs != [] {
      var t, init, last := Tables(messages, []), cs[..|cs| - 1], cs[|cs| - 1];
      ReceiptClosedForm(messages, init, id, user);
      if last.Mark? {
        MarkedExact(Run(t, init), last.id, last.user, last.at, last.now, id, user);
        MarkedOneRowEach(Run(t, init), last.id, last.user, last.at, last.now);
      }
    }
  }

  class ReceiptRepo {
    var messages: map<int, Option<Time>>
    var receipts: seq<Receipt>

    constructor (messages: map<int, Option<Time>>)
      ensures Abs() == Tables(messages, [])
    {
      this.messages, receipts := messages, [];
    }

    ghost function Abs(): Tables
      reads this
    {
      Tables(messages, receipts)
    }

    /** None is "message not found": the statement returned no row. */
    method MarkMessageReceivedByID(id: int, user: Uuid, receivedAt: Time, now: Time) returns (r: Option<Receipt>)
      modifies this`receipts
      ensures Abs() == Marked(old(Abs()), id, user, receivedAt, now)
      ensures r == if Live(old(Abs()), id) then ReceiptAt(Abs(), id, user) else None
    {
      if id !in messages || messages[id].Some? {
        return None;
      }
      MarkedExact(Abs(), id, user, receivedAt, now, id, user);
      var k := Find(id, user);
      if k < |receipts| {
        receipts := receipts[k := receipts[k].(updatedAt := now)];
      } else {
        receipts := receipts + [Receipt(id, user, receivedAt, now, now)];
      }
      r := Some(receipts[k]);
    }

    /** Also finds the receipts of deleted messages. */
    method GetMessageReceiptByID(id: int, user: Uuid) returns (r: Option<Receipt>)
      ensures r == ReceiptAt(Abs(), id, user)
    {
      var k := Find(id, user);
      r := if k < |receipts| then Some(receipts[k]) else None;
    }

    method Find(id: int, user: Uuid) returns (k: nat)
      ensures k == RowAt(receipts, id, user)
    {
      k := 0;
      while k < |receipts| && !(receipts[k].messageId == id && receipts[k].user == user)
        invariant k <= |receipts|
        invariant forall j :: 0 <= j < k ==> !(receipts[j].messageId == id && receipts[j].user == user)
      {
        k := k + 1;
      }
      RowAtIs(receipts, id, user, k);
    }

    method DeleteMessageById(id: int, now: Time) returns (ok: bool)
      modifies this`messages
      ensures Abs() == Applied(old(Abs()), SoftDelete(id, now)) && (ok <==> Live(old(Abs()), id))
    {
      if id !in messages || messages[id].Some? {
        return false;
      }
      messages := messages[id := Some(now)];
      ok := true;
    }
  }
}
