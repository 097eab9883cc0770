/** The flush goroutine of the batching writer as a class: its buffer, its loops over the buffered
    requests and its sends on the callers' response channels, proved against the protocol's answers. */
module BatchWriter {
  import opened Common
  import opened MessageStore
  import opened MessageRepository
  import opened BatchProtocol
  import Metrics

  /** What goes through a response channel: the stored row itself, by reference, or an error. */
  datatype Delivery = DeliverRow(row: StoredMessage) | DeliverError(err: string) | DeliverMismatch

  /** What a repository returned from BulkSaveMessages. */
  datatype BulkResult = BulkError(err: string) | BulkRows(rows: seq<StoredMessage>)

  /** A channel of capacity one. */
  class ResponseChan {
    var pending: seq<Delivery>

    constructor ()
      ensures pending == []
    {
      pending := [];
    }

    method Send(d: Delivery)
      requires |pending| < 1
      modifies this
      ensures pending == old(pending) + [d]
    {
      pending := pending + [d];
    }
  }

  datatype Pending = Pending(msg: Message, respC: ResponseChan)

  ghost function AbsOutcome(r: BulkResult): Outcome
    reads if r.BulkRows? then r.rows else []
  {
    if r.BulkError? then Failed(r.err) else Rows(Values(r.rows))
  }

  /** The channel holds exactly this one response. */
  ghost predicate Holds(c: ResponseChan, response: Response)
    reads c, if |c.pending| == 1 && c.pending[0].DeliverRow? then {c.pending[0].row} else {}
  {
    && |c.pending| == 1
    && match c.pending[0]
       case DeliverRow(row) => response == Saved(row.v)
       case DeliverError(err) => response == SaveFailed(err)
       case DeliverMismatch => response == CountMismatch
  }

  function Messages(buf: seq<Pending>): (ms: seq<Message>)
    ensures |ms| == |buf|
    ensures forall i {:trigger ms[i]} {:trigger buf[i]} :: 0 <= i < |buf| ==> ms[i] == buf[i].msg
  {
    seq(|buf|, i requires 0 <= i < |buf| => buf[i].msg)
  }

  ghost function Channels(buf: seq<Pending>): set<ResponseChan> {
    set p | p in buf :: p.respC
  }

  lemma ChannelsAppend(buf: seq<Pending>, req: Pending)
    ensures Channels(buf + [req]) == Channels(buf) + {req.respC}
    ensures forall i :: 0 <= i < |buf| ==> buf[i].respC in Channels(buf)
  {
  }

  class Writer {
    var buf: seq<Pending>
    const repo: MessageRepo
    const metrics: Metrics.Recorder

    constructor (repo: MessageRepo, metrics: Metrics.Recorder)
      ensures buf == [] && this.repo == repo && this.metrics == metrics
    {
      buf, this.repo, this.metrics := [], repo, metrics;
    }

    /** Every buffered request waits on its own channel, and nothing has been sent on it yet. */
    ghost predicate Waiting()
      reads this, Channels(buf)
    {
      && (forall i :: 0 <= i < |buf| ==> buf[i].respC.pending == [])
      && (forall i, j :: 0 <= i < j < |buf| ==> buf[i].respC != buf[j].respC)
    }

    /** The part of a flush after the repository has answered, whatever it answered. */
    method Deliver(result: BulkResult, durationUs: int)
      requires Waiting() && |buf| > 0
      modifies this`buf, metrics, Channels(buf)
      ensures buf == []
      ensures metrics.counters == Observe(old(metrics.counters), AbsOutcome(result), |old(buf)|, durationUs)
      ensures forall i :: 0 <= i < |old(buf)| ==>
        Holds(old(buf)[i].respC, AnswerFor(AbsOutcome(result), |old(buf)|, i))
      ensures result.BulkRows? && |result.rows| == |old(buf)| ==>
        forall i :: 0 <= i < |old(buf)| ==> old(buf)[i].respC.pending == [DeliverRow(result.rows[i])]
      ensures result.BulkError? ==>
        forall i :: 0 <= i < |old(buf)| ==> old(buf)[i].respC.pending == [DeliverError(result.err)]
      ensures result.BulkRows? && |result.rows| != |old(buf)| ==>
        forall i :: 0 <= i < |old(buf)| ==> old(buf)[i].respC.pending == [DeliverMismatch]
    {
      var n := |buf|;
      metrics.Batch(n, durationUs);
      if result.BulkError? {
        metrics.InsertError();
        SendAll(seq(n, i => DeliverError(result.err)));
      } else if |result.rows| != n {
        SendAll(seq(n, i => DeliverMismatch));
      } else {
        metrics.Inserted(|result.rows|);
        SendAll(seq(n, i requires 0 <= i < n => DeliverRow(result.rows[i])));
      }
      buf := [];
    }

    /** The loop of each branch: one send per buffered request, in order. */
    method SendAll(ds: seq<Delivery>)
      requires Waiting() && |ds| == |buf|
      modifies Channels(buf)
      ensures forall k :: 0 <= k < |buf| ==> buf[k].respC.pending == [ds[k]]
    {
      for i := 0 to |buf|
        invariant forall k :: 0 <= k < i ==> buf[k].respC.pending == [ds[k]]
        invariant forall k :: i <= k < |buf| ==> buf[k].respC.pending == []
      {
        buf[i].respC.Send(ds[i]);
      }
    }

    /** A flush into the memory repository: each caller is handed the row stored for its own message. */
    method Flush(clocks: seq<Clock>, durationUs: int)
      requires Waiting() && repo.Valid() && |clocks| == |buf|
      modifies this`buf, repo, metrics, Channels(buf)
      ensures buf == [] && repo.Valid()
      ensures repo.Abs() == SaveAll(old(repo.Abs()), Messages(old(buf)), clocks)
      ensures |repo.messages| == |old(repo.messages)| + |old(buf)|
      ensures forall i :: 0 <= i < |old(buf)| ==>
        old(buf)[i].respC.pending == [DeliverRow(repo.messages[|old(repo.messages)| + i])]
      ensures metrics.counters == if old(buf) == [] then old(metrics.counters)
        else Metrics.AddInserted(Metrics.ObserveBatch(old(metrics.counters), |old(buf)|, durationUs), |old(buf)|)
    {
      if |buf| == 0 {
        return;
      }
      var msgs: seq<Message> := [];
      for i := 0 to |buf|
        invariant msgs == Messages(buf)[..i]
      {
        msgs := msgs + [buf[i].msg];
      }
      assert msgs == Messages(buf);
      var rows := repo.BulkSaveMessages(msgs, clocks);
      Deliver(BulkRows(rows), durationUs);
    }

    method Append(req: Pending)
      requires Waiting() && req.respC.pending == [] && req.respC !in Channels(buf)
      modifies this`buf
      ensures Waiting() && buf == old(buf) + [req] && Channels(buf) == Channels(old(buf)) + {req.respC}
    {
      ChannelsAppend(buf, req);
      buf := buf + [req];
    }

    /** One turn of the select that takes a request from the channel. */
    method Receive(req: Pending, clocks: seq<Clock>, durationUs: int)
      requires Waiting() && |buf| < MAX_BATCH_SIZE && repo.Valid() && |clocks| == |buf| + 1
      requires req.respC.pending == [] && req.respC !in Channels(buf)
      modifies this`buf, repo, metrics, Channels(buf), req.respC
      ensures repo.Valid() && Waiting() && |buf| < MAX_BATCH_SIZE
      ensures |old(buf)| + 1 < MAX_BATCH_SIZE ==>
        buf == old(buf) + [req] && repo.Abs() == old(repo.Abs()) && metrics.counters == old(metrics.counters)
      ensures |old(buf)| + 1 == MAX_BATCH_SIZE ==>
        && buf == [] && repo.Abs() == SaveAll(old(repo.Abs()), Messages(old(buf) + [req]), clocks)
        && metrics.counters == Metrics.AddInserted(
             Metrics.ObserveBatch(old(metrics.counters), MAX_BATCH_SIZE, durationUs), MAX_BATCH_SIZE)
        && |repo.messages| == |old(repo.messages)| + MAX_BATCH_SIZE
        && req.respC.pending == [DeliverRow(repo.messages[|old(repo.messages)| + |old(buf)|])]
        && forall i :: 0 <= i < |old(buf)| ==>
             old(buf)[i].respC.pending == [DeliverRow(repo.messages[|old(repo.messages)| + i])]
    {
      Append(req);
      if |buf| < MAX_BATCH_SIZE {
        return;
      }
      ghost var full, was := buf, repo.Abs();
      assert was == old(repo.Abs()) && Messages(full) == Messages(old(buf) + [req]);
      Flush(clocks, durationUs);
      assert repo.Abs() == SaveAll(was, Messages(full), clocks);
      assert req == full[|old(buf)|];
      assert forall i :: 0 <= i < |old(buf)| ==> full[i] == old(buf)[i];
    }

    /** One turn of the select on a tick. */
    method Tick(clocks: seq<Clock>, durationUs: int)
      requires Waiting() && repo.Valid() && |clocks| == |buf|
      modifies this`buf, repo, metrics, Channels(buf)
      ensures buf == [] && repo.Valid()
      ensures repo.Abs() == SaveAll(old(repo.Abs()), Messages(old(buf)), clocks)
      ensures |repo.messages| == |old(repo.messages)| + |old(buf)|
      ensures forall i :: 0 <= i < |old(buf)| ==>
        old(buf)[i].respC.pending == [DeliverRow(repo.messages[|old(repo.messages)| + i])]
      ensures metrics.counters == if old(buf) == [] then old(metrics.counters)
        else Metrics.AddInserted(Metrics.ObserveBatch(old(metrics.counters), |old(buf)|, durationUs), |old(buf)|)
    {
      Flush(clocks, durationUs);
    }
  }
}
