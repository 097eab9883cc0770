/** The batching writer as a concurrent protocol. Submitters count a request, put it on the bounded
    channel and wait on their own one-place response channel; one goroutine receives requests into
    a buffer and, on a full buffer or a tick, saves the buffer and answers its requests one by one.
    The submitters' steps interleave freely with every step of the goroutine, flushes included. */
module BatchProtocol {
  import opened Common
  import opened MessageStore
  import Metrics

  const MAX_BATCH_SIZE: nat := 500
  const CHAN_BUFFER: nat := 10_000

  /** A request is named by the call of Submit that made it (and that owns its response channel). */
  datatype Request = Request(id: nat, msg: Message)

  datatype Response = Saved(message: Message) | SaveFailed(err: string) | CountMismatch

  /** What BulkSaveMessages returns. */
  datatype Outcome = Failed(err: string) | Rows(saved: seq<Message>)

  datatype Answer = Answer(id: nat, response: Response)

  datatype Client = Counted(msg: Message) | Waiting(msg: Message) | Returned(msg: Message, response: Response)

  /** Where the flush goroutine stands: in its select, inside BulkSaveMessages, or answering. */
  datatype Phase = Selecting | Saving | Responding(outcome: Outcome, next: nat)

  /** `received` and `answers` log what left the channel and what was sent to response channels. */
  datatype State = State(
    clients: map<nat, Client>,
    mailbox: map<nat, seq<Response>>,
    channel: seq<Request>,
    buf: seq<Request>,
    phase: Phase,
    counters: Metrics.Counters,
    received: seq<Request>,
    answers: seq<Answer>)

  const START := State(map[], map[], [], [], Selecting, Metrics.ZERO, [], [])

  datatype Event =
    | Count(id: nat, msg: Message)
    | Enqueue(id: nat)
    | Collect(id: nat)
    | Receive
    | Tick
    | BulkReturn(outcome: Outcome, durationUs: int)
    | Respond
    | EndFlush

  /** The answer owed to the i-th of `size` buffered requests. */
  function AnswerFor(outcome: Outcome, size: nat, i: nat): Response
    requires i < size
  {
    if outcome.Failed? then SaveFailed(outcome.err)
    else if |outcome.saved| != size then CountMismatch
    else Saved(outcome.saved[i])
  }

  /** The counters after the repository answered a flush of `size` requests. */
  function Observe(c: Metrics.Counters, outcome: Outcome, size: nat, durationUs: int): Metrics.Counters {
    var c1 := Metrics.ObserveBatch(c, size, durationUs);
    if outcome.Failed? then Metrics.IncInsertError(c1)
    else if |outcome.saved| != size then c1
    else Metrics.AddInserted(c1, size)
  }

  predicate Enabled(s: State, e: Event) {
    match e
    case Count(id, msg) => id !in s.clients
    case Enqueue(id) => id in s.clients && s.clients[id].Counted? && |s.channel| < CHAN_BUFFER
    case Collect(id) => id in s.clients && s.clients[id].Waiting? && id in s.mailbox && |s.mailbox[id]| > 0
    case Receive => s.phase.Selecting? && |s.channel| > 0
    case Tick => s.phase.Selecting?
    case BulkReturn(_, _) => s.phase.Saving?
    case Respond =>
      && s.phase.Responding? && s.phase.next < |s.buf|
      && s.buf[s.phase.next].id in s.mailbox && |s.mailbox[s.buf[s.phase.next].id]| < 1
    case EndFlush => s.phase.Responding? && s.phase.next == |s.buf|
  }

  function Fire(s: State, e: Event): State
    requires Enabled(s, e)
  {
    match e
    case Count(id, msg) =>
      s.(counters := Metrics.IncReceived(s.counters), clients := s.clients[id := Counted(msg)])
    case Enqueue(id) =>
      var msg := s.clients[id].msg;
      s.(channel := s.channel + [Request(id, msg)], mailbox := s.mailbox[id := []],
         clients := s.clients[id := Waiting(msg)])
    case Collect(id) =>
      s.(clients := s.clients[id := Returned(s.clients[id].msg, s.mailbox[id][0])],
         mailbox := s.mailbox[id := s.mailbox[id][1..]])
    case Receive =>
      s.(channel := s.channel[1..], buf := s.buf + [s.channel[0]], received := s.received + [s.channel[0]],
         phase := if |s.buf| + 1 >= MAX_BATCH_SIZE then Saving else Selecting)
    case Tick =>
      s.(phase := if s.buf == [] then Selecting else Saving)
    case BulkReturn(outcome, us) =>
      s.(counters := Observe(s.counters, outcome, |s.buf|, us), phase := Responding(outcome, 0))
    case Respond =>
      var i := s.phase.next;
      var id := s.buf[i].id;
      var response := AnswerFor(s.phase.outcome, |s.buf|, i);
      s.(mailbox := s.mailbox[id := s.mailbox[id] + [response]], answers := s.answers + [Answer(id, response)],
         phase := s.phase.(next := i + 1))
    case EndFlush =>
      s.(buf := [], phase := Selecting)
  }

  ghost predicate ValidRun(s: State, es: seq<Event>)
    decreases |es|
  {
    es == [] || (Enabled(s, es[0]) && ValidRun(Fire(s, es[0]), es[1..]))
  }

  ghost function After(s: State, es: seq<Event>): State
    requires ValidRun(s, es)
    decreases |es|
  {
    if es == [] then s else After(Fire(s, es[0]), es[1..])
  }

  // ---------- The invariant ----------

  /** Every request ever put on the channel, in order. */
  function Sent(s: State): seq<Request> {
    s.received + s.channel
  }

  /** How many of the buffered requests are already answered. */
  function Answered(s: State): nat {
    if s.phase.Responding? then s.phase.next else 0
  }

  ghost predicate InvShape(s: State) {
    && |s.channel| <= CHAN_BUFFER
    && |s.buf| <= MAX_BATCH_SIZE
    && (s.phase.Selecting? ==> |s.buf| < MAX_BATCH_SIZE)
    && (!s.phase.Selecting? ==> |s.buf| > 0)
    && Answered(s) <= |s.buf| <= |s.received|
    && s.buf == s.received[|s.received| - |s.buf|..]
    && |s.answers| == |s.received| - |s.buf| + Answered(s)
    && (forall i :: 0 <= i < |s.answers| ==> s.answers[i].id == s.received[i].id)
    && (forall k :: 0 <= k < Answered(s) ==>
          s.answers[|s.received| - |s.buf| + k].response == AnswerFor(s.phase.outcome, |s.buf|, k))
  }

  /** The state of the caller and of the response channel of the i-th request sent. */
  ghost predicate ClientOk(s: State, i: nat)
    requires i < |Sent(s)|
  {
    var r := Sent(s)[i];
    && r.id in s.clients && r.id in s.mailbox && s.clients[r.id].msg == r.msg && !s.clients[r.id].Counted?
    && (if i < |s.answers| then
          if s.clients[r.id].Waiting? then s.mailbox[r.id] == [s.answers[i].response]
          else s.mailbox[r.id] == [] && s.clients[r.id].response == s.answers[i].response
        else
          s.clients[r.id].Waiting? && s.mailbox[r.id] == [])
  }

  predicate Known(sent: seq<Request>, id: nat) {
    exists i :: 0 <= i < |sent| && sent[i].id == id
  }

  ghost predicate Distinct(sent: seq<Request>) {
    forall i, j :: 0 <= i < j < |sent| ==> sent[i].id != sent[j].id
  }

  ghost predicate InvClients(s: State) {
    && Distinct(Sent(s))
    && (forall i :: 0 <= i < |Sent(s)| ==> ClientOk(s, i))
    && (forall id :: id in s.clients && !s.clients[id].Counted? ==> Known(Sent(s), id))
  }

  function CountedClients(s: State): set<nat> {
    set id | id in s.clients && s.clients[id].Counted?
  }

  function SavedCount(answers: seq<Answer>): nat {
    if answers == [] then 0
    else SavedCount(answers[..|answers| - 1]) + (if answers[|answers| - 1].response.Saved? then 1 else 0)
  }

  /** Requests of the present flush that the counters include but that are not answered yet. */
  function Owed(s: State): nat
    requires Answered(s) <= |s.buf|
  {
    if s.phase.Responding? then |s.buf| - s.phase.next else 0
  }

  /** Those among them that will be answered with a saved message. */
  function OwedSaved(s: State): nat
    requires Answered(s) <= |s.buf|
  {
    if s.phase.Responding? && s.phase.outcome.Rows? && |s.phase.outcome.saved| == |s.buf| then Owed(s) else 0
  }

  ghost predicate InvCounters(s: State)
    requires Answered(s) <= |s.buf|
  {
    && s.counters.receivedTotal == |CountedClients(s)| + |Sent(s)|
    && s.counters.batchSum == |s.answers| + Owed(s)
    && s.counters.insertedTotal == SavedCount(s.answers) + OwedSaved(s)
  }

  ghost predicate Inv(s: State) {
    InvShape(s) && InvClients(s) && InvCounters(s)
  }

  lemma StepKeepsShape(s: State, e: Event)
    requires InvShape(s) && Enabled(s, e)
    ensures InvShape(Fire(s, e))
  {
    match e
    case Receive => ShapeAfterReceive(s);
    case Respond => ShapeAfterRespond(s);
    case EndFlush => ShapeAfterEndFlush(s);
    case BulkReturn(outcome, us) =>
    case Tick =>
    case _ => ShapeCarries(s, Fire(s, e));
  }

  lemma ShapeCarries(s: State, s': State)
    requires InvShape(s) && |s'.channel| <= CHAN_BUFFER
    requires s'.buf == s.buf && s'.phase == s.phase && s'.received == s.received && s'.answers == s.answers
    ensures InvShape(s')
  {
  }

  lemma ShapeAfterEndFlush(s: State)
    requires InvShape(s) && Enabled(s, EndFlush)
    ensures InvShape(Fire(s, EndFlush))
  {
  }

  lemma ShapeAfterReceive(s: State)
    requires InvShape(s) && Enabled(s, Receive)
    ensures InvShape(Fire(s, Receive))
  {
    var s' := Fire(s, Receive);
    assert s'.received[|s'.received| - |s'.buf|..] == s.received[|s.received| - |s.buf|..] + [s.channel[0]];
  }

  lemma ShapeAfterRespond(s: State)
    requires InvShape(s) && Enabled(s, Respond)
    ensures InvShape(Fire(s, Respond))
  {
    var s', n := Fire(s, Respond), |s.answers|;
    assert s.received[n] == s.buf[s.phase.next];
    forall i | 0 <= i <= n ensures s'.answers[i].id == s.received[i].id {
      if i < n { assert s'.answers[i] == s.answers[i]; }
    }
    ResponsesAfterRespond(s);
  }

  lemma ResponsesAfterRespond(s: State)
    requires InvShape(s) && Enabled(s, Respond)
    ensures forall k :: 0 <= k <= s.phase.next ==>
      Fire(s, Respond).answers[|s.received| - |s.buf| + k].response == AnswerFor(s.phase.outcome, |s.buf|, k)
  {
    var s', flushed := Fire(s, Respond), |s.received| - |s.buf|;
    forall k | 0 <= k <= s.phase.next
      ensures s'.answers[flushed + k].response == AnswerFor(s.phase.outcome, |s.buf|, k)
    {
      if k < s.phase.next { assert s'.answers[flushed + k] == s.answers[flushed + k]; }
    }
  }

  lemma StepKeepsClients(s: State, e: Event)
    requires InvShape(s) && InvClients(s) && Enabled(s, e)
    ensures InvClients(Fire(s, e))
  {
    var s' := Fire(s, e);
    match e
    case Count(id, msg) => ClientsAfterCount(s, e);
    case Enqueue(id) => ClientsAfterEnqueue(s, e);
    case Collect(id) => ClientsAfterCollect(s, e);
    case Respond => ClientsAfterRespond(s, e);
    case Receive =>
      assert Sent(s') == Sent(s);
      assert forall i :: 0 <= i < |Sent(s)| && ClientOk(s, i) ==> ClientOk(s', i);
    case _ =>
      assert Sent(s') == Sent(s);
      assert forall i :: 0 <= i < |Sent(s)| && ClientOk(s, i) ==> ClientOk(s', i);
  }

  lemma ClientsAfterCount(s: State, e: Event)
    requires InvShape(s) && InvClients(s) && Enabled(s, e) && e.Count?
    ensures InvClients(Fire(s, e))
  {
    var s' := Fire(s, e);
    assert Sent(s') == Sent(s);
    forall i | 0 <= i < |Sent(s)| ensures ClientOk(s', i) {
      assert ClientOk(s, i);
    }
  }

  lemma ClientsAfterEnqueue(s: State, e: Event)
    requires InvShape(s) && InvClients(s) && Enabled(s, e) && e.Enqueue?
    ensures InvClients(Fire(s, e))
  {
    var s' := Fire(s, e);
    var n := |Sent(s)|;
    assert Sent(s') == Sent(s) + [Request(e.id, s.clients[e.id].msg)];
    forall i | 0 <= i <= n ensures ClientOk(s', i) && (i < n ==> Sent(s)[i].id != e.id) {
      if i < n { assert ClientOk(s, i); }
    }
    forall id | id in s'.clients && !s'.clients[id].Counted?
      ensures Known(Sent(s'), id)
    {
      if id == e.id {
        assert Sent(s')[n].id == id;
      } else {
        var i :| 0 <= i < n && Sent(s)[i].id == id;
        assert Sent(s')[i].id == id;
      }
    }
  }

  lemma ClientsAfterCollect(s: State, e: Event)
    requires InvShape(s) && InvClients(s) && Enabled(s, e) && e.Collect?
    ensures InvClients(Fire(s, e))
  {
    var s' := Fire(s, e);
    assert Sent(s') == Sent(s) && Known(Sent(s), e.id);
    var at :| 0 <= at < |Sent(s)| && Sent(s)[at].id == e.id;
    forall i | 0 <= i < |Sent(s)| ensures ClientOk(s', i) {
      assert ClientOk(s, i) && ClientOk(s, at);
      if i != at { assert Sent(s)[i].id != e.id; }
    }
  }

  lemma ClientsAfterRespond(s: State, e: Event)
    requires InvShape(s) && InvClients(s) && Enabled(s, e) && e.Respond?
    ensures InvClients(Fire(s, e))
  {
    var s' := Fire(s, e);
    var at := |s.answers|;
    assert Sent(s') == Sent(s);
    assert Sent(s)[at] == s.received[at] == s.buf[s.phase.next];
    forall i | 0 <= i < |Sent(s)| ensures ClientOk(s', i) {
      assert ClientOk(s, i);
      if i != at { assert Sent(s)[i].id != Sent(s)[at].id; }
    }
  }

  lemma StepKeepsCounters(s: State, e: Event)
    requires Inv(s) && Enabled(s, e)
    ensures InvShape(Fire(s, e)) && InvCounters(Fire(s, e))
  {
    StepKeepsShape(s, e);
    CountedBalance(s, e);
    SavedBalance(s, e);
  }

  lemma CountedBalance(s: State, e: Event)
    requires s.counters.receivedTotal == |CountedClients(s)| + |Sent(s)| && Enabled(s, e)
    ensures Fire(s, e).counters.receivedTotal == |CountedClients(Fire(s, e))| + |Sent(Fire(s, e))|
  {
    var s' := Fire(s, e);
    match e
    case Count(id, msg) => assert CountedClients(s') == CountedClients(s) + {id};
    case Enqueue(id) => assert CountedClients(s') == CountedClients(s) - {id};
    case _ => assert CountedClients(s') == CountedClients(s);
  }

  lemma SavedBalance(s: State, e: Event)
    requires Answered(s) <= |s.buf| && InvCounters(s) && Enabled(s, e)
    ensures var s' := Fire(s, e);
      && Answered(s') <= |s'.buf|
      && s'.counters.batchSum == |s'.answers| + Owed(s')
      && s'.counters.insertedTotal == SavedCount(s'.answers) + OwedSaved(s')
  {
    var s' := Fire(s, e);
    match e
    case Respond => assert s'.answers[..|s.answers|] == s.answers;
    case BulkReturn(outcome, us) =>
    case EndFlush =>
    case _ => assert s'.answers == s.answers && OwedSaved(s') == OwedSaved(s) && Owed(s') == Owed(s);
  }

  lemma StepKeepsInv(s: State, e: Event)
    requires Inv(s) && Enabled(s, e)
    ensures Inv(Fire(s, e))
  {
    StepKeepsClients(s, e);
    StepKeepsCounters(s, e);
  }

  /** Whatever the repository returns and however the steps interleave, the invariant holds on. */
  lemma {:induction false} RunKeepsInv(s: State, es: seq<Event>)
    requires Inv(s) && ValidRun(s, es)
    ensures Inv(After(s, es))
    decreases |es|
  {
    if es != [] {
      StepKeepsInv(s, es[0]);
      RunKeepsInv(Fire(s, es[0]), es[1..]);
    }
  }

  // ---------- What it means ----------

  ghost predicate InChannel(s: State, id: nat) {
    exists i :: 0 <= i < |s.channel| && s.channel[i].id == id
  }

  ghost predicate InBuffer(s: State, id: nat)
    requires Answered(s) <= |s.buf|
  {
    exists i :: Answered(s) <= i < |s.buf| && s.buf[i].id == id
  }

  ghost predicate IsAnswered(s: State, id: nat) {
    exists i :: 0 <= i < |s.answers| && s.answers[i].id == id
  }

  /** Exactly-once answering: from the start, along any run, a request that was put on the channel
      is in exactly one of channel, buffer and answered; it is answered at most once; and a caller
      that has returned got the answer that was sent for its own request. */
  lemma ExactlyOnce(es: seq<Event>, id: nat)
    requires ValidRun(START, es)
    ensures var s := After(START, es); Answered(s) <= |s.buf| && OneHome(s, id) && OneAnswer(s, id)
  {
    StartInv();
    RunKeepsInv(START, es);
    HasOneHome(After(START, es), id);
    HasOneAnswer(After(START, es), id);
  }

  ghost predicate OneHome(s: State, id: nat)
    requires Answered(s) <= |s.buf|
  {
    && (id in s.clients && !s.clients[id].Counted? <==> InChannel(s, id) || InBuffer(s, id) || IsAnswered(s, id))
    && !(InChannel(s, id) && InBuffer(s, id))
    && !(InChannel(s, id) && IsAnswered(s, id))
    && !(InBuffer(s, id) && IsAnswered(s, id))
  }

  ghost predicate OneAnswer(s: State, id: nat) {
    && (forall i, j :: 0 <= i < j < |s.answers| ==> s.answers[i].id != s.answers[j].id)
    && (id in s.clients && s.clients[id].Returned? ==> Answer(id, s.clients[id].response) in s.answers)
  }

  lemma StartInv()
    ensures Inv(START)
  {
    StartShape();
    StartClients();
    StartCounters();
  }

  lemma StartCounters()
    ensures Answered(START) <= |START.buf| && InvCounters(START)
  {
    var s := START;
    assert CountedClients(s) == {} && Sent(s) == [];
    assert SavedCount(s.answers) == 0;
  }

  lemma StartShape()
    ensures InvShape(START)
  {
  }

  lemma StartClients()
    ensures InvClients(START)
  {
    assert Sent(START) == [];
  }

  lemma HasOneHome(s: State, id: nat)
    requires Inv(s)
    ensures OneHome(s, id)
  {
    WhereIsIt(s, id);
  }

  lemma HasOneAnswer(s: State, id: nat)
    requires Inv(s)
    ensures OneAnswer(s, id)
  {
    forall i, j | 0 <= i < j < |s.answers| ensures s.answers[i].id != s.answers[j].id {
      assert Sent(s)[i].id == s.answers[i].id && Sent(s)[j].id == s.answers[j].id;
    }
    if id in s.clients && s.clients[id].Returned? {
      assert Known(Sent(s), id);
      var i :| 0 <= i < |Sent(s)| && Sent(s)[i].id == id;
      assert ClientOk(s, i);
      assert s.answers[i] == Answer(id, s.clients[id].response);
    }
  }

  /** Position i of the sending order is answered, buffered or in the channel by where i falls. */
  lemma WhereIsIt(s: State, id: nat)
    requires Inv(s)
    ensures IsAnswered(s, id) <==> exists i :: 0 <= i < |s.answers| && Sent(s)[i].id == id
    ensures InBuffer(s, id) <==> exists i :: |s.answers| <= i < |s.received| && Sent(s)[i].id == id
    ensures InChannel(s, id) <==> exists i :: |s.received| <= i < |Sent(s)| && Sent(s)[i].id == id
    ensures id in s.clients && !s.clients[id].Counted? <==> Known(Sent(s), id)
  {
    ClientsAreSent(s, id);
    BufferPart(s, id);
    ChannelPart(s, id);
    AnsweredPart(s, id);
  }

  lemma ClientsAreSent(s: State, id: nat)
    requires InvClients(s)
    ensures id in s.clients && !s.clients[id].Counted? <==> Known(Sent(s), id)
  {
    if Known(Sent(s), id) {
      var i :| 0 <= i < |Sent(s)| && Sent(s)[i].id == id;
      assert ClientOk(s, i);
    }
  }

  lemma BufferPart(s: State, id: nat)
    requires InvShape(s)
    ensures InBuffer(s, id) <==> exists i :: |s.answers| <= i < |s.received| && Sent(s)[i].id == id
  {
    var flushed := |s.received| - |s.buf|;
    assert forall i :: 0 <= i < |s.buf| ==> Sent(s)[flushed + i] == s.buf[i];
    if i :| |s.answers| <= i < |s.received| && Sent(s)[i].id == id {
      assert s.buf[i - flushed].id == id;
    }
  }

  lemma ChannelPart(s: State, id: nat)
    ensures InChannel(s, id) <==> exists i :: |s.received| <= i < |Sent(s)| && Sent(s)[i].id == id
  {
    assert forall i :: 0 <= i < |s.channel| ==> Sent(s)[|s.received| + i] == s.channel[i];
    if i :| |s.received| <= i < |Sent(s)| && Sent(s)[i].id == id {
      assert s.channel[i - |s.received|].id == id;
    }
  }

  lemma AnsweredPart(s: State, id: nat)
    requires InvShape(s)
    ensures IsAnswered(s, id) <==> exists i :: 0 <= i < |s.answers| && Sent(s)[i].id == id
  {
    assert forall i :: 0 <= i < |s.answers| ==> Sent(s)[i].id == s.answers[i].id;
  }

  /** The flush loop never blocks on a response channel: the one it is about to send on is empty,
      so the next step of a flush is always possible. Outside a flush a tick is. */
  lemma NeverBlocked(s: State)
    requires Inv(s)
    ensures s.phase.Selecting? ==> Enabled(s, Tick) && (s.channel != [] ==> Enabled(s, Receive))
    ensures s.phase.Saving? ==> forall outcome, us :: Enabled(s, BulkReturn(outcome, us))
    ensures s.phase.Responding? && s.phase.next < |s.buf| ==>
      Enabled(s, Respond) && s.mailbox[s.buf[s.phase.next].id] == []
    ensures s.phase.Responding? && s.phase.next == |s.buf| ==> Enabled(s, EndFlush)
    ensures forall id :: id in s.mailbox && id in s.clients && !s.clients[id].Counted? ==> |s.mailbox[id]| <= 1
  {
    if s.phase.Responding? && s.phase.next < |s.buf| { NextMailboxEmpty(s); }
    forall id | id in s.mailbox && id in s.clients && !s.clients[id].Counted? ensures |s.mailbox[id]| <= 1 {
      MailboxHoldsOne(s, id);
    }
  }

  lemma NextMailboxEmpty(s: State)
    requires InvShape(s) && InvClients(s) && s.phase.Responding? && s.phase.next < |s.buf|
    ensures var id := s.buf[s.phase.next].id; id in s.mailbox && s.mailbox[id] == []
  {
    assert Sent(s)[|s.answers|] == s.buf[s.phase.next];
    assert ClientOk(s, |s.answers|);
  }

  lemma MailboxHoldsOne(s: State, id: nat)
    requires InvClients(s) && id in s.mailbox && id in s.clients && !s.clients[id].Counted?
    ensures |s.mailbox[id]| <= 1
  {
    assert Known(Sent(s), id);
    var i :| 0 <= i < |Sent(s)| && Sent(s)[i].id == id;
    assert ClientOk(s, i);
  }

  /** Steps left in the present flush. */
  function FlushWork(s: State): nat
    requires Answered(s) <= |s.buf|
  {
    match s.phase
    case Selecting => 0
    case Saving => |s.buf| + 2
    case Responding(_, next) => |s.buf| - next + 1
  }

  /** Every step of a flush brings its end nearer, and no step of a submitter puts it off. */
  lemma FlushEnds(s: State, e: Event)
    requires Inv(s) && Enabled(s, e) && !s.phase.Selecting?
    ensures Answered(Fire(s, e)) <= |Fire(s, e).buf|
    ensures FlushWork(Fire(s, e)) == FlushWork(s) - (if e.Count? || e.Enqueue? || e.Collect? then 0 else 1)
  {
  }

  /** Outside a flush: what was batched is what was answered, what was inserted is what was answered
      with a saved row, and every counted request is answered, buffered, in the channel or about to be sent. */
  lemma CountersBalance(es: seq<Event>)
    requires ValidRun(START, es) && !After(START, es).phase.Responding?
    ensures var s := After(START, es);
      && s.counters.batchSum == |s.answers|
      && s.counters.insertedTotal == SavedCount(s.answers)
      && s.counters.receivedTotal == |s.answers| + |s.buf| + |s.channel| + |CountedClients(s)|
  {
    StartInv();
    RunKeepsInv(START, es);
  }

  /** BulkSaveMessages is only ever entered with 1 to 500 messages. */
  lemma BatchBound(es: seq<Event>)
    requires ValidRun(START, es) && After(START, es).phase.Saving?
    ensures 1 <= |After(START, es).buf| <= 500
  {
    StartInv();
    RunKeepsInv(START, es);
  }

  /** Never more than 10000 requests wait in the channel, nor 500 in the buffer. */
  lemma QueueBound(es: seq<Event>)
    requires ValidRun(START, es)
    ensures |After(START, es).channel| <= 10_000 && |After(START, es).buf| <= 500
  {
    StartInv();
    RunKeepsInv(START, es);
  }

  /** A submitter puts its request on the channel exactly while fewer than 10000 wait there. */
  lemma EnqueueIff(s: State, id: nat)
    requires id in s.clients && s.clients[id].Counted?
    ensures Enabled(s, Enqueue(id)) <==> |s.channel| < 10_000
  {
  }

  /** A waiting caller goes on exactly once its request is answered. */
  lemma CollectIff(s: State, id: nat)
    requires Inv(s)
    ensures Enabled(s, Collect(id)) <==> id in s.clients && s.clients[id].Waiting? && IsAnswered(s, id)
  {
    WhereIsIt(s, id);
    if id in s.clients && s.clients[id].Waiting? {
      assert Known(Sent(s), id);
      var i :| 0 <= i < |Sent(s)| && Sent(s)[i].id == id;
      assert ClientOk(s, i);
    }
  }

  /** A flush starts with the receive that brings the buffer to 500, or with a tick that finds
      anything buffered, and with nothing else. */
  lemma FlushStartsIff(s: State, e: Event)
    requires Inv(s) && Enabled(s, e) && !s.phase.Saving?
    ensures Fire(s, e).phase.Saving? <==>
      (e.Receive? && |Fire(s, e).buf| == 500) || (e.Tick? && |s.buf| > 0)
  {
  }

  // ---------- Why each answer is what it is ----------

  lemma {:induction false} RunSplits(s: State, es: seq<Event>, n: nat)
    requires ValidRun(s, es) && n <= |es|
    ensures ValidRun(s, es[..n])
    ensures n < |es| ==> Enabled(After(s, es[..n]), es[n])
    ensures n == |es| - 1 ==> After(s, es) == Fire(After(s, es[..n]), es[n])
    decreases |es|
  {
    if n > 0 {
      assert es[..n][1..] == es[1..][..n - 1];
      RunSplits(Fire(s, es[0]), es[1..], n - 1);
    }
  }

  /** What the i-th of `size` requests is owed: the error of a failed save, a mismatch if not every
      message came back, and else the i-th message that came back. */
  ghost predicate IsOwed(outcome: Outcome, size: nat, i: int, response: Response) {
    match outcome
    case Failed(err) => response == SaveFailed(err)
    case Rows(saved) => if |saved| != size then response == CountMismatch else 0 <= i < size && response == Saved(saved[i])
  }

  /** The k-th event is a return of BulkSaveMessages with this outcome for this buffer. */
  ghost predicate ReturnedAt(es: seq<Event>, k: int, outcome: Outcome, buf: seq<Request>)
    requires ValidRun(START, es)
  {
    && 0 <= k < |es| && es[k].BulkReturn? && es[k].outcome == outcome
    && ValidRun(START, es[..k]) && After(START, es[..k]).buf == buf
  }

  ghost predicate ExplainedBy(es: seq<Event>, a: Answer, k: int, outcome: Outcome, buf: seq<Request>, i: int)
    requires ValidRun(START, es)
  {
    ReturnedAt(es, k, outcome, buf) && 0 <= i < |buf| && buf[i].id == a.id && IsOwed(outcome, |buf|, i, a.response)
  }

  ghost predicate Explained(es: seq<Event>, a: Answer)
    requires ValidRun(START, es)
  {
    exists k, outcome, buf, i :: ExplainedBy(es, a, k, outcome, buf, i)
  }

  ghost predicate History(es: seq<Event>)
    requires ValidRun(START, es)
  {
    var s := After(START, es);
    && (forall i :: 0 <= i < |s.answers| ==> Explained(es, s.answers[i]))
    && (s.phase.Responding? ==> exists k :: ReturnedAt(es, k, s.phase.outcome, s.buf))
  }

  lemma HistoryGoesOn(es: seq<Event>, n: nat)
    requires ValidRun(START, es) && n <= |es| && ValidRun(START, es[..n])
    ensures forall k, outcome, buf :: ReturnedAt(es[..n], k, outcome, buf) ==> ReturnedAt(es, k, outcome, buf)
    ensures forall a :: Explained(es[..n], a) ==> Explained(es, a)
  {
    forall k, outcome, buf | ReturnedAt(es[..n], k, outcome, buf) ensures ReturnedAt(es, k, outcome, buf) {
      assert es[..n][..k] == es[..k];
    }
    forall a | Explained(es[..n], a) ensures Explained(es, a) {
      var k, outcome, buf, i :| ExplainedBy(es[..n], a, k, outcome, buf, i);
      assert ExplainedBy(es, a, k, outcome, buf, i);
    }
  }

  /** Over every run each answer goes back to one save: its request was in the buffer saved then, and
      it is owed by what that save returned, at the place of the request. */
  lemma {:induction false} AnswersExplained(es: seq<Event>)
    requires ValidRun(START, es)
    ensures History(es)
    decreases |es|
  {
    if es != [] {
      var n := |es| - 1;
      RunSplits(START, es, n);
      AnswersExplained(es[..n]);
      HistoryGoesOn(es, n);
      HistoryStep(es, n);
    }
  }

  lemma HistoryStep(es: seq<Event>, n: nat)
    requires ValidRun(START, es) && n == |es| - 1 && ValidRun(START, es[..n]) && History(es[..n])
    requires Enabled(After(START, es[..n]), es[n]) && After(START, es) == Fire(After(START, es[..n]), es[n])
    requires forall k, outcome, buf :: ReturnedAt(es[..n], k, outcome, buf) ==> ReturnedAt(es, k, outcome, buf)
    requires forall a :: Explained(es[..n], a) ==> Explained(es, a)
    ensures History(es)
  {
    var s := After(START, es[..n]);
    if es[n].Respond? {
      var k :| ReturnedAt(es, k, s.phase.outcome, s.buf);
      HistoryAfterRespond(es, s, k);
    } else if es[n].BulkReturn? {
      assert ReturnedAt(es, n, es[n].outcome, s.buf);
    }
  }

  lemma HistoryAfterRespond(es: seq<Event>, s: State, k: int)
    requires ValidRun(START, es) && Enabled(s, Respond) && After(START, es) == Fire(s, Respond)
    requires ReturnedAt(es, k, s.phase.outcome, s.buf)
    requires forall i :: 0 <= i < |s.answers| ==> Explained(es, s.answers[i])
    ensures History(es)
  {
    RespondIsOwed(s);
    var answers := After(START, es).answers;
    assert ExplainedBy(es, answers[|s.answers|], k, s.phase.outcome, s.buf, s.phase.next);
  }

  lemma RespondIsOwed(s: State)
    requires Enabled(s, Respond)
    ensures var i, answers := s.phase.next, Fire(s, Respond).answers;
      answers == s.answers + [Answer(s.buf[i].id, answers[|s.answers|].response)]
      && IsOwed(s.phase.outcome, |s.buf|, i, answers[|s.answers|].response)
  {
  }

  function Flushes(es: seq<Event>): nat {
    if es == [] then 0 else Flushes(es[..|es| - 1]) + (if es[|es| - 1].BulkReturn? then 1 else 0)
  }

  function FailedFlushes(es: seq<Event>): nat {
    if es == [] then 0
    else
      var last := es[|es| - 1];
      FailedFlushes(es[..|es| - 1]) + (if last.BulkReturn? && last.outcome.Failed? then 1 else 0)
  }

  function FlushTime(es: seq<Event>): int {
    if es == [] then 0
    else FlushTime(es[..|es| - 1]) + (if es[|es| - 1].BulkReturn? then es[|es| - 1].durationUs else 0)
  }

  /** The other three counters: how many saves returned, how many of them failed, and the time they
      took together. */
  lemma {:induction false} FlushCounters(es: seq<Event>)
    requires ValidRun(START, es)
    ensures var c := After(START, es).counters;
      c.batchCount == Flushes(es) && c.insertErrorTotal == FailedFlushes(es) && c.flushDurationUsTotal == FlushTime(es)
    decreases |es|
  {
    if es != [] {
      RunSplits(START, es, |es| - 1);
      FlushCounters(es[..|es| - 1]);
    }
  }

  // ---------- Progress ----------

  function ChannelIndex(channel: seq<Request>, id: nat): (p: nat)
    ensures p <= |channel|
    ensures p < |channel| ==> channel[p].id == id
    ensures forall j :: 0 <= j < p ==> channel[j].id != id
  {
    FirstWhere(channel, (r: Request) => r.id == id)
  }

  /** Receive steps after which the request is sure to be in a flush. */
  ghost function Remaining(s: State, id: nat): int {
    var p := ChannelIndex(s.channel, id);
    if p < |s.channel| then p + MAX_BATCH_SIZE
    else if s.phase.Selecting? && Known(s.buf, id) then MAX_BATCH_SIZE - |s.buf|
    else 0
  }

  function Receives(es: seq<Event>): nat {
    if es == [] then 0 else (if es[0].Receive? then 1 else 0) + Receives(es[1..])
  }

  lemma ReceivePops(s: State, id: nat)
    requires s.channel != []
    ensures 0 < ChannelIndex(s.channel, id) ==> ChannelIndex(s.channel[1..], id) == ChannelIndex(s.channel, id) - 1
  {
  }

  lemma HeadGone(s: State, id: nat)
    requires InvClients(s) && s.channel != [] && s.channel[0].id == id
    ensures ChannelIndex(s.channel[1..], id) == |s.channel| - 1
  {
    var n := |s.received|;
    forall j | 0 <= j < |s.channel| - 1 ensures s.channel[1..][j].id != id {
      assert Sent(s)[n] == s.channel[0] && Sent(s)[n + 1 + j] == s.channel[1..][j];
    }
  }

  lemma EnqueueKeepsIndex(channel: seq<Request>, r: Request, id: nat)
    requires ChannelIndex(channel, id) < |channel| || r.id != id
    ensures ChannelIndex(channel + [r], id) ==
      if ChannelIndex(channel, id) < |channel| then ChannelIndex(channel, id) else |channel| + 1
  {
    if channel != [] && channel[0].id != id {
      assert (channel + [r])[1..] == channel[1..] + [r];
      EnqueueKeepsIndex(channel[1..], r, id);
    }
  }

  lemma StepProgress(s: State, e: Event, id: nat)
    requires Inv(s) && Enabled(s, e) && Known(Sent(s), id)
    ensures Known(Sent(Fire(s, e)), id) && Remaining(Fire(s, e), id) >= 0
    ensures Remaining(s, id) == 0 ==> Remaining(Fire(s, e), id) == 0
    ensures Remaining(s, id) > 0 ==>
      Remaining(Fire(s, e), id) <= Remaining(s, id) - (if e.Receive? then 1 else 0)
  {
    match e
    case Receive => ReceiveProgress(s, id);
    case Enqueue(x) => EnqueueProgress(s, x, id);
    case _ => assert Sent(Fire(s, e)) == Sent(s);
  }

  ghost predicate Progresses(s: State, s': State, id: nat) {
    && Known(Sent(s'), id) && Remaining(s', id) >= 0
    && (Remaining(s, id) == 0 ==> Remaining(s', id) == 0)
    && (Remaining(s, id) > 0 ==> Remaining(s', id) <= Remaining(s, id) - 1)
  }

  lemma ReceiveProgress(s: State, id: nat)
    requires Inv(s) && Enabled(s, Receive) && Known(Sent(s), id)
    ensures Progresses(s, Fire(s, Receive), id)
  {
    assert Sent(Fire(s, Receive)) == Sent(s);
    if s.channel[0].id == id { HeadProgress(s, id); } else { BehindProgress(s, id); }
  }

  /** The request itself is received ... */
  lemma HeadProgress(s: State, id: nat)
    requires Inv(s) && Enabled(s, Receive) && s.channel[0].id == id
    requires Sent(Fire(s, Receive)) == Sent(s) && Known(Sent(s), id)
    ensures Progresses(s, Fire(s, Receive), id)
  {
    HeadGone(s, id);
  }

  /** ... or another one. */
  lemma BehindProgress(s: State, id: nat)
    requires Inv(s) && Enabled(s, Receive) && s.channel[0].id != id
    requires Sent(Fire(s, Receive)) == Sent(s) && Known(Sent(s), id)
    ensures Progresses(s, Fire(s, Receive), id)
  {
    var s' := Fire(s, Receive);
    ReceivePops(s, id);
    assert Known(s'.buf, id) <==> Known(s.buf, id) by {
      assert forall i :: 0 <= i < |s.buf| ==> s'.buf[i] == s.buf[i];
    }
  }

  lemma EnqueueProgress(s: State, x: nat, id: nat)
    requires Inv(s) && Enabled(s, Enqueue(x)) && Known(Sent(s), id)
    ensures var s' := Fire(s, Enqueue(x));
      Known(Sent(s'), id) && Remaining(s', id) == Remaining(s, id)
  {
    EnqueueKeepsKnown(s, x, id);
    KnownIsNotCounted(s, id);
    EnqueueKeepsIndex(s.channel, Request(x, s.clients[x].msg), id);
    SameRemaining(s, Fire(s, Enqueue(x)), id);
  }

  lemma EnqueueKeepsKnown(s: State, x: nat, id: nat)
    requires Enabled(s, Enqueue(x)) && Known(Sent(s), id)
    ensures Known(Sent(Fire(s, Enqueue(x))), id)
  {
    var at :| 0 <= at < |Sent(s)| && Sent(s)[at].id == id;
    assert Sent(Fire(s, Enqueue(x)))[at].id == id;
  }

  lemma KnownIsNotCounted(s: State, id: nat)
    requires InvClients(s) && Known(Sent(s), id)
    ensures id in s.clients && !s.clients[id].Counted?
  {
    var at :| 0 <= at < |Sent(s)| && Sent(s)[at].id == id;
    assert ClientOk(s, at);
  }

  /** The place in the channel, the buffer and the phase are all that Remaining looks at. */
  lemma SameRemaining(s: State, t: State, id: nat)
    requires t.buf == s.buf && t.phase == s.phase
    requires var p, q := ChannelIndex(s.channel, id), ChannelIndex(t.channel, id);
      if p < |s.channel| then q == p && q < |t.channel| else q == |t.channel|
    ensures Remaining(t, id) == Remaining(s, id)
  {
  }

  /** The request is known in t, and `receives` brought it nearer to its answer than in s. */
  ghost predicate Nearer(s: State, t: State, id: nat, receives: nat) {
    && Known(Sent(t), id)
    && (Remaining(t, id) <= 0 || Remaining(t, id) <= Remaining(s, id) - receives)
    && (Remaining(s, id) == 0 ==> Remaining(t, id) <= 0)
  }

  lemma StepNearer(s: State, e: Event, id: nat)
    requires Inv(s) && Enabled(s, e) && Known(Sent(s), id)
    ensures Nearer(s, Fire(s, e), id, Receives([e])) && Remaining(Fire(s, e), id) >= 0
  {
    StepProgress(s, e, id);
  }

  lemma NearerTransitive(s: State, t: State, u: State, id: nat, m: nat, n: nat)
    requires Nearer(s, t, id, m) && Nearer(t, u, id, n) && Remaining(t, id) >= 0
    ensures Nearer(s, u, id, m + n)
  {
  }

  lemma {:induction false} RunProgress(s: State, es: seq<Event>, id: nat)
    requires Inv(s) && ValidRun(s, es) && Known(Sent(s), id)
    ensures Inv(After(s, es)) && Nearer(s, After(s, es), id, Receives(es))
    decreases |es|
  {
    if es != [] {
      var t := Fire(s, es[0]);
      StepKeepsInv(s, es[0]);
      StepNearer(s, es[0], id);
      RunProgress(t, es[1..], id);
      NearerTransitive(s, t, After(t, es[1..]), id, Receives([es[0]]), Receives(es[1..]));
    }
  }

  /** A known request with nothing remaining is answered once the goroutine is back in its select. */
  lemma NothingRemaining(s: State, id: nat)
    requires Inv(s) && Known(Sent(s), id) && Remaining(s, id) <= 0 && s.phase.Selecting?
    ensures IsAnswered(s, id)
  {
    var at :| 0 <= at < |Sent(s)| && Sent(s)[at].id == id;
    assert ChannelIndex(s.channel, id) == |s.channel|;
    assert forall k :: |s.received| <= k < |Sent(s)| ==> Sent(s)[k] == s.channel[k - |s.received|];
    assert forall k :: |s.answers| <= k < |s.received| ==> Sent(s)[k] == s.buf[k - |s.answers|];
    assert s.answers[at].id == id;
  }

  /** From any reachable state, a request with p requests ahead of it in the channel is answered
      once p + 500 further requests have been received and the flush they cause is over. */
  lemma AnsweredAfterReceives(s: State, es: seq<Event>, p: nat)
    requires Inv(s) && p < |s.channel| && ValidRun(s, es)
    requires Receives(es) >= p + 500 && After(s, es).phase.Selecting?
    ensures IsAnswered(After(s, es), s.channel[p].id)
  {
    ChannelPosition(s, p);
    RunProgress(s, es, s.channel[p].id);
    NothingRemaining(After(s, es), s.channel[p].id);
  }

  lemma ChannelPosition(s: State, p: nat)
    requires InvClients(s) && p < |s.channel|
    ensures Known(Sent(s), s.channel[p].id) && Remaining(s, s.channel[p].id) == p + 500
  {
    var n, q := |s.received|, ChannelIndex(s.channel, s.channel[p].id);
    assert Sent(s)[n + p] == s.channel[p] && Sent(s)[n + q] == s.channel[q];
  }

  lemma {:induction false} RunConcat(s: State, a: seq<Event>, b: seq<Event>)
    requires ValidRun(s, a + b)
    ensures ValidRun(s, a) && ValidRun(After(s, a), b) && After(s, a + b) == After(After(s, a), b)
    decreases |a|
  {
    if a == [] {
      assert a + b == b;
    } else {
      assert (a + b)[0] == a[0] && (a + b)[1..] == a[1..] + b;
      RunConcat(Fire(s, a[0]), a[1..], b);
    }
  }

  /** ... and it is answered by the flush of the first tick after p + 1 further receives. */
  lemma AnsweredAfterTick(s: State, before: seq<Event>, rest: seq<Event>, p: nat)
    requires Inv(s) && p < |s.channel| && ValidRun(s, before + [Tick] + rest)
    requires Receives(before) >= p + 1 && After(s, before + [Tick] + rest).phase.Selecting?
    ensures IsAnswered(After(s, before + [Tick] + rest), s.channel[p].id)
  {
    var id := s.channel[p].id;
    RunConcat(s, before + [Tick], rest);
    RunConcat(s, before, [Tick]);
    var t := After(s, before);
    ChannelPosition(s, p);
    RunProgress(s, before, id);
    assert Remaining(t, id) < 500;
    assert Remaining(Fire(t, Tick), id) <= 0;
    assert ValidRun(t, [Tick]) && After(t, [Tick]) == Fire(t, Tick);
    RunKeepsInv(s, before + [Tick]);
    RunProgress(s, before + [Tick], id);
    RunProgress(Fire(t, Tick), rest, id);
    NothingRemaining(After(s, before + [Tick] + rest), id);
  }
}
