/** Batching over the in-memory store refines direct saving. The store locks per message: while a
    batch is being saved, other calls (edits, deletions, listings, other saves) may come between any
    two of its messages. In every interleaving the store and the answers are those of one SaveMessage
    per request, called in the order the requests left the channel, among the same other calls. */
module BatchRefinement {
  import opened Common
  import opened MessageStore
  import opened BatchProtocol

  /** One call on the store: the index-th save of the flush goroutine, or anyone else's call. */
  datatype Entry = Ours(index: nat, msg: Message, clock: Clock) | Theirs(op: Op)

  /** The protocol together with the store. `results` are the rows saved so far of the present batch,
      `log` are all calls on the store in order, `past` the store before each of them, and `ats` the
      places of the goroutine's own saves. */
  datatype System = System(
    p: State, store: Store, results: seq<Message>, log: seq<Entry>, past: seq<Store>, ats: seq<nat>)

  datatype SystemEvent =
    | Plain(e: Event)
    | SaveNext(clock: Clock)
    | Finish(durationUs: int)
    | Other(op: Op)

  predicate CanStep(y: System, e: SystemEvent) {
    match e
    case Plain(pe) => !pe.BulkReturn? && Enabled(y.p, pe)
    case SaveNext(_) => y.p.phase.Saving? && |y.results| < |y.p.buf|
    case Finish(_) => y.p.phase.Saving? && |y.results| == |y.p.buf|
    case Other(_) => true
  }

  /** BulkSaveMessages is one SaveNext per buffered message, then Finish. */
  function Step(y: System, e: SystemEvent): System
    requires CanStep(y, e)
  {
    match e
    case Plain(pe) => y.(p := Fire(y.p, pe))
    case SaveNext(clock) =>
      var msg := y.p.buf[|y.results|].msg;
      y.(store := Save(y.store, msg, clock), results := y.results + [Stamp(msg, y.store.counter + 1, clock)],
         log := y.log + [Ours(|y.ats|, msg, clock)], past := y.past + [y.store], ats := y.ats + [|y.log|])
    case Finish(us) => y.(p := Fire(y.p, BulkReturn(Rows(y.results), us)), results := [])
    case Other(op) => y.(store := Apply(y.store, op), log := y.log + [Theirs(op)], past := y.past + [y.store])
  }

  function Begin(base: Store): System {
    System(START, base, [], [], [], [])
  }

  ghost predicate CanRun(y: System, es: seq<SystemEvent>)
    decreases |es|
  {
    es == [] || (CanStep(y, es[0]) && CanRun(Step(y, es[0]), es[1..]))
  }

  ghost function Final(y: System, es: seq<SystemEvent>): System
    requires CanRun(y, es)
    decreases |es|
  {
    if es == [] then y else Final(Step(y, es[0]), es[1..])
  }

  // ---------- The direct calls ----------

  function OpOf(entry: Entry): Op {
    match entry
    case Ours(_, msg, clock) => OpSave(msg, clock)
    case Theirs(op) => op
  }

  /** The calls of the log made directly on the store, one after the other. */
  function Direct(base: Store, log: seq<Entry>): Store
    decreases |log|
  {
    if log == [] then base else Apply(Direct(base, log[..|log| - 1]), OpOf(log[|log| - 1]))
  }

  ghost predicate Leads(s: Store, entry: Entry, t: Store) {
    t == Apply(s, OpOf(entry))
  }

  function Next(past: seq<Store>, store: Store, k: nat): Store {
    if k + 1 < |past| then past[k + 1] else store
  }

  /** Each call of the log leads from the store before it to the next. */
  ghost predicate Chained(base: Store, log: seq<Entry>, past: seq<Store>, store: Store) {
    && |past| == |log| && base == (if past == [] then store else past[0])
    && forall k {:trigger log[k]} :: 0 <= k < |log| ==> Leads(past[k], log[k], Next(past, store, k))
  }

  /** m is what SaveMessage returns when called directly at this place of the log. */
  ghost predicate IsRow(m: Message, log: seq<Entry>, past: seq<Store>, at: nat) {
    at < |log| == |past| && log[at].Ours? && m == Stamp(log[at].msg, past[at].counter + 1, log[at].clock)
  }

  function OthersOf(log: seq<Entry>): seq<Op> {
    if log == [] then []
    else OthersOf(log[..|log| - 1]) + (if log[|log| - 1].Theirs? then [log[|log| - 1].op] else [])
  }

  function OthersIn(es: seq<SystemEvent>): seq<Op> {
    if es == [] then [] else (if es[0].Other? then [es[0].op] else []) + OthersIn(es[1..])
  }

  // ---------- What ties the two together ----------

  /** How many messages of the present batch are saved. */
  function Progress(y: System): nat {
    match y.p.phase
    case Selecting => 0
    case Saving => |y.results|
    case Responding(_, _) => |y.p.buf|
  }

  ghost predicate Sizes(y: System) {
    && |y.results| <= |y.p.buf| <= |y.p.received| && (!y.p.phase.Saving? ==> y.results == [])
    && |y.ats| == |y.p.received| - |y.p.buf| + Progress(y)
  }

  ghost predicate Listed(log: seq<Entry>, ats: seq<nat>, j: nat)
    requires j < |log|
  {
    log[j].Ours? ==> log[j].index < |ats| && ats[log[j].index] == j
  }

  /** The own saves are those of the first requests received, in that order. */
  ghost predicate SavesLogged(received: seq<Request>, log: seq<Entry>, ats: seq<nat>) {
    && |ats| <= |received|
    && (forall i :: 0 <= i < |ats| ==>
          ats[i] < |log| && log[ats[i]].Ours? && log[ats[i]].index == i && log[ats[i]].msg == received[i].msg)
    && (forall i, j :: 0 <= i < j < |ats| ==> ats[i] < ats[j])
    && (forall j :: 0 <= j < |log| ==> Listed(log, ats, j))
  }

  ghost predicate AreRows(rows: seq<Message>, log: seq<Entry>, past: seq<Store>, ats: seq<nat>, n: int) {
    && 0 <= n && n + |rows| <= |ats|
    && forall k :: 0 <= k < |rows| ==> IsRow(rows[k], log, past, ats[n + k])
  }

  /** The rows of the present batch, as far as saved. */
  function BatchRows(y: System): seq<Message> {
    if y.p.phase.Responding? && y.p.phase.outcome.Rows? then y.p.phase.outcome.saved else y.results
  }

  ghost predicate FlushTie(y: System) {
    && (y.p.phase.Responding? ==> y.p.phase.outcome.Rows? && |y.p.phase.outcome.saved| == |y.p.buf|)
    && AreRows(BatchRows(y), y.log, y.past, y.ats, |y.p.received| - |y.p.buf|)
  }

  ghost predicate AnswerTie(answers: seq<Answer>, log: seq<Entry>, past: seq<Store>, ats: seq<nat>) {
    && |answers| <= |ats|
    && forall i :: 0 <= i < |answers| ==> answers[i].response.Saved? && IsRow(answers[i].response.message, log, past, ats[i])
  }

  ghost predicate Tied(y: System) {
    && |y.past| == |y.log| && Sizes(y) && SavesLogged(y.p.received, y.log, y.ats)
    && FlushTie(y) && AnswerTie(y.p.answers, y.log, y.past, y.ats)
  }

  ghost predicate Refined(y: System, base: Store) {
    BatchProtocol.Inv(y.p) && Chained(base, y.log, y.past, y.store) && Tied(y)
  }

  lemma ChainGrows(base: Store, log: seq<Entry>, past: seq<Store>, store: Store, entry: Entry)
    requires Chained(base, log, past, store)
    ensures Chained(base, log + [entry], past + [store], Apply(store, OpOf(entry)))
  {
    var log', past', t := log + [entry], past + [store], Apply(store, OpOf(entry));
    forall k | 0 <= k <= |log| ensures Leads(past'[k], log'[k], Next(past', t, k)) {
      if k < |log| { assert Leads(past[k], log[k], Next(past, store, k)); }
    }
  }

  /** Later calls leave the rows of earlier ones what they were. */
  lemma RowsStay(rows: seq<Message>, log: seq<Entry>, past: seq<Store>, ats: seq<nat>, n: int, entry: Entry, store: Store)
    requires AreRows(rows, log, past, ats, n)
    ensures AreRows(rows, log + [entry], past + [store], ats, n)
  {
    forall k | 0 <= k < |rows| ensures IsRow(rows[k], log + [entry], past + [store], ats[n + k]) {
      assert IsRow(rows[k], log, past, ats[n + k]);
    }
  }

  lemma AnswersStay(answers: seq<Answer>, log: seq<Entry>, past: seq<Store>, ats: seq<nat>, entry: Entry, store: Store)
    requires AnswerTie(answers, log, past, ats)
    ensures AnswerTie(answers, log + [entry], past + [store], ats)
  {
    forall i | 0 <= i < |answers| ensures IsRow(answers[i].response.message, log + [entry], past + [store], ats[i]) {
      assert IsRow(answers[i].response.message, log, past, ats[i]);
    }
  }

  lemma StepKeepsChained(y: System, base: Store, e: SystemEvent)
    requires Chained(base, y.log, y.past, y.store) && CanStep(y, e)
    ensures var y' := Step(y, e); Chained(base, y'.log, y'.past, y'.store)
  {
    match e
    case Other(op) => ChainGrows(base, y.log, y.past, y.store, Theirs(op));
    case SaveNext(clock) => ChainGrows(base, y.log, y.past, y.store, Ours(|y.ats|, y.p.buf[|y.results|].msg, clock));
    case _ =>
  }

  lemma OtherKeepsTied(y: System, y': System, entry: Entry)
    requires Tied(y) && entry.Theirs?
    requires y'.p == y.p && y'.results == y.results && y'.ats == y.ats
    requires y'.log == y.log + [entry] && y'.past == y.past + [y.store]
    ensures Tied(y')
  {
    assert BatchRows(y') == BatchRows(y) && Sizes(y');
    OtherIsLogged(y.p.received, y.log, y.ats, entry);
    RowsStay(BatchRows(y), y.log, y.past, y.ats, |y.p.received| - |y.p.buf|, entry, y.store);
    AnswersStay(y.p.answers, y.log, y.past, y.ats, entry, y.store);
  }

  lemma OtherIsLogged(received: seq<Request>, log: seq<Entry>, ats: seq<nat>, entry: Entry)
    requires SavesLogged(received, log, ats) && entry.Theirs?
    ensures SavesLogged(received, log + [entry], ats)
  {
    forall j | 0 <= j <= |log| ensures Listed(log + [entry], ats, j) {
      if j < |log| { assert Listed(log, ats, j); }
    }
  }

  lemma SaveKeepsTied(y: System, y': System, entry: Entry, row: Message)
    requires Tied(y) && InvShape(y.p) && y.p.phase.Saving? && |y.results| < |y.p.buf|
    requires entry.Ours? && entry.index == |y.ats| && entry.msg == y.p.buf[|y.results|].msg
    requires row == Stamp(entry.msg, y.store.counter + 1, entry.clock)
    requires y'.p == y.p && y'.results == y.results + [row] && y'.ats == y.ats + [|y.log|]
    requires y'.log == y.log + [entry] && y'.past == y.past + [y.store]
    ensures Tied(y')
  {
    var n := |y.p.received| - |y.p.buf|;
    assert BatchRows(y) == y.results && BatchRows(y') == y.results + [row] && Sizes(y');
    assert y.p.buf[|y.results|] == y.p.received[|y.ats|];
    SaveIsLogged(y.p.received, y.log, y.ats, entry);
    RowsStay(y.results, y.log, y.past, y.ats, n, entry, y.store);
    RowsGrow(y.results, y'.log, y'.past, y.ats, n, row, |y.log|);
    AnswersStay(y.p.answers, y.log, y.past, y.ats, entry, y.store);
    AnswersKeep(y.p.answers, y'.log, y'.past, y.ats, |y.log|);
  }

  lemma SaveIsLogged(received: seq<Request>, log: seq<Entry>, ats: seq<nat>, entry: Entry)
    requires SavesLogged(received, log, ats)
    requires |ats| < |received| && entry.Ours? && entry.index == |ats| && entry.msg == received[|ats|].msg
    ensures SavesLogged(received, log + [entry], ats + [|log|])
  {
    forall j | 0 <= j <= |log| ensures Listed(log + [entry], ats + [|log|], j) {
      if j < |log| { assert Listed(log, ats, j); }
    }
  }

  lemma RowsGrow(rows: seq<Message>, log: seq<Entry>, past: seq<Store>, ats: seq<nat>, n: int, m: Message, at: nat)
    requires AreRows(rows, log, past, ats, n) && n + |rows| == |ats| && IsRow(m, log, past, at)
    ensures AreRows(rows + [m], log, past, ats + [at], n)
  {
  }

  lemma AnswersKeep(answers: seq<Answer>, log: seq<Entry>, past: seq<Store>, ats: seq<nat>, at: nat)
    requires AnswerTie(answers, log, past, ats)
    ensures AnswerTie(answers, log, past, ats + [at])
  {
  }

  lemma PlainKeepsTied(y: System, e: Event)
    requires Tied(y) && InvShape(y.p) && CanStep(y, Plain(e))
    ensures Tied(y.(p := Fire(y.p, e)))
  {
    match e
    case Receive => ReceiveKeepsTied(y, Fire(y.p, e));
    case Respond =>
      assert |y.p.answers| == |y.p.received| - |y.p.buf| + y.p.phase.next;
      RespondKeepsTied(y, Fire(y.p, e));
    case EndFlush => EndKeepsTied(y, Fire(y.p, e));
    case Tick => TickKeepsTied(y, Fire(y.p, e));
    case Count(_, _) => TiedCarries(y, Fire(y.p, e));
    case Enqueue(_) => TiedCarries(y, Fire(y.p, e));
    case Collect(_) => TiedCarries(y, Fire(y.p, e));
    case BulkReturn(_, _) =>
  }

  lemma TiedCarries(y: System, q: State)
    requires Tied(y)
    requires q.buf == y.p.buf && q.phase == y.p.phase && q.received == y.p.received && q.answers == y.p.answers
    ensures Tied(y.(p := q))
  {
  }

  lemma TickKeepsTied(y: System, q: State)
    requires Tied(y) && y.p.phase.Selecting? && (q.phase.Selecting? || q.phase.Saving?)
    requires q.buf == y.p.buf && q.received == y.p.received && q.answers == y.p.answers
    ensures Tied(y.(p := q))
  {
  }

  lemma EndKeepsTied(y: System, q: State)
    requires Tied(y) && y.p.phase.Responding? && q.phase.Selecting?
    requires q.buf == [] && q.received == y.p.received && q.answers == y.p.answers
    ensures Tied(y.(p := q))
  {
  }

  lemma FinishKeepsTied(y: System, q: State)
    requires Tied(y) && y.p.phase.Saving? && |y.results| == |y.p.buf| && q.phase == Responding(Rows(y.results), 0)
    requires q.buf == y.p.buf && q.received == y.p.received && q.answers == y.p.answers
    ensures Tied(y.(p := q, results := []))
  {
  }

  lemma ReceiveKeepsTied(y: System, q: State)
    requires Tied(y) && y.p.phase.Selecting? && y.p.channel != [] && (q.phase.Selecting? || q.phase.Saving?)
    requires q.buf == y.p.buf + [y.p.channel[0]] && q.received == y.p.received + [y.p.channel[0]] && q.answers == y.p.answers
    ensures Tied(y.(p := q))
  {
    assert BatchRows(y.(p := q)) == BatchRows(y) && Sizes(y.(p := q));
    MoreReceived(y.p.received, y.log, y.ats, y.p.channel[0]);
  }

  lemma MoreReceived(received: seq<Request>, log: seq<Entry>, ats: seq<nat>, r: Request)
    requires SavesLogged(received, log, ats)
    ensures SavesLogged(received + [r], log, ats)
  {
  }

  lemma RespondKeepsTied(y: System, q: State)
    requires Tied(y) && y.p.phase.Responding? && y.p.phase.next < |y.p.buf|
    requires |y.p.answers| == |y.p.received| - |y.p.buf| + y.p.phase.next
    requires q.buf == y.p.buf && q.received == y.p.received && q.phase == y.p.phase.(next := y.p.phase.next + 1)
    requires q.answers == y.p.answers
      + [Answer(y.p.buf[y.p.phase.next].id, AnswerFor(y.p.phase.outcome, |y.p.buf|, y.p.phase.next))]
    ensures Tied(y.(p := q))
  {
    assert BatchRows(y.(p := q)) == BatchRows(y) && Sizes(y.(p := q));
    NextRow(y);
    AnswerGrows(y.p.answers, y.log, y.past, y.ats, q.answers[|y.p.answers|]);
  }

  /** The next answer to send is the row of the save with its number. */
  lemma NextRow(y: System)
    requires Tied(y) && y.p.phase.Responding? && y.p.phase.next < |y.p.buf|
    requires |y.p.answers| == |y.p.received| - |y.p.buf| + y.p.phase.next
    ensures |y.p.answers| < |y.ats|
    ensures var r := AnswerFor(y.p.phase.outcome, |y.p.buf|, y.p.phase.next);
      r.Saved? && IsRow(r.message, y.log, y.past, y.ats[|y.p.answers|])
  {
    assert IsRow(BatchRows(y)[y.p.phase.next], y.log, y.past, y.ats[|y.p.received| - |y.p.buf| + y.p.phase.next]);
  }

  lemma AnswerGrows(answers: seq<Answer>, log: seq<Entry>, past: seq<Store>, ats: seq<nat>, a: Answer)
    requires AnswerTie(answers, log, past, ats) && |answers| < |ats|
    requires a.response.Saved? && IsRow(a.response.message, log, past, ats[|answers|])
    ensures AnswerTie(answers + [a], log, past, ats)
  {
  }

  lemma StepKeepsTied(y: System, e: SystemEvent)
    requires Tied(y) && InvShape(y.p) && CanStep(y, e)
    ensures Tied(Step(y, e))
  {
    match e
    case Plain(pe) => PlainKeepsTied(y, pe);
    case SaveNext(clock) =>
      var msg := y.p.buf[|y.results|].msg;
      SaveKeepsTied(y, Step(y, e), Ours(|y.ats|, msg, clock), Stamp(msg, y.store.counter + 1, clock));
    case Finish(us) => FinishKeepsTied(y, Fire(y.p, BulkReturn(Rows(y.results), us)));
    case Other(op) => OtherKeepsTied(y, Step(y, e), Theirs(op));
  }

  lemma StepKeepsRefined(y: System, base: Store, e: SystemEvent)
    requires Refined(y, base) && CanStep(y, e)
    ensures Refined(Step(y, e), base)
  {
    StepKeepsTied(y, e);
    StepKeepsChained(y, base, e);
    match e
    case Plain(pe) =>
      StepKeepsClients(y.p, pe);
      StepKeepsCounters(y.p, pe);
    case Finish(us) =>
      StepKeepsClients(y.p, BulkReturn(Rows(y.results), us));
      StepKeepsCounters(y.p, BulkReturn(Rows(y.results), us));
    case _ =>
  }

  lemma {:induction false} RunKeepsRefined(y: System, base: Store, es: seq<SystemEvent>)
    requires Refined(y, base) && CanRun(y, es)
    ensures Refined(Final(y, es), base)
    decreases |es|
  {
    if es != [] {
      StepKeepsRefined(y, base, es[0]);
      RunKeepsRefined(Step(y, es[0]), base, es[1..]);
    }
  }

  lemma BeginRefined(base: Store)
    ensures Refined(Begin(base), base)
  {
    StartInv();
  }

  lemma {:induction false} OthersAreKept(y: System, es: seq<SystemEvent>)
    requires CanRun(y, es)
    ensures OthersOf(Final(y, es).log) == OthersOf(y.log) + OthersIn(es)
    decreases |es|
  {
    if es != [] {
      var y' := Step(y, es[0]);
      OthersNext(y, es[0]);
      OthersAreKept(y', es[1..]);
      assert Final(y, es) == Final(y', es[1..]);
      var first := if es[0].Other? then [es[0].op] else [];
      assert OthersIn(es) == first + OthersIn(es[1..]);
      assert (OthersOf(y.log) + first) + OthersIn(es[1..]) == OthersOf(y.log) + (first + OthersIn(es[1..]));
    }
  }

  lemma OthersNext(y: System, e: SystemEvent)
    requires CanStep(y, e)
    ensures OthersOf(Step(y, e).log) == OthersOf(y.log) + (if e.Other? then [e.op] else [])
  {
    match e
    case Other(op) => OthersAppend(y.log, Theirs(op));
    case SaveNext(clock) => OthersAppend(y.log, Ours(|y.ats|, y.p.buf[|y.results|].msg, clock));
    case _ =>
  }

  lemma OthersAppend(log: seq<Entry>, entry: Entry)
    ensures OthersOf(log + [entry]) == OthersOf(log) + (if entry.Theirs? then [entry.op] else [])
  {
    assert (log + [entry])[..|log|] == log;
  }

  /** The stores between the calls are those that the calls made directly lead through. */
  lemma {:induction false} PastIsDirect(base: Store, log: seq<Entry>, past: seq<Store>, store: Store, k: nat)
    requires Chained(base, log, past, store) && k <= |log|
    ensures Direct(base, log[..k]) == if k < |past| then past[k] else store
    decreases k
  {
    if k > 0 {
      PastIsDirect(base, log, past, store, k - 1);
      assert Leads(past[k - 1], log[k - 1], Next(past, store, k - 1));
      assert log[..k][..k - 1] == log[..k - 1];
    }
  }

  // ---------- The main results ----------

  /** The i-th answer goes to the i-th request received and carries what its direct save returns. */
  ghost predicate AnsweredInOrder(y: System) {
    && |y.p.answers| <= |y.ats| <= |y.p.received|
    && forall i :: 0 <= i < |y.p.answers| ==>
         && y.p.answers[i].id == y.p.received[i].id && y.p.answers[i].response.Saved?
         && IsRow(y.p.answers[i].response.message, y.log, y.past, y.ats[i])
  }

  /** The store, now and before each call of the log, is what the calls made directly lead to. */
  ghost predicate StoresAreDirect(y: System, base: Store) {
    && y.store == Direct(base, y.log) && |y.past| == |y.log|
    && forall k :: 0 <= k < |y.log| ==> y.past[k] == Direct(base, y.log[..k])
  }

  /** Every run of submitters, receives, ticks, single saves and other calls on the store has the
      effect of a log of direct calls: the stores are what they lead to; the other calls are in the log
      in their own order; the goroutine's saves are exactly one per request saved so far, in the order
      of receiving; and each answer is what its own save returned. */
  lemma BatchingIsDirectSaving(base: Store, es: seq<SystemEvent>)
    requires CanRun(Begin(base), es)
    ensures var y := Final(Begin(base), es);
      && StoresAreDirect(y, base) && OthersOf(y.log) == OthersIn(es)
      && SavesLogged(y.p.received, y.log, y.ats) && (y.p.buf == [] ==> |y.ats| == |y.p.received|)
      && AnsweredInOrder(y)
  {
    BeginRefined(base);
    RunKeepsRefined(Begin(base), base, es);
    OthersAreKept(Begin(base), es);
    RefinedIsDirect(Final(Begin(base), es), base);
  }

  lemma RefinedIsDirect(y: System, base: Store)
    requires Refined(y, base)
    ensures StoresAreDirect(y, base)
    ensures SavesLogged(y.p.received, y.log, y.ats) && (y.p.buf == [] ==> |y.ats| == |y.p.received|)
    ensures AnsweredInOrder(y)
  {
    ChainIsDirect(y, base);
  }

  lemma ChainIsDirect(y: System, base: Store)
    requires Chained(base, y.log, y.past, y.store)
    ensures StoresAreDirect(y, base)
  {
    forall k | 0 <= k < |y.log| ensures y.past[k] == Direct(base, y.log[..k]) {
      PastIsDirect(base, y.log, y.past, y.store, k);
    }
    PastIsDirect(base, y.log, y.past, y.store, |y.log|);
    assert y.log[..|y.log|] == y.log;
  }

  function Ops(log: seq<Entry>): (ops: seq<Op>)
    ensures |ops| == |log|
    ensures forall i {:trigger ops[i]} :: 0 <= i < |log| ==> ops[i] == OpOf(log[i])
  {
    seq(|log|, i requires 0 <= i < |log| => OpOf(log[i]))
  }

  lemma {:induction false} DirectIsRun(base: Store, log: seq<Entry>)
    ensures Direct(base, log) == Run(base, Ops(log))
    decreases |log|
  {
    if log != [] {
      var n := |log| - 1;
      DirectIsRun(base, log[..n]);
      assert Ops(log) == Ops(log[..n]) + [OpOf(log[n])];
      RunSnoc(base, Ops(log[..n]), OpOf(log[n]));
    }
  }

  /** So the invariant of the store holds in every interleaving, and no id of a deleted message comes
      back. */
  lemma BatchingKeepsStoreInv(base: Store, es: seq<SystemEvent>)
    requires CanRun(Begin(base), es) && MessageStore.Inv(base)
    ensures MessageStore.Inv(Final(Begin(base), es).store)
    ensures forall id :: id <= base.counter && !Stored(base, id) ==> !Stored(Final(Begin(base), es).store, id)
  {
    BatchingIsDirectSaving(base, es);
    var log := Final(Begin(base), es).log;
    DirectIsRun(base, log);
    MessageStore.RunKeepsInv(base, Ops(log));
  }

  /** m is msg as SaveMessage stores it: given an id, and the clock's time and the first status only
      where the caller left these open. */
  ghost predicate OwnMessage(msg: Message, m: Message) {
    exists clock :: SavedAs(msg, m, m.id, clock)
  }

  ghost predicate OwnResponse(client: Client) {
    client.Returned? ==> client.response.Saved? && OwnMessage(client.msg, client.response.message)
  }

  ghost predicate NumbersAscend(answers: seq<Answer>, above: int) {
    forall i, j :: 0 <= i < j < |answers| ==>
      && answers[i].response.Saved? && answers[j].response.Saved?
      && above < answers[i].response.message.id < answers[j].response.message.id
  }

  /** Each caller that has returned got its own message back, as saved; and numbers grow in the order
      of receiving. */
  lemma EachGetsItsOwn(base: Store, es: seq<SystemEvent>, id: nat)
    requires CanRun(Begin(base), es)
    ensures var p := Final(Begin(base), es).p;
      (id in p.clients ==> OwnResponse(p.clients[id])) && NumbersAscend(p.answers, base.counter)
  {
    BeginRefined(base);
    RunKeepsRefined(Begin(base), base, es);
    ReturnedIsOwn(Final(Begin(base), es), base, id);
    NumbersGrow(Final(Begin(base), es), base);
  }

  lemma ReturnedIsOwn(y: System, base: Store, id: nat)
    requires Refined(y, base)
    ensures id in y.p.clients ==> OwnResponse(y.p.clients[id])
  {
    if id in y.p.clients && y.p.clients[id].Returned? {
      assert Known(Sent(y.p), id);
      var i :| 0 <= i < |Sent(y.p)| && Sent(y.p)[i].id == id;
      assert ClientOk(y.p, i);
      var m := y.p.answers[i].response.message;
      assert IsRow(m, y.log, y.past, y.ats[i]);
      StampExact(y.p.received[i].msg, m.id, y.log[y.ats[i]].clock);
    }
  }

  /** Counters never fall along the calls, and an own save raises them by one. */
  ghost predicate Ascending(log: seq<Entry>, past: seq<Store>, store: Store) {
    && |past| == |log|
    && forall k {:trigger log[k]} :: 0 <= k < |log| ==>
         past[k].counter + (if log[k].Ours? then 1 else 0) <= Next(past, store, k).counter
  }

  lemma LinkCounts(s: Store, entry: Entry, t: Store)
    requires Leads(s, entry, t)
    ensures s.counter + (if entry.Ours? then 1 else 0) <= t.counter
  {
  }

  lemma ChainAscends(base: Store, log: seq<Entry>, past: seq<Store>, store: Store)
    requires Chained(base, log, past, store)
    ensures Ascending(log, past, store)
  {
    forall k | 0 <= k < |log|
      ensures past[k].counter + (if log[k].Ours? then 1 else 0) <= Next(past, store, k).counter
    {
      LinkCounts(past[k], log[k], Next(past, store, k));
    }
  }

  lemma {:induction false} CounterGrows(log: seq<Entry>, past: seq<Store>, store: Store, i: nat, j: nat)
    requires Ascending(log, past, store) && i <= j < |log|
    ensures past[i].counter <= past[j].counter
    decreases j
  {
    if i < j {
      CounterGrows(log, past, store, i, j - 1);
      assert log[j - 1].Ours? || log[j - 1].Theirs?;
    }
  }

  lemma NumbersGrow(y: System, base: Store)
    requires Refined(y, base)
    ensures NumbersAscend(y.p.answers, base.counter)
  {
    ChainAscends(base, y.log, y.past, y.store);
    forall i, j | 0 <= i < j < |y.p.answers|
      ensures y.p.answers[i].response.Saved? && y.p.answers[j].response.Saved?
        && base.counter < y.p.answers[i].response.message.id < y.p.answers[j].response.message.id
    {
      var m, m' := y.p.answers[i].response.message, y.p.answers[j].response.message;
      assert IsRow(m, y.log, y.past, y.ats[i]) && IsRow(m', y.log, y.past, y.ats[j]);
      CounterGrows(y.log, y.past, y.store, 0, y.ats[i]);
      IdsAscend(m, m', y.log, y.past, y.store, y.ats[i], y.ats[j]);
    }
  }

  lemma IdsAscend(m: Message, m': Message, log: seq<Entry>, past: seq<Store>, store: Store, at: nat, at': nat)
    requires Ascending(log, past, store) && IsRow(m, log, past, at) && IsRow(m', log, past, at') && at < at'
    ensures m.id == past[at].counter + 1 && m.id < m'.id
  {
    CounterGrows(log, past, store, at + 1, at');
    assert log[at].Ours?;
  }

  // ---------- Without other calls ----------

  function Msgs(rs: seq<Request>): (ms: seq<Message>)
    ensures |ms| == |rs|
    ensures forall i {:trigger ms[i]} {:trigger rs[i]} :: 0 <= i < |rs| ==> ms[i] == rs[i].msg
  {
    seq(|rs|, i requires 0 <= i < |rs| => rs[i].msg)
  }

  ghost predicate OnlyOurs(log: seq<Entry>) {
    forall j :: 0 <= j < |log| ==> log[j].Ours?
  }

  ghost function Clocks(log: seq<Entry>): (cs: seq<Clock>)
    requires OnlyOurs(log)
    ensures |cs| == |log| && forall j :: 0 <= j < |log| ==> cs[j] == log[j].clock
  {
    seq(|log|, j requires 0 <= j < |log| => log[j].clock)
  }

  ghost function LoggedMsgs(log: seq<Entry>): (ms: seq<Message>)
    requires OnlyOurs(log)
    ensures |ms| == |log| && forall j :: 0 <= j < |log| ==> ms[j] == log[j].msg
  {
    seq(|log|, j requires 0 <= j < |log| => log[j].msg)
  }

  lemma {:induction false} OursIsSaveAll(base: Store, log: seq<Entry>)
    requires OnlyOurs(log)
    ensures Direct(base, log) == SaveAll(base, LoggedMsgs(log), Clocks(log))
    decreases |log|
  {
    if log != [] {
      var n := |log| - 1;
      OursIsSaveAll(base, log[..n]);
      assert LoggedMsgs(log)[..n] == LoggedMsgs(log[..n]) && Clocks(log)[..n] == Clocks(log[..n]);
    }
  }

  lemma {:induction false} NoOthers(log: seq<Entry>)
    requires OthersOf(log) == []
    ensures OnlyOurs(log)
    decreases |log|
  {
    if log != [] {
      NoOthers(log[..|log| - 1]);
    }
  }

  lemma {:induction false} AtLeastIndex(received: seq<Request>, log: seq<Entry>, ats: seq<nat>, i: nat)
    requires SavesLogged(received, log, ats) && i < |ats|
    ensures i <= ats[i] < |log|
    decreases i
  {
    if i > 0 {
      AtLeastIndex(received, log, ats, i - 1);
    }
  }

  /** With nothing but own saves in the log, the i-th save is at place i. */
  lemma {:induction false} PlacesAreIndices(received: seq<Request>, log: seq<Entry>, ats: seq<nat>, i: nat)
    requires SavesLogged(received, log, ats) && OnlyOurs(log) && i < |log|
    ensures i < |ats| && ats[i] == i
    decreases i
  {
    var k := log[i].index;
    assert log[i].Ours? && Listed(log, ats, i);
    AtLeastIndex(received, log, ats, k);
    if k < i { PlacesAreIndices(received, log, ats, k); }
  }

  lemma AsManyAsSaved(received: seq<Request>, log: seq<Entry>, ats: seq<nat>)
    requires SavesLogged(received, log, ats) && OnlyOurs(log)
    ensures |ats| == |log| && LoggedMsgs(log) == Msgs(received[..|log|])
  {
    if log != [] { PlacesAreIndices(received, log, ats, |log| - 1); }
    if ats != [] { AtLeastIndex(received, log, ats, |ats| - 1); }
    forall i | 0 <= i < |log| ensures LoggedMsgs(log)[i] == Msgs(received[..|log|])[i] {
      PlacesAreIndices(received, log, ats, i);
    }
  }

  /** When nobody else calls the store: it ends as if SaveMessage had been called once per request, in
      the order of receiving, and the i-th answer is the i-th new row. Read at any other times, the
      clock would have changed the generated timestamps only. */
  lemma BatchingRefinesDirectSaving(base: Store, es: seq<SystemEvent>, clocks: seq<Clock>)
    requires CanRun(Begin(base), es) && OthersIn(es) == []
    requires |clocks| == |Final(Begin(base), es).log|
    ensures var y := Final(Begin(base), es);
      && |y.log| <= |y.p.received| && (y.p.buf == [] ==> |y.log| == |y.p.received|)
      && SavedUndisturbed(y, base) && AnsweredByRows(y, |base.messages|)
      && SameButGenerated(base, Msgs(y.p.received[..|y.log|]), y.store, SaveAll(base, Msgs(y.p.received[..|y.log|]), clocks))
  {
    BatchingIsDirectSaving(base, es);
    UndisturbedIsSaveAll(Final(Begin(base), es), base, clocks);
  }

  ghost predicate SavedUndisturbed(y: System, base: Store) {
    && OnlyOurs(y.log) && |y.log| <= |y.p.received|
    && y.store == SaveAll(base, Msgs(y.p.received[..|y.log|]), Clocks(y.log))
  }

  lemma UndisturbedIsSaveAll(y: System, base: Store, clocks: seq<Clock>)
    requires StoresAreDirect(y, base) && OthersOf(y.log) == [] && |clocks| == |y.log|
    requires SavesLogged(y.p.received, y.log, y.ats) && AnsweredInOrder(y)
    ensures |y.ats| == |y.log| && SavedUndisturbed(y, base) && AnsweredByRows(y, |base.messages|)
    ensures SameButGenerated(base, Msgs(y.p.received[..|y.log|]), y.store, SaveAll(base, Msgs(y.p.received[..|y.log|]), clocks))
  {
    NoOthers(y.log);
    OursIsSaveAll(base, y.log);
    AsManyAsSaved(y.p.received, y.log, y.ats);
    ClocksOnlyReachTimestamps(base, LoggedMsgs(y.log), Clocks(y.log), clocks);
    SaveAllAppends(base, LoggedMsgs(y.log), Clocks(y.log));
    CountersSoFar(y, base);
    AnswersAreRows(y, base);
  }

  /** The i-th answer goes to the i-th request received and is the i-th new row of the store. */
  ghost predicate AnsweredByRows(y: System, offset: nat) {
    && |y.p.answers| <= |y.p.received| && offset + |y.p.answers| <= |y.store.messages|
    && forall i :: 0 <= i < |y.p.answers| ==>
         y.p.answers[i] == Answer(y.p.received[i].id, Saved(y.store.messages[offset + i]))
  }

  lemma AnswersAreRows(y: System, base: Store)
    requires OnlyOurs(y.log) && Appended(base, LoggedMsgs(y.log), Clocks(y.log), y.store)
    requires |y.log| == |y.past| && forall k :: 0 <= k < |y.log| ==> y.past[k].counter == base.counter + k
    requires SavesLogged(y.p.received, y.log, y.ats) && AnsweredInOrder(y)
    ensures AnsweredByRows(y, |base.messages|)
  {
    AsManyAsSaved(y.p.received, y.log, y.ats);
    forall i | 0 <= i < |y.p.answers|
      ensures y.p.answers[i] == Answer(y.p.received[i].id, Saved(y.store.messages[|base.messages| + i]))
    {
      PlacesAreIndices(y.p.received, y.log, y.ats, i);
    }
  }

  lemma CountersSoFar(y: System, base: Store)
    requires StoresAreDirect(y, base) && OnlyOurs(y.log)
    ensures forall k :: 0 <= k < |y.log| ==> y.past[k].counter == base.counter + k
  {
    forall k | 0 <= k < |y.log| ensures y.past[k].counter == base.counter + k {
      OursIsSaveAll(base, y.log[..k]);
      SaveAllSize(base, LoggedMsgs(y.log[..k]), Clocks(y.log[..k]));
    }
  }
}
