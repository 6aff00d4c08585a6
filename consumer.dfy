/**
 * The poll, dispatch and acknowledge loop (`consumer.SQSConsumer`).
 *
 * The queue client is outside the model: a receive call is a function from
 * the request to its response, a delete call a function from the message's
 * position in its batch and the request to the outcome, and the message
 * handler a function from the position and the body to the outcome. Each
 * iteration of `Start` brings its own three functions, so a message that is
 * received again, or two equal bodies in one batch, may fare differently.
 * The goroutines of one batch own their message, only read the
 * consumer, and are all joined before the batch returns, so a batch is
 * modelled as a sequential pass over its messages; the deletes it issues
 * are listed in batch order, which stands for "some order".
 */
module Consumer {
  import opened Wrappers
  import opened Errors
  import opened Strconv
  import Config
  import Handler

  const Two32: int := 0x1_0000_0000

  type Int32 = x: int | -0x8000_0000 <= x < 0x8000_0000

  predicate InInt32(x: int) { -0x8000_0000 <= x < 0x8000_0000 }

  /** Go's `int32(x)`: keep the low 32 bits, read them as two's complement. */
  function ToInt32(x: int): (r: Int32)
    ensures (x - r) % Two32 == 0
    ensures InInt32(x) ==> r == x
  {
    var low := x % Two32;
    assert x == (x / Two32) * Two32 + low;
    if low < 0x8000_0000 then low else low - Two32
  }

  /** The two postconditions of ToInt32 determine its result. */
  lemma ToInt32Unique(x: int, r: Int32)
    requires (x - r) % Two32 == 0
    ensures r == ToInt32(x)
  {
    var t := ToInt32(x);
    var a, b := (x - r) / Two32, (x - t) / Two32;
    assert x - r == a * Two32 && x - t == b * Two32;
    assert r - t == (b - a) * Two32;
  }

  datatype SqsMessage = SqsMessage(messageId: string, body: string, receiptHandle: string)

  datatype ReceiveRequest = ReceiveRequest(
    queueUrl: string,
    maxNumberOfMessages: Int32,
    waitTimeSeconds: Int32,
    visibilityTimeout: Int32,
    attributeNames: seq<string>,
    messageAttributeNames: seq<string>)

  datatype DeleteRequest = DeleteRequest(queueUrl: string, receiptHandle: string)

  datatype ReceiveResponse = ReceiveError(cause: Error) | Received(messages: seq<SqsMessage>)

  type Receiver = ReceiveRequest -> ReceiveResponse
  /** The outcome of handling the body at a given position of the batch. */
  type MessageHandler = (nat, string) -> Outcome
  /** The outcome of the delete call for the message at a given position of the batch. */
  type Deleter = (nat, DeleteRequest) -> Outcome

  /** The effect of one call of `receiveAndProcessMessages`. */
  datatype Iteration = Iteration(
    err: Option<Error>,              // the function's return value
    processed: seq<SqsMessage>,      // messages handed to a goroutine
    deletes: seq<DeleteRequest>,     // delete requests issued
    logged: seq<Error>)              // processing and delete errors, logged and dropped

  /** One look at the context before an iteration of `Start`'s loop. */
  datatype Tick = Cancelled | Live(receive: Receiver, handle: MessageHandler, delete: Deleter)

  datatype Event = Iterated(err: Option<Error>, deletes: seq<DeleteRequest>) | Backoff(seconds: nat)

  /** How `Start` ended: it returned, or the finite script ran out first. */
  datatype Stop = Returned(err: Option<Error>) | ScriptEnded

  datatype Trace = Trace(stop: Stop, events: seq<Event>)

  const BackoffSeconds: nat := 5

  datatype SqsConsumer = SqsConsumer(
    queueUrl: string,
    maxMessages: Int32,
    waitTimeSeconds: Int32,
    visibilityTimeout: Int32)
  {
    /** The request `receiveAndProcessMessages` sends. */
    function ReceiveParams(): (r: ReceiveRequest)
      ensures r.queueUrl == queueUrl && r.maxNumberOfMessages == maxMessages
      ensures r.waitTimeSeconds == waitTimeSeconds && r.visibilityTimeout == visibilityTimeout
      ensures r.attributeNames == ["All"] && r.messageAttributeNames == ["All"]
    {
      ReceiveRequest(queueUrl, maxMessages, waitTimeSeconds, visibilityTimeout, ["All"], ["All"])
    }

    /** The request `deleteMessage` sends for `m`. */
    function DeleteParams(m: SqsMessage): (r: DeleteRequest)
      ensures r.queueUrl == queueUrl && r.receiptHandle == m.receiptHandle
    {
      DeleteRequest(queueUrl, m.receiptHandle)
    }

    /** `processMessage`: the handler's outcome, its error wrapped with the message id. */
    function ProcessMessage(handle: MessageHandler, i: nat, m: SqsMessage): (r: Outcome)
      ensures r.Ok? <==> handle(i, m.body).Ok?
      ensures r.Fail? ==> r.err == ProcessFailed(m.messageId, handle(i, m.body).err)
    {
      match handle(i, m.body)
      case Ok => Ok
      case Fail(e) => Fail(ProcessFailed(m.messageId, e))
    }

    /** `deleteMessage`: the delete call's outcome, its error wrapped. */
    function DeleteMessage(delete: Deleter, i: nat, m: SqsMessage): (r: Outcome)
      ensures r.Ok? <==> delete(i, DeleteParams(m)).Ok?
      ensures r.Fail? ==> r.err == DeleteFailed(delete(i, DeleteParams(m)).err)
    {
      match delete(i, DeleteParams(m))
      case Ok => Ok
      case Fail(e) => Fail(DeleteFailed(e))
    }

    /** The delete requests issued for a batch: one per message whose processing succeeded. */
    function Acknowledged(handle: MessageHandler, msgs: seq<SqsMessage>): (r: seq<DeleteRequest>)
      ensures |r| <= |msgs|
      ensures forall d :: d in r ==> d.queueUrl == queueUrl
    {
      if msgs == [] then []
      else
        var n := |msgs| - 1;
        Acknowledged(handle, msgs[..n])
          + if ProcessMessage(handle, n, msgs[n]).Ok? then [DeleteParams(msgs[n])] else []
    }

    /** The errors the goroutines of a batch log instead of returning. */
    function Swallowed(handle: MessageHandler, delete: Deleter, msgs: seq<SqsMessage>): (r: seq<Error>)
      ensures |r| <= |msgs|
      ensures forall e :: e in r ==> e.ProcessFailed? || e.DeleteFailed?
    {
      if msgs == [] then []
      else
        var n := |msgs| - 1;
        var processing := ProcessMessage(handle, n, msgs[n]);
        var deleting := DeleteMessage(delete, n, msgs[n]);
        Swallowed(handle, delete, msgs[..n])
          + if processing.Fail? then [processing.err]
            else if deleting.Fail? then [deleting.err]
            else []
    }

    /** What one call of `receiveAndProcessMessages` does, given the client's and handler's answers. */
    function Iterate(receive: Receiver, handle: MessageHandler, delete: Deleter): (r: Iteration)
      ensures r.err.Some? <==> receive(ReceiveParams()).ReceiveError?
      ensures r.err.Some? ==> r.err.value.ReceiveFailed? && r.processed == [] && r.deletes == [] && r.logged == []
      ensures r.err.None? ==> r.processed == receive(ReceiveParams()).messages
      ensures |r.deletes| <= |r.processed| && |r.logged| <= |r.processed|
    {
      match receive(ReceiveParams())
      case ReceiveError(e) => Iteration(Some(ReceiveFailed(e)), [], [], [])
      case Received(msgs) => Iteration(None, msgs, Acknowledged(handle, msgs), Swallowed(handle, delete, msgs))
    }

    /** `receiveAndProcessMessages`. */
    method ReceiveAndProcessMessages(receive: Receiver, handle: MessageHandler, delete: Deleter)
      returns (err: Option<Error>, processed: seq<SqsMessage>, deletes: seq<DeleteRequest>, logged: seq<Error>)
      ensures Iteration(err, processed, deletes, logged) == Iterate(receive, handle, delete)
      ensures receive(ReceiveParams()).ReceiveError? ==>
        err == Some(ReceiveFailed(receive(ReceiveParams()).cause)) && processed == [] && deletes == []
      ensures receive(ReceiveParams()).Received? ==>
        err == None && processed == receive(ReceiveParams()).messages
    {
      var response := receive(ReceiveParams());
      if response.ReceiveError? {
        return Some(ReceiveFailed(response.cause)), [], [], [];
      }
      var msgs := response.messages;
      if |msgs| == 0 {
        return None, [], [], [];
      }
      processed, deletes, logged := [], [], [];
      var i := 0;
      while i < |msgs|
        invariant 0 <= i <= |msgs|
        invariant processed == msgs[..i]
        invariant deletes == Acknowledged(handle, msgs[..i])
        invariant logged == Swallowed(handle, delete, msgs[..i])
      {
        var m := msgs[i];
        assert msgs[..i + 1][..i] == msgs[..i];
        processed := processed + [m];
        var outcome := ProcessMessage(handle, i, m);
        if outcome.Fail? {
          logged := logged + [outcome.err];
        } else {
          deletes := deletes + [DeleteParams(m)];
          var deleted := DeleteMessage(delete, i, m);
          if deleted.Fail? {
            logged := logged + [deleted.err];
          }
        }
        i := i + 1;
      }
      assert msgs[..|msgs|] == msgs;
      err := None;
    }

    /** `Start` run against a finite script of context checks. */
    function StartTrace(script: seq<Tick>): (r: Trace)
      ensures r.stop.Returned? ==> r.stop.err == None
      ensures |r.events| <= 2 * |script|
      decreases |script|
    {
      if script == [] then Trace(ScriptEnded, [])
      else
        match script[0]
        case Cancelled => Trace(Returned(None), [])
        case Live(receive, handle, delete) =>
          var rest := StartTrace(script[1..]);
          Trace(rest.stop, IterationEvents(Iterate(receive, handle, delete)) + rest.events)
    }

    /** `Start`: poll until the context is cancelled, backing off after a failed iteration. */
    method Start(script: seq<Tick>)
      returns (stop: Stop, events: seq<Event>)
      ensures Trace(stop, events) == StartTrace(script)
      ensures stop.Returned? ==> stop.err == None
    {
      events := [];
      var i := 0;
      while i < |script|
        invariant 0 <= i <= |script|
        invariant StartTrace(script) == Resume(events, StartTrace(script[i..]))
      {
        if script[i].Cancelled? {
          assert script[i..][0] == script[i];
          return Returned(None), events;
        }
        var receive, handle, delete := script[i].receive, script[i].handle, script[i].delete;
        var err, processed, deletes, logged := ReceiveAndProcessMessages(receive, handle, delete);
        ghost var before := events;
        ghost var step := IterationEvents(Iterate(receive, handle, delete));
        events := events + [Iterated(err, deletes)];
        if err.Some? {
          events := events + [Backoff(BackoffSeconds)];
        }
        assert events == before + step;
        StartTraceStep(this, script, i);
        ResumeStep(before, step, StartTrace(script[i + 1..]));
        i := i + 1;
      }
      stop := ScriptEnded;
    }
  }

  /** One step of the loop of `Start`, unfolded. */
  lemma StartTraceStep(c: SqsConsumer, script: seq<Tick>, i: int)
    requires 0 <= i < |script| && script[i].Live?
    ensures c.StartTrace(script[i..])
      == Resume(IterationEvents(c.Iterate(script[i].receive, script[i].handle, script[i].delete)), c.StartTrace(script[i + 1..]))
  {
    assert script[i..][0] == script[i];
    assert script[i..][1..] == script[i + 1..];
  }

  /** A trace preceded by the events already recorded. */
  function Resume(recorded: seq<Event>, t: Trace): Trace {
    Trace(t.stop, recorded + t.events)
  }

  lemma ResumeStep(recorded: seq<Event>, step: seq<Event>, t: Trace)
    ensures Resume(recorded, Resume(step, t)) == Resume(recorded + step, t)
  {
    assert recorded + (step + t.events) == (recorded + step) + t.events;
  }

  /** The events one iteration of `Start` records: the iteration, then a backoff if it failed. */
  function IterationEvents(it: Iteration): seq<Event> {
    [Iterated(it.err, it.deletes)] + if it.err.Some? then [Backoff(BackoffSeconds)] else []
  }

  /** `NewSQSConsumer`, past the SDK client construction: the fields copied from the configuration. */
  function NewSQSConsumer(cfg: Config.Config): (c: SqsConsumer)
    ensures c.queueUrl == cfg.queueURL
    ensures InInt32(cfg.maxMessages) ==> c.maxMessages == cfg.maxMessages
    ensures InInt32(cfg.waitTimeSeconds) ==> c.waitTimeSeconds == cfg.waitTimeSeconds
    ensures InInt32(cfg.visibilityTimeout) ==> c.visibilityTimeout == cfg.visibilityTimeout
    ensures (cfg.maxMessages - c.maxMessages) % Two32 == 0
    ensures (cfg.waitTimeSeconds - c.waitTimeSeconds) % Two32 == 0
    ensures (cfg.visibilityTimeout - c.visibilityTimeout) % Two32 == 0
  {
    SqsConsumer(
      cfg.queueURL,
      ToInt32(cfg.maxMessages),
      ToInt32(cfg.waitTimeSeconds),
      ToInt32(cfg.visibilityTimeout))
  }

  /** The real handler paths: `HandleMessage` with a given JSON decoder. */
  function StubHandler(decode: Handler.Decoder): MessageHandler {
    (i, body) => Handler.HandleMessage(decode, body).outcome
  }

  /** The positions in a batch whose processing fails. */
  function FailedAt(handle: MessageHandler, msgs: seq<SqsMessage>): set<int> {
    set i | 0 <= i < |msgs| && handle(i, msgs[i].body).Fail?
  }

  /** One delete is issued per message that did not fail. */
  lemma {:induction false} AcknowledgedCount(c: SqsConsumer, handle: MessageHandler, msgs: seq<SqsMessage>)
    ensures |c.Acknowledged(handle, msgs)| == |msgs| - |FailedAt(handle, msgs)|
  {
    if msgs != [] {
      var n := |msgs| - 1;
      var prefix := msgs[..n];
      AcknowledgedCount(c, handle, prefix);
      assert forall i :: 0 <= i < n ==> msgs[i] == prefix[i];
      if handle(n, msgs[n].body).Fail? {
        assert FailedAt(handle, msgs) == FailedAt(handle, prefix) + {n};
      } else {
        assert FailedAt(handle, msgs) == FailedAt(handle, prefix);
      }
    }
  }

  /** A batch of N messages of which exactly one fails issues N - 1 deletes. */
  lemma OneFailureLeavesOne(c: SqsConsumer, handle: MessageHandler, msgs: seq<SqsMessage>, k: int)
    requires 0 <= k < |msgs| && handle(k, msgs[k].body).Fail?
    requires forall i :: 0 <= i < |msgs| && i != k ==> handle(i, msgs[i].body).Ok?
    ensures |c.Acknowledged(handle, msgs)| == |msgs| - 1
  {
    assert FailedAt(handle, msgs) == {k};
    AcknowledgedCount(c, handle, msgs);
  }

  /**
   * Deletes go exactly to messages whose processing succeeded, each with the
   * consumer's queue URL and that message's receipt handle.
   */
  lemma {:induction false} AcknowledgedExactly(c: SqsConsumer, handle: MessageHandler, msgs: seq<SqsMessage>)
    ensures forall i :: 0 <= i < |msgs| && handle(i, msgs[i].body).Ok? ==> c.DeleteParams(msgs[i]) in c.Acknowledged(handle, msgs)
    ensures forall d :: d in c.Acknowledged(handle, msgs) ==>
      d.queueUrl == c.queueUrl &&
      exists i :: 0 <= i < |msgs| && handle(i, msgs[i].body).Ok? && msgs[i].receiptHandle == d.receiptHandle
  {
    if msgs != [] {
      var n := |msgs| - 1;
      var prefix := msgs[..n];
      AcknowledgedExactly(c, handle, prefix);
      forall d | d in c.Acknowledged(handle, msgs)
        ensures d.queueUrl == c.queueUrl
        ensures exists i :: 0 <= i < |msgs| && handle(i, msgs[i].body).Ok? && msgs[i].receiptHandle == d.receiptHandle
      {
        if d in c.Acknowledged(handle, prefix) {
          var i :| 0 <= i < |prefix| && handle(i, prefix[i].body).Ok? && prefix[i].receiptHandle == d.receiptHandle;
          assert msgs[i] == prefix[i];
        } else {
          assert handle(n, msgs[n].body).Ok? && d == c.DeleteParams(msgs[n]);
        }
      }
      forall i | 0 <= i < |msgs| && handle(i, msgs[i].body).Ok?
        ensures c.DeleteParams(msgs[i]) in c.Acknowledged(handle, msgs)
      {
        if i < n {
          assert msgs[i] == prefix[i];
        }
      }
    }
  }

  predicate DistinctReceipts(msgs: seq<SqsMessage>) {
    forall i, j :: 0 <= i < j < |msgs| ==> msgs[i].receiptHandle != msgs[j].receiptHandle
  }

  /** With distinct receipt handles, a message is deleted if and only if its processing succeeded. */
  lemma DeletedIffProcessed(c: SqsConsumer, handle: MessageHandler, msgs: seq<SqsMessage>, k: int)
    requires DistinctReceipts(msgs) && 0 <= k < |msgs|
    ensures c.DeleteParams(msgs[k]) in c.Acknowledged(handle, msgs) <==> handle(k, msgs[k].body).Ok?
  {
    AcknowledgedExactly(c, handle, msgs);
    if c.DeleteParams(msgs[k]) in c.Acknowledged(handle, msgs) {
      var i :| 0 <= i < |msgs| && handle(i, msgs[i].body).Ok? && msgs[i].receiptHandle == msgs[k].receiptHandle;
      assert i == k;
    }
  }

  /** When every message succeeds, every message is deleted, in batch order. */
  lemma {:induction false} AllSucceedAllDeleted(c: SqsConsumer, handle: MessageHandler, msgs: seq<SqsMessage>)
    requires forall i :: 0 <= i < |msgs| ==> handle(i, msgs[i].body).Ok?
    ensures |c.Acknowledged(handle, msgs)| == |msgs|
    ensures forall i :: 0 <= i < |msgs| ==> c.Acknowledged(handle, msgs)[i] == c.DeleteParams(msgs[i])
  {
    if msgs != [] {
      var n := |msgs| - 1;
      AllSucceedAllDeleted(c, handle, msgs[..n]);
    }
  }

  /** With the current handlers, which never fail, every received message is deleted. */
  lemma StubHandlersDeleteAll(c: SqsConsumer, decode: Handler.Decoder, msgs: seq<SqsMessage>)
    ensures |c.Acknowledged(StubHandler(decode), msgs)| == |msgs|
    ensures forall i :: 0 <= i < |msgs| ==> c.Acknowledged(StubHandler(decode), msgs)[i] == c.DeleteParams(msgs[i])
  {
    AllSucceedAllDeleted(c, StubHandler(decode), msgs);
  }

  /**
   * A batch of a task envelope and a body that is not JSON: both take their
   * path, both succeed, both are deleted with their own receipt handle.
   */
  lemma TwoMessageBatch(c: SqsConsumer, delete: Deleter)
    ensures
      var task := Handler.Message("1", "task", Handler.Object([]), "2024-01-01T00:00:00Z");
      var body1 := "{\"id\":\"1\",\"type\":\"task\",\"data\":{},\"timestamp\":\"2024-01-01T00:00:00Z\"}";
      var decode: Handler.Decoder := b => if b == body1 then Some(task) else None;
      var msgs := [SqsMessage("1", body1, "receipt-1"), SqsMessage("2", "bogus-text", "receipt-2")];
      var it := c.Iterate(_ => Received(msgs), StubHandler(decode), delete);
      && Handler.HandleMessage(decode, body1).route == Handler.Task
      && Handler.HandleMessage(decode, "bogus-text").route == Handler.Raw
      && it.err == None
      && it.processed == msgs
      && it.deletes == [DeleteRequest(c.queueUrl, "receipt-1"), DeleteRequest(c.queueUrl, "receipt-2")]
  {
    var task := Handler.Message("1", "task", Handler.Object([]), "2024-01-01T00:00:00Z");
    var body1 := "{\"id\":\"1\",\"type\":\"task\",\"data\":{},\"timestamp\":\"2024-01-01T00:00:00Z\"}";
    var decode: Handler.Decoder := b => if b == body1 then Some(task) else None;
    var msgs := [SqsMessage("1", body1, "receipt-1"), SqsMessage("2", "bogus-text", "receipt-2")];
    StubHandlersDeleteAll(c, decode, msgs);
  }

  predicate FailedIteration(e: Event) { e.Iterated? && e.err.Some? }

  /**
   * The backoff discipline of a trace: a backoff of 5 follows every failed
   * iteration, and only a failed iteration; the trace starts with an iteration.
   */
  predicate Paced(events: seq<Event>) {
    && (events == [] || events[0].Iterated?)
    && (forall k :: 0 < k < |events| ==> (events[k].Backoff? <==> FailedIteration(events[k - 1])))
    && (forall k :: 0 <= k < |events| && FailedIteration(events[k]) ==>
          k + 1 < |events| && events[k + 1] == Backoff(BackoffSeconds))
  }

  lemma PacedPrepend(it: Iteration, rest: seq<Event>)
    requires Paced(rest)
    ensures Paced(IterationEvents(it) + rest)
  {
    var e := IterationEvents(it);
    var all := e + rest;
    forall k | 0 < k < |all|
      ensures all[k].Backoff? <==> FailedIteration(all[k - 1])
    {
      if k >= |e| {
        assert all[k] == rest[k - |e|];
        if k > |e| {
          assert all[k - 1] == rest[k - 1 - |e|];
        }
      }
    }
    forall k | 0 <= k < |all| && FailedIteration(all[k])
      ensures k + 1 < |all| && all[k + 1] == Backoff(BackoffSeconds)
    {
      if k >= |e| {
        assert all[k] == rest[k - |e|];
      }
    }
  }

  /** Every trace of `Start` obeys the backoff discipline. */
  lemma {:induction false} StartIsPaced(c: SqsConsumer, script: seq<Tick>)
    ensures Paced(c.StartTrace(script).events)
    decreases |script|
  {
    if script != [] && script[0].Live? {
      StartIsPaced(c, script[1..]);
      PacedPrepend(c.Iterate(script[0].receive, script[0].handle, script[0].delete), c.StartTrace(script[1..]).events);
    }
  }

  /** `Start` returns, and then returns nil, exactly when the script contains a cancellation. */
  lemma {:induction false} StartReturnsOnlyOnCancel(c: SqsConsumer, script: seq<Tick>)
    ensures c.StartTrace(script).stop.Returned? <==> exists i :: 0 <= i < |script| && script[i].Cancelled?
    ensures c.StartTrace(script).stop.Returned? ==> c.StartTrace(script).stop.err == None
    decreases |script|
  {
    if script != [] && script[0].Live? {
      StartReturnsOnlyOnCancel(c, script[1..]);
      assert forall i :: 0 < i < |script| ==> script[i] == script[1..][i - 1];
    }
  }

  /** The number of ticks before the first cancellation. */
  function FirstCancel(script: seq<Tick>): (n: nat)
    ensures n <= |script|
    ensures forall i :: 0 <= i < n ==> script[i].Live?
    ensures n < |script| ==> script[n].Cancelled?
  {
    if script == [] || script[0].Cancelled? then 0 else 1 + FirstCancel(script[1..])
  }

  function CountIterations(events: seq<Event>): nat {
    if events == [] then 0 else (if events[0].Iterated? then 1 else 0) + CountIterations(events[1..])
  }

  lemma {:induction false} CountIterationsAppend(a: seq<Event>, b: seq<Event>)
    ensures CountIterations(a + b) == CountIterations(a) + CountIterations(b)
  {
    if a == [] {
      assert a + b == b;
    } else {
      assert (a + b)[1..] == a[1..] + b;
      CountIterationsAppend(a[1..], b);
    }
  }

  /**
   * Cancellation is observed before each iteration: `Start` runs one
   * iteration per tick before the first cancellation, and none after it.
   */
  lemma {:induction false} IterationsBeforeCancel(c: SqsConsumer, script: seq<Tick>)
    ensures CountIterations(c.StartTrace(script).events) == FirstCancel(script)
    decreases |script|
  {
    if script != [] && script[0].Live? {
      var it := c.Iterate(script[0].receive, script[0].handle, script[0].delete);
      IterationsBeforeCancel(c, script[1..]);
      CountIterationsAppend(IterationEvents(it), c.StartTrace(script[1..]).events);
      assert CountIterations(IterationEvents(it)) == 1 by {
        if it.err.Some? {
          assert IterationEvents(it)[1..] == [Backoff(BackoffSeconds)];
        }
      }
    }
  }

  /** With every configured value in the int32 range, the receive request carries them unchanged. */
  lemma ReceiveRequestFromConfig(cfg: Config.Config)
    requires InInt32(cfg.maxMessages) && InInt32(cfg.waitTimeSeconds) && InInt32(cfg.visibilityTimeout)
    ensures NewSQSConsumer(cfg).ReceiveParams()
      == ReceiveRequest(cfg.queueURL, cfg.maxMessages, cfg.waitTimeSeconds, cfg.visibilityTimeout, ["All"], ["All"])
  {
  }

  /** An environment naming only the queue yields a receive request with the defaults 10, 20 and 30. */
  lemma DefaultReceiveRequest(env: Config.Env)
    requires Config.QueueUrlVar in env && env[Config.QueueUrlVar] != ""
    requires Config.WaitTimeVar !in env && Config.MaxMessagesVar !in env && Config.VisibilityVar !in env
    ensures NewSQSConsumer(Config.Load(env).value).ReceiveParams()
      == ReceiveRequest(env[Config.QueueUrlVar], 10, 20, 30, ["All"], ["All"])
  {
  }

  /** Values outside the int32 range wrap: 2^32 + 10 becomes 10 and 2^31 becomes -2^31. */
  lemma NarrowingWraps()
    ensures ToInt32(Two32 + 10) == 10
    ensures ToInt32(0x8000_0000) == -0x8000_0000
    ensures ToInt32(-1) == -1
  {
  }
}
