/** The capped response capture of body/response-body-logging.ts.

    `body` is what the delegate delivers up to its first fault. Each method is one step between two awaits, so
    `Run` interleaves drain turns, reads, snapshots, tail pulls and closes in any order. */
module ResponseCaptures {
  import opened Wrappers
  import opened Octets
  import opened Parts

  /** One answer of the delegate's reader. When the answers run out the stream is done; a failed stream stays failed. */
  datatype Answer = Chunk(bytes: seq<Byte>) | Failed

  datatype CaptureError = ContractViolation | StreamFailed | Detached | Consumed | Closed

  /** The bytes before the first fault. */
  function Body(pending: seq<Answer>): seq<Byte> {
    if pending == [] || pending[0].Failed? || pending[0].bytes == [] then []
    else pending[0].bytes + Body(pending[1..])
  }

  predicate IsFault(fault: Option<CaptureError>) {
    fault == None || fault == Some(StreamFailed) || fault == Some(ContractViolation)
  }

  /** The first fault: a failed read, or a chunk without bytes. */
  function Fault(pending: seq<Answer>): (fault: Option<CaptureError>)
    ensures IsFault(fault)
  {
    if pending == [] then None
    else if pending[0].Failed? then Some(StreamFailed)
    else if pending[0].bytes == [] then Some(ContractViolation)
    else Fault(pending[1..])
  }

  datatype Regime = Undrained | Fits | Exceeds

  datatype Drain = NotStarted | Running | Settled(outcome: Option<CaptureError>)

  datatype TailState = Live | Ended | Errored(error: CaptureError) | Cancelled

  /** The variables of the tail stream's closure. */
  datatype Tail = Tail(prefixSent: bool, staged: Option<seq<Byte>>, state: TailState)

  datatype Served = CapturedView(bytes: seq<Byte>) | TailStream

  datatype Pulled = Delivered(bytes: seq<Byte>) | EndOfTail | TailError(error: CaptureError)

  datatype Op = OpenRead | DrainOp | ResumeOp | SnapshotOp | ErrorOp | PullOp | CancelOp | CloseOp

  datatype Event =
    | Nothing
    | Read(result: Result<Served, CaptureError>)
    | Snapshot(bytes: seq<Byte>)
    | Reported(failure: Option<CaptureError>)
    | Pull(pulled: Pulled)

  function BytesOf(s: Option<seq<Byte>>): seq<Byte> {
    if s.Some? then s.value else []
  }

  /** The bytes the tail handed out in a run. */
  function TailBytes(log: seq<Event>): seq<Byte> {
    if log == [] then []
    else TailBytes(log[..|log| - 1])
         + (var e := log[|log| - 1]; if e.Pull? && e.pulled.Delivered? then e.pulled.bytes else [])
  }

  /** How often a run handed the tail out. */
  function TailsHanded(log: seq<Event>): nat {
    if log == [] then 0
    else TailsHanded(log[..|log| - 1]) + if log[|log| - 1] == Read(Ok(TailStream)) then 1 else 0
  }

  class LoggedResponse {
    const cap: nat
    const declaredLength: int
    var pending: seq<Answer>
    var captured: seq<Byte>
    var regime: Regime
    var staged: Option<seq<Byte>>
    var tailConsumed: bool
    var tail: Tail
    var failure: Option<CaptureError>
    var closed: bool
    var started: Drain
    var cancels: nat

    ghost const body: seq<Byte>
    ghost const fault: Option<CaptureError>
    ghost var delivered: seq<Byte>

    /** What the tail has still to hand out before it reads on. */
    function TailRest(): seq<Byte>
      reads this
    {
      (if tail.prefixSent then [] else captured) + BytesOf(tail.staged)
    }

    ghost predicate UndrainedOk()
      reads this
    {
      && !tailConsumed && staged.None? && delivered == []
      && (if started.Settled? then started.outcome.Some? && failure == started.outcome == fault && captured == body
          else captured + Body(pending) == body && Fault(pending) == fault && failure.None?)
      && (started.Running? ==> !closed)
    }

    ghost predicate FitsOk()
      reads this
    {
      && captured == body && fault.None? && failure.None? && closed
      && started == Settled(None) && !tailConsumed && delivered == []
    }

    ghost predicate ExceedsOk()
      reads this
    {
      && started == Settled(None) && |captured| == cap && staged.Some? && |body| > cap && captured <= body
      && (if !tailConsumed then captured + staged.value + Body(pending) == body && Fault(pending) == fault && delivered == []
          else match tail.state
               case Live => delivered + TailRest() + Body(pending) == body && Fault(pending) == fault
               case Ended => delivered == body && fault.None? && closed
               case Errored(error) => delivered <= body && (error != Detached ==> fault == Some(error) && delivered == body)
               case Cancelled => delivered <= body)
      && failure == if tailConsumed && tail.state == Errored(ContractViolation) then Some(ContractViolation) else None
    }

    ghost predicate Valid()
      reads this
    {
      && |captured| <= cap && captured <= body && IsFault(fault)
      && cancels == (if closed then 1 else 0)
      && match regime case Undrained => UndrainedOk() case Fits => FitsOk() case Exceeds => ExceedsOk()
    }

    constructor (pending: seq<Answer>, cap: nat, declaredLength: int)
      ensures Valid() && this.cap == cap && this.declaredLength == declaredLength
      ensures body == Body(pending) && fault == Fault(pending)
      ensures this.pending == pending && started == NotStarted && !closed
    {
      this.pending, this.cap, this.declaredLength := pending, cap, declaredLength;
      captured, regime, staged, tailConsumed, tail := [], Undrained, None, false, Tail(false, None, Live);
      failure, closed, started, cancels := None, false, NotStarted, 0;
      body, fault, delivered := Body(pending), Fault(pending), [];
    }

    /** A settled drain chose its regime by the body alone, however the delegate chunked it. */
    lemma SettledExactly()
      requires Valid() && started.Settled?
      ensures regime.Exceeds? <==> |body| > cap
      ensures regime.Fits? <==> |body| <= cap && fault.None?
      ensures failure == fault || regime.Exceeds?
      ensures captured == if |body| > cap then body[..cap] else body
    {
    }

    /** What `error()` returns; asking starts no drain. */
    function Error(): (e: Option<CaptureError>)
      requires Valid()
      reads this
      ensures e.Some? ==> e == fault
    {
      failure
    }

    /** A fault met in the drain is reported. One met in the tail is reported exactly when it is a chunk without bytes: a
        read of the delegate that fails there reaches whoever reads the tail, but never `error()`. */
    lemma TailFaultReportedExactly()
      requires Valid() && tailConsumed && tail.state.Errored? && tail.state.error != Detached
      ensures fault.Some? && (Error() == fault <==> fault == Some(ContractViolation))
    {
    }

    /** Released and cancelled once, however often and from wherever it is asked for. */
    method CloseDelegate()
      modifies this`closed, this`cancels
      ensures closed && cancels == if old(closed) then old(cancels) else old(cancels) + 1
    {
      if closed { return; }
      closed := true;
      cancels := cancels + 1;
    }

    method StartDrain()
      requires Valid()
      modifies this`started
      ensures Valid()
      ensures started == if old(started).NotStarted? && !closed then Running else old(started)
    {
      if closed && started.NotStarted? { return; }
      if started.NotStarted? { started := Running; }
    }

    /** One turn of the drain loop: one answer of the delegate. */
    method DrainTurn()
      requires Valid() && started.Running?
      modifies this
      ensures Valid() && started != NotStarted && tailConsumed == old(tailConsumed) && delivered == old(delivered)
      ensures old(captured) <= captured
      ensures started.Running? ==> |pending| < |old(pending)| && regime.Undrained? && !closed
      ensures started.Settled? ==> (closed <==> regime.Fits?)
    {
      if pending == [] {
        regime := Fits;
        CloseDelegate();
        started := Settled(None);
        return;
      }
      var answer := pending[0];
      if answer.Failed? {
        failure := Some(StreamFailed);
        started := Settled(failure);
        return;
      }
      pending := pending[1..];
      var value := answer.bytes;
      if value == [] {
        failure := Some(ContractViolation);
        started := Settled(failure);
      } else if |captured| + |value| <= cap {
        assert captured + (value + Body(pending)) == captured + value + Body(pending);
        captured := captured + value;
      } else {
        var room := cap - |captured|;
        assert captured + (value + Body(pending)) == captured + value[..room] + value[room..] + Body(pending);
        captured := captured + value[..room];
        staged := Some(value[room..]);
        regime := Exceeds;
        started := Settled(None);
      }
    }

    /** The whole loop: what one awaited drain leaves behind. */
    method DrainOnce()
      requires Valid() && started.Running?
      modifies this
      ensures Valid() && started.Settled? && !tailConsumed && delivered == []
      ensures closed <==> regime.Fits?
    {
      while started.Running?
        invariant Valid() && !started.NotStarted? && !tailConsumed && delivered == []
        invariant started.Running? ==> regime.Undrained? && !closed
        invariant started.Settled? ==> (closed <==> regime.Fits?)
        decreases if started.Running? then 1 + |pending| else 0
      {
        DrainTurn();
      }
    }

    /** What `read` does once the drain it awaited has settled, or was never to start. */
    method ResumeRead() returns (r: Result<Served, CaptureError>)
      requires Valid() && (started.Settled? || (started.NotStarted? && closed))
      modifies this`tailConsumed, this`tail
      ensures Valid()
      ensures r == if started.Settled? && started.outcome.Some? then Err(started.outcome.value)
                   else if regime.Fits? then Ok(CapturedView(body))
                   else if old(tailConsumed) then Err(Consumed)
                   else if closed then Err(Closed)
                   else Ok(TailStream)
      ensures tailConsumed == (old(tailConsumed) || r == Ok(TailStream))
      ensures r == Ok(TailStream) ==> regime.Exceeds? && tail.state.Live?
      ensures r != Ok(TailStream) ==> tail == old(tail)
    {
      if started.Settled? && started.outcome.Some? { return Err(started.outcome.value); }
      if regime == Fits { return Ok(CapturedView(captured)); }
      if tailConsumed { return Err(Consumed); }
      if closed { return Err(Closed); }
      assert [] + captured + staged.value + Body(pending) == captured + staged.value + Body(pending);
      tailConsumed := true;
      tail := Tail(false, staged, Live);
      assert delivered + (captured + staged.value) + Body(pending) == captured + staged.value + Body(pending);
      return Ok(TailStream);
    }

    /** Starts a drain nobody waits for, and shows what there is so far. */
    method TakeSnapshot() returns (bytes: seq<Byte>)
      requires Valid()
      modifies this`started
      ensures Valid() && bytes == captured && bytes <= body && |bytes| <= cap
      ensures started == if old(started).NotStarted? && !closed then Running else old(started)
    {
      StartDrain();
      return captured;
    }

    /** The captured size once all of the body is captured, else the declared length. */
    function ContentLength(): (n: int)
      requires Valid()
      reads this
      ensures regime.Fits? ==> n == |body|
      ensures !regime.Fits? ==> n == declaredLength
    {
      if regime == Fits then |captured| else declaredLength
    }

    /** Pulls the tail still has in it. */
    function Left(): nat
      reads this
    {
      (if tail.prefixSent then 0 else 1) + (if tail.staged.Some? then 1 else 0) + |pending|
    }

    /** What a pull hands out goes onto `delivered`; an end means all of the body, an error a closed or faulty delegate. */
    twostate predicate PullOutcome(r: Pulled)
      reads this
    {
      && delivered == old(delivered) + (if r.Delivered? then r.bytes else [])
      && match r
         case Delivered(bytes) => bytes != [] && tail.state.Live? && Left() < old(Left()) && closed == old(closed)
         case EndOfTail => tail.state.Ended? && delivered == body && fault.None? && closed
         case TailError(error) =>
           && tail.state == Errored(error) && closed == old(closed)
           && if closed then error == Detached else fault == Some(error) && delivered == body
    }

    /** One pull of the tail: the prefix, then the staged overflow, then one answer of the delegate a time. */
    method TailPull() returns (r: Pulled)
      requires Valid() && tailConsumed && tail.state.Live?
      modifies this`tail, this`delivered, this`pending, this`failure, this`closed, this`cancels
      ensures Valid() && PullOutcome(r)
    {
      if !tail.prefixSent {
        SendPrefix();
        if captured != [] { return Delivered(captured); }
      }
      r := PullStaged();
    }

    method PullStaged() returns (r: Pulled)
      requires Valid() && tailConsumed && tail.state.Live? && tail.prefixSent
      modifies this`tail, this`delivered, this`pending, this`failure, this`closed, this`cancels
      ensures Valid() && PullOutcome(r)
    {
      if tail.staged.Some? {
        var chunk := tail.staged.value;
        SendStaged();
        if chunk != [] { return Delivered(chunk); }
      }
      r := PullOn();
    }

    method SendPrefix()
      requires Valid() && tailConsumed && tail.state.Live? && !tail.prefixSent
      modifies this`tail, this`delivered
      ensures Valid() && tail == old(tail).(prefixSent := true) && delivered == old(delivered) + captured
    {
      assert delivered + (captured + BytesOf(tail.staged)) + Body(pending)
             == delivered + captured + ([] + BytesOf(tail.staged)) + Body(pending);
      tail := tail.(prefixSent := true);
      delivered := delivered + captured;
    }

    method SendStaged()
      requires Valid() && tailConsumed && tail.state.Live? && tail.prefixSent && tail.staged.Some?
      modifies this`tail, this`delivered
      ensures Valid() && tail == old(tail).(staged := None) && delivered == old(delivered) + old(tail.staged.value)
    {
      assert delivered + ([] + tail.staged.value) + Body(pending)
             == delivered + tail.staged.value + ([] + []) + Body(pending);
      delivered := delivered + tail.staged.value;
      tail := tail.(staged := None);
    }

    /** The pull that reaches the delegate. */
    method PullOn() returns (r: Pulled)
      requires Valid() && tailConsumed && tail.state.Live? && tail.prefixSent && tail.staged.None?
      modifies this`tail, this`delivered, this`pending, this`failure, this`closed, this`cancels
      ensures Valid() && PullOutcome(r)
    {
      assert delivered + Body(pending) == body;
      if closed {
        tail := tail.(state := Errored(Detached));
        return TailError(Detached);
      }
      if pending == [] {
        CloseDelegate();
        tail := tail.(state := Ended);
        return EndOfTail;
      }
      if pending[0].Failed? {
        tail := tail.(state := Errored(StreamFailed));
        return TailError(StreamFailed);
      }
      var bytes := TakeChunk();
      if bytes == [] {
        failure := Some(ContractViolation);
        tail := tail.(state := Errored(ContractViolation));
        return TailError(ContractViolation);
      }
      return Delivered(bytes);
    }

    /** Takes the delegate's next chunk; one without bytes is the fault. */
    method TakeChunk() returns (bytes: seq<Byte>)
      requires Valid() && tailConsumed && tail.state.Live? && tail.prefixSent && tail.staged.None?
      requires pending != [] && pending[0].Chunk?
      modifies this`delivered, this`pending
      ensures pending == old(pending)[1..] && delivered == old(delivered) + bytes
      ensures if bytes == [] then fault == Some(ContractViolation) && delivered == body else Valid()
    {
      assert delivered + Body(pending) == body;
      bytes := pending[0].bytes;
      assert bytes != [] ==> delivered + (bytes + Body(pending[1..])) == delivered + bytes + Body(pending[1..]);
      pending := pending[1..];
      delivered := delivered + bytes;
      assert delivered + ([] + []) + Body(pending) == delivered + Body(pending);
    }

    method TailCancel()
      requires Valid() && tailConsumed && tail.state.Live?
      modifies this`tail, this`closed, this`cancels
      ensures Valid() && closed && tail == old(tail).(state := Cancelled)
    {
      assert delivered <= body;
      tail := tail.(state := Cancelled);
      CloseDelegate();
    }

    /** Closing between completed reads; what is captured survives it. */
    method Close()
      requires Valid() && !started.Running?
      modifies this`closed, this`cancels
      ensures Valid() && closed
    {
      CloseDelegate();
    }

    // ------------------------------------------------------------------------ a whole reading

    /** Reads everything there is to read of a response nobody has touched: capture or tail, it is the body. */
    method ReadWhole() returns (r: Result<seq<Byte>, CaptureError>)
      requires Valid() && started.NotStarted? && !closed && !tailConsumed
      modifies this
      ensures Valid() && (r == if fault.None? then Ok(body) else Err(fault.value))
      ensures fault.None? ==> closed && cancels == 1
      ensures regime.Exceeds? <==> |body| > cap
      ensures Error() == fault <==> !(fault == Some(StreamFailed) && |body| > cap)
    {
      StartDrain();
      DrainOnce();
      SettledExactly();
      var stream := ResumeRead();
      if stream.Err? { return Err(stream.error); }
      if stream.value.CapturedView? { return Ok(stream.value.bytes); }
      var bytes: seq<Byte> := [];
      assert delivered == bytes;
      var pulled := TailPull();
      while pulled.Delivered?
        invariant Valid() && regime.Exceeds? && tailConsumed
        invariant pulled.Delivered? ==> tail.state.Live? && !closed && bytes + pulled.bytes == delivered
        invariant pulled.EndOfTail? ==> bytes == delivered == body && closed && fault.None?
        invariant pulled.TailError? ==> fault == Some(pulled.error) && tail.state == Errored(pulled.error)
        invariant pulled.EndOfTail? ==> tail.state.Ended?
        decreases pulled.Delivered?, Left()
      {
        bytes := bytes + pulled.bytes;
        pulled := TailPull();
      }
      return if pulled.EndOfTail? then Ok(bytes) else Err(pulled.error);
    }

    // --------------------------------------------------------------------- every interleaving

    /** The first close of a run came before anything that starts a drain. */
    ghost predicate ClosedFirst(ops: seq<Op>) {
      exists k :: 0 <= k < |ops| && ops[k] == CloseOp && OpenRead !in ops[..k] && SnapshotOp !in ops[..k]
    }

    /** What a read may answer after the operations `ops` with the events `log`: the body, the tail if nobody has it, or a
        refusal for a fault of the drain, for a tail already handed out, or for a close. A body that fits and has no
        fault is refused only if the response was closed before it was ever asked for. */
    ghost predicate ReadOk(result: Result<Served, CaptureError>, ops: seq<Op>, log: seq<Event>) {
      match result
      case Ok(CapturedView(bytes)) => bytes == body && |body| <= cap && fault.None?
      case Ok(TailStream) => |body| > cap && Read(Ok(TailStream)) !in log
      case Err(Consumed) => |body| > cap && Read(Ok(TailStream)) in log
      case Err(Closed) => CloseOp in ops && (|body| <= cap ==> ClosedFirst(ops))
      case Err(error) => |body| <= cap && fault == Some(error)
    }

    /** What holds of an event after the operations `ops` with the events `log`. */
    ghost predicate EventOk(e: Event, ops: seq<Op>, log: seq<Event>) {
      match e
      case Nothing => true
      case Snapshot(bytes) => bytes <= body && |bytes| <= cap
      case Reported(reported) =>
        && (reported.Some? ==> reported == fault)
        && (|body| > cap ==> (reported.Some? <==> Pull(TailError(ContractViolation)) in log))
      case Read(result) => ReadOk(result, ops, log)
      case Pull(EndOfTail) => fault.None? && TailBytes(log) == body
      case Pull(TailError(error)) =>
        if error == Detached then CloseOp in ops else fault == Some(error) && TailBytes(log) == body
      case Pull(Delivered(bytes)) => bytes != []
    }

    /** What the state has kept of the operations `ops` and their events `log`. */
    ghost predicate Remembers(ops: seq<Op>, log: seq<Event>)
      reads this
    {
      && TailBytes(log) == delivered && TailsHanded(log) == (if tailConsumed then 1 else 0)
      && (tailConsumed <==> Read(Ok(TailStream)) in log)
      && (Pull(EndOfTail) in log ==> tailConsumed && tail.state.Ended?)
      && (forall error :: Pull(TailError(error)) in log <==> tailConsumed && tail.state == Errored(error))
      && (closed && (regime.Undrained? || (regime.Exceeds? && (!tailConsumed || tail.state.Live?))) ==> CloseOp in ops)
      && (started.NotStarted? ==> if closed then ClosedFirst(ops) else OpenRead !in ops && SnapshotOp !in ops)
    }

    lemma LogGrows(log: seq<Event>, e: Event)
      ensures TailBytes(log + [e]) == TailBytes(log) + if e.Pull? && e.pulled.Delivered? then e.pulled.bytes else []
      ensures TailsHanded(log + [e]) == TailsHanded(log) + if e == Read(Ok(TailStream)) then 1 else 0
      ensures forall f :: f in log + [e] <==> f in log || f == e
    {
      assert (log + [e])[..|log|] == log;
    }

    lemma OpsGrow(ops: seq<Op>, op: Op)
      ensures ClosedFirst(ops) ==> ClosedFirst(ops + [op])
      ensures op == CloseOp && OpenRead !in ops && SnapshotOp !in ops ==> ClosedFirst(ops + [op])
      ensures forall o :: o in ops + [op] <==> o in ops || o == op
    {
      if ClosedFirst(ops) {
        var k :| 0 <= k < |ops| && ops[k] == CloseOp && OpenRead !in ops[..k] && SnapshotOp !in ops[..k];
        assert (ops + [op])[..k] == ops[..k] && (ops + [op])[k] == CloseOp;
      }
      if op == CloseOp && OpenRead !in ops && SnapshotOp !in ops {
        assert (ops + [op])[..|ops|] == ops && (ops + [op])[|ops|] == CloseOp;
      }
    }

    method ApplyOpen(ghost ops: seq<Op>, ghost log: seq<Event>) returns (e: Event)
      requires Valid() && Remembers(ops, log)
      modifies this`started
      ensures Valid() && EventOk(e, ops, log) && Remembers(ops + [OpenRead], log + [e])
    {
      StartDrain();
      e := Nothing;
      LogGrows(log, e);
      OpsGrow(ops, OpenRead);
    }

    method ApplyDrain(ghost ops: seq<Op>, ghost log: seq<Event>) returns (e: Event)
      requires Valid() && Remembers(ops, log)
      modifies this
      ensures Valid() && EventOk(e, ops, log) && Remembers(ops + [DrainOp], log + [e])
    {
      if started.Running? { DrainTurn(); }
      e := Nothing;
      LogGrows(log, e);
      OpsGrow(ops, DrainOp);
    }

    /** A read whose drain has not settled goes on waiting. */
    method ApplyResume(ghost ops: seq<Op>, ghost log: seq<Event>) returns (e: Event)
      requires Valid() && Remembers(ops, log)
      modifies this`tailConsumed, this`tail
      ensures Valid() && EventOk(e, ops, log) && Remembers(ops + [ResumeOp], log + [e])
    {
      e := Nothing;
      if started.Settled? || (started.NotStarted? && closed) {
        var r := ResumeRead();
        e := Read(r);
      }
      LogGrows(log, e);
      OpsGrow(ops, ResumeOp);
    }

    method ApplySnapshot(ghost ops: seq<Op>, ghost log: seq<Event>) returns (e: Event)
      requires Valid() && Remembers(ops, log)
      modifies this`started
      ensures Valid() && EventOk(e, ops, log) && Remembers(ops + [SnapshotOp], log + [e])
    {
      var bytes := TakeSnapshot();
      e := Snapshot(bytes);
      LogGrows(log, e);
      OpsGrow(ops, SnapshotOp);
    }

    method ApplyError(ghost ops: seq<Op>, ghost log: seq<Event>) returns (e: Event)
      requires Valid() && Remembers(ops, log)
      ensures EventOk(e, ops, log) && Remembers(ops + [ErrorOp], log + [e])
    {
      e := Reported(Error());
      LogGrows(log, e);
      OpsGrow(ops, ErrorOp);
    }

    /** A tail that is not there, or has come to its end, is not pulled. */
    method ApplyPull(ghost ops: seq<Op>, ghost log: seq<Event>) returns (e: Event)
      requires Valid() && Remembers(ops, log)
      modifies this`tail, this`delivered, this`pending, this`failure, this`closed, this`cancels
      ensures Valid() && EventOk(e, ops, log) && Remembers(ops + [PullOp], log + [e])
    {
      e := Nothing;
      if tailConsumed && tail.state.Live? {
        var r := TailPull();
        e := Pull(r);
      }
      LogGrows(log, e);
      OpsGrow(ops, PullOp);
    }

    method ApplyCancel(ghost ops: seq<Op>, ghost log: seq<Event>) returns (e: Event)
      requires Valid() && Remembers(ops, log)
      modifies this`tail, this`closed, this`cancels
      ensures Valid() && EventOk(e, ops, log) && Remembers(ops + [CancelOp], log + [e])
    {
      if tailConsumed && tail.state.Live? { TailCancel(); }
      e := Nothing;
      LogGrows(log, e);
      OpsGrow(ops, CancelOp);
    }

    /** A close while the drain runs is no part of this model. */
    method ApplyClose(ghost ops: seq<Op>, ghost log: seq<Event>) returns (e: Event)
      requires Valid() && Remembers(ops, log)
      modifies this`closed, this`cancels
      ensures Valid() && EventOk(e, ops, log) && Remembers(ops + [CloseOp], log + [e])
    {
      if !started.Running? { Close(); }
      e := Nothing;
      LogGrows(log, e);
      OpsGrow(ops, CloseOp);
    }

    /** One step; a step that is not due is skipped. */
    method Apply(op: Op, ghost ops: seq<Op>, ghost log: seq<Event>) returns (e: Event)
      requires Valid() && Remembers(ops, log)
      modifies this
      ensures Valid() && EventOk(e, ops, log) && Remembers(ops + [op], log + [e])
    {
      match op
      case OpenRead => e := ApplyOpen(ops, log);
      case DrainOp => e := ApplyDrain(ops, log);
      case ResumeOp => e := ApplyResume(ops, log);
      case SnapshotOp => e := ApplySnapshot(ops, log);
      case ErrorOp => e := ApplyError(ops, log);
      case PullOp => e := ApplyPull(ops, log);
      case CancelOp => e := ApplyCancel(ops, log);
      case CloseOp => e := ApplyClose(ops, log);
    }

    /** Any run at all: every event keeps its promise, at most one tail is handed out, what it delivers is a prefix of the
        body and all of it if it ended, a fault of the tail is reported exactly when it is a chunk without bytes, and
        the delegate is cancelled at most once. */
    method Run(ops: seq<Op>) returns (log: seq<Event>)
      requires Valid() && started.NotStarted? && !closed && !tailConsumed
      modifies this
      ensures Valid() && |log| == |ops| && forall i :: 0 <= i < |ops| ==> EventOk(log[i], ops[..i], log[..i])
      ensures TailsHanded(log) <= 1 && cancels <= 1
      ensures TailBytes(log) <= body && (Pull(EndOfTail) in log ==> TailBytes(log) == body)
      ensures forall error :: Pull(TailError(error)) in log && error != Detached ==>
                fault == Some(error) && (Error() == fault <==> fault == Some(ContractViolation))
    {
      log := [];
      var i := 0;
      assert ops[..0] == [];
      while i < |ops|
        invariant 0 <= i == |log| <= |ops| && Valid() && Remembers(ops[..i], log)
        invariant forall k :: 0 <= k < i ==> EventOk(log[k], ops[..k], log[..k])
      {
        var e := Apply(ops[i], ops[..i], log);
        assert ops[..i + 1] == ops[..i] + [ops[i]];
        Appended(log, e);
        log := log + [e];
        i := i + 1;
      }
      assert ops[..i] == ops;
      DeliveredIsPrefix();
    }

    static lemma Appended(log: seq<Event>, e: Event)
      ensures log[..|log|] == log && forall k :: 0 <= k <= |log| ==> (log + [e])[..k] == log[..k]
    {
    }

    lemma DeliveredIsPrefix()
      requires Valid()
      ensures delivered <= body
    {
      assert regime.Exceeds? && tailConsumed && tail.state.Live? ==>
               delivered <= delivered + TailRest() + Body(pending);
    }
  }

  /** A fault that `error()` never hears of: the reader of the tail sees the delegate fail, and nothing is reported. */
  method UnreportedTailFault() returns (seen: Result<seq<Byte>, CaptureError>, reported: Option<CaptureError>)
    ensures seen == Err(StreamFailed) && reported == None
  {
    var delegate := [Chunk([1]), Failed];
    assert delegate[1..] == [Failed] && Body([Failed]) == [] && Fault([Failed]) == Some(StreamFailed);
    var response := new LoggedResponse(delegate, 0, -1);
    seen := response.ReadWhole();
    reported := response.Error();
  }
}
