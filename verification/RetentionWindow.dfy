/** The shared buffer behind a source and its views, io/retention-window.ts.

    `stream` is the byte sequence the underlying reader delivers. While the window is open the queue holds exactly
    `stream[retainedFrom..pulledThrough]`, every live cursor is at or past `retainedFrom`, and (`Tight`) the
    slowest of them is at it. */
module RetentionWindows {
  import opened Wrappers
  import opened Octets
  import opened Parts
  import opened ByteQueues

  /** One answer of the caller's reader; a failed stream keeps failing. */
  datatype Delivery = Bytes(bytes: seq<Byte>) | NotBytes | Failure

  datatype SourceError = Closed | ContractViolation | StreamFailed | Short(held: nat, wanted: nat)

  /** The bytes that reading `pending` to its end can still yield. */
  function Remaining(pending: seq<Delivery>): seq<Byte> {
    if pending == [] then [] else
    match pending[0]
    case Bytes(bytes) => bytes + Remaining(pending[1..])
    case NotBytes => Remaining(pending[1..])
    case Failure => []
  }

  /** A stream that keeps its contract: every chunk is a non-empty byte array. */
  predicate WellFormed(pending: seq<Delivery>) {
    forall i :: 0 <= i < |pending| ==> pending[i].Bytes? && pending[i].bytes != []
  }

  /** What pulling from `before` answers and leaves: the end of the stream is noted, a chunk with bytes brings them in, and
      a chunk without any, or one that is no byte array, is used up and refused. A failed stream keeps failing. */
  predicate PullOk(before: seq<Delivery>, r: Result<(), SourceError>, after: seq<Delivery>, gained: int, ended: bool) {
    if before == [] then r == Ok(()) && after == [] && gained == 0 && ended
    else
      && !ended
      && match before[0]
         case Failure => r == Err(StreamFailed) && after == before && gained == 0
         case NotBytes => r == Err(ContractViolation) && after == before[1..] && gained == 0
         case Bytes(bytes) =>
           r == (if bytes == [] then Err(ContractViolation) else Ok(())) && after == before[1..] && gained == |bytes|
  }

  lemma SliceOfSlice(all: seq<Byte>, from: nat, to: nat, at: nat, count: nat)
    requires from <= to <= |all| && at + count <= to - from
    ensures all[from..to][at..at + count] == all[from + at..from + at + count]
  {
    var window := all[from..to];
    var left, right := window[at..at + count], all[from + at..from + at + count];
    forall i | 0 <= i < count
      ensures left[i] == right[i]
    {
      assert left[i] == window[at + i] == all[from + (at + i)];
    }
  }

  lemma PullSlices(all: seq<Byte>, from: nat, to: nat, bytes: seq<Byte>, rest: seq<Byte>)
    requires from <= to <= |all| && all[to..] == bytes + rest
    ensures to + |bytes| <= |all|
    ensures all[from..to] + bytes == all[from..to + |bytes|] && all[to + |bytes|..] == rest
  {
    assert |all[to..]| == |bytes| + |rest|;
    assert forall i :: 0 <= i < |bytes| ==> all[to + i] == all[to..][i] == bytes[i];
    assert forall i :: 0 <= i < |rest| ==> all[to + |bytes| + i] == all[to..][|bytes| + i] == rest[i];
  }

  class Cursor {
    var at: nat

    constructor (at: nat)
      ensures this.at == at
    {
      this.at := at;
    }
  }

  class RetentionWindow {
    const queue: ByteQueue
    ghost const stream: seq<Byte>
    var cursors: set<Cursor>
    var pending: seq<Delivery>
    var retainedFrom: nat
    var pulledThrough: nat
    var exhausted: bool
    var closed: bool

    /** What cancelling the reader will answer; `None` for a window that has no reader. */
    const cancelling: Option<Result<(), SourceError>>
    var closing: Option<Result<(), SourceError>>
    var cancels: nat
    var locked: bool

    ghost predicate Valid()
      reads this, queue, queue.nodes, cursors
    {
      && queue.Valid()
      && (closed ==> cursors == {} && queue.Contents() == [])
      && (!closed ==>
            && retainedFrom <= pulledThrough <= |stream|
            && queue.Contents() == stream[retainedFrom..pulledThrough]
            && Remaining(pending) == stream[pulledThrough..]
            && (exhausted ==> pending == [])
            && (forall c :: c in cursors ==> retainedFrom <= c.at))
    }

    /** The one outcome every close is given: that of cancelling the reader, or success when there is none. */
    function Outcome(): Result<(), SourceError> {
      if cancelling.Some? then cancelling.value else Ok(())
    }

    /** Torn down at most once: the reader, if there is one, is cancelled and its lock released exactly when closed. */
    ghost predicate TornDownOnce()
      reads this`closed, this`closing, this`cancels, this`locked
    {
      && closing == (if closed then Some(Outcome()) else None)
      && cancels == (if closed && cancelling.Some? then 1 else 0)
      && locked == (!closed && cancelling.Some?)
    }

    /** Nothing older than the slowest live cursor is kept. */
    ghost predicate Tight()
      reads this`cursors, this`retainedFrom, cursors
    {
      exists c :: c in cursors && c.at == retainedFrom
    }

    constructor (pending: seq<Delivery>, cancelling: Option<Result<(), SourceError>>)
      requires cancelling.None? ==> pending == []
      ensures TornDownOnce() && this.cancelling == cancelling && this.pending == pending
      ensures Valid() && !closed && stream == Remaining(pending) && fresh(queue)
      ensures cursors == {} && retainedFrom == pulledThrough == 0 && queue.nodes == {}
    {
      queue := new ByteQueue();
      stream := Remaining(pending);
      this.pending := pending;
      cursors, retainedFrom, pulledThrough, exhausted, closed := {}, 0, 0, cancelling.None?, false;
      this.cancelling, closing, cancels, locked := cancelling, None, 0, cancelling.Some?;
    }

    /** A new cursor at a logical offset that is still within reach. */
    method Register(at: nat) returns (r: Result<Cursor, SourceError>)
      requires Valid() && (!closed ==> retainedFrom <= at)
      modifies this`cursors
      ensures Valid() && (r.Err? <==> closed) && (r.Err? ==> r.error == Closed && cursors == old(cursors))
      ensures r.Ok? ==> fresh(r.value) && r.value.at == at && cursors == old(cursors) + {r.value}
      ensures old(Tight()) ==> Tight()
    {
      if closed {
        return Err(Closed);
      }
      var cursor := new Cursor(at);
      cursors := cursors + {cursor};
      return Ok(cursor);
    }

    /** Drops a cursor and lets the retained head move up to the slowest one left. */
    method Release(cursor: Cursor)
      requires Valid()
      modifies this`cursors, this`retainedFrom, queue, queue.nodes
      ensures Valid() && queue.nodes == old(queue.nodes) && cursors == old(cursors) - {cursor}
      ensures !closed && (exists c :: c in cursors && c.at <= pulledThrough) ==> Tight()
    {
      cursors := cursors - {cursor};
      if !closed {
        Trim();
      }
    }

    method Trim()
      requires Valid() && !closed
      modifies this`retainedFrom, queue, queue.nodes
      ensures Valid() && queue.nodes == old(queue.nodes) && old(retainedFrom) <= retainedFrom
      ensures (exists c :: c in cursors && c.at <= pulledThrough) ==> Tight()
    {
      var low := LowestCursor();
      var drop := low - retainedFrom;
      if drop <= 0 {
        return;
      }
      var _ := queue.Skip(drop);
      retainedFrom := low;
    }

    method LowestCursor() returns (low: nat)
      ensures low <= pulledThrough && forall c :: c in cursors ==> low <= c.at
      ensures low == pulledThrough || exists c :: c in cursors && c.at == low
    {
      low := pulledThrough;
      var left := cursors;
      while left != {}
        invariant left <= cursors && low <= pulledThrough
        invariant forall c :: c in cursors - left ==> low <= c.at
        invariant low == pulledThrough || exists c :: c in cursors && c.at == low
      {
        var cursor :| cursor in left;
        low := Min(low, cursor.at);
        left := left - {cursor};
      }
    }

    /** Reads one chunk: a non-empty one is queued, end of stream is noted, anything else is an error. */
    method PullOnce() returns (r: Result<(), SourceError>)
      requires Valid() && !closed && !exhausted
      modifies this`pending, this`pulledThrough, this`exhausted, queue, queue.nodes
      ensures Valid() && fresh(queue.nodes - old(queue.nodes))
      ensures PullOk(old(pending), r, pending, pulledThrough - old(pulledThrough), exhausted)
    {
      if pending == [] {
        exhausted := true;
        return Ok(());
      }
      match pending[0]
      case Failure =>
        return Err(StreamFailed);
      case NotBytes =>
        pending := pending[1..];
        return Err(ContractViolation);
      case Bytes(bytes) =>
        if bytes == [] {
          pending := pending[1..];
          return Err(ContractViolation);
        }
        Accept(bytes);
        return Ok(());
    }

    /** Queues the chunk the reader just delivered. */
    method Accept(bytes: seq<Byte>)
      requires Valid() && !closed && !exhausted && pending != [] && pending[0] == Bytes(bytes)
      modifies this`pending, this`pulledThrough, queue, queue.nodes
      ensures Valid() && fresh(queue.nodes - old(queue.nodes))
      ensures pending == old(pending)[1..] && pulledThrough == old(pulledThrough) + |bytes|
    {
      PullSlices(stream, retainedFrom, pulledThrough, bytes, Remaining(pending[1..]));
      queue.WriteBytes(bytes);
      assert queue.Contents() == stream[retainedFrom..pulledThrough + |bytes|];
      pending := pending[1..];
      pulledThrough := pulledThrough + |bytes|;
    }

    /** Pulls until `offset` bytes have come through or the stream ends; says which. Moves no cursor. */
    method PullThrough(offset: nat) returns (r: Result<bool, SourceError>)
      requires Valid()
      modifies this`pending, this`pulledThrough, this`exhausted, queue, queue.nodes
      ensures Valid() && fresh(queue.nodes - old(queue.nodes)) && old(pulledThrough) <= pulledThrough
      ensures r.Ok? ==> !closed && (r.value <==> offset <= |stream|)
      ensures r.Ok? ==> if r.value then offset <= pulledThrough else pulledThrough == |stream|
      ensures ((r.Err? && r.error == Closed) <==> closed) && (r.Err? ==> !r.error.Short?)
      ensures WellFormed(old(pending)) ==> WellFormed(pending) && (r.Ok? <==> !closed)
    {
      if closed {
        return Err(Closed);
      }
      while pulledThrough < offset && !exhausted
        invariant Valid() && fresh(queue.nodes - old(queue.nodes)) && old(pulledThrough) <= pulledThrough
        invariant WellFormed(old(pending)) ==> WellFormed(pending)
        decreases |pending|, !exhausted
      {
        var pulled := PullOnce();
        if pulled.Err? {
          return Err(pulled.error);
        }
      }
      return Ok(pulledThrough >= offset);
    }

    /** Moves up to `count` pulled bytes at `cursor` onto `dest`, advancing that cursor and no other. */
    method ReadInto(cursor: Cursor, dest: ByteQueue, count: nat) returns (r: Result<nat, SourceError>)
      requires Valid() && (!closed ==> cursor in cursors)
      requires dest.Valid() && queue.Apart(dest)
      modifies this`retainedFrom, queue, queue.nodes, cursor, dest, dest.nodes
      ensures Valid() && dest.Valid() && queue.Apart(dest)
      ensures fresh(queue.nodes - old(queue.nodes)) && fresh(dest.nodes - old(dest.nodes))
      ensures (r.Err? <==> closed) && (r.Err? ==> r.error == Closed)
      ensures r.Ok? ==> r.value == if old(cursor.at) < pulledThrough then Min(count, pulledThrough - old(cursor.at)) else 0
      ensures cursor.at == old(cursor.at) + if r.Ok? then r.value else 0
      ensures dest.Contents() == old(dest.Contents())
                + if r.Ok? && r.value > 0 then stream[old(cursor.at)..cursor.at] else []
      ensures old(Tight()) ==> Tight()
    {
      if closed {
        return Err(Closed);
      }
      if pulledThrough <= cursor.at || count == 0 {
        return Ok(0);
      }
      var take := Min(count, pulledThrough - cursor.at);
      HandOut(cursor, dest, take);
      Trim();
      return Ok(take);
    }

    lemma HeldSlice(at: nat, count: nat)
      requires Valid() && !closed && retainedFrom <= at && at + count <= pulledThrough
      ensures |queue.Contents()| == pulledThrough - retainedFrom
      ensures queue.Contents()[at - retainedFrom..at - retainedFrom + count] == stream[at..at + count]
    {
      SliceOfSlice(stream, retainedFrom, pulledThrough, at - retainedFrom, count);
    }

    method HandOut(cursor: Cursor, dest: ByteQueue, take: nat)
      requires Valid() && !closed && cursor in cursors && cursor.at + take <= pulledThrough
      requires dest.Valid() && queue.Apart(dest)
      modifies queue, queue.nodes, cursor, dest, dest.nodes
      ensures Valid() && dest.Valid() && queue.Apart(dest)
      ensures queue.nodes == old(queue.nodes) && fresh(dest.nodes - old(dest.nodes))
      ensures cursor.at == old(cursor.at) + take
      ensures dest.Contents() == old(dest.Contents()) + stream[old(cursor.at)..cursor.at]
    {
      HeldSlice(cursor.at, take);
      queue.CopyTo(dest, cursor.at - retainedFrom, Some(take));
      cursor.at := cursor.at + take;
    }

    /** A copy of up to `count` pulled bytes starting `offset` ahead of `cursor`, which stays where it is. */
    method PeekBytes(cursor: Cursor, offset: nat, count: nat) returns (r: Result<seq<Byte>, SourceError>)
      requires Valid() && (!closed ==> cursor in cursors)
      modifies queue`seekChunk, queue`seekStart, queue`seekGeneration, queue`seekIndex, queue`visits
      ensures Valid() && (r.Err? <==> closed) && (r.Err? ==> r.error == Closed)
      ensures r.Ok? ==>
                if cursor.at + offset < pulledThrough then
                  r.value == stream[cursor.at + offset..Min(cursor.at + offset + count, pulledThrough)]
                else r.value == []
    {
      if closed {
        return Err(Closed);
      }
      var from := cursor.at + offset;
      if pulledThrough <= from || count == 0 {
        return Ok([]);
      }
      var take := Min(count, pulledThrough - from);
      HeldSlice(from, take);
      var bytes := queue.CopyOut(from - retainedFrom, Some(take));
      return Ok(bytes);
    }

    method AvailableFrom(cursor: Cursor) returns (r: Result<nat, SourceError>)
      ensures r == if closed then Err(Closed)
                   else Ok(if cursor.at < pulledThrough then pulledThrough - cursor.at else 0)
    {
      if closed {
        return Err(Closed);
      }
      return Ok(if cursor.at < pulledThrough then pulledThrough - cursor.at else 0);
    }

    /** Closing drops every cursor and every byte and tears the reader down; every further close changes nothing and is
        given the same outcome. */
    method Close() returns (r: Result<(), SourceError>)
      requires Valid() && TornDownOnce()
      modifies this`closed, this`closing, this`cancels, this`locked, this`cursors, queue
      ensures Valid() && TornDownOnce() && closed && queue.nodes == old(queue.nodes)
      ensures r == Outcome()
    {
      if closing.None? {
        var outcome := Teardown();
        closing := Some(outcome);
      }
      r := closing.value;
    }

    /** The lock is released whether or not the reader's cancel succeeds. */
    method Teardown() returns (r: Result<(), SourceError>)
      requires Valid() && TornDownOnce() && !closed
      modifies this`closed, this`cancels, this`locked, this`cursors, queue
      ensures Valid() && closed && queue.nodes == old(queue.nodes) && r == Outcome()
      ensures !locked && cancels == if cancelling.Some? then 1 else 0
    {
      closed := true;
      cursors := {};
      queue.Clear();
      queue.Close();
      if cancelling.None? { return Ok(()); }
      cancels := cancels + 1;
      locked := false;
      return cancelling.value;
    }
  }
}
