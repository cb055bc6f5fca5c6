/** The chunked FIFO byte queue of io/byte-queue.ts: a singly linked list of chunks with a memoized seek position.

    A queue stands for the flat sequence `Contents()`. Every operation is specified on that sequence alone, and
    `Parts` holds what is proved about lists of chunks as values. */
module Parts {
  import opened Octets

  function Min(a: nat, b: nat): (m: nat) {
    if a < b then a else b
  }

  function Flatten(parts: seq<seq<Byte>>): seq<Byte> {
    if parts == [] then [] else parts[0] + Flatten(parts[1..])
  }

  lemma {:induction false} FlattenConcat(a: seq<seq<Byte>>, b: seq<seq<Byte>>)
    ensures Flatten(a + b) == Flatten(a) + Flatten(b)
  {
    if a == [] {
      assert a + b == b;
    } else {
      FlattenConcat(a[1..], b);
      assert (a + b)[1..] == a[1..] + b;
    }
  }

  lemma FlattenSnoc(parts: seq<seq<Byte>>, part: seq<Byte>)
    ensures Flatten(parts + [part]) == Flatten(parts) + part
  {
    FlattenConcat(parts, [part]);
    assert Flatten([part]) == part;
  }

  lemma FlattenThree(before: seq<seq<Byte>>, part: seq<Byte>, after: seq<seq<Byte>>)
    ensures Flatten(before + [part] + after) == Flatten(before) + part + Flatten(after)
  {
    FlattenSnoc(before, part);
    FlattenConcat(before + [part], after);
  }

  lemma FlattenSplit(parts: seq<seq<Byte>>, i: nat)
    requires i < |parts|
    ensures Flatten(parts[..i + 1]) == Flatten(parts[..i]) + parts[i]
    ensures Flatten(parts) == Flatten(parts[..i]) + parts[i] + Flatten(parts[i + 1..])
  {
    FlattenUpTo(parts, i);
    CutInThree(parts, i);
    FlattenThree(parts[..i], parts[i], parts[i + 1..]);
  }

  lemma FlattenUpTo(parts: seq<seq<Byte>>, i: nat)
    requires i < |parts|
    ensures Flatten(parts[..i + 1]) == Flatten(parts[..i]) + parts[i]
  {
    assert parts[..i + 1] == parts[..i] + [parts[i]];
    FlattenSnoc(parts[..i], parts[i]);
  }

  lemma CutInThree(parts: seq<seq<Byte>>, i: nat)
    requires i < |parts|
    ensures parts == parts[..i] + [parts[i]] + parts[i + 1..]
  {
  }

  /** The parts left after the first `count` bytes of the first part are gone. */
  function Consumed(parts: seq<seq<Byte>>, count: nat): seq<seq<Byte>>
    requires parts != [] && count <= |parts[0]|
  {
    (if count < |parts[0]| then [parts[0][count..]] else []) + parts[1..]
  }

  lemma FlattenConsumed(parts: seq<seq<Byte>>, count: nat)
    requires parts != [] && count <= |parts[0]|
    ensures |Flatten(parts)| >= count
    ensures Flatten(parts)[..count] == parts[0][..count]
    ensures Flatten(Consumed(parts, count)) == Flatten(parts)[count..]
  {
    if count < |parts[0]| {
      assert Consumed(parts, count)[1..] == parts[1..];
    } else {
      assert Consumed(parts, count) == parts[1..];
    }
  }

  /** One chunk's worth of a move from `parts` to the end of `dest`. */
  lemma FlattenMoved(parts: seq<seq<Byte>>, dest: seq<seq<Byte>>, count: nat)
    requires parts != [] && count <= |parts[0]|
    ensures count <= |Flatten(parts)|
    ensures Flatten(Consumed(parts, count)) == Flatten(parts)[count..]
    ensures Flatten(dest + [parts[0][..count]]) == Flatten(dest) + Flatten(parts)[..count]
  {
    FlattenConsumed(parts, count);
    FlattenSnoc(dest, parts[0][..count]);
  }

  lemma SliceExtend(all: seq<Byte>, offset: nat, done: nat, take: nat)
    requires offset + done + take <= |all|
    ensures all[offset..offset + done] + all[offset + done..offset + done + take] == all[offset..offset + done + take]
  {
  }

  lemma SliceGrows(all: seq<Byte>, offset: nat, out: seq<Byte>, bytes: seq<Byte>)
    requires offset + |out| + |bytes| <= |all| && out == all[offset..offset + |out|]
    requires bytes == all[offset + |out|..offset + |out| + |bytes|]
    ensures out + bytes == all[offset..offset + |out| + |bytes|]
  {
    SliceExtend(all, offset, |out|, |bytes|);
  }

  lemma SliceOfTail(all: seq<Byte>, start: nat, from: nat, take: nat)
    requires start + from + take <= |all|
    ensures all[start + from..start + from + take] == all[start..][from..from + take]
  {
  }

  lemma RotateFurther(all: seq<Byte>, done: nat, take: nat)
    requires done + take <= |all|
    ensures all[done..][take..] == all[done + take..]
    ensures all[..done] + all[done..][..take] == all[..done + take]
    ensures (all[done..] + all[..done])[take..] + (all[done..] + all[..done])[..take]
            == all[done + take..] + all[..done + take]
  {
  }

  lemma DropOfConcat(a: seq<Byte>, b: seq<Byte>, count: nat)
    requires count <= |a|
    ensures (a + b)[count..] == a[count..] + b
  {
  }

  /** The same move onto the queue's own end is a rotation. */
  lemma FlattenRotated(parts: seq<seq<Byte>>, count: nat)
    requires parts != [] && count <= |parts[0]|
    ensures count <= |Flatten(parts)|
    ensures Flatten(Consumed(parts + [parts[0][..count]], count))
            == Flatten(parts)[count..] + Flatten(parts)[..count]
  {
    FlattenConsumed(parts, count);
    var moved := parts[0][..count];
    FlattenSnoc(parts, moved);
    FlattenConsumed(parts + [moved], count);
    DropOfConcat(Flatten(parts), moved, count);
  }

  predicate NonEmptyParts(parts: seq<seq<Byte>>) {
    forall i :: 0 <= i < |parts| ==> parts[i] != []
  }

  /** The index of the part holding `offset` as a walk from the head finds it; past the end, the part count. */
  function Locate(parts: seq<seq<Byte>>, offset: nat): nat {
    if parts == [] then 0
    else if offset < |parts[0]| then 0
    else 1 + Locate(parts[1..], offset - |parts[0]|)
  }

  predicate Holds(parts: seq<seq<Byte>>, i: nat, offset: nat) {
    && i <= |parts|
    && |Flatten(parts[..i])| <= offset
    && (i < |parts| ==> offset < |Flatten(parts[..i])| + |parts[i]|)
  }

  /** `Locate` is the only index whose part holds the offset. */
  lemma {:induction false} LocateUnique(parts: seq<seq<Byte>>, i: nat, offset: nat)
    requires Holds(parts, i, offset)
    ensures i == Locate(parts, offset)
  {
    if parts == [] {
    } else if i > 0 {
      var rest := parts[1..];
      assert parts[..i][1..] == rest[..i - 1];
      LocateUnique(rest, i - 1, offset - |parts[0]|);
    }
  }

  lemma {:induction false} LocateHolds(parts: seq<seq<Byte>>, offset: nat)
    ensures Holds(parts, Locate(parts, offset), offset)
    ensures offset < |Flatten(parts)| <==> Locate(parts, offset) < |parts|
  {
    if parts == [] {
    } else if offset < |parts[0]| {
    } else {
      var rest := parts[1..];
      LocateHolds(rest, offset - |parts[0]|);
      var i := Locate(rest, offset - |parts[0]|);
      assert parts[..i + 1][1..] == rest[..i];
    }
  }

  lemma {:induction false} LocateMonotone(parts: seq<seq<Byte>>, a: nat, b: nat)
    requires a <= b
    ensures Locate(parts, a) <= Locate(parts, b)
  {
    if parts == [] {
    } else if |parts[0]| <= a {
      LocateMonotone(parts[1..], a - |parts[0]|, b - |parts[0]|);
    }
  }

  // ------------------------------------------------------------------ cost of sequential reads

  /** Nodes a seek for `offset` looks at when it resumes from node `from`. */
  function SeekVisits(parts: seq<seq<Byte>>, from: nat, offset: nat): int {
    var i := Locate(parts, offset);
    i - from + if i < |parts| then 1 else 0
  }

  /** Nodes the copy of a window looks at, after the seek. */
  function CopyVisits(parts: seq<seq<Byte>>, offset: nat, count: nat): int {
    if count == 0 then 0 else Locate(parts, offset + count - 1) - Locate(parts, offset) + 1
  }

  lemma MiddleSlice(before: seq<Byte>, part: seq<Byte>, after: seq<Byte>, from: nat, take: nat)
    requires from + take <= |part|
    ensures (before + part + after)[|before| + from..|before| + from + take] == part[from..from + take]
  {
  }

  /** A copy of `count` bytes at `offset` that has `done` of them and stands before node `i`: bytes still to come
      start at `from` in that node, and bytes already copied end in the node before it. */
  ghost predicate CopiedTo(parts: seq<seq<Byte>>, i: nat, from: nat, offset: nat, done: nat, count: nat) {
    && done <= count && offset + count <= |Flatten(parts)| && i <= |parts|
    && (done == 0 ==> i == Locate(parts, offset) && offset == |Flatten(parts[..i])| + from)
    && (done > 0 ==> from == 0 && i == Locate(parts, offset + done - 1) + 1)
    && (0 < done < count ==> offset + done == |Flatten(parts[..i])|)
  }

  lemma CopyPosition(parts: seq<seq<Byte>>, i: nat, from: nat, offset: nat, done: nat, count: nat)
    requires CopiedTo(parts, i, from, offset, done, count) && done < count && NonEmptyParts(parts)
    ensures i < |parts| && from < |parts[i]| && offset + done == |Flatten(parts[..i])| + from
  {
    LocateHolds(parts, offset);
    assert parts[..|parts|] == parts;
  }

  lemma CopyTurn(parts: seq<seq<Byte>>, i: nat, from: nat, offset: nat, done: nat, count: nat)
    requires CopiedTo(parts, i, from, offset, done, count) && done < count && NonEmptyParts(parts)
    ensures i < |parts| && from < |parts[i]|
    ensures var take := Min(|parts[i]| - from, count - done);
            && Flatten(parts)[offset + done..offset + done + take] == parts[i][from..from + take]
            && CopiedTo(parts, i + 1, 0, offset, done + take, count)
  {
    CopyPosition(parts, i, from, offset, done, count);
    FlattenSplit(parts, i);
    var before, part, after := Flatten(parts[..i]), parts[i], Flatten(parts[i + 1..]);
    var take := Min(|part| - from, count - done);
    MiddleSlice(before, part, after, from, take);
    LocateUnique(parts, i, offset + done + take - 1);
  }

  /** What node `i`, whose bytes begin at `start` in its buffer, adds to `out`. */
  lemma CopyGrows(parts: seq<seq<Byte>>, i: nat, from: nat, offset: nat, out: seq<Byte>, count: nat,
                  buffer: seq<Byte>, start: nat)
    requires NonEmptyParts(parts) && |out| < count && CopiedTo(parts, i, from, offset, |out|, count)
    requires out == Flatten(parts)[offset..offset + |out|]
    requires i < |parts| ==> start <= |buffer| && parts[i] == buffer[start..]
    ensures i < |parts| && from < |parts[i]| == |buffer| - start
    ensures var take := Min(|parts[i]| - from, count - |out|);
            && CopiedTo(parts, i + 1, 0, offset, |out| + take, count)
            && out + buffer[start + from..start + from + take] == Flatten(parts)[offset..offset + |out| + take]
  {
    CopyTurn(parts, i, from, offset, |out|, count);
    var take := Min(|parts[i]| - from, count - |out|);
    NodeSlice(parts[i], buffer, start, from, take);
    SliceGrows(Flatten(parts), offset, out, buffer[start + from..start + from + take]);
  }

  lemma NodeSlice(part: seq<Byte>, buffer: seq<Byte>, start: nat, from: nat, take: nat)
    requires start + from + take <= |buffer| && part == buffer[start..]
    ensures buffer[start + from..start + from + take] == part[from..from + take]
  {
    SliceOfTail(buffer, start, from, take);
  }

  /** A copy that stops, for want of nodes or of bytes to copy, has copied them all. */
  lemma CopyEnd(parts: seq<seq<Byte>>, i: nat, from: nat, offset: nat, done: nat, count: nat)
    requires CopiedTo(parts, i, from, offset, done, count) && NonEmptyParts(parts)
    requires i == |parts| || done == count
    ensures done == count && i - Locate(parts, offset) == CopyVisits(parts, offset, count)
  {
    if done < count {
      CopyTurn(parts, i, from, offset, done, count);
    }
  }

  datatype ScanOp = Append(bytes: seq<Byte>) | Copy(count: nat)

  /** A left-to-right scan: every window is non-empty, starts where the last one ended, and is there to read. */
  predicate IsScan(parts: seq<seq<Byte>>, offset: nat, ops: seq<ScanOp>)
    decreases |ops|
  {
    ops == [] ||
    match ops[0]
    case Append(bytes) => bytes != [] && IsScan(parts + [bytes], offset, ops[1..])
    case Copy(count) =>
      0 < count && offset + count <= |Flatten(parts)| && IsScan(parts, offset + count, ops[1..])
  }

  /** The parts when the scan is over. */
  function ScanParts(parts: seq<seq<Byte>>, ops: seq<ScanOp>): seq<seq<Byte>>
    decreases |ops|
  {
    if ops == [] then parts
    else ScanParts(if ops[0].Append? then parts + [ops[0].bytes] else parts, ops[1..])
  }

  function Calls(ops: seq<ScanOp>): nat {
    if ops == [] then 0 else (if ops[0].Copy? then 1 else 0) + Calls(ops[1..])
  }

  /** Nodes visited by the scan when the memo stands at node `memo`, at or before `offset`. */
  function ScanVisits(parts: seq<seq<Byte>>, memo: nat, offset: nat, ops: seq<ScanOp>): int
    decreases |ops|
  {
    if ops == [] then 0 else
    match ops[0]
    case Append(bytes) => ScanVisits(parts + [bytes], memo, offset, ops[1..])
    case Copy(count) =>
      SeekVisits(parts, memo, offset) + CopyVisits(parts, offset, count)
      + ScanVisits(parts, Locate(parts, offset), offset + count, ops[1..])
  }

  lemma {:induction false} ScanPartsGrow(parts: seq<seq<Byte>>, ops: seq<ScanOp>)
    ensures |parts| <= |ScanParts(parts, ops)|
    decreases |ops|
  {
    if ops == [] {
    } else {
      ScanPartsGrow(if ops[0].Append? then parts + [ops[0].bytes] else parts, ops[1..]);
    }
  }

  lemma {:induction false} LocateGrows(parts: seq<seq<Byte>>, more: seq<seq<Byte>>, offset: nat)
    ensures Locate(parts, offset) <= Locate(parts + more, offset)
  {
    if parts == [] {
    } else if |parts[0]| <= offset {
      LocateGrows(parts[1..], more, offset - |parts[0]|);
      assert (parts + more)[1..] == parts[1..] + more;
    }
  }

  /** `memo` is the node the memo stands at and `last` the node the last window ended in; both only move right,
      so a scan visits each node at most twice, plus two for each call. */
  lemma {:induction false} ScanBound(parts: seq<seq<Byte>>, memo: nat, last: nat, offset: nat, ops: seq<ScanOp>)
    requires IsScan(parts, offset, ops)
    requires memo <= |parts| && last <= Locate(parts, offset)
    ensures ScanVisits(parts, memo, offset, ops)
            <= 2 * |ScanParts(parts, ops)| + 2 * Calls(ops) - memo - last
    decreases |ops|
  {
    ScanPartsGrow(parts, ops);
    LocateHolds(parts, offset);
    if ops == [] {
    } else {
      match ops[0]
      case Append(bytes) =>
        LocateGrows(parts, [bytes], offset);
        ScanBound(parts + [bytes], memo, last, offset, ops[1..]);
      case Copy(count) =>
        LocateHolds(parts, offset + count - 1);
        LocateMonotone(parts, offset + count - 1, offset + count);
        ScanBound(parts, Locate(parts, offset), Locate(parts, offset + count - 1), offset + count, ops[1..]);
    }
  }
}

module ByteQueues {
  import opened Wrappers
  import opened Octets
  import opened Parts

  const END_OF_STREAM := -1

  /** A short source: how many bytes it held and how many were wanted. */
  datatype EndOfStream = EndOfStream(held: nat, wanted: nat)

  /** One node: `bytes` is never written after the node is linked in, `start` is the first byte not consumed. */
  class Chunk {
    const bytes: seq<Byte>
    var start: nat
    var next: Chunk?
    ghost const serial: nat  // counts the chunks linked into one queue, so no chunk is linked twice

    constructor (bytes: seq<Byte>, ghost serial: nat)
      ensures this.bytes == bytes && start == 0 && next == null && this.serial == serial
    {
      this.bytes := bytes;
      start, next := 0, null;
      this.serial := serial;
    }
  }

  class ByteQueue {
    var head: Chunk?
    var tail: Chunk?
    var size: nat
    var closed: bool
    var generation: nat
    var seekChunk: Chunk?
    var seekStart: nat
    var seekGeneration: int

    ghost var nodes: set<Chunk>  // every node linked in so far
    ghost var spine: seq<Chunk>  // the nodes still linked, in order
    ghost var parts: seq<seq<Byte>>  // the unconsumed bytes of each node
    ghost var firstSerial: nat
    ghost var seekIndex: nat
    ghost var visits: nat  // nodes looked at by seeks and copies so far

    /** The list is what `spine` and `parts` say. */
    ghost predicate Chained()
      reads this`head, this`tail, this`nodes, this`spine, this`parts, this`firstSerial, nodes
    {
      && |spine| == |parts|
      && (forall i :: 0 <= i < |spine| ==> spine[i] in nodes)
      && head == (if spine == [] then null else spine[0])
      && tail == (if spine == [] then null else spine[|spine| - 1])
      && (tail != null ==> tail.next == null)
      && (forall i :: 0 <= i < |spine| ==> spine[i].serial == firstSerial + i)
      && (forall i :: 0 <= i < |spine| ==>
            spine[i].start <= |spine[i].bytes| && parts[i] == spine[i].bytes[spine[i].start..])
      && (forall i, j :: 0 <= i < |spine| && j == i + 1 && j < |spine| ==> spine[i].next == spine[j])
    }

    ghost predicate Linked()
      reads this`head, this`tail, this`nodes, this`spine, this`parts, this`firstSerial, nodes
    {
      Chained() && NonEmptyParts(parts)
    }

    /** The memoized seek position, where it is still current, is a true position. */
    ghost predicate MemoOk()
      reads this`generation, this`seekChunk, this`seekStart, this`seekGeneration, this`seekIndex, this`spine, this`parts
    {
      && seekGeneration <= generation
      && (seekChunk != null && seekGeneration == generation ==>
            seekIndex < |spine| == |parts| && spine[seekIndex] == seekChunk && seekStart == |Flatten(parts[..seekIndex])|)
    }

    ghost predicate Valid()
      reads this`head, this`tail, this`size, this`nodes, this`spine, this`parts, this`firstSerial, nodes
      reads this`generation, this`seekChunk, this`seekStart, this`seekGeneration, this`seekIndex
    {
      Linked() && MemoOk() && size == |Contents()|
    }

    ghost function Contents(): seq<Byte>
      reads this`parts
    {
      Flatten(parts)
    }

    /** Two queues share no node. */
    ghost predicate Apart(other: ByteQueue)
      reads this`nodes, other`nodes
    {
      this != other && nodes !! other.nodes
    }

    constructor ()
      ensures Valid() && Contents() == [] && !closed && nodes == {}
    {
      head, tail, size, closed := null, null, 0, false;
      generation, seekChunk, seekStart, seekGeneration := 0, null, 0, -1;
      nodes := {};
      spine, parts, firstSerial, seekIndex, visits := [], [], 0, 0, 0;
    }

    /** Links a fresh node holding `bytes` behind the tail. */
    method Append(bytes: seq<Byte>)
      requires Linked() && bytes != []
      modifies this`head, this`tail, this`size, this`nodes, this`spine, this`parts, nodes
      ensures Linked() && fresh(nodes - old(nodes)) && old(nodes) <= nodes
      ensures parts == old(parts) + [bytes] && old(spine) <= spine && size == old(size) + |bytes|
      ensures old(head) != null ==> head == old(head) && head.start == old(head.start)
    {
      var chunk := new Chunk(bytes, firstSerial + |spine|);
      assert chunk.bytes[chunk.start..] == bytes;
      if tail == null {
        head := chunk;
      } else {
        tail.next := chunk;
      }
      tail := chunk;
      size := size + |bytes|;
      nodes, spine, parts := nodes + {chunk}, spine + [chunk], parts + [bytes];
    }

    /** Appending leaves a current memo a true position. */
    twostate lemma MemoSurvivesAppend()
      requires old(MemoOk()) && |old(spine)| == |old(parts)|
      requires old(spine) <= spine && old(parts) <= parts && |spine| == |parts|
      requires generation == old(generation) && seekGeneration == old(seekGeneration)
      requires seekChunk == old(seekChunk) && seekStart == old(seekStart) && seekIndex == old(seekIndex)
      ensures MemoOk()
    {
      assert seekIndex < |old(parts)| ==> parts[..seekIndex] == old(parts)[..seekIndex];
    }

    method Push(bytes: seq<Byte>)
      requires Linked() && MemoOk() && bytes != []
      modifies this`head, this`tail, this`size, this`nodes, this`spine, this`parts, nodes
      ensures Linked() && MemoOk() && fresh(nodes - old(nodes)) && old(nodes) <= nodes
      ensures parts == old(parts) + [bytes] && size == old(size) + |bytes|
      ensures old(head) != null ==> head == old(head) && head.start == old(head.start)
    {
      Append(bytes);
      MemoSurvivesAppend();
    }

    method TrimHead(count: nat)
      requires Chained() && parts != [] && count <= |parts[0]|
      modifies this`parts, head
      ensures Chained() && parts == [old(parts)[0][count..]] + old(parts)[1..]
    {
      head.start := head.start + count;
      parts := [parts[0][count..]] + parts[1..];
    }

    method DropHead()
      requires Chained() && parts != []
      modifies this`head, this`tail, this`spine, this`parts, this`firstSerial
      ensures Chained() && parts == old(parts)[1..]
    {
      head := head.next;
      if head == null {
        tail := null;
      }
      spine, parts, firstSerial := spine[1..], parts[1..], firstSerial + 1;
    }

    /** Takes `count` bytes off the head node, unlinking it when it is used up. `size` is the caller's to settle. */
    method ConsumeHead(count: nat)
      requires Linked() && parts != [] && 0 < count <= |parts[0]|
      modifies this`head, this`tail, this`spine, this`parts, this`firstSerial, head
      ensures Linked() && parts == Consumed(old(parts), count)
    {
      TrimHead(count);
      if head.start == |head.bytes| {
        DropHead();
      }
    }

    /** Pushes up to `remaining` bytes of the head node onto `dest`, without copying. */
    method ShareHead(dest: ByteQueue, remaining: nat) returns (take: nat)
      requires Linked() && parts != [] && remaining > 0 && seekGeneration < generation
      requires dest == this || (dest.Linked() && dest.MemoOk() && Apart(dest))
      modifies dest, dest.nodes
      ensures take == Min(|old(parts[0])|, remaining)
      ensures Linked() && fresh(dest.nodes - old(dest.nodes)) && old(dest.nodes) <= dest.nodes
      ensures generation == old(generation) && seekGeneration == old(seekGeneration)
      ensures dest.closed == old(dest.closed) && dest.size == old(dest.size) + take
      ensures dest.parts == old(dest.parts) + [old(parts[0])[..take]]
      ensures dest != this ==> dest.Linked() && dest.MemoOk() && Apart(dest)
    {
      var first := head;
      take := Min(|first.bytes| - first.start, remaining);
      var moved := first.bytes[first.start..first.start + take];
      assert moved == parts[0][..take];
      dest.Push(moved);
    }

    /** One turn of the move loop: the head node gives up what `dest` was handed. */
    method MoveChunk(dest: ByteQueue, remaining: nat) returns (take: nat)
      requires Linked() && parts != [] && remaining > 0 && seekGeneration < generation
      requires dest == this || (dest.Linked() && dest.MemoOk() && Apart(dest))
      modifies this, nodes, dest, dest.nodes
      ensures take == Min(|old(parts[0])|, remaining)
      ensures Linked() && fresh(nodes - old(nodes)) && fresh(dest.nodes - old(dest.nodes))
      ensures seekGeneration < generation
      ensures closed == old(closed) && dest.closed == old(dest.closed)
      ensures dest == this ==>
                parts == Consumed(old(parts) + [old(parts[0])[..take]], take) && size == old(size) + take
      ensures dest != this ==>
                && dest.Linked() && dest.MemoOk() && Apart(dest)
                && parts == Consumed(old(parts), take) && size == old(size)
                && dest.parts == old(dest.parts) + [old(parts[0])[..take]] && dest.size == old(dest.size) + take
    {
      take := ShareHead(dest, remaining);
      ConsumeHead(take);
    }

    /** Half-way through a move: `done` of the bytes `all` held at the start have gone to `dest`, which held
        `destAll`. The source's `size` is settled only at the end. */
    ghost predicate Moving(dest: ByteQueue, all: seq<Byte>, destAll: seq<Byte>, done: nat)
      reads this, nodes, dest, dest.nodes
    {
      && done <= |all|
      && Linked() && seekGeneration < generation
      && (dest == this ==>
            Contents() == all[done..] + all[..done] && size == |all| + done)
      && (dest != this ==>
            && dest.Linked() && dest.MemoOk() && Apart(dest)
            && Contents() == all[done..] && size == |all|
            && dest.Contents() == destAll + all[..done] && dest.size == |destAll| + done)
    }

    method MoveTurn(dest: ByteQueue, remaining: nat, ghost all: seq<Byte>, ghost destAll: seq<Byte>, ghost done: nat)
      returns (take: nat)
      requires Moving(dest, all, destAll, done) && remaining > 0 && done + remaining <= |all|
      modifies this, nodes, dest, dest.nodes
      ensures 0 < take <= remaining && Moving(dest, all, destAll, done + take)
      ensures fresh(nodes - old(nodes)) && fresh(dest.nodes - old(dest.nodes))
      ensures closed == old(closed) && dest.closed == old(dest.closed)
    {
      assert parts != [];
      if dest == this {
        FlattenRotated(parts, Min(|parts[0]|, remaining));
      } else {
        FlattenMoved(parts, dest.parts, Min(|parts[0]|, remaining));
      }
      take := MoveChunk(dest, remaining);
      RotateFurther(all, done, take);
    }

    method InvalidateMemo(ghost dest: ByteQueue)
      requires Valid() && (dest == this || (dest.Valid() && Apart(dest)))
      modifies this`generation
      ensures Moving(dest, Contents(), dest.Contents(), 0)
    {
      generation := generation + 1;
    }

    method MoveLoop(dest: ByteQueue, count: nat, ghost all: seq<Byte>, ghost destAll: seq<Byte>)
      requires Moving(dest, all, destAll, 0) && count <= |all|
      modifies this, nodes, dest, dest.nodes
      ensures Moving(dest, all, destAll, count)
      ensures fresh(nodes - old(nodes)) && fresh(dest.nodes - old(dest.nodes))
      ensures closed == old(closed) && dest.closed == old(dest.closed)
    {
      var remaining: nat := count;
      ghost var done: nat := 0;
      while remaining > 0
        invariant done + remaining == count && Moving(dest, all, destAll, done)
        invariant fresh(nodes - old(nodes)) && fresh(dest.nodes - old(dest.nodes))
        invariant closed == old(closed) && dest.closed == old(dest.closed)
      {
        var take := MoveTurn(dest, remaining, all, destAll, done);
        remaining, done := remaining - take, done + take;
      }
    }

    method SettleSize(ghost dest: ByteQueue, count: nat, ghost all: seq<Byte>, ghost destAll: seq<Byte>)
      requires Moving(dest, all, destAll, count)
      modifies this`size
      ensures Valid()
      ensures dest == this ==> Contents() == all[count..] + all[..count]
      ensures dest != this ==>
                dest.Valid() && Apart(dest) && Contents() == all[count..] && dest.Contents() == destAll + all[..count]
    {
      assert dest != this ==> dest.Valid();
      assert Linked() && MemoOk() && |Contents()| == size - count;
      size := size - count;
    }

    /** Moves `count` bytes from this head onto `dest`'s tail; a move onto itself rotates the queue. */
    method MoveTo(dest: ByteQueue, count: nat)
      requires Valid() && count <= size
      requires dest == this || (dest.Valid() && Apart(dest))
      modifies this, nodes, dest, dest.nodes
      ensures Valid() && fresh(nodes - old(nodes)) && fresh(dest.nodes - old(dest.nodes))
      ensures closed == old(closed) && dest.closed == old(dest.closed)
      ensures dest == this ==> Contents() == old(Contents())[count..] + old(Contents())[..count]
      ensures dest != this ==>
                && dest.Valid() && Apart(dest)
                && Contents() == old(Contents())[count..]
                && dest.Contents() == old(dest.Contents()) + old(Contents())[..count]
    {
      ghost var all, destAll := Contents(), dest.Contents();
      assert all[0..] + all[..0] == all && destAll + all[..0] == destAll;
      if count > 0 {
        InvalidateMemo(dest);
        MoveLoop(dest, count, all, destAll);
        SettleSize(dest, count, all, destAll);
      }
    }

    /** The node a seek for `offset` starts its walk from. */
    ghost function SeekFrom(offset: nat): nat
      reads this`generation, this`seekChunk, this`seekStart, this`seekGeneration, this`seekIndex
    {
      if seekChunk != null && seekGeneration == generation && seekStart <= offset then seekIndex else 0
    }

    /** The memo stands at node `index`, or is empty past the end. */
    ghost predicate MemoAt(index: nat)
      reads this
    {
      && seekGeneration == generation && seekIndex == index
      && (seekChunk != null <==> index < |spine|)
    }

    ghost function NodeAt(i: nat): Chunk?
      reads this`spine
    {
      if i < |spine| then spine[i] else null
    }

    lemma WalkStep(i: nat)
      requires Linked() && i < |spine|
      ensures NodeAt(i).next == NodeAt(i + 1)
      ensures |NodeAt(i).bytes| - NodeAt(i).start == |parts[i]| > 0
      ensures NodeAt(i).bytes[NodeAt(i).start..] == parts[i]
    {
    }

    /** Walks from a node to the one holding `offset`, counting the nodes looked at. */
    method Walk(start: Chunk?, before: nat, ghost first: nat, offset: nat)
      returns (chunk: Chunk?, chunkStart: nat, ghost index: nat, ghost looked: nat)
      requires Linked() && first <= |spine| && start == NodeAt(first)
      requires before == |Flatten(parts[..first])| <= offset
      ensures index == Locate(parts, offset) <= |spine| && chunk == NodeAt(index)
      ensures chunkStart == |Flatten(parts[..index])| <= offset
      ensures looked == SeekVisits(parts, first, offset)
    {
      chunk, chunkStart, index, looked := start, before, first, 0;
      while chunk != null
        invariant first <= index <= |spine| && chunk == NodeAt(index)
        invariant chunkStart == |Flatten(parts[..index])| <= offset
        invariant looked == index - first
        decreases |spine| - index
      {
        looked := looked + 1;
        WalkStep(index);
        FlattenSplit(parts, index);
        var available := |chunk.bytes| - chunk.start;
        if offset < chunkStart + available {
          break;
        }
        chunkStart := chunkStart + available;
        chunk := chunk.next;
        index := index + 1;
      }
      LocateUnique(parts, index, offset);
    }

    /** Finds the node holding `offset`: the one a walk from the head would find, resumed from the memo. */
    method Seek(offset: nat) returns (chunk: Chunk?, chunkStart: nat, ghost index: nat)
      requires Valid()
      modifies this`seekChunk, this`seekStart, this`seekGeneration, this`seekIndex, this`visits
      ensures Valid() && MemoAt(index) && chunk == NodeAt(index)
      ensures index == Locate(parts, offset) <= |spine| && chunkStart == |Flatten(parts[..index])| <= offset
      ensures visits == old(visits) + SeekVisits(parts, old(SeekFrom(offset)), offset)
    {
      var from, before := head, 0;
      ghost var first := SeekFrom(offset);
      if seekChunk != null && seekGeneration == generation && seekStart <= offset {
        from, before := seekChunk, seekStart;
      }

      ghost var looked;
      chunk, chunkStart, index, looked := Walk(from, before, first, offset);
      visits := visits + looked;
      Remember(chunk, chunkStart, index);
    }

    method Remember(chunk: Chunk?, chunkStart: nat, ghost index: nat)
      requires |spine| == |parts| && index <= |spine| && chunk == NodeAt(index)
      requires chunkStart == |Flatten(parts[..index])|
      modifies this`seekChunk, this`seekStart, this`seekGeneration, this`seekIndex
      ensures MemoOk() && MemoAt(index)
    {
      seekChunk, seekStart, seekGeneration, seekIndex := chunk, chunkStart, generation, index;
    }

    /** A fresh copy of the window of `count` bytes that starts at `offset`. */
    method Materialize(offset: nat, count: nat) returns (out: seq<Byte>)
      requires Valid() && offset + count <= size
      modifies this`seekChunk, this`seekStart, this`seekGeneration, this`seekIndex, this`visits
      ensures Valid() && MemoAt(Locate(parts, offset))
      ensures out == Contents()[offset..offset + count]
      ensures visits == old(visits) + SeekVisits(parts, old(SeekFrom(offset)), offset)
                        + CopyVisits(parts, offset, count)
    {
      var chunk, chunkStart, index := Seek(offset);
      ghost var looked;
      out, looked := CopyFrom(chunk, index, offset - chunkStart, offset, count);
      visits := visits + looked;
    }

    /** One turn of the copy loop: `out` and the bytes node `i` contributes. */
    method CopyNode(chunk: Chunk, ghost i: nat, from: nat, ghost offset: nat, out: seq<Byte>, count: nat)
      returns (more: seq<Byte>)
      requires Linked() && chunk == NodeAt(i) && |out| < count
      requires CopiedTo(parts, i, from, offset, |out|, count) && out == Contents()[offset..offset + |out|]
      ensures |out| < |more| <= count && CopiedTo(parts, i + 1, 0, offset, |more|, count)
      ensures more == Contents()[offset..offset + |more|]
      ensures i < |spine| && chunk.next == NodeAt(i + 1)
    {
      WalkStep(i);
      CopyGrows(parts, i, from, offset, out, count, chunk.bytes, chunk.start);
      var available := |chunk.bytes| - chunk.start;
      var take := Min(available - from, count - |out|);
      var start := chunk.start + from;
      more := out + chunk.bytes[start..start + take];
    }

    /** Copies `count` bytes forward, beginning `begin` bytes into the node holding `offset`. */
    method CopyFrom(first: Chunk?, ghost index: nat, begin: nat, ghost offset: nat, count: nat)
      returns (out: seq<Byte>, ghost looked: nat)
      requires Valid() && offset + count <= size
      requires index == Locate(parts, offset) <= |spine| && first == NodeAt(index)
      requires offset == |Flatten(parts[..index])| + begin
      ensures out == Contents()[offset..offset + count]
      ensures looked == CopyVisits(parts, offset, count)
    {
      var chunk, from: nat := first, begin;
      out := [];
      ghost var i: nat := index;
      while chunk != null && |out| < count
        invariant i <= |spine| && chunk == NodeAt(i) && |out| <= count
        invariant CopiedTo(parts, i, from, offset, |out|, count)
        invariant out == Contents()[offset..offset + |out|]
        decreases |spine| - i
      {
        out := CopyNode(chunk, i, from, offset, out, count);
        from := 0;
        chunk := chunk.next;
        i := i + 1;
      }
      CopyEnd(parts, i, from, offset, |out|, count);
      looked := i - index;
    }

    method DiscardChunk(remaining: nat) returns (take: nat)
      requires Linked() && 0 < remaining <= |Contents()|
      modifies this`head, this`tail, this`spine, this`parts, this`firstSerial, nodes
      ensures Linked() && 0 < take <= remaining && Contents() == old(Contents())[take..]
    {
      assert parts != [];
      take := Min(|head.bytes| - head.start, remaining);
      FlattenConsumed(parts, take);
      ConsumeHead(take);
    }

    method Discard(count: nat)
      requires Valid() && count <= size
      modifies this`head, this`tail, this`size, this`generation, this`spine, this`parts, this`firstSerial, nodes
      ensures Valid() && Contents() == old(Contents())[count..]
    {
      ghost var all := Contents();
      if count > 0 {
        generation := generation + 1;
        var remaining: nat := count;
        while remaining > 0
          invariant remaining <= count && Linked() && Contents() == all[count - remaining..]
          invariant seekGeneration < generation && size == |all|
        {
          var take := DiscardChunk(remaining);
          remaining := remaining - take;
        }
        size := size - count;
      }
    }

    // ------------------------------------------------------------------- the public surface

    /** Appends an independent copy of `bytes`; nothing for none. */
    method WriteBytes(bytes: seq<Byte>)
      requires Valid()
      modifies this, nodes
      ensures Valid() && fresh(nodes - old(nodes)) && closed == old(closed)
      ensures Contents() == old(Contents()) + bytes
      ensures parts == if bytes == [] then old(parts) else old(parts) + [bytes]
      ensures visits == old(visits) && forall offset: nat :: SeekFrom(offset) == old(SeekFrom(offset))
    {
      if bytes == [] {
        return;
      }
      FlattenSnoc(parts, bytes);
      Push(bytes);
    }

    /** Moves up to `count` bytes to `dest`: 0 for a zero count, `END_OF_STREAM` when exhausted. */
    method Read(dest: ByteQueue, count: nat) returns (taken: int)
      requires Valid() && (dest == this || (dest.Valid() && Apart(dest)))
      modifies this, nodes, dest, dest.nodes
      ensures Valid() && fresh(nodes - old(nodes)) && fresh(dest.nodes - old(dest.nodes))
      ensures closed == old(closed) && dest.closed == old(dest.closed)
      ensures taken == if count == 0 then 0 else if old(Contents()) == [] then END_OF_STREAM
                       else Min(count, |old(Contents())|)
      ensures dest == this && taken >= 0 ==> Contents() == old(Contents())[taken..] + old(Contents())[..taken]
      ensures dest != this ==> dest.Valid() && Apart(dest)
      ensures dest != this && taken >= 0 ==>
                && Contents() == old(Contents())[taken..]
                && dest.Contents() == old(dest.Contents()) + old(Contents())[..taken]
      ensures taken < 0 ==> Contents() == [] && dest.Contents() == old(dest.Contents())
    {
      if count == 0 {
        return 0;
      }
      if size == 0 {
        return END_OF_STREAM;
      }
      var take := Min(count, size);
      MoveTo(dest, take);
      return take;
    }

    /** Moves exactly `count` bytes from `src`'s head to this tail, or nothing when it holds fewer. */
    method Write(src: ByteQueue, count: nat) returns (r: Result<(), EndOfStream>)
      requires Valid() && src.Valid() && (src == this || src.Apart(this))
      modifies this, nodes, src, src.nodes
      ensures Valid() && src.Valid() && (src == this || src.Apart(this))
      ensures fresh(nodes - old(nodes)) && fresh(src.nodes - old(src.nodes))
      ensures r.Err? <==> |old(src.Contents())| < count
      ensures r.Err? ==> r.error == EndOfStream(|old(src.Contents())|, count)
      ensures r.Err? ==> Contents() == old(Contents()) && src.Contents() == old(src.Contents())
      ensures r.Ok? && src == this ==> Contents() == old(Contents())[count..] + old(Contents())[..count]
      ensures r.Ok? && src != this ==>
                && src.Contents() == old(src.Contents())[count..]
                && Contents() == old(Contents()) + old(src.Contents())[..count]
    {
      if src.size < count {
        return Err(EndOfStream(src.size, count));
      }
      src.MoveTo(this, count);
      return Ok(());
    }

    method Snapshot() returns (out: seq<Byte>)
      requires Valid()
      modifies this`seekChunk, this`seekStart, this`seekGeneration, this`seekIndex, this`visits
      ensures Valid() && out == Contents()
    {
      out := Materialize(0, size);
    }

    /** A fresh copy of the window at `offset`, to the end when no count is given; nothing is consumed. */
    method CopyOut(offset: nat, count: Option<nat>) returns (out: seq<Byte>)
      requires Valid() && offset <= |Contents()| && (count.Some? ==> offset + count.value <= |Contents()|)
      modifies this`seekChunk, this`seekStart, this`seekGeneration, this`seekIndex, this`visits
      ensures Valid() && MemoAt(Locate(parts, offset))
      ensures out == Contents()[offset..if count.Some? then offset + count.value else |Contents()|]
      ensures visits == old(visits) + SeekVisits(parts, old(SeekFrom(offset)), offset)
                        + CopyVisits(parts, offset, |out|)
    {
      var length := if count.Some? then count.value else size - offset;
      out := Materialize(offset, length);
    }

    method RepeatWindow(offset: nat, length: nat)
      requires Valid() && offset + length <= |Contents()|
      modifies this, nodes
      ensures Valid() && fresh(nodes - old(nodes)) && closed == old(closed)
      ensures Contents() == old(Contents()) + old(Contents())[offset..offset + length]
    {
      var out := Materialize(offset, length);
      WriteBytes(out);
    }

    method PasteWindow(dest: ByteQueue, offset: nat, length: nat)
      requires Valid() && offset + length <= |Contents()| && dest.Valid() && Apart(dest)
      modifies this`seekChunk, this`seekStart, this`seekGeneration, this`seekIndex, this`visits, dest, dest.nodes
      ensures Valid() && dest.Valid() && Apart(dest) && fresh(dest.nodes - old(dest.nodes))
      ensures dest.closed == old(dest.closed) && Contents() == old(Contents())
      ensures dest.Contents() == old(dest.Contents()) + old(Contents())[offset..offset + length]
    {
      var out := Materialize(offset, length);
      dest.WriteBytes(out);
    }

    /** Copies the window at `offset` onto `dest`'s tail; this queue keeps its bytes. */
    method CopyTo(dest: ByteQueue, offset: nat, count: Option<nat>)
      requires Valid() && (dest == this || (dest.Valid() && Apart(dest)))
      requires offset <= |Contents()| && (count.Some? ==> offset + count.value <= |Contents()|)
      modifies this, nodes, dest, dest.nodes
      ensures Valid() && dest.Valid() && (dest != this ==> Apart(dest) && nodes == old(nodes))
      ensures fresh(nodes - old(nodes)) && fresh(dest.nodes - old(dest.nodes))
      ensures closed == old(closed) && dest.closed == old(dest.closed)
      ensures dest.Contents() == old(dest.Contents())
                + old(Contents())[offset..if count.Some? then offset + count.value else |old(Contents())|]
      ensures dest != this ==> Contents() == old(Contents())
    {
      var length := if count.Some? then count.value else size - offset;
      if length == 0 {
        return;
      }
      if dest == this {
        RepeatWindow(offset, length);
      } else {
        PasteWindow(dest, offset, length);
      }
    }

    /** Consumes exactly `count` bytes, or nothing when there are fewer. */
    method TakeBytes(count: nat) returns (r: Result<seq<Byte>, EndOfStream>)
      requires Valid()
      modifies this, nodes
      ensures Valid() && nodes == old(nodes) && closed == old(closed)
      ensures r == if count <= |old(Contents())| then Ok(old(Contents())[..count])
                   else Err(EndOfStream(|old(Contents())|, count))
      ensures Contents() == if r.Ok? then old(Contents())[count..] else old(Contents())
    {
      if count > size {
        return Err(EndOfStream(size, count));
      }
      var out := Materialize(0, count);
      Discard(count);
      return Ok(out);
    }

    method Skip(count: nat) returns (dropped: nat)
      requires Valid()
      modifies this, nodes
      ensures Valid() && nodes == old(nodes) && closed == old(closed)
      ensures dropped == Min(count, |old(Contents())|) && Contents() == old(Contents())[dropped..]
    {
      dropped := Min(count, size);
      Discard(dropped);
    }

    method Clear()
      requires Valid()
      modifies this
      ensures Valid() && nodes == old(nodes) && Contents() == [] && closed == old(closed)
    {
      head, tail, size := null, null, 0;
      generation := generation + 1;
      spine, parts := [], [];
    }

    /** Marks the queue closed, which leaves its bytes readable. */
    method Close()
      requires Valid()
      modifies this`closed
      ensures Valid() && closed
    {
      closed := true;
    }

    /** A left-to-right scan, interleaved with appends, looks at most twice at each node plus two for each call. */
    method SequentialScan(offset: nat, ops: seq<ScanOp>)
      requires Valid() && IsScan(parts, offset, ops)
      modifies this, nodes
      ensures Valid() && parts == ScanParts(old(parts), ops)
      ensures visits == old(visits) + ScanVisits(old(parts), old(SeekFrom(offset)), offset, ops)
      ensures visits <= old(visits) + 2 * |parts| + 2 * Calls(ops)
      decreases |ops|
    {
      ScanBound(parts, SeekFrom(offset), 0, offset, ops);
      if ops != [] {
        match ops[0]
        case Append(bytes) =>
          WriteBytes(bytes);
          SequentialScan(offset, ops[1..]);
        case Copy(count) =>
          LocateHolds(parts, offset);
          var _ := CopyOut(offset, Some(count));
          SequentialScan(offset + count, ops[1..]);
      }
    }
  }
}
