/** How a byte sequence splits into lines. */
module Lines {
  import opened Octets
  import opened Parts

  const NEWLINE: Byte := 0x0a
  const CARRIAGE_RETURN: Byte := 0x0d

  /** The position of the first newline, or the length when there is none. */
  function NewlineAt(bytes: seq<Byte>): (at: nat)
    ensures at <= |bytes| && (at < |bytes| ==> bytes[at] == NEWLINE)
    ensures forall i :: 0 <= i < at ==> bytes[i] != NEWLINE
  {
    if bytes == [] || bytes[0] == NEWLINE then 0 else 1 + NewlineAt(bytes[1..])
  }

  function WithoutReturn(text: seq<Byte>): seq<Byte> {
    if text != [] && text[|text| - 1] == CARRIAGE_RETURN then text[..|text| - 1] else text
  }

  function FirstLine(bytes: seq<Byte>): seq<Byte> {
    var at := NewlineAt(bytes);
    if at == |bytes| then bytes else WithoutReturn(bytes[..at])
  }

  function AfterFirstLine(bytes: seq<Byte>): seq<Byte> {
    var at := NewlineAt(bytes);
    if at == |bytes| then [] else bytes[at + 1..]
  }

  lemma OneMoreLine(lines: seq<seq<Byte>>, line: seq<Byte>, rest: seq<seq<Byte>>)
    ensures lines + ([line] + rest) == lines + [line] + rest
  {
  }

  /** The lines that reading one after another yields. */
  function Split(bytes: seq<Byte>): seq<seq<Byte>>
    decreases |bytes|
  {
    if bytes == [] then [] else [FirstLine(bytes)] + Split(AfterFirstLine(bytes))
  }

  datatype Ending = Lf | CrLf | EndOfInput

  datatype Line = Line(text: seq<Byte>, ending: Ending)

  function EndingBytes(ending: Ending): seq<Byte> {
    match ending
    case Lf => [NEWLINE]
    case CrLf => [CARRIAGE_RETURN, NEWLINE]
    case EndOfInput => []
  }

  /** A line holds no newline, and keeps a final return only when nothing but the end of input follows. */
  predicate WellEnded(line: Line) {
    && NEWLINE !in line.text
    && (line.ending.Lf? ==> WithoutReturn(line.text) == line.text)
  }

  /** Only the last line may be unterminated, and then it is not empty. */
  predicate WellCut(lines: seq<Line>) {
    && (forall i :: 0 <= i < |lines| ==> WellEnded(lines[i]))
    && (forall i :: 0 <= i < |lines| && lines[i].ending.EndOfInput? ==> i == |lines| - 1 && lines[i].text != [])
  }

  function Joined(lines: seq<Line>): seq<Byte> {
    if lines == [] then [] else lines[0].text + EndingBytes(lines[0].ending) + Joined(lines[1..])
  }

  function Texts(lines: seq<Line>): seq<seq<Byte>> {
    if lines == [] then [] else [lines[0].text] + Texts(lines[1..])
  }

  lemma {:induction false} NewlineAtSkips(text: seq<Byte>, rest: seq<Byte>)
    requires NEWLINE !in text
    ensures NewlineAt(text + rest) == |text| + NewlineAt(rest)
  {
    if text == [] {
      assert text + rest == rest;
    } else {
      assert (text + rest)[1..] == text[1..] + rest;
      NewlineAtSkips(text[1..], rest);
    }
  }

  lemma NewlineAtIs(bytes: seq<Byte>, at: nat)
    requires at < |bytes| && bytes[at] == NEWLINE && NEWLINE !in bytes[..at]
    ensures NewlineAt(bytes) == at
  {
    forall i | 0 <= i < at
      ensures bytes[i] != NEWLINE
    {
      assert bytes[i] == bytes[..at][i];
    }
  }

  /** Where the newline is, found by searching what follows an already searched prefix. */
  lemma NewlineInPrefix(bytes: seq<Byte>, from: nat, window: seq<Byte>)
    requires from + |window| <= |bytes| && window == bytes[from..from + |window|] && NEWLINE !in bytes[..from]
    ensures var at := NewlineAt(window);
            if at < |window| then NEWLINE in bytes && NewlineAt(bytes) == from + at
            else NEWLINE !in bytes[..from + |window|]
  {
    var at := NewlineAt(window);
    forall i | 0 <= i < from + at
      ensures bytes[i] != NEWLINE
    {
      if i < from {
        assert bytes[i] == bytes[..from][i];
      } else {
        assert bytes[i] == window[i - from];
      }
    }
    if at < |window| {
      assert bytes[from + at] == window[at];
      NewlineAtIs(bytes, from + at);
    }
  }

  lemma FirstLineIs(line: Line, rest: seq<Byte>)
    requires WellEnded(line)
    requires line.ending.EndOfInput? ==> rest == []
    ensures FirstLine(line.text + EndingBytes(line.ending) + rest) == line.text
    ensures AfterFirstLine(line.text + EndingBytes(line.ending) + rest) == rest
  {
    match line.ending
    case EndOfInput =>
      NewlineAtSkips(line.text, []);
      assert line.text + EndingBytes(line.ending) + rest == line.text + [] == line.text;
    case Lf =>
      LineIsText(line.text, rest);
    case CrLf =>
      var text := line.text + [CARRIAGE_RETURN];
      assert line.text + EndingBytes(line.ending) == text + [NEWLINE];
      LineIsText(text, rest);
      assert WithoutReturn(text) == line.text;
  }

  lemma LineIsText(text: seq<Byte>, rest: seq<Byte>)
    requires NEWLINE !in text
    ensures FirstLine(text + [NEWLINE] + rest) == WithoutReturn(text)
    ensures AfterFirstLine(text + [NEWLINE] + rest) == rest
  {
    var all := text + [NEWLINE] + rest;
    assert all == text + ([NEWLINE] + rest);
    NewlineAtSkips(text, [NEWLINE] + rest);
    assert all[..|text|] == text && all[|text| + 1..] == rest;
  }

  /** However an input is cut into well-ended lines, reading it yields exactly their texts. */
  lemma {:induction false} SplitOfJoined(lines: seq<Line>)
    requires WellCut(lines)
    ensures Split(Joined(lines)) == Texts(lines)
  {
    if lines == [] {
    } else {
      var line, rest := lines[0], lines[1..];
      assert line.ending.EndOfInput? ==> rest == [];
      FirstLineIs(line, Joined(rest));
      SplitOfJoined(rest);
    }
  }

  /** Every input can be cut that way. */
  lemma {:induction false} CutExists(bytes: seq<Byte>) returns (lines: seq<Line>)
    ensures WellCut(lines) && Joined(lines) == bytes
    decreases |bytes|
  {
    if bytes == [] {
      return [];
    }
    var at := NewlineAt(bytes);
    if at == |bytes| {
      lines := [Line(bytes, EndOfInput)];
      assert Joined(lines[1..]) == [];
      return;
    }
    var rest := CutExists(bytes[at + 1..]);
    var text := WithoutReturn(bytes[..at]);
    var line := Line(text, if text == bytes[..at] then Lf else CrLf);
    lines := [line] + rest;
    assert bytes[..at + 1] == text + EndingBytes(line.ending);
    assert bytes == bytes[..at + 1] + bytes[at + 1..];
  }
}

/** The buffered source of io/buffered-source.ts, whose peek and slice views are further instances over one window. */
module BufferedSources {
  import opened Wrappers
  import opened Octets
  import opened Parts
  import opened ByteQueues
  import opened RetentionWindows
  import opened Lines

  const READ_CHUNK := 16384

  /** What a turn of the newline scan answers when it has not ended; no position and not `END_OF_STREAM`. */
  const CONTINUE := -2

  /** At most `count` bytes of `bytes`, starting `offset` ahead; an offset past the end gives none. */
  function Window(bytes: seq<Byte>, offset: nat, count: Option<nat>): seq<Byte> {
    var from := Min(offset, |bytes|);
    bytes[from..if count.Some? then Min(from + count.value, |bytes|) else |bytes|]
  }

  function Less(budget: nat, used: nat): nat {
    if used <= budget then budget - used else 0
  }

  /** A slice of a slice is the slice at the summed offset, capped by what the outer one has left. */
  lemma SliceOfSliceIsAdditive(bytes: seq<Byte>, outer: nat, outerCount: nat, inner: nat, innerCount: nat)
    ensures Window(Window(bytes, outer, Some(outerCount)), inner, Some(innerCount))
            == Window(bytes, outer + inner, Some(Min(innerCount, Less(outerCount, inner))))
  {
    WindowOfWindow(bytes, outer, Some(outerCount), inner, innerCount);
  }

  lemma WindowTail(bytes: seq<Byte>, start: nat, limit: Option<nat>, passed: nat)
    requires passed <= |Window(bytes, start, limit)|
    ensures Window(bytes, start, limit)[passed..]
            == Window(bytes, start + passed, if limit.None? then None else Some(Less(limit.value, passed)))
  {
    var from := Min(start, |bytes|);
    var to := if limit.Some? then Min(from + limit.value, |bytes|) else |bytes|;
    assert Min(start + passed, |bytes|) == from + passed;
  }

  lemma WindowOfWindow(bytes: seq<Byte>, at: nat, limit: Option<nat>, offset: nat, count: nat)
    ensures var budget := if limit.Some? then Min(count, Less(limit.value, offset)) else count;
            Window(Window(bytes, at, limit), offset, Some(count)) == Window(bytes, at + offset, Some(budget))
  {
    var first := Window(bytes, at, limit);
    var nested := Window(first, offset, Some(count));
    var budget := if limit.Some? then Min(count, Less(limit.value, offset)) else count;
    var direct := Window(bytes, at + offset, Some(budget));
    assert |nested| == |direct|;
    var from := Min(at, |bytes|);
    forall i | 0 <= i < |nested|
      ensures nested[i] == direct[i]
    {
      assert nested[i] == first[offset + i] == bytes[from + (offset + i)];
    }
  }

  lemma SameTail(a: seq<Byte>, b: seq<Byte>, at: nat, from: nat, to: nat)
    requires from <= to <= |a| && at + to <= |b| && a[..to] == b[at..at + to]
    ensures a[from..to] == b[at + from..at + to]
  {
    assert a[from..to] == a[..to][from..];
    assert b[at + from..at + to] == b[at..at + to][from..];
  }

  class BufferedSource {
    const window: RetentionWindow
    const cursor: Cursor
    const ownsWindow: bool
    const limit: Option<nat>
    const startedAt: nat
    var closed: bool

    /** Every byte passed so far is accounted for: the cursor stands where the delivered bytes end. */
    ghost predicate Placed()
      reads cursor
    {
      && startedAt <= cursor.at
      && (cursor.at <= |window.stream| || cursor.at == startedAt)
      && (limit.Some? ==> cursor.at - startedAt <= limit.value)
    }

    ghost predicate Valid()
      reads this, cursor, window, window.queue, window.queue.nodes, window.cursors
    {
      && window.Valid() && Placed()
      && (!closed && !window.closed ==> cursor in window.cursors)
    }

    ghost predicate Open()
      reads this, window
    {
      !closed && !window.closed
    }

    /** The whole of what this source can ever deliver. */
    ghost function Extent(): seq<Byte> {
      Window(window.stream, startedAt, limit)
    }

    ghost function Delivered(): seq<Byte>
      requires Placed()
      reads cursor
    {
      Extent()[..Passed()]
    }

    /** What is still ahead of the cursor. */
    ghost function Ahead(): seq<Byte>
      requires Placed()
      reads cursor
    {
      Extent()[Passed()..]
    }

    ghost function Passed(): (n: nat)
      requires Placed()
      reads cursor
      ensures n <= |Extent()|
    {
      cursor.at - startedAt
    }

    function RemainingBudget(): Option<nat>
      requires startedAt <= cursor.at
      reads cursor
    {
      if limit.None? then None else Some(Less(limit.value, cursor.at - startedAt))
    }

    lemma AheadIsWindow()
      requires Placed()
      ensures Ahead() == Window(window.stream, cursor.at, RemainingBudget())
    {
      WindowTail(window.stream, startedAt, limit, cursor.at - startedAt);
    }

    /** Nothing is ahead exactly at the end of the stream or of the budget. */
    lemma AheadEmpty()
      requires Placed()
      ensures Ahead() == [] <==> |window.stream| <= cursor.at || RemainingBudget() == Some(0)
    {
      AheadIsWindow();
    }

    lemma AheadStarts(n: nat)
      requires Placed() && cursor.at + n <= |window.stream|
      requires RemainingBudget().Some? ==> n <= RemainingBudget().value
      ensures n <= |Ahead()| && Ahead()[..n] == window.stream[cursor.at..cursor.at + n]
    {
      AheadIsWindow();
    }

    constructor Over(window: RetentionWindow, cursor: Cursor, ownsWindow: bool, limit: Option<nat>)
      requires window.Valid() && (!window.closed ==> cursor in window.cursors)
      ensures this.window == window && this.cursor == cursor && this.ownsWindow == ownsWindow
      ensures this.limit == limit && startedAt == cursor.at && !closed
      ensures Valid() && Delivered() == []
    {
      this.window, this.cursor, this.ownsWindow, this.limit := window, cursor, ownsWindow, limit;
      startedAt, closed := cursor.at, false;
    }

    /** `n` more bytes have been passed: delivered is longer by exactly those, ahead shorter. */
    twostate predicate Advanced(n: nat)
      reads cursor
    {
      && old(Placed()) && Placed()
      && n <= |old(Ahead())|
      && Ahead() == old(Ahead())[n..]
      && Delivered() == old(Delivered()) + old(Ahead())[..n]
      && cursor.at == old(cursor.at) + n
    }

    twostate lemma AdvancedBy(n: nat)
      requires old(Placed()) && cursor.at == old(cursor.at) + n
      requires n <= |old(Ahead())|
      ensures Placed() && Advanced(n)
    {
      ghost var extent, passed := Extent(), old(Passed());
      assert extent[passed..][n..] == extent[passed + n..];
      assert extent[..passed] + extent[passed..][..n] == extent[..passed + n];
    }

    /** What every operation leaves true of the shared window: it holds on to its queue, pulls forwards only, and a
        cursor that moved moved over pulled bytes. */
    twostate predicate WindowKept()
      reads cursor, window, window.queue, window.cursors
    {
      && fresh(window.queue.nodes - old(window.queue.nodes))
      && old(window.pulledThrough) <= window.pulledThrough
      && (cursor.at <= window.pulledThrough || cursor.at == old(cursor.at))
      && (old(window.Tight()) ==> window.Tight())
      && (WellFormed(old(window.pending)) ==> WellFormed(window.pending))
    }

    /** How many bytes a read that answered `r` has passed. */
    function Taken(r: Result<int, SourceError>): (n: int)
      ensures 0 <= n
    {
      if r.Ok? && r.value > 0 then r.value else 0
    }

    /** What a read onto `dest` answers and does: `END_OF_STREAM` exactly when some bytes are wanted and none are ahead,
        otherwise at least one of those wanted. A failing read delivers nothing. */
    twostate predicate ReadAnswers(dest: ByteQueue, count: nat, r: Result<int, SourceError>)
      reads cursor, dest
    {
      && old(Placed()) && Taken(r) <= |old(Ahead())|
      && dest.Contents() == old(dest.Contents()) + old(Ahead())[..Taken(r)]
      && (r.Err? ==> !r.error.Short?)
      && (r.Ok? ==>
            && (r.value == END_OF_STREAM || 0 <= r.value <= count)
            && (r.value == END_OF_STREAM <==> count > 0 && old(Ahead()) == [])
            && (r.value == 0 <==> count == 0))
    }

    /** Reads up to `count` bytes onto `dest`. */
    method Read(dest: ByteQueue, count: nat) returns (r: Result<int, SourceError>)
      requires Valid() && dest.Valid() && window.queue.Apart(dest)
      modifies window`pending, window`pulledThrough, window`exhausted, window`retainedFrom
      modifies window.queue, window.queue.nodes, cursor, dest, dest.nodes
      ensures Valid() && dest.Valid() && window.queue.Apart(dest) && WindowKept()
      ensures fresh(dest.nodes - old(dest.nodes))
      ensures Advanced(Taken(r)) && ReadAnswers(dest, count, r)
      ensures Open() == old(Open()) && ((r.Err? && r.error == Closed) <==> !Open())
      ensures WellFormed(old(window.pending)) ==> (r.Ok? <==> Open())
    {
      if closed || window.closed {
        r := Err(Closed);
        assert old(Ahead())[..0] == [];
      } else {
        r := ReadOpen(dest, count);
      }
      AdvancedBy(Taken(r));
    }

    method ReadOpen(dest: ByteQueue, count: nat) returns (r: Result<int, SourceError>)
      requires Valid() && Open() && dest.Valid() && window.queue.Apart(dest)
      modifies window`pending, window`pulledThrough, window`exhausted, window`retainedFrom
      modifies window.queue, window.queue.nodes, cursor, dest, dest.nodes
      ensures window.Valid() && Open() && dest.Valid() && window.queue.Apart(dest) && WindowKept()
      ensures fresh(dest.nodes - old(dest.nodes))
      ensures r.Err? ==> r.error != Closed && !r.error.Short?
      ensures r.Ok? ==>
                if count == 0 then r.value == 0
                else if old(Ahead()) == [] then r.value == END_OF_STREAM
                else 0 < r.value <= count
      ensures Taken(r) <= |old(Ahead())| && cursor.at == old(cursor.at) + Taken(r)
      ensures dest.Contents() == old(dest.Contents()) + old(Ahead())[..Taken(r)]
      ensures WellFormed(old(window.pending)) ==> r.Ok?
    {
      AheadEmpty();
      var budget := RemainingBudget();
      var want := if budget.Some? then Min(count, budget.value) else count;
      if want == 0 {
        r := Ok(if count == 0 then 0 else END_OF_STREAM);
        assert old(Ahead())[..0] == [];
      } else {
        r := ReadSome(dest, want);
      }
    }

    method ReadSome(dest: ByteQueue, want: nat) returns (r: Result<int, SourceError>)
      requires Valid() && dest.Valid() && window.queue.Apart(dest)
      requires Open() && want > 0 && (RemainingBudget().Some? ==> want <= RemainingBudget().value)
      modifies window`pending, window`pulledThrough, window`exhausted, window`retainedFrom
      modifies window.queue, window.queue.nodes, cursor, dest, dest.nodes
      ensures window.Valid() && dest.Valid() && window.queue.Apart(dest) && WindowKept()
      ensures fresh(dest.nodes - old(dest.nodes))
      ensures r.Err? ==> r.error != Closed && !r.error.Short?
      ensures r.Ok? ==> if old(Ahead()) == [] then r.value == END_OF_STREAM else 0 < r.value <= want
      ensures Taken(r) <= |old(Ahead())| && cursor.at == old(cursor.at) + Taken(r)
      ensures dest.Contents() == old(dest.Contents()) + old(Ahead())[..Taken(r)]
      ensures WellFormed(old(window.pending)) ==> r.Ok?
    {
      var available := PullOne(dest);
      assert Ahead() == old(Ahead()) && dest.Contents() == old(dest.Contents());
      if available.Ok? && available.value {
        var taken := Take(dest, want);
        assert WindowKept();
        r := Ok(taken);
      } else {
        r := if available.Ok? then Ok(END_OF_STREAM) else Err(available.error);
      }
    }

    /** Makes the next byte available, and touches nothing of `dest`; false when there is none. */
    method PullOne(ghost dest: ByteQueue) returns (r: Result<bool, SourceError>)
      requires Valid() && Open() && RemainingBudget() != Some(0) && dest.Valid() && window.queue.Apart(dest)
      modifies window`pending, window`pulledThrough, window`exhausted, window.queue, window.queue.nodes
      ensures Valid() && Open() && WindowKept()
      ensures dest.Valid() && window.queue.Apart(dest) && dest.nodes == old(dest.nodes)
      ensures r.Ok? ==> if r.value then cursor.at < window.pulledThrough && Ahead() != [] else Ahead() == []
      ensures r.Err? ==> r.error != Closed && !r.error.Short?
      ensures WellFormed(old(window.pending)) ==> r.Ok?
    {
      AheadEmpty();
      r := window.PullThrough(cursor.at + 1);
    }

    method Take(dest: ByteQueue, want: nat) returns (taken: nat)
      requires Valid() && dest.Valid() && window.queue.Apart(dest)
      requires Open() && cursor.at < window.pulledThrough
      requires want > 0 && (RemainingBudget().Some? ==> want <= RemainingBudget().value)
      modifies window`retainedFrom, window.queue, window.queue.nodes, cursor, dest, dest.nodes
      ensures window.Valid() && dest.Valid() && window.queue.Apart(dest)
      ensures fresh(window.queue.nodes - old(window.queue.nodes)) && fresh(dest.nodes - old(dest.nodes))
      ensures 0 < taken <= want && taken <= |old(Ahead())| && cursor.at == old(cursor.at) + taken <= window.pulledThrough
      ensures dest.Contents() == old(dest.Contents()) + old(Ahead())[..taken]
      ensures old(window.Tight()) ==> window.Tight()
    {
      AheadStarts(Min(want, window.pulledThrough - cursor.at));
      var read := window.ReadInto(cursor, dest, want);
      taken := read.value;
      assert old(Ahead())[..taken] == window.stream[old(cursor.at)..cursor.at];
    }

    /** `staging` holds what has been read since the cursor stood at `from` with `all` ahead of it. */
    ghost predicate Staged(staging: ByteQueue, from: nat, all: seq<Byte>)
      reads this, cursor, window, window.queue, window.queue.nodes, window.cursors, staging, staging.nodes
    {
      && Valid() && staging.Valid() && window.queue.Apart(staging)
      && staging.size <= |all| && cursor.at == from + staging.size
      && staging.Contents() == all[..staging.size] && Ahead() == all[staging.size..]
    }

    method StageMore(staging: ByteQueue, want: nat, ghost from: nat, ghost all: seq<Byte>)
      returns (r: Result<int, SourceError>)
      requires Staged(staging, from, all) && Open() && want > 0
      modifies window`pending, window`pulledThrough, window`exhausted, window`retainedFrom
      modifies window.queue, window.queue.nodes, cursor, staging, staging.nodes
      ensures Staged(staging, from, all) && Open() && WindowKept() && fresh(staging.nodes - old(staging.nodes))
      ensures r.Err? ==> r.error != Closed && !r.error.Short?
      ensures r.Ok? && r.value == END_OF_STREAM ==> staging.size == |all|
      ensures r.Ok? && r.value != END_OF_STREAM ==> old(staging.size) < staging.size <= old(staging.size) + want
      ensures r.Err? || r.value == END_OF_STREAM ==> staging.size == old(staging.size)
      ensures WellFormed(old(window.pending)) ==> r.Ok?
    {
      ghost var held := staging.size;
      r := Read(staging, want);
      RotateFurther(all, held, Taken(r));
    }

    /** Reads until `staging` holds `count` bytes, or fails with what it holds by then. */
    method Fill(staging: ByteQueue, count: nat, ghost from: nat, ghost all: seq<Byte>) returns (r: Result<(), SourceError>)
      requires Staged(staging, from, all) && Open() && staging.size <= count
      modifies window`pending, window`pulledThrough, window`exhausted, window`retainedFrom
      modifies window.queue, window.queue.nodes, cursor, staging, staging.nodes
      ensures Staged(staging, from, all) && Open() && WindowKept() && fresh(staging.nodes - old(staging.nodes))
      ensures r.Ok? ==> staging.size == count
      ensures r.Err? ==> r.error != Closed
      ensures r.Err? && r.error.Short? ==> r.error == Short(|all|, count) && |all| < count && staging.size == |all|
      ensures WellFormed(old(window.pending)) ==> if count <= |all| then r.Ok? else r.Err? && r.error.Short?
    {
      while staging.size < count
        invariant Staged(staging, from, all) && Open() && staging.size <= count
        invariant WindowKept() && fresh(staging.nodes - old(staging.nodes))
        decreases count - staging.size
      {
        var read := StageMore(staging, count - staging.size, from, all);
        if read.Err? {
          return Err(read.error);
        }
        if read.value == END_OF_STREAM {
          return Err(Short(staging.size, count));
        }
      }
      return Ok(());
    }

    method Gather(count: nat) returns (r: Result<(), SourceError>, staging: ByteQueue)
      requires Valid() && Open()
      modifies window`pending, window`pulledThrough, window`exhausted, window`retainedFrom
      modifies window.queue, window.queue.nodes, cursor
      ensures Valid() && Open() && WindowKept() && staging.Valid() && fresh(staging) && staging != window.queue
      ensures staging.size <= |old(Ahead())| && Advanced(staging.size)
      ensures staging.Contents() == old(Ahead())[..staging.size]
      ensures r.Ok? ==> staging.size == count
      ensures r.Err? ==> r.error != Closed
      ensures r.Err? && r.error.Short? ==> r.error == Short(|old(Ahead())|, count) && staging.size == |old(Ahead())| < count
      ensures WellFormed(old(window.pending)) ==> if count <= |old(Ahead())| then r.Ok? else r.Err? && r.error.Short?
    {
      ghost var from, all := cursor.at, Ahead();
      staging := new ByteQueue();
      r := Fill(staging, count, from, all);
      AdvancedBy(staging.size);
    }

    /** Copies the staged bytes out, which touches nothing of this source or its window. */
    method Snapshot(staging: ByteQueue) returns (bytes: seq<Byte>)
      requires Valid() && staging.Valid() && staging != window.queue
      modifies staging`seekChunk, staging`seekStart, staging`seekGeneration, staging`seekIndex, staging`visits
      ensures bytes == staging.Contents() == old(staging.Contents())
      ensures Valid() && Open() == old(Open()) && window.Tight() == old(window.Tight())
      ensures window.queue.nodes == old(window.queue.nodes) && cursor.at == old(cursor.at)
      ensures window.pulledThrough == old(window.pulledThrough) && window.pending == old(window.pending)
    {
      bytes := staging.Snapshot();
    }

    /** Exactly `count` bytes, or a failure that says how many there were. */
    method ReadExactly(count: nat) returns (r: Result<seq<Byte>, SourceError>)
      requires Valid()
      modifies window`pending, window`pulledThrough, window`exhausted, window`retainedFrom
      modifies window.queue, window.queue.nodes, cursor
      ensures Valid() && WindowKept()
      ensures old(cursor.at) <= cursor.at && Advanced(cursor.at - old(cursor.at))
      ensures r.Ok? ==> |r.value| == count && cursor.at == old(cursor.at) + count && r.value == old(Ahead())[..count]
      ensures r.Err? && r.error.Short? ==> r.error == Short(|old(Ahead())|, count) && |old(Ahead())| < count && Ahead() == []
      ensures Open() == old(Open()) && ((r.Err? && r.error == Closed) <==> !Open())
      ensures !Open() ==> cursor.at == old(cursor.at)
      ensures WellFormed(old(window.pending)) && Open() ==>
                if count <= |old(Ahead())| then r.Ok? else r.Err? && r.error.Short?
    {
      if closed || window.closed {
        AdvancedBy(0);
        return Err(Closed);
      }
      var gathered, staging := Gather(count);
      if gathered.Err? {
        r := Err(gathered.error);
      } else {
        var bytes := Snapshot(staging);
        r := Ok(bytes);
      }
    }

    method GatherAll() returns (r: Result<(), SourceError>, staging: ByteQueue)
      requires Valid() && Open()
      modifies window`pending, window`pulledThrough, window`exhausted, window`retainedFrom
      modifies window.queue, window.queue.nodes, cursor
      ensures Valid() && Open() && WindowKept() && staging.Valid() && fresh(staging) && staging != window.queue
      ensures staging.size <= |old(Ahead())| && Advanced(staging.size)
      ensures staging.Contents() == old(Ahead())[..staging.size]
      ensures r.Ok? ==> staging.size == |old(Ahead())|
      ensures r.Err? ==> r.error != Closed
      ensures WellFormed(old(window.pending)) ==> r.Ok?
    {
      ghost var from, all := cursor.at, Ahead();
      staging := new ByteQueue();
      r := FillAll(staging, from, all);
      AdvancedBy(staging.size);
    }

    method FillAll(staging: ByteQueue, ghost from: nat, ghost all: seq<Byte>) returns (r: Result<(), SourceError>)
      requires Staged(staging, from, all) && Open()
      modifies window`pending, window`pulledThrough, window`exhausted, window`retainedFrom
      modifies window.queue, window.queue.nodes, cursor, staging, staging.nodes
      ensures Staged(staging, from, all) && Open() && WindowKept() && fresh(staging.nodes - old(staging.nodes))
      ensures r.Ok? ==> staging.size == |all|
      ensures r.Err? ==> r.error != Closed
      ensures WellFormed(old(window.pending)) ==> r.Ok?
    {
      while true
        invariant Staged(staging, from, all) && Open()
        invariant WindowKept() && fresh(staging.nodes - old(staging.nodes))
        decreases |all| - staging.size
      {
        var read := StageMore(staging, READ_CHUNK, from, all);
        if read.Err? {
          return Err(read.error);
        }
        if read.value == END_OF_STREAM {
          return Ok(());
        }
      }
    }

    /** Every byte still ahead. */
    method ReadBytes() returns (r: Result<seq<Byte>, SourceError>)
      requires Valid()
      modifies window`pending, window`pulledThrough, window`exhausted, window`retainedFrom
      modifies window.queue, window.queue.nodes, cursor
      ensures Valid() && WindowKept()
      ensures old(cursor.at) <= cursor.at && Advanced(cursor.at - old(cursor.at))
      ensures r.Ok? ==> r.value == old(Ahead()) && Ahead() == []
      ensures Open() == old(Open()) && ((r.Err? && r.error == Closed) <==> !Open())
      ensures !Open() ==> cursor.at == old(cursor.at)
      ensures WellFormed(old(window.pending)) ==> (r.Ok? <==> Open())
    {
      if closed || window.closed {
        AdvancedBy(0);
        return Err(Closed);
      }
      var gathered, staging := GatherAll();
      if gathered.Err? {
        return Err(gathered.error);
      }
      var bytes := Snapshot(staging);
      return Ok(bytes);
    }

    /** Where the next newline is, relative to the cursor; the cursor stays where it is. */
    method ScanForNewline() returns (r: Result<int, SourceError>)
      requires Valid() && Open()
      modifies window`pending, window`pulledThrough, window`exhausted, window.queue, window.queue.nodes
      ensures Valid() && Open() && WindowKept()
      ensures r.Ok? ==> r.value == if NEWLINE in Ahead() then NewlineAt(Ahead()) else END_OF_STREAM
      ensures r.Err? ==> r.error != Closed
      ensures WellFormed(old(window.pending)) ==> r.Ok?
    {
      ghost var ahead := Ahead();
      var searched: nat := 0;
      while true
        invariant Valid() && Open() && WindowKept() && Ahead() == ahead
        invariant searched <= |ahead| && NEWLINE !in ahead[..searched]
        decreases |ahead| - searched, if window.pulledThrough <= cursor.at + searched then 1 else 0
      {
        r, searched := ScanTurn(searched);
        if r.Err? || r.value != CONTINUE {
          return;
        }
      }
    }

    /** One turn of the scan: searches what is pulled, then pulls on; `CONTINUE` when there is more to search. */
    method ScanTurn(searched: nat) returns (r: Result<int, SourceError>, available: nat)
      requires Valid() && Open() && searched <= |Ahead()| && NEWLINE !in Ahead()[..searched]
      modifies window`pending, window`pulledThrough, window`exhausted, window.queue, window.queue.nodes
      ensures Valid() && Open() && WindowKept() && Ahead() == old(Ahead())
      ensures searched <= available <= |Ahead()| && NEWLINE !in Ahead()[..available]
      ensures r.Ok? && r.value == CONTINUE ==>
                && cursor.at + available < window.pulledThrough
                && (searched < available || old(window.pulledThrough) <= cursor.at + searched)
      ensures r.Ok? && r.value != CONTINUE ==> r.value == if NEWLINE in Ahead() then NewlineAt(Ahead()) else END_OF_STREAM
      ensures r.Err? ==> r.error != Closed
      ensures WellFormed(old(window.pending)) ==> r.Ok?
    {
      var found, end := SearchPulled(searched);
      if found < end {
        r, available := Ok(found), searched;
      } else {
        var more := PullPast(end);
        r := if more.Err? then Err(more.error) else Ok(if more.value then CONTINUE else END_OF_STREAM);
        available := end;
      }
    }

    /** Makes a byte beyond the first `searched` available; false when the budget or the stream has none. */
    method PullPast(searched: nat) returns (r: Result<bool, SourceError>)
      requires Valid() && Open()
      modifies window`pending, window`pulledThrough, window`exhausted, window.queue, window.queue.nodes
      ensures Valid() && Open() && WindowKept()
      ensures r.Ok? && r.value ==> cursor.at + searched < window.pulledThrough && RemainingBudget() != Some(searched)
      ensures r.Ok? && !r.value ==> |Ahead()| <= searched
      ensures r.Err? ==> r.error != Closed
      ensures WellFormed(old(window.pending)) ==> r.Ok?
    {
      AheadIsWindow();
      var budget := RemainingBudget();
      if budget.Some? && budget.value <= searched {
        return Ok(false);
      }
      r := window.PullThrough(cursor.at + searched + 1);
    }

    /** Searches the bytes already pulled beyond the first `searched`; `found == available` when there is none. */
    method SearchPulled(searched: nat) returns (found: nat, available: nat)
      requires Valid() && Open() && searched <= |Ahead()| && NEWLINE !in Ahead()[..searched]
      modifies window.queue`seekChunk, window.queue`seekStart, window.queue`seekGeneration
      modifies window.queue`seekIndex, window.queue`visits
      ensures Valid()
      ensures searched <= available <= |Ahead()| && found <= available
      ensures found < available ==> NEWLINE in Ahead() && found == NewlineAt(Ahead())
      ensures found == available ==> NEWLINE !in Ahead()[..available]
      ensures cursor.at + searched < window.pulledThrough ==> searched < available || RemainingBudget() == Some(searched)
    {
      var pulled := window.AvailableFrom(cursor);
      var budget := RemainingBudget();
      available := if budget.Some? then Min(pulled.value, budget.value) else pulled.value;
      if available <= searched {
        found, available := searched, searched;
      } else {
        var tail := PeekPulled(searched, available);
        NewlineInPrefix(Ahead(), searched, tail);
        found := searched + NewlineAt(tail);
      }
    }

    /** The bytes ahead between `from` and `to`, all of them already pulled and within the budget. */
    method PeekPulled(from: nat, to: nat) returns (bytes: seq<Byte>)
      requires Valid() && Open() && from < to && cursor.at + to <= window.pulledThrough
      requires RemainingBudget().Some? ==> to <= RemainingBudget().value
      modifies window.queue`seekChunk, window.queue`seekStart, window.queue`seekGeneration
      modifies window.queue`seekIndex, window.queue`visits
      ensures Valid() && to <= |Ahead()| && bytes == Ahead()[from..to]
    {
      AheadStarts(to);
      SameTail(Ahead(), window.stream, cursor.at, from, to);
      var peeked := window.PeekBytes(cursor, from, to - from);
      return peeked.value;
    }

    /** The next line without its terminator, and `None` exactly when nothing is ahead. */
    method ReadLine() returns (r: Result<Option<seq<Byte>>, SourceError>)
      requires Valid()
      modifies window`pending, window`pulledThrough, window`exhausted, window`retainedFrom
      modifies window.queue, window.queue.nodes, cursor
      ensures Valid() && WindowKept()
      ensures old(cursor.at) <= cursor.at && Advanced(cursor.at - old(cursor.at))
      ensures r.Ok? ==> (r.value.None? <==> old(Ahead()) == [])
      ensures r.Ok? ==> Ahead() == AfterFirstLine(old(Ahead()))
      ensures r.Ok? && r.value.Some? ==> r.value.value == FirstLine(old(Ahead()))
      ensures Open() == old(Open()) && ((r.Err? && r.error == Closed) <==> !Open())
      ensures !Open() ==> cursor.at == old(cursor.at)
      ensures WellFormed(old(window.pending)) ==> (r.Ok? <==> Open())
    {
      if closed || window.closed {
        AdvancedBy(0);
        return Err(Closed);
      }
      r := ReadLineOpen();
      AdvancedBy(cursor.at - old(cursor.at));
    }

    method ReadLineOpen() returns (r: Result<Option<seq<Byte>>, SourceError>)
      requires Valid() && Open()
      modifies window`pending, window`pulledThrough, window`exhausted, window`retainedFrom
      modifies window.queue, window.queue.nodes, cursor
      ensures Valid() && Open() && WindowKept()
      ensures 0 <= cursor.at - old(cursor.at) <= |old(Ahead())|
      ensures r.Ok? ==> (r.value.None? <==> old(Ahead()) == [])
      ensures r.Ok? ==> Ahead() == AfterFirstLine(old(Ahead()))
      ensures r.Ok? && r.value.Some? ==> r.value.value == FirstLine(old(Ahead()))
      ensures r.Err? ==> r.error != Closed
      ensures WellFormed(old(window.pending)) ==> r.Ok?
    {
      var scanned := ScanForNewline();
      if scanned.Err? {
        return Err(scanned.error);
      }
      if scanned.value == END_OF_STREAM {
        r := ReadLastLine();
      } else {
        r := ReadEndedLine(scanned.value);
      }
    }

    method ReadLastLine() returns (r: Result<Option<seq<Byte>>, SourceError>)
      requires Valid() && Open() && NEWLINE !in Ahead()
      modifies window`pending, window`pulledThrough, window`exhausted, window`retainedFrom
      modifies window.queue, window.queue.nodes, cursor
      ensures Valid() && Open() && WindowKept()
      ensures 0 <= cursor.at - old(cursor.at) <= |old(Ahead())|
      ensures r.Ok? ==> r.value == (if old(Ahead()) == [] then None else Some(old(Ahead()))) && Ahead() == []
      ensures r.Err? ==> r.error != Closed
      ensures WellFormed(old(window.pending)) ==> r.Ok?
    {
      var rest := ReadBytes();
      if rest.Err? {
        return Err(rest.error);
      }
      return Ok(if rest.value == [] then None else Some(rest.value));
    }

    method ReadEndedLine(at: nat) returns (r: Result<Option<seq<Byte>>, SourceError>)
      requires Valid() && Open() && at < |Ahead()| && at == NewlineAt(Ahead())
      modifies window`pending, window`pulledThrough, window`exhausted, window`retainedFrom
      modifies window.queue, window.queue.nodes, cursor
      ensures Valid() && Open() && WindowKept()
      ensures 0 <= cursor.at - old(cursor.at) <= |old(Ahead())|
      ensures r.Ok? ==> r.value == Some(WithoutReturn(old(Ahead())[..at])) && Ahead() == old(Ahead())[at + 1..]
      ensures r.Err? ==> r.error != Closed
      ensures WellFormed(old(window.pending)) ==> r.Ok?
    {
      ghost var ahead := Ahead();
      var line := ReadExactly(at + 1);
      if line.Err? {
        return Err(line.error);
      }
      var end := if at > 0 && line.value[at - 1] == CARRIAGE_RETURN then at - 1 else at;
      assert line.value[..at] == ahead[..at] && line.value[..end] == WithoutReturn(ahead[..at]);
      return Ok(Some(line.value[..end]));
    }

    /** Reading line after line until there is none yields the split of what was ahead. */
    method ReadLines() returns (r: Result<seq<seq<Byte>>, SourceError>)
      requires Valid()
      modifies window`pending, window`pulledThrough, window`exhausted, window`retainedFrom
      modifies window.queue, window.queue.nodes, cursor
      ensures Valid()
      ensures r.Ok? ==> r.value == Split(old(Ahead())) && Ahead() == []
      ensures WellFormed(old(window.pending)) ==> (r.Ok? <==> Open())
    {
      ghost var all := Ahead();
      var lines := [];
      while true
        invariant Valid() && WindowKept() && Open() == old(Open()) && Split(all) == lines + Split(Ahead())
        decreases |Ahead()|
      {
        ghost var ahead := Ahead();
        var line := ReadLine();
        if line.Err? {
          return Err(line.error);
        }
        if line.value.None? {
          return Ok(lines);
        }
        assert Split(ahead) == [line.value.value] + Split(Ahead());
        OneMoreLine(lines, line.value.value, Split(Ahead()));
        lines := lines + [line.value.value];
      }
    }

    /** True exactly when nothing is ahead. */
    method Exhausted() returns (r: Result<bool, SourceError>)
      requires Valid()
      modifies window`pending, window`pulledThrough, window`exhausted, window.queue, window.queue.nodes
      ensures Valid() && WindowKept() && Open() == old(Open())
      ensures r.Ok? ==> (r.value <==> Ahead() == [])
      ensures (r.Err? && r.error == Closed) <==> !Open()
      ensures WellFormed(old(window.pending)) ==> (r.Ok? <==> Open())
    {
      if closed || window.closed {
        return Err(Closed);
      }
      AheadEmpty();
      if RemainingBudget() == Some(0) {
        return Ok(true);
      }
      var more := window.PullThrough(cursor.at + 1);
      return if more.Ok? then Ok(!more.value) else Err(more.error);
    }

    /** A view over everything still ahead; its reads leave this source where it is. */
    method Peek() returns (r: Result<BufferedSource, SourceError>)
      requires Valid()
      modifies window`cursors
      ensures Valid() && Open() == old(Open()) && (r.Err? <==> !Open()) && (r.Err? ==> r.error == Closed)
      ensures r.Ok? ==> IsViewOf(r.value, Ahead())
      ensures r.Ok? ==> window.cursors == old(window.cursors) + {r.value.cursor}
      ensures r.Err? ==> window.cursors == old(window.cursors)
      ensures old(window.Tight()) ==> window.Tight()
    {
      if closed || window.closed {
        return Err(Closed);
      }
      AheadIsWindow();
      var view := ViewFrom(cursor.at, RemainingBudget());
      return Ok(view);
    }

    /** A cursor of its own on the shared window, and a source over it. */
    method ViewFrom(at: nat, budget: Option<nat>) returns (view: BufferedSource)
      requires Valid() && Open() && cursor.at <= at
      modifies window`cursors
      ensures Valid() && Open() && IsViewOf(view, Window(window.stream, at, budget))
      ensures window.cursors == old(window.cursors) + {view.cursor}
      ensures old(window.Tight()) ==> window.Tight()
    {
      var registered := window.Register(at);
      view := new BufferedSource.Over(window, registered.value, false, budget);
    }

    /** A view of at most `count` bytes starting `offset` ahead; past the end it is empty. */
    method Slice(offset: nat, count: nat) returns (r: Result<BufferedSource, SourceError>)
      requires Valid()
      modifies window`cursors
      ensures Valid() && Open() == old(Open()) && (r.Err? <==> !Open()) && (r.Err? ==> r.error == Closed)
      ensures r.Ok? ==> IsViewOf(r.value, Window(Ahead(), offset, Some(count)))
      ensures r.Ok? ==> window.cursors == old(window.cursors) + {r.value.cursor}
      ensures r.Err? ==> window.cursors == old(window.cursors)
      ensures old(window.Tight()) ==> window.Tight()
    {
      if closed || window.closed {
        return Err(Closed);
      }
      var left := RemainingBudget();
      var budget := if left.Some? then Min(count, Less(left.value, offset)) else count;
      SliceOfAhead(offset, count);
      ghost var bytes := Window(Ahead(), offset, Some(count));
      var view := ViewFrom(cursor.at + offset, Some(budget));
      assert view.Extent() == bytes == Window(Ahead(), offset, Some(count));
      return Ok(view);
    }

    lemma SliceOfAhead(offset: nat, count: nat)
      requires Placed()
      ensures var left := RemainingBudget();
              var budget := if left.Some? then Min(count, Less(left.value, offset)) else count;
              Window(Ahead(), offset, Some(count)) == Window(window.stream, cursor.at + offset, Some(budget))
    {
      AheadIsWindow();
      WindowOfWindow(window.stream, cursor.at, RemainingBudget(), offset, count);
    }

    /** A fresh, unread view of the same window whose whole extent is `bytes`. */
    twostate predicate IsViewOf(new view: BufferedSource, bytes: seq<Byte>)
      reads view, view.cursor, window, window.queue, window.queue.nodes, window.cursors
    {
      && fresh(view) && fresh(view.cursor) && view.window == window && !view.ownsWindow && !view.closed
      && view.Valid() && view.Delivered() == [] && view.Extent() == bytes
    }

    /** Advances past exactly `count` bytes, or to the end and fails. */
    method Skip(count: nat) returns (r: Result<(), SourceError>)
      requires Valid()
      modifies window`pending, window`pulledThrough, window`exhausted, window`retainedFrom
      modifies window.queue, window.queue.nodes, cursor
      ensures Valid() && WindowKept()
      ensures old(cursor.at) <= cursor.at && Advanced(cursor.at - old(cursor.at))
      ensures r.Ok? ==> cursor.at == old(cursor.at) + count
      ensures r.Err? && r.error.Short? ==> r.error == Short(|old(Ahead())|, count) && |old(Ahead())| < count && Ahead() == []
      ensures Open() == old(Open()) && ((r.Err? && r.error == Closed) <==> !Open())
      ensures !Open() ==> cursor.at == old(cursor.at)
      ensures WellFormed(old(window.pending)) && Open() ==>
                if count <= |old(Ahead())| then r.Ok? else r.Err? && r.error.Short?
    {
      if closed || window.closed {
        AdvancedBy(0);
        return Err(Closed);
      }
      if count == 0 {
        r := Ok(());
      } else {
        r := SkipOpen(count);
      }
      AdvancedBy(cursor.at - old(cursor.at));
    }

    method SkipOpen(count: nat) returns (r: Result<(), SourceError>)
      requires Valid() && Open()
      modifies window`pending, window`pulledThrough, window`exhausted, window`retainedFrom
      modifies window.queue, window.queue.nodes, cursor
      ensures Valid() && Open() && WindowKept()
      ensures 0 <= cursor.at - old(cursor.at) <= |old(Ahead())|
      ensures r.Ok? ==> cursor.at == old(cursor.at) + count
      ensures r.Err? ==> r.error != Closed
      ensures r.Err? && r.error.Short? ==> r.error == Short(|old(Ahead())|, count) && |old(Ahead())| < count && Ahead() == []
      ensures WellFormed(old(window.pending)) ==> if count <= |old(Ahead())| then r.Ok? else r.Err? && r.error.Short?
    {
      ghost var from, all := cursor.at, Ahead();
      var staging := new ByteQueue();
      ghost var skipped;
      r, skipped := SkipLoop(staging, count, from, all);
    }

    /** `skipped` bytes of the `all` that lay ahead of `from` have been read and thrown away. */
    ghost predicate Passing(staging: ByteQueue, from: nat, all: seq<Byte>, skipped: nat)
      reads this, cursor, window, window.queue, window.queue.nodes, window.cursors, staging, staging.nodes
    {
      && Valid() && Open() && staging.Valid() && window.queue.Apart(staging) && staging.Contents() == []
      && skipped <= |all| && cursor.at == from + skipped && Ahead() == all[skipped..]
    }

    method SkipLoop(staging: ByteQueue, count: nat, ghost from: nat, ghost all: seq<Byte>)
      returns (r: Result<(), SourceError>, ghost passed: nat)
      requires Passing(staging, from, all, 0)
      modifies window`pending, window`pulledThrough, window`exhausted, window`retainedFrom
      modifies window.queue, window.queue.nodes, cursor, staging, staging.nodes
      ensures Passing(staging, from, all, passed) && WindowKept()
      ensures r.Ok? ==> passed == count
      ensures r.Err? ==> r.error != Closed
      ensures r.Err? && r.error.Short? ==> r.error == Short(|all|, count) && |all| < count && passed == |all|
      ensures WellFormed(old(window.pending)) ==> if count <= |all| then r.Ok? else r.Err? && r.error.Short?
    {
      var skipped: nat := 0;
      r, passed := Ok(()), 0;
      while skipped < count
        invariant r.Ok? && skipped == passed <= count && Passing(staging, from, all, passed)
        invariant WindowKept() && fresh(staging.nodes - old(staging.nodes))
        decreases count - skipped
      {
        var turn;
        turn, passed := SkipTurn(staging, skipped, count, from, all);
        assert WindowKept();
        if turn.Err? {
          r := Err(turn.error);
          break;
        }
        skipped := turn.value;
      }
    }

    /** One turn: how many bytes have been skipped after it, or why no more can be. */
    method SkipTurn(staging: ByteQueue, skipped: nat, count: nat, ghost from: nat, ghost all: seq<Byte>)
      returns (r: Result<nat, SourceError>, ghost passed: nat)
      requires Passing(staging, from, all, skipped) && skipped < count
      modifies window`pending, window`pulledThrough, window`exhausted, window`retainedFrom
      modifies window.queue, window.queue.nodes, cursor, staging, staging.nodes
      ensures Passing(staging, from, all, passed) && WindowKept() && fresh(staging.nodes - old(staging.nodes))
      ensures r.Ok? ==> skipped < r.value == passed <= count
      ensures r.Err? ==> r.error != Closed
      ensures r.Err? && r.error.Short? ==> r.error == Short(|all|, count) && |all| < count && passed == |all|
      ensures WellFormed(old(window.pending)) ==> if skipped < |all| then r.Ok? else r.Err? && r.error.Short?
    {
      var read;
      read, passed := PassOver(staging, count - skipped, from, all, skipped);
      r :=
        if read.Err? then Err(read.error)
        else if read.value == END_OF_STREAM then Err(Short(skipped, count))
        else Ok(skipped + read.value);
    }

    /** Reads into `staging` and throws the bytes away. */
    method PassOver(staging: ByteQueue, want: nat, ghost from: nat, ghost all: seq<Byte>, ghost skipped: nat)
      returns (r: Result<int, SourceError>, ghost passed: nat)
      requires Passing(staging, from, all, skipped) && want > 0
      modifies window`pending, window`pulledThrough, window`exhausted, window`retainedFrom
      modifies window.queue, window.queue.nodes, cursor, staging, staging.nodes
      ensures passed == skipped + Taken(r) && Passing(staging, from, all, passed) && WindowKept()
      ensures fresh(staging.nodes - old(staging.nodes))
      ensures r.Err? ==> r.error != Closed && !r.error.Short?
      ensures r.Ok? ==> if skipped == |all| then r.value == END_OF_STREAM else 0 < r.value <= want
      ensures WellFormed(old(window.pending)) ==> r.Ok?
    {
      r := Read(staging, want);
      passed := skipped + Taken(r);
      RotateFurther(all, skipped, Taken(r));
      Drop(staging);
    }

    /** Empties the staging queue, which touches nothing of this source or its window. */
    method Drop(staging: ByteQueue)
      requires Valid() && staging.Valid() && window.queue.Apart(staging)
      modifies staging
      ensures staging.Valid() && staging.Contents() == [] && staging.nodes == old(staging.nodes)
      ensures Valid() && Open() == old(Open()) && window.Tight() == old(window.Tight())
      ensures window.queue.nodes == old(window.queue.nodes) && cursor.at == old(cursor.at)
      ensures window.pulledThrough == old(window.pulledThrough) && window.pending == old(window.pending)
    {
      staging.Clear();
    }

    /** Closing a view releases its cursor alone; closing the owner closes the window under every view and answers what
        tearing it down answers. A second close does nothing. */
    method Close() returns (r: Result<(), SourceError>)
      requires Valid() && window.TornDownOnce()
      modifies this`closed, window`closed, window`closing, window`cancels, window`locked
      modifies window`cursors, window`retainedFrom, window.queue, window.queue.nodes
      ensures Valid() && window.TornDownOnce() && closed && window.queue.nodes == old(window.queue.nodes)
      ensures r == if ownsWindow && !old(closed) then window.Outcome() else Ok(())
      ensures window.closed <==> old(window.closed) || (ownsWindow && !old(closed))
      ensures !window.closed ==> window.cursors == old(window.cursors) - if old(closed) then {} else {cursor}
      ensures !window.closed && old(closed) && old(window.Tight()) ==> window.Tight()
      ensures !window.closed && !old(closed) && (exists c :: c in window.cursors && c.at <= window.pulledThrough) ==>
                window.Tight()
    {
      if closed {
        return Ok(());
      }
      closed := true;
      if ownsWindow {
        r := window.Close();
      } else {
        window.Release(cursor);
        r := Ok(());
      }
    }

    /** One pull of a reader over this source: up to `count` bytes through a staging queue of its own. */
    method ReadChunk(count: nat) returns (r: Result<int, SourceError>, bytes: seq<Byte>)
      requires Valid()
      modifies window`pending, window`pulledThrough, window`exhausted, window`retainedFrom
      modifies window.queue, window.queue.nodes, cursor
      ensures Valid() && WindowKept() && Open() == old(Open())
      ensures Advanced(|bytes|) && bytes == old(Ahead())[..|bytes|] && |bytes| <= count
      ensures if r.Ok? then r.value == END_OF_STREAM || r.value == |bytes| else bytes == []
      ensures r.Ok? ==> (r.value == END_OF_STREAM <==> count > 0 && old(Ahead()) == [])
      ensures r.Ok? && old(Ahead()) != [] ==> (bytes == [] <==> count == 0)
      ensures (r.Err? && r.error == Closed) <==> !Open()
      ensures WellFormed(old(window.pending)) ==> (r.Ok? <==> Open())
    {
      var staging;
      r, staging := ReadStaged(count);
      bytes := Snapshot(staging);
    }

    method ReadStaged(count: nat) returns (r: Result<int, SourceError>, staging: ByteQueue)
      requires Valid()
      modifies window`pending, window`pulledThrough, window`exhausted, window`retainedFrom
      modifies window.queue, window.queue.nodes, cursor
      ensures Valid() && WindowKept() && Open() == old(Open())
      ensures staging.Valid() && fresh(staging) && staging != window.queue
      ensures r.Ok? ==> r.value == END_OF_STREAM || 0 <= r.value <= count
      ensures r.Ok? ==> (r.value == END_OF_STREAM <==> count > 0 && old(Ahead()) == [])
      ensures r.Ok? ==> (r.value == 0 <==> count == 0)
      ensures Advanced(Taken(r)) && staging.Contents() == old(Ahead())[..Taken(r)]
      ensures (r.Err? && r.error == Closed) <==> !Open()
      ensures WellFormed(old(window.pending)) ==> (r.Ok? <==> Open())
    {
      staging := new ByteQueue();
      r := Read(staging, count);
    }
  }
}
