/** What a session of views over one stream owes its callers, said of the bytes ahead of each view alone: each answer is
    about the view it was asked of, and nobody else's bytes move. */
module SourceHistories {
  import opened Wrappers
  import opened Octets
  import opened ByteQueues
  import opened RetentionWindows
  import opened Lines
  import opened BufferedSources

  datatype Op =
    | ReadOp(view: nat, count: nat)
    | ExactOp(view: nat, count: nat)
    | BytesOp(view: nat)
    | LineOp(view: nat)
    | SkipOp(view: nat, count: nat)
    | ExhaustedOp(view: nat)
    | PeekOp(view: nat)
    | SliceOp(view: nat, offset: nat, count: nat)
    | CloseOp(view: nat)

  datatype Answer =
    | Chunk(result: Result<int, SourceError>, bytes: seq<Byte>)
    | AllBytes(read: Result<seq<Byte>, SourceError>)
    | NextLine(line: Result<Option<seq<Byte>>, SourceError>)
    | Skipped(skipped: Result<(), SourceError>)
    | Emptiness(exhausted: Result<bool, SourceError>)
    | Derived(derived: Result<(), SourceError>)
    | Closing(closing: Result<(), SourceError>)
    | NoSuchView

  /** What lies ahead of a view, and whether it still answers. */
  datatype Tail = Tail(ahead: seq<Byte>, open: bool)

  predicate Reads(op: Op) {
    op.ReadOp? || op.ExactOp? || op.BytesOp? || op.LineOp? || op.SkipOp? || op.ExhaustedOp?
  }

  predicate Moves(op: Op, i: nat) {
    op.view == i && Reads(op) && !op.ExhaustedOp?
  }

  function ErrorOf<T>(r: Result<T, SourceError>): Option<SourceError> {
    if r.Err? then Some(r.error) else None
  }

  function Refusal(answer: Answer): Option<SourceError> {
    match answer
    case Chunk(result, _) => ErrorOf(result)
    case AllBytes(read) => ErrorOf(read)
    case NextLine(line) => ErrorOf(line)
    case Skipped(skipped) => ErrorOf(skipped)
    case Emptiness(exhausted) => ErrorOf(exhausted)
    case Derived(derived) => ErrorOf(derived)
    case Closing(closing) => ErrorOf(closing)
    case NoSuchView => None
  }

  /** An answer the stream is not to blame for: it fails only when closed, or for want of the bytes it must have; what
      closing itself answers is the reader's affair. */
  predicate Expected(op: Op, answer: Answer) {
    match Refusal(answer)
    case None => true
    case Some(error) => op.CloseOp? || error.Closed? || (error.Short? && (op.ExactOp? || op.SkipOp?))
  }

  // ------------------------------------------------------------------------------ one operation

  // Each says what an answer means of the bytes that were ahead, `n` of which have been passed.

  /** A read hands out the next bytes, at least one of those wanted unless none are ahead, and none when it fails. */
  predicate ChunkOk(count: nat, result: Result<int, SourceError>, bytes: seq<Byte>, before: seq<Byte>, n: nat)
    requires n <= |before|
  {
    && bytes == before[..n] && n <= count
    && (result.Err? ==> n == 0)
    && (result.Ok? ==>
          && result.value == (if count > 0 && before == [] then END_OF_STREAM else n)
          && (n == 0 <==> count == 0 || before == []))
  }

  predicate ExactOk(count: nat, read: Result<seq<Byte>, SourceError>, before: seq<Byte>, n: nat)
    requires n <= |before|
  {
    match read
    case Ok(bytes) => n == count && bytes == before[..n]
    case Err(error) => ShortOk(count, error, before, n)
  }

  /** A failure for want of bytes says how many there were, and has passed them all. */
  predicate ShortOk(count: nat, error: SourceError, before: seq<Byte>, n: nat) {
    error.Short? ==> |before| == n < count && error == Short(n, count)
  }

  predicate BytesOk(read: Result<seq<Byte>, SourceError>, before: seq<Byte>, n: nat) {
    read.Ok? ==> n == |before| && read.value == before
  }

  predicate LineOk(line: Result<Option<seq<Byte>>, SourceError>, before: seq<Byte>, n: nat)
    requires n <= |before|
  {
    line.Ok? ==>
      line.value == (if before == [] then None else Some(FirstLine(before))) && before[n..] == AfterFirstLine(before)
  }

  predicate SkipOk(count: nat, skipped: Result<(), SourceError>, before: seq<Byte>, n: nat) {
    match skipped
    case Ok(_) => n == count
    case Err(error) => ShortOk(count, error, before, n)
  }

  predicate ContentOk(op: Op, answer: Answer, before: seq<Byte>, n: nat)
    requires n <= |before|
  {
    match op
    case ReadOp(_, count) => answer.Chunk? && ChunkOk(count, answer.result, answer.bytes, before, n)
    case ExactOp(_, count) => answer.AllBytes? && ExactOk(count, answer.read, before, n)
    case BytesOp(_) => answer.AllBytes? && BytesOk(answer.read, before, n)
    case LineOp(_) => answer.NextLine? && LineOk(answer.line, before, n)
    case SkipOp(_, count) => answer.Skipped? && SkipOk(count, answer.skipped, before, n)
    case ExhaustedOp(_) =>
      answer.Emptiness? && n == 0 && (answer.exhausted.Ok? ==> (answer.exhausted.value <==> before == []))
    case _ => false
  }

  predicate Passes(op: Op, answer: Answer, before: Tail, after: Tail, n: nat) {
    && n <= |before.ahead| && after == before.(ahead := before.ahead[n..])
    && (Refusal(answer) == Some(Closed) <==> !before.open)
    && (!before.open ==> n == 0)
    && ContentOk(op, answer, before.ahead, n)
  }

  /** What a view owes whoever reads from it, whatever has become of other views since. */
  ghost predicate AnswerOk(op: Op, answer: Answer, before: Tail, after: Tail) {
    exists n: nat :: Passes(op, answer, before, after, n)
  }

  // ------------------------------------------------------------------------------- all the views

  /** What a new view has ahead of it. */
  function DerivedBytes(op: Op, ahead: seq<Byte>): seq<Byte> {
    match op
    case SliceOp(_, offset, count) => Window(ahead, offset, Some(count))
    case _ => ahead
  }

  /** The owner takes every view with it, a view only itself. */
  function Shut(tails: seq<Tail>, i: nat): (r: seq<Tail>)
    requires i < |tails|
    ensures |r| == |tails|
  {
    if i == 0 then seq(|tails|, j requires 0 <= j < |tails| => tails[j].(open := false))
    else tails[i := tails[i].(open := false)]
  }

  /** One step: only the view it names is touched, and a new one comes last. `outcome` is what cancelling the reader
      answers, and the owner's first close hands on. */
  ghost predicate StepOk(op: Op, answer: Answer, before: seq<Tail>, after: seq<Tail>, outcome: Result<(), SourceError>) {
    if op.view >= |before| then
      answer.NoSuchView? && after == before
    else if Reads(op) then
      |after| == |before| && after == before[op.view := after[op.view]]
      && AnswerOk(op, answer, before[op.view], after[op.view])
    else if op.CloseOp? then
      answer == Closing(if op.view == 0 && before[0].open then outcome else Ok(())) && after == Shut(before, op.view)
    else if before[op.view].open then
      answer == Derived(Ok(())) && after == before + [Tail(DerivedBytes(op, before[op.view].ahead), true)]
    else
      answer == Derived(Err(Closed)) && after == before
  }

  /** A run: what lay ahead of every view before each operation and after the last. */
  ghost predicate IsRun(ops: seq<Op>, answers: seq<Answer>, history: seq<seq<Tail>>, outcome: Result<(), SourceError>) {
    && |answers| == |ops| && |history| == |ops| + 1
    && forall k :: 0 <= k < |ops| ==> StepOk(ops[k], answers[k], history[k], history[k + 1], outcome)
  }

  lemma RunGrows(ops: seq<Op>, answers: seq<Answer>, history: seq<seq<Tail>>, outcome: Result<(), SourceError>,
                 op: Op, answer: Answer, after: seq<Tail>)
    requires IsRun(ops, answers, history, outcome) && StepOk(op, answer, history[|ops|], after, outcome)
    ensures IsRun(ops + [op], answers + [answer], history + [after], outcome)
  {
  }

  lemma ViewStays(op: Op, answer: Answer, before: seq<Tail>, after: seq<Tail>, outcome: Result<(), SourceError>, i: nat)
    requires StepOk(op, answer, before, after, outcome) && i < |before|
    ensures i < |after| && (!Moves(op, i) ==> after[i].ahead == before[i].ahead)
    ensures after[i].open ==> before[i].open
    ensures op.view == i && Reads(op) ==> AnswerOk(op, answer, before[i], after[i])
    ensures !before[i].open ==> after[i] == before[i]
    ensures !before[i].open && op.view == i && !op.CloseOp? ==> Refusal(answer) == Some(Closed)
    ensures after[i].open == (before[i].open && op != CloseOp(i) && op != CloseOp(0))
  {
  }

  /** A view nobody reads from or skips over between two moments has the same bytes ahead at both. */
  lemma {:induction false} UnmovedStays(ops: seq<Op>, answers: seq<Answer>, history: seq<seq<Tail>>,
                                        outcome: Result<(), SourceError>, i: nat, from: nat, to: nat)
    requires IsRun(ops, answers, history, outcome) && from <= to <= |ops| && i < |history[from]|
    requires forall k :: from <= k < to ==> !Moves(ops[k], i)
    ensures i < |history[to]| && history[to][i].ahead == history[from][i].ahead
    decreases |ops| - from
  {
    if from == to {
    } else {
      ViewStays(ops[from], answers[from], history[from], history[from + 1], outcome, i);
      UnmovedStays(ops, answers, history, outcome, i, from + 1, to);
    }
  }

  /** Once closed a view never answers again: it refuses every read, peek and slice, and its bytes stay. */
  lemma {:induction false} ClosedForGood(ops: seq<Op>, answers: seq<Answer>, history: seq<seq<Tail>>,
                                         outcome: Result<(), SourceError>, i: nat, from: nat, to: nat)
    requires IsRun(ops, answers, history, outcome) && from <= to <= |ops|
    requires i < |history[from]| && !history[from][i].open
    ensures forall k :: from <= k < to && ops[k].view == i && !ops[k].CloseOp? ==> Refusal(answers[k]) == Some(Closed)
    ensures i < |history[to]| && history[to][i] == history[from][i]
    decreases |ops| - from
  {
    if from == to {
    } else {
      ViewStays(ops[from], answers[from], history[from], history[from + 1], outcome, i);
      ClosedForGood(ops, answers, history, outcome, i, from + 1, to);
    }
  }

  // --------------------------------------------------------------------------- delivered in order

  /** A read of view `i` that hands out what it passes: no line, no skip, and no failure that lost bytes. */
  predicate HandsOut(op: Op, answer: Answer, i: nat) {
    Moves(op, i) ==> answer.Chunk? || (answer.AllBytes? && (answer.read.Ok? || answer.read.error.Closed?))
  }

  function BytesOf(op: Op, answer: Answer, i: nat): seq<Byte> {
    if !Moves(op, i) then []
    else
      match answer
      case Chunk(_, bytes) => bytes
      case AllBytes(Ok(bytes)) => bytes
      case _ => []
  }

  /** What view `i` has handed out between two moments. */
  function Handed(ops: seq<Op>, answers: seq<Answer>, i: nat, from: nat, to: nat): seq<Byte>
    requires from <= to <= |ops| == |answers|
    decreases |ops| - from
  {
    if from == to then [] else BytesOf(ops[from], answers[from], i) + Handed(ops, answers, i, from + 1, to)
  }

  lemma HandsOutStep(op: Op, answer: Answer, before: Tail, after: Tail, i: nat)
    requires Moves(op, i) && AnswerOk(op, answer, before, after) && HandsOut(op, answer, i)
    ensures before.ahead == BytesOf(op, answer, i) + after.ahead
  {
    var n: nat :| Passes(op, answer, before, after, n);
    assert before.ahead == before.ahead[..n] + before.ahead[n..];
  }

  lemma Joined3(a: seq<Byte>, b: seq<Byte>, c: seq<Byte>)
    ensures a + (b + c) == a + b + c
  {
  }

  /** Whatever the other views do meanwhile, a view hands out its own bytes, all of them, once and in order. */
  lemma {:induction false} BytesInOrder(ops: seq<Op>, answers: seq<Answer>, history: seq<seq<Tail>>,
                                        outcome: Result<(), SourceError>, i: nat, from: nat, to: nat)
    requires IsRun(ops, answers, history, outcome) && from <= to <= |ops| && i < |history[from]|
    requires forall k :: from <= k < to ==> HandsOut(ops[k], answers[k], i)
    ensures i < |history[to]|
    ensures history[from][i].ahead == Handed(ops, answers, i, from, to) + history[to][i].ahead
    decreases |ops| - from
  {
    if from == to {
    } else {
      var bytes := BytesOf(ops[from], answers[from], i);
      ViewStays(ops[from], answers[from], history[from], history[from + 1], outcome, i);
      if Moves(ops[from], i) {
        HandsOutStep(ops[from], answers[from], history[from][i], history[from + 1][i], i);
      }
      BytesInOrder(ops, answers, history, outcome, i, from + 1, to);
      Joined3(bytes, Handed(ops, answers, i, from + 1, to), history[to][i].ahead);
    }
  }

  /** View `i` is read by lines only, none of which failed for the stream's sake. */
  predicate ByLines(op: Op, answer: Answer, i: nat) {
    Moves(op, i) ==> op.LineOp? && answer.NextLine? && (answer.line.Ok? || answer.line.error.Closed?)
  }

  function LineOf(op: Op, answer: Answer, i: nat): seq<seq<Byte>> {
    if Moves(op, i) && answer.NextLine? && answer.line.Ok? && answer.line.value.Some? then [answer.line.value.value] else []
  }

  function LinesRead(ops: seq<Op>, answers: seq<Answer>, i: nat, from: nat, to: nat): seq<seq<Byte>>
    requires from <= to <= |ops| == |answers|
    decreases |ops| - from
  {
    if from == to then [] else LineOf(ops[from], answers[from], i) + LinesRead(ops, answers, i, from + 1, to)
  }

  lemma OneLine(op: Op, answer: Answer, before: seq<Tail>, after: seq<Tail>, outcome: Result<(), SourceError>, i: nat)
    requires StepOk(op, answer, before, after, outcome) && i < |before| && ByLines(op, answer, i)
    ensures i < |after| && Split(before[i].ahead) == LineOf(op, answer, i) + Split(after[i].ahead)
  {
    ViewStays(op, answer, before, after, outcome, i);
    LineStep(op, answer, before[i], after[i], i);
  }

  lemma LinesJoin(first: seq<Byte>, line: seq<seq<Byte>>, next: seq<Byte>, lines: seq<seq<Byte>>, last: seq<Byte>)
    requires Split(first) == line + Split(next) && Split(next) == lines + Split(last)
    ensures Split(first) == line + lines + Split(last)
  {
  }

  lemma LineStep(op: Op, answer: Answer, before: Tail, after: Tail, i: nat)
    requires if Moves(op, i) then AnswerOk(op, answer, before, after) else after.ahead == before.ahead
    requires ByLines(op, answer, i)
    ensures Split(before.ahead) == LineOf(op, answer, i) + Split(after.ahead)
  {
    if Moves(op, i) && answer.line.Err? {
      assert after == before;
    }
  }

  /** Whatever the other views do meanwhile, the lines a view hands out are the lines of its own bytes. */
  lemma {:induction false} LinesInOrder(ops: seq<Op>, answers: seq<Answer>, history: seq<seq<Tail>>,
                                        outcome: Result<(), SourceError>, i: nat, from: nat, to: nat)
    requires IsRun(ops, answers, history, outcome) && from <= to <= |ops| && i < |history[from]|
    requires forall k :: from <= k < to ==> ByLines(ops[k], answers[k], i)
    ensures i < |history[to]|
    ensures Split(history[from][i].ahead) == LinesRead(ops, answers, i, from, to) + Split(history[to][i].ahead)
    decreases |ops| - from
  {
    if from == to {
    } else {
      var line := LineOf(ops[from], answers[from], i);
      OneLine(ops[from], answers[from], history[from], history[from + 1], outcome, i);
      LinesInOrder(ops, answers, history, outcome, i, from + 1, to);
      LinesJoin(history[from][i].ahead, line, history[from + 1][i].ahead, LinesRead(ops, answers, i, from + 1, to),
                history[to][i].ahead);
    }
  }

  // ------------------------------------------------------------------- views of views of the stream

  ghost predicate IsWindowOf(bytes: seq<Byte>, stream: seq<Byte>) {
    exists at: nat, limit: Option<nat> :: bytes == Window(stream, at, limit)
  }

  lemma RestIsWindow(before: seq<Byte>, n: nat, stream: seq<Byte>)
    requires IsWindowOf(before, stream) && n <= |before|
    ensures IsWindowOf(before[n..], stream)
  {
    var at: nat, limit: Option<nat> :| before == Window(stream, at, limit);
    WindowTail(stream, at, limit, n);
  }

  lemma DerivedIsWindow(op: Op, ahead: seq<Byte>, stream: seq<Byte>)
    requires IsWindowOf(ahead, stream)
    ensures IsWindowOf(DerivedBytes(op, ahead), stream)
  {
    if op.SliceOp? {
      var at: nat, limit: Option<nat> :| ahead == Window(stream, at, limit);
      WindowOfWindow(stream, at, limit, op.offset, op.count);
    }
  }

  ghost predicate AllWindowsOf(tails: seq<Tail>, stream: seq<Byte>) {
    forall i :: 0 <= i < |tails| ==> IsWindowOf(tails[i].ahead, stream)
  }

  lemma StepKeepsWindows(op: Op, answer: Answer, before: seq<Tail>, after: seq<Tail>, outcome: Result<(), SourceError>,
                         stream: seq<Byte>)
    requires StepOk(op, answer, before, after, outcome) && AllWindowsOf(before, stream)
    ensures AllWindowsOf(after, stream)
  {
    forall i | 0 <= i < |after|
      ensures IsWindowOf(after[i].ahead, stream)
    {
      if i == |before| {
        DerivedIsWindow(op, before[op.view].ahead, stream);
      } else {
        ViewStays(op, answer, before, after, outcome, i);
        if Moves(op, i) {
          var n: nat :| Passes(op, answer, before[i], after[i], n);
          RestIsWindow(before[i].ahead, n, stream);
        }
      }
    }
  }

  /** However deep views are taken of views, what lies ahead of each is always one stretch of the stream. */
  lemma {:induction false} ViewsAreWindows(ops: seq<Op>, answers: seq<Answer>, history: seq<seq<Tail>>,
                                           outcome: Result<(), SourceError>, stream: seq<Byte>, from: nat, to: nat)
    requires IsRun(ops, answers, history, outcome) && from <= to <= |ops| && AllWindowsOf(history[from], stream)
    ensures AllWindowsOf(history[to], stream)
    decreases |ops| - from
  {
    if from == to {
    } else {
      StepKeepsWindows(ops[from], answers[from], history[from], history[from + 1], outcome, stream);
      ViewsAreWindows(ops, answers, history, outcome, stream, from + 1, to);
    }
  }

  // ------------------------------------------------------------- a view answers as if it were alone

  /** What an operation on a view by itself answers, and what it then has ahead. A `ReadOp` may take fewer bytes than it
      wants, so its answer is not determined. */
  function Alone(op: Op, t: Tail): (Answer, Tail)
    requires Reads(op) && !op.ReadOp?
  {
    match op
    case ExactOp(_, count) =>
      if !t.open then (AllBytes(Err(Closed)), t)
      else if count <= |t.ahead| then (AllBytes(Ok(t.ahead[..count])), t.(ahead := t.ahead[count..]))
      else (AllBytes(Err(Short(|t.ahead|, count))), t.(ahead := []))
    case BytesOp(_) =>
      if !t.open then (AllBytes(Err(Closed)), t) else (AllBytes(Ok(t.ahead)), t.(ahead := []))
    case LineOp(_) =>
      if !t.open then (NextLine(Err(Closed)), t)
      else (NextLine(Ok(if t.ahead == [] then None else Some(FirstLine(t.ahead)))), t.(ahead := AfterFirstLine(t.ahead)))
    case SkipOp(_, count) =>
      if !t.open then (Skipped(Err(Closed)), t)
      else if count <= |t.ahead| then (Skipped(Ok(())), t.(ahead := t.ahead[count..]))
      else (Skipped(Err(Short(|t.ahead|, count))), t.(ahead := []))
    case ExhaustedOp(_) =>
      (Emptiness(if t.open then Ok(t.ahead == []) else Err(Closed)), t)
  }

  lemma AloneIsOnly(op: Op, answer: Answer, before: Tail, after: Tail)
    requires Reads(op) && !op.ReadOp? && AnswerOk(op, answer, before, after) && Expected(op, answer)
    ensures (answer, after) == Alone(op, before)
  {
    var n: nat :| Passes(op, answer, before, after, n);
    if op.SkipOp? && answer.skipped.Ok? { assert answer.skipped.value == (); }
  }

  predicate Concerns(op: Op, i: nat) {
    (op.view == i && Reads(op)) || op == CloseOp(i) || op == CloseOp(0)
  }

  /** The operations that view `i` can tell from none: its own reads, its close and the owner's. */
  function About(ops: seq<Op>, i: nat, from: nat, to: nat): seq<Op>
    requires from <= to <= |ops|
    decreases |ops| - from
  {
    if from == to then []
    else (if Concerns(ops[from], i) then [ops[from]] else []) + About(ops, i, from + 1, to)
  }

  function AnswersTo(ops: seq<Op>, answers: seq<Answer>, i: nat, from: nat, to: nat): seq<Answer>
    requires from <= to <= |ops| == |answers|
    decreases |ops| - from
  {
    if from == to then []
    else (if ops[from].view == i && Reads(ops[from]) then [answers[from]] else [])
         + AnswersTo(ops, answers, i, from + 1, to)
  }

  predicate AllDetermined(ops: seq<Op>) {
    forall k :: 0 <= k < |ops| ==> !ops[k].ReadOp? && (Reads(ops[k]) || ops[k].CloseOp?)
  }

  /** The answers of a view that has the stream to itself; a close among the operations is its own or the owner's. */
  function Solo(ops: seq<Op>, t: Tail): seq<Answer>
    requires AllDetermined(ops)
    decreases |ops|
  {
    if ops == [] then []
    else if ops[0].CloseOp? then Solo(ops[1..], t.(open := false))
    else var (answer, rest) := Alone(ops[0], t); [answer] + Solo(ops[1..], rest)
  }

  predicate Determined(op: Op, answer: Answer, i: nat) {
    op.view == i && Reads(op) ==> !op.ReadOp? && Expected(op, answer)
  }

  lemma {:induction false} AboutIsDetermined(ops: seq<Op>, answers: seq<Answer>, i: nat, from: nat, to: nat)
    requires from <= to <= |ops| == |answers|
    requires forall k :: from <= k < to ==> Determined(ops[k], answers[k], i)
    ensures AllDetermined(About(ops, i, from, to))
    decreases |ops| - from
  {
    if from == to {
    } else {
      assert Determined(ops[from], answers[from], i);
      AboutIsDetermined(ops, answers, i, from + 1, to);
    }
  }

  /** Over a stream that keeps its contract, the answers a view gives are those it would give alone: they depend on its
      own reads and on when it or the owner was closed, and on nothing else that was done to any other view. */
  lemma {:induction false} ViewsAreIndependent(ops: seq<Op>, answers: seq<Answer>, history: seq<seq<Tail>>,
                                               outcome: Result<(), SourceError>, i: nat, from: nat, to: nat)
    requires IsRun(ops, answers, history, outcome) && from <= to <= |ops| && i < |history[from]|
    requires forall k :: from <= k < to ==> Determined(ops[k], answers[k], i)
    ensures AllDetermined(About(ops, i, from, to))
    ensures AnswersTo(ops, answers, i, from, to) == Solo(About(ops, i, from, to), history[from][i])
    decreases |ops| - from
  {
    AboutIsDetermined(ops, answers, i, from, to);
    if from == to {
    } else {
      var op, answer, t := ops[from], answers[from], history[from][i];
      var rest := About(ops, i, from + 1, to);
      ViewStays(op, answer, history[from], history[from + 1], outcome, i);
      ViewsAreIndependent(ops, answers, history, outcome, i, from + 1, to);
      if Concerns(op, i) {
        assert ([op] + rest)[1..] == rest;
        if Reads(op) {
          assert Determined(op, answer, i);
          AloneIsOnly(op, answer, t, history[from + 1][i]);
        } else {
          assert history[from + 1][i] == t.(open := false);
        }
      } else {
        assert history[from + 1][i] == t && [] + rest == rest;
      }
    }
  }
}
