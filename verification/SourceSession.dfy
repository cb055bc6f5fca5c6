/** A source together with every peek and slice view taken from it, driven by an arbitrary interleaving of completed
    operations. `tails[i]` is what lies ahead of view `i`. */
module SourceSessions {
  import opened Wrappers
  import opened Octets
  import opened Parts
  import opened ByteQueues
  import opened RetentionWindows
  import opened Lines
  import opened BufferedSources
  import opened SourceHistories

  ghost function TailOf(view: BufferedSource): Tail
    requires view.Placed()
    reads view, view.cursor, view.window
  {
    Tail(view.Ahead(), view.Open())
  }

  // One operation on one view, whatever other views there are.

  method PerformRead(view: BufferedSource, op: Op) returns (answer: Answer)
    requires view.Valid() && op.ReadOp?
    modifies view.window`pending, view.window`pulledThrough, view.window`exhausted, view.window`retainedFrom
    modifies view.window.queue, view.window.queue.nodes, view.cursor
    ensures view.Valid() && view.WindowKept()
    ensures AnswerOk(op, answer, old(TailOf(view)), TailOf(view))
    ensures WellFormed(old(view.window.pending)) ==> Expected(op, answer)
  {
    ghost var before := TailOf(view);
    var result, bytes := view.ReadChunk(op.count);
    answer := Chunk(result, bytes);
    assert WellFormed(old(view.window.pending)) ==> Expected(op, answer);
    assert Passes(op, answer, before, TailOf(view), |bytes|);
  }

  method PerformExact(view: BufferedSource, op: Op) returns (answer: Answer)
    requires view.Valid() && op.ExactOp?
    modifies view.window`pending, view.window`pulledThrough, view.window`exhausted, view.window`retainedFrom
    modifies view.window.queue, view.window.queue.nodes, view.cursor
    ensures view.Valid() && view.WindowKept()
    ensures AnswerOk(op, answer, old(TailOf(view)), TailOf(view))
    ensures WellFormed(old(view.window.pending)) ==> Expected(op, answer)
  {
    ghost var at, before := view.cursor.at, TailOf(view);
    var read := view.ReadExactly(op.count);
    answer := AllBytes(read);
    assert WellFormed(old(view.window.pending)) ==> Expected(op, answer);
    assert Passes(op, answer, before, TailOf(view), view.cursor.at - at);
  }

  method PerformBytes(view: BufferedSource, op: Op) returns (answer: Answer)
    requires view.Valid() && op.BytesOp?
    modifies view.window`pending, view.window`pulledThrough, view.window`exhausted, view.window`retainedFrom
    modifies view.window.queue, view.window.queue.nodes, view.cursor
    ensures view.Valid() && view.WindowKept()
    ensures AnswerOk(op, answer, old(TailOf(view)), TailOf(view))
    ensures WellFormed(old(view.window.pending)) ==> Expected(op, answer)
  {
    ghost var at, before := view.cursor.at, TailOf(view);
    var read := view.ReadBytes();
    answer := AllBytes(read);
    assert WellFormed(old(view.window.pending)) ==> Expected(op, answer);
    assert Passes(op, answer, before, TailOf(view), view.cursor.at - at);
  }

  method PerformLine(view: BufferedSource, op: Op) returns (answer: Answer)
    requires view.Valid() && op.LineOp?
    modifies view.window`pending, view.window`pulledThrough, view.window`exhausted, view.window`retainedFrom
    modifies view.window.queue, view.window.queue.nodes, view.cursor
    ensures view.Valid() && view.WindowKept()
    ensures AnswerOk(op, answer, old(TailOf(view)), TailOf(view))
    ensures WellFormed(old(view.window.pending)) ==> Expected(op, answer)
  {
    ghost var at, before := view.cursor.at, TailOf(view);
    var line := view.ReadLine();
    answer := NextLine(line);
    assert WellFormed(old(view.window.pending)) ==> Expected(op, answer);
    assert Passes(op, answer, before, TailOf(view), view.cursor.at - at);
  }

  method PerformSkip(view: BufferedSource, op: Op) returns (answer: Answer)
    requires view.Valid() && op.SkipOp?
    modifies view.window`pending, view.window`pulledThrough, view.window`exhausted, view.window`retainedFrom
    modifies view.window.queue, view.window.queue.nodes, view.cursor
    ensures view.Valid() && view.WindowKept()
    ensures AnswerOk(op, answer, old(TailOf(view)), TailOf(view))
    ensures WellFormed(old(view.window.pending)) ==> Expected(op, answer)
  {
    ghost var at, before := view.cursor.at, TailOf(view);
    var skipped := view.Skip(op.count);
    answer := Skipped(skipped);
    assert WellFormed(old(view.window.pending)) ==> Expected(op, answer);
    assert Passes(op, answer, before, TailOf(view), view.cursor.at - at);
  }

  method PerformExhausted(view: BufferedSource, op: Op) returns (answer: Answer)
    requires view.Valid() && op.ExhaustedOp?
    modifies view.window`pending, view.window`pulledThrough, view.window`exhausted, view.window`retainedFrom
    modifies view.window.queue, view.window.queue.nodes, view.cursor
    ensures view.Valid() && view.WindowKept()
    ensures AnswerOk(op, answer, old(TailOf(view)), TailOf(view))
    ensures WellFormed(old(view.window.pending)) ==> Expected(op, answer)
  {
    ghost var before := TailOf(view);
    var exhausted := view.Exhausted();
    answer := Emptiness(exhausted);
    assert WellFormed(old(view.window.pending)) ==> Expected(op, answer);
    assert Passes(op, answer, before, TailOf(view), 0);
  }

  /** Any reading or skipping operation. */
  method Perform(view: BufferedSource, op: Op) returns (answer: Answer)
    requires view.Valid() && Reads(op)
    modifies view.window`pending, view.window`pulledThrough, view.window`exhausted, view.window`retainedFrom
    modifies view.window.queue, view.window.queue.nodes, view.cursor
    ensures view.Valid() && view.WindowKept()
    ensures AnswerOk(op, answer, old(TailOf(view)), TailOf(view))
    ensures WellFormed(old(view.window.pending)) ==> Expected(op, answer)
  {
    match op
    case ReadOp(_, _) => answer := PerformRead(view, op);
    case ExactOp(_, _) => answer := PerformExact(view, op);
    case BytesOp(_) => answer := PerformBytes(view, op);
    case LineOp(_) => answer := PerformLine(view, op);
    case SkipOp(_, _) => answer := PerformSkip(view, op);
    case ExhaustedOp(_) => answer := PerformExhausted(view, op);
  }

  class Session {
    const window: RetentionWindow
    var views: seq<BufferedSource>
    ghost var tails: seq<Tail>

    /** `tails` says what view `i` has ahead of its cursor, in its own extent, and whether it is open. */
    ghost predicate ViewOk(i: nat)
      requires i < |views| == |tails|
      reads this, views, set v | v in views :: v.cursor
      reads window`cursors, window`closed
    {
      && views[i].window == window
      && views[i].Placed()
      && tails[i].ahead == views[i].Ahead()
      && tails[i].open == (!views[i].closed && !window.closed)
      && (views[i].closed || window.closed || views[i].cursor in window.cursors)
      && (views[i].ownsWindow <==> i == 0)
    }

    ghost predicate Separate()
      reads this, views
    {
      forall i, j :: 0 <= i < j < |views| ==> views[i] != views[j] && views[i].cursor != views[j].cursor
    }

    /** While the window is open the owner is, and nothing older than the slowest live cursor is retained. */
    ghost predicate Valid()
      reads this, views, set v | v in views :: v.cursor
      reads window, window.queue, window.queue.nodes, window.cursors
    {
      && window.Valid() && window.TornDownOnce()
      && 0 < |views| == |tails|
      && Separate()
      && (forall i :: 0 <= i < |views| ==> ViewOk(i))
      && views[0].closed == window.closed
      && (!window.closed ==> window.Tight() && views[0].cursor.at <= window.pulledThrough)
    }

    constructor (pending: seq<Delivery>, cancelling: Result<(), SourceError>)
      ensures Valid() && window.pending == pending && window.Outcome() == cancelling
      ensures tails == [Tail(Remaining(pending), true)]
    {
      var w := new RetentionWindow(pending, Some(cancelling));
      var registered := w.Register(0);
      var owner := new BufferedSource.Over(w, registered.value, true, None);
      window := w;
      views := [owner];
      tails := [Tail(Remaining(pending), true)];
    }

    /** A step that kept all views but `i` leaves them as `tails` says. */
    twostate lemma OthersOk(i: nat)
      requires old(Valid()) && views == old(views) && |tails| == |views| && window.closed == old(window.closed)
      requires forall j :: 0 <= j < |views| && j != i ==>
                 && (window.closed || old(views[j].cursor) !in old(window.cursors) || views[j].cursor in window.cursors)
                 && tails[j] == old(tails[j])
                 && views[j].cursor.at == old(views[j].cursor.at) && views[j].closed == old(views[j].closed)
      ensures forall j :: 0 <= j < |views| && j != i ==> ViewOk(j)
    {
      forall j | 0 <= j < |views| && j != i
        ensures ViewOk(j)
      {
        assert old(ViewOk(j));
      }
    }

    /** Closing the window closes every view where it stands. */
    twostate lemma AllShut()
      requires old(Valid()) && views == old(views) && window.closed && tails == Shut(old(tails), 0)
      requires forall v :: v in views ==> v.cursor.at == old(v.cursor.at)
      ensures forall j :: 0 <= j < |views| ==> ViewOk(j)
    {
      forall j | 0 <= j < |views|
        ensures ViewOk(j)
      {
        assert old(ViewOk(j));
      }
    }

    lemma AllApart(i: nat)
      requires Separate() && i < |views|
      ensures forall j :: 0 <= j < |views| && j != i ==> views[j] != views[i] && views[j].cursor != views[i].cursor
    {
    }

    /** No view but `i` moved or closed. */
    twostate predicate OthersStay(i: nat)
      requires views == old(views)
      reads this, views, set v | v in views :: v.cursor
    {
      forall j :: 0 <= j < |views| && j != i ==>
        views[j].cursor.at == old(views[j].cursor.at) && views[j].closed == old(views[j].closed)
    }

    /** View `i` moved on, its window was kept and `tails` notes it: every view still stands. */
    twostate lemma OneMoved(i: nat)
      requires old(Valid()) && i < |views| == |tails| && views == old(views)
      requires window.closed == old(window.closed) && window.cursors == old(window.cursors) && window.TornDownOnce()
      requires views[i].closed == old(views[i].closed) && views[i].Valid() && views[i].WindowKept() && OthersStay(i)
      requires tails == old(tails)[i := TailOf(views[i])]
      ensures Valid()
    {
      assert old(ViewOk(i));
      assert tails[i] == TailOf(views[i]);
      assert ViewOk(i);
      OthersOk(i);
      assert forall j :: 0 <= j < |views| ==> ViewOk(j);
    }

    method Pass(i: nat, op: Op) returns (answer: Answer)
      requires Valid() && i < |views| && Reads(op)
      modifies window`pending, window`pulledThrough, window`exhausted, window`retainedFrom
      modifies window.queue, window.queue.nodes, views[i].cursor
      ensures views[i].Valid() && views[i].WindowKept() && OthersStay(i) && views[i].window == window
      ensures AnswerOk(op, answer, tails[i], TailOf(views[i]))
      ensures WellFormed(old(window.pending)) ==> Expected(op, answer)
    {
      var view := views[i];
      assert ViewOk(i);
      AllApart(i);
      assert TailOf(view) == tails[i];
      answer := Perform(view, op);
    }

    /** Reads from or skips over view `i`: it answers of the bytes that were ahead of it, and what lies ahead of the other
        views stays the same, though the window they share may have pulled. */
    method Move(i: nat, op: Op) returns (answer: Answer)
      requires Valid() && i < |views| && Reads(op)
      modifies this`tails, window`pending, window`pulledThrough, window`exhausted, window`retainedFrom
      modifies window.queue, window.queue.nodes, views[i].cursor
      ensures Valid() && fresh(window.queue.nodes - old(window.queue.nodes))
      ensures |tails| == |old(tails)| && tails == old(tails)[i := tails[i]] && AnswerOk(op, answer, old(tails[i]), tails[i])
      ensures WellFormed(old(window.pending)) ==> WellFormed(window.pending) && Expected(op, answer)
    {
      answer := Pass(i, op);
      tails := tails[i := TailOf(views[i])];
      OneMoved(i);
    }

    /** A view of everything ahead of view `i`. */
    method Peek(i: nat) returns (r: Result<(), SourceError>)
      requires Valid() && i < |views|
      modifies this`views, this`tails, window`cursors
      ensures Valid() && r == if old(tails[i]).open then Ok(()) else Err(Closed)
      ensures if r.Ok? then Grown(old(tails[i]).ahead) else views == old(views) && tails == old(tails)
    {
      var view := views[i];
      assert ViewOk(i);
      var taken := view.Peek();
      StillValid();
      if taken.Err? {
        return Err(taken.error);
      }
      Add(taken.value);
      return Ok(());
    }

    /** A view of at most `count` bytes, starting `offset` ahead of view `i`. */
    method Slice(i: nat, offset: nat, count: nat) returns (r: Result<(), SourceError>)
      requires Valid() && i < |views|
      modifies this`views, this`tails, window`cursors
      ensures Valid() && r == if old(tails[i]).open then Ok(()) else Err(Closed)
      ensures if r.Ok? then Grown(Window(old(tails[i]).ahead, offset, Some(count)))
              else views == old(views) && tails == old(tails)
    {
      var view := views[i];
      assert ViewOk(i);
      var taken := view.Slice(offset, count);
      StillValid();
      if taken.Err? {
        return Err(taken.error);
      }
      Add(taken.value);
      return Ok(());
    }

    twostate lemma StillValid()
      requires old(Valid()) && window.Valid() && window.TornDownOnce() && views == old(views) && tails == old(tails)
      requires window.closed == old(window.closed) && old(window.cursors) <= window.cursors
      requires window.pulledThrough == old(window.pulledThrough) && (old(window.Tight()) ==> window.Tight())
      requires forall v :: v in views ==> v.cursor.at == old(v.cursor.at) && v.closed == old(v.closed)
      ensures Valid()
    {
      OthersOk(|views|);
    }

    method Add(view: BufferedSource)
      requires Valid() && !window.closed
      requires view.Valid() && view.window == window && !view.ownsWindow && !view.closed
      requires forall v :: v in views ==> v != view && v.cursor != view.cursor
      modifies this`views, this`tails
      ensures Valid() && views == old(views) + [view] && tails == old(tails) + [Tail(view.Ahead(), true)]
    {
      ghost var before := views;
      assert forall j :: 0 <= j < |before| ==> ViewOk(j);
      views, tails := views + [view], tails + [Tail(view.Ahead(), true)];
      forall j | 0 <= j < |views|
        ensures ViewOk(j)
      {
        if j < |before| {
          assert old(ViewOk(j)) && views[j] == before[j];
        }
      }
    }

    /** One view more, with `bytes` ahead; the others as before. */
    twostate predicate Grown(bytes: seq<Byte>)
      reads this, views
    {
      && |views| == |old(views)| + 1 && views[..|old(views)|] == old(views)
      && fresh(views[|old(views)|]) && fresh(views[|old(views)|].cursor)
      && tails == old(tails) + [Tail(bytes, true)]
    }

    /** Closes view `i`: the owner takes the window with it, any other view takes nothing. */
    method Close(i: nat) returns (r: Result<(), SourceError>)
      requires Valid() && i < |views|
      modifies this`tails, views[i], window, window.queue, window.queue.nodes
      ensures Valid() && window.queue.nodes == old(window.queue.nodes) && window.pending == old(window.pending)
      ensures r == (if i == 0 && old(tails[0]).open then window.Outcome() else Ok(())) && tails == Shut(old(tails), i)
    {
      r := CloseView(i);
      tails := Shut(tails, i);
      ClosedStands(i);
    }

    method CloseView(i: nat) returns (r: Result<(), SourceError>)
      requires Valid() && i < |views|
      modifies views[i], window`closed, window`closing, window`cancels, window`locked
      modifies window`cursors, window`retainedFrom, window.queue, window.queue.nodes
      ensures window.Valid() && window.TornDownOnce() && (window.closed <==> old(window.closed) || i == 0)
      ensures views[i].closed && window.queue.nodes == old(window.queue.nodes) && OthersStay(i)
      ensures !window.closed ==> window.Tight() && old(window.cursors) - {views[i].cursor} <= window.cursors
      ensures r == if i == 0 && old(tails[0]).open then window.Outcome() else Ok(())
    {
      var view, owner := views[i], views[0];
      assert ViewOk(i) && ViewOk(0);
      AllApart(i);
      r := view.Close();
      forall j | 0 <= j < |views| && j != i
        ensures views[j].cursor.at == old(views[j].cursor.at) && views[j].closed == old(views[j].closed)
      {
        assert views[j] != view;
      }
      assert !window.closed ==> owner.cursor in window.cursors && owner.cursor.at <= window.pulledThrough;
    }

    /** A view closed: every other still stands. */
    twostate lemma OneClosed(i: nat)
      requires old(Valid()) && 0 < i < |views| && views == old(views) && tails == Shut(old(tails), i)
      requires window.Valid() && window.TornDownOnce() && window.closed == old(window.closed)
      requires window.pulledThrough == old(window.pulledThrough) && views[i].closed && OthersStay(i)
      requires views[i].cursor.at == old(views[i].cursor.at)
      requires !window.closed ==> window.Tight() && old(window.cursors) - {views[i].cursor} <= window.cursors
      ensures Valid()
    {
      assert old(ViewOk(i));
      assert tails[i] == old(tails[i]).(open := false);
      assert ViewOk(i);
      AllApart(i);
      OthersOk(i);
      assert forall j :: 0 <= j < |views| ==> ViewOk(j);
    }

    /** The owner closed, the window and so every view with it. */
    twostate lemma OwnerClosed()
      requires old(Valid()) && views == old(views) && tails == Shut(old(tails), 0)
      requires window.Valid() && window.TornDownOnce() && window.closed
      requires views[0].closed && views[0].cursor.at == old(views[0].cursor.at) && OthersStay(0)
      ensures Valid()
    {
      assert old(ViewOk(0));
      AllShut();
      assert forall j :: 0 <= j < |views| ==> ViewOk(j);
    }

    twostate lemma ClosedStands(i: nat)
      requires old(Valid()) && i < |views| && views == old(views) && tails == Shut(old(tails), i)
      requires window.Valid() && window.TornDownOnce() && (window.closed <==> old(window.closed) || i == 0)
      requires window.pulledThrough == old(window.pulledThrough) && views[i].closed && OthersStay(i)
      requires views[i].cursor.at == old(views[i].cursor.at)
      requires !window.closed ==> window.Tight() && old(window.cursors) - {views[i].cursor} <= window.cursors
      ensures Valid()
    {
      if i == 0 {
        OwnerClosed();
      } else {
        OneClosed(i);
      }
    }

    /** Runs any interleaving; operations on a view that does not exist are skipped. `history` is what lay ahead of every
        view before each operation and after the last, and every answer is about its own view. */
    method Run(ops: seq<Op>) returns (answers: seq<Answer>, ghost history: seq<seq<Tail>>)
      requires Valid()
      modifies this, window, window.queue, window.queue.nodes, views, set v | v in views :: v.cursor
      ensures Valid() && |old(views)| <= |views| && views[..|old(views)|] == old(views)
      ensures IsRun(ops, answers, history, window.Outcome())
      ensures history[0] == old(tails) && history[|ops|] == tails
      ensures WellFormed(old(window.pending)) ==> forall k :: 0 <= k < |ops| ==> Expected(ops[k], answers[k])
    {
      answers, history := [], [tails];
      var k := 0;
      while k < |ops|
        invariant 0 <= k <= |ops| && IsRun(ops[..k], answers, history, window.Outcome())
        invariant history[0] == old(tails) && history[k] == tails
        invariant Valid() && |old(views)| <= |views| && views[..|old(views)|] == old(views)
        invariant forall v :: v in views && v !in old(views) ==> fresh(v) && fresh(v.cursor)
        invariant fresh(window.queue.nodes - old(window.queue.nodes))
        invariant WellFormed(old(window.pending)) ==>
                    WellFormed(window.pending) && forall j :: 0 <= j < k ==> Expected(ops[j], answers[j])
      {
        var answer := Apply(ops[k]);
        RunGrows(ops[..k], answers, history, window.Outcome(), ops[k], answer, tails);
        assert ops[..k + 1] == ops[..k] + [ops[k]];
        answers, history := answers + [answer], history + [tails];
        k := k + 1;
      }
      assert ops[..k] == ops;
    }

    method Apply(op: Op) returns (answer: Answer)
      requires Valid()
      modifies this, window, window.queue, window.queue.nodes, views, set v | v in views :: v.cursor
      ensures Valid() && |old(views)| <= |views| && views[..|old(views)|] == old(views)
      ensures forall v :: v in views && v !in old(views) ==> fresh(v) && fresh(v.cursor)
      ensures fresh(window.queue.nodes - old(window.queue.nodes))
      ensures StepOk(op, answer, old(tails), tails, window.Outcome())
      ensures WellFormed(old(window.pending)) ==> WellFormed(window.pending) && Expected(op, answer)
    {
      if op.view >= |views| {
        answer := NoSuchView;
      } else if Reads(op) {
        answer := Move(op.view, op);
      } else if op.CloseOp? {
        var closing := Close(op.view);
        answer := Closing(closing);
      } else {
        answer := Derive(op);
      }
    }

    method Derive(op: Op) returns (answer: Answer)
      requires Valid() && op.view < |views| && (op.PeekOp? || op.SliceOp?)
      modifies this`views, this`tails, window`cursors
      ensures Valid() && |old(views)| <= |views| && views[..|old(views)|] == old(views)
      ensures forall v :: v in views && v !in old(views) ==> fresh(v) && fresh(v.cursor)
      ensures StepOk(op, answer, old(tails), tails, window.Outcome()) && Expected(op, answer)
    {
      var derived;
      if op.PeekOp? {
        derived := Peek(op.view);
      } else {
        derived := Slice(op.view, op.offset, op.count);
      }
      answer := Derived(derived);
    }
  }
}
