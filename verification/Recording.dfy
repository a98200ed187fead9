/** The recording sink: a latch on the first failure, and the policy applied to
    it when the recording is required or best effort. */
module Recording {
  import opened Text

  datatype FileOp = Record | Checkpoint | Finalize

  /** What the file operation comes to. A finalise can also be given up on by
      the actor's teardown limit before it returns. */
  datatype Inner = Done | Failed(why: string) | GivenUp

  datatype Call = Call(op: FileOp, inner: Inner)

  /** Only a finalise is given up on. */
  predicate ActorCalls(calls: seq<Call>) {
    forall c :: c in calls ==> (c.inner.GivenUp? ==> c.op == Finalize)
  }

  /** The sink's fields, and every operation that reached the file. */
  datatype Sink = Sink(required: bool, fault: Option<string>, stopped: bool, file: seq<FileOp>)

  /** The result the actor sees. */
  datatype Answer = Good | Bad

  function Latched(fault: Option<string>, why: string): Option<string> {
    if fault.Some? then fault else Some(why)
  }

  /** The sink after one call. */
  function Handled(s: Sink, c: Call): Sink {
    if s.stopped then s
    else
      var s' := s.(file := s.file + [c.op]);
      match c.inner
      case Done => s'
      case GivenUp => s'
      case Failed(why) =>
        s'.(fault := Latched(s.fault, why), stopped := c.op != Finalize && !s.required)
  }

  function Answered(s: Sink, c: Call): Answer {
    if s.stopped || c.inner.Done? then Good
    else if c.inner.Failed? && c.op != Finalize && !s.required then Good
    else Bad
  }

  function HandledAll(s: Sink, calls: seq<Call>): Sink {
    if calls == [] then s else Handled(HandledAll(s, calls[..|calls| - 1]), calls[|calls| - 1])
  }

  class TrackedRecording {
    const required: bool
    var fault: Option<string>
    var stopped: bool
    ghost var file: seq<FileOp>

    ghost function View(): Sink
      reads this
    {
      Sink(required, fault, stopped, file)
    }

    constructor (required: bool)
      ensures View() == Sink(required, None, false, [])
    {
      this.required, fault, stopped, file := required, None, false, [];
    }

    /** `TrackedRecording::fail`. */
    method Fail(why: string) returns (answer: Answer)
      requires !stopped
      modifies this`fault, this`stopped
      ensures fault == Latched(old(fault), why) && stopped == !required
      ensures answer == if required then Bad else Good
    {
      if fault.None? {
        fault := Some(why);
      }
      if required {
        return Bad;
      }
      stopped := true;
      return Good;
    }

    /** `record` and `checkpoint`, given what the file operation comes to. */
    method Write(op: FileOp, inner: Inner) returns (answer: Answer)
      requires op != Finalize && !inner.GivenUp?
      modifies this
      ensures View() == Handled(old(View()), Call(op, inner)) && answer == Answered(old(View()), Call(op, inner))
    {
      if stopped {
        return Good;
      }
      file := file + [op];
      match inner
      case Done => answer := Good;
      case Failed(why) => answer := Fail(why);
    }

    /** `finalize`; a failure is reported but does not stop anything. */
    method Finish(inner: Inner) returns (answer: Answer)
      modifies this
      ensures View() == Handled(old(View()), Call(Finalize, inner))
      ensures answer == Answered(old(View()), Call(Finalize, inner))
    {
      if stopped {
        return Good;
      }
      file := file + [Finalize];
      if inner.Failed? && fault.None? {
        fault := Some(inner.why);
      }
      answer := if inner.Done? then Good else Bad;
    }
  }

  // ── Over a whole session ───────────────────────────────────────────

  /** The first failure a sequence of calls met, if any. */
  function FirstFailure(calls: seq<Call>): Option<string> {
    if calls == [] then None
    else
      var before := FirstFailure(calls[..|calls| - 1]);
      var last := calls[|calls| - 1].inner;
      if before.Some? then before else if last.Failed? then Some(last.why) else None
  }

  predicate WriteFailure(c: Call) {
    c.op != Finalize && c.inner.Failed?
  }

  /** Whatever is called, the reported fault is the first failure met, and a
      sink is stopped exactly when it is best effort and a write has failed. */
  lemma {:induction false} FaultIsTheFirstFailure(required: bool, calls: seq<Call>)
    ensures var s := HandledAll(Sink(required, None, false, []), calls);
            && s.required == required
            && s.fault == FirstFailure(calls)
            && (s.stopped <==> !required && exists c :: c in calls && WriteFailure(c))
  {
    if calls != [] {
      var init, last := calls[..|calls| - 1], calls[|calls| - 1];
      FaultIsTheFirstFailure(required, init);
      assert forall c :: c in calls <==> c in init || c == last;
      FirstFailureWhen(init);
      assert WriteFailure(last) ==> exists c :: c in calls && WriteFailure(c);
    }
  }

  /** The fault, if any, is that of the earliest call that failed. */
  lemma {:induction false} FirstFailureAt(calls: seq<Call>, k: nat)
    requires k < |calls| && calls[k].inner.Failed? && forall j :: 0 <= j < k ==> !calls[j].inner.Failed?
    ensures FirstFailure(calls) == Some(calls[k].inner.why)
  {
    var init := calls[..|calls| - 1];
    FirstFailureWhen(init);
    if k < |init| {
      FirstFailureAt(init, k);
    }
  }

  lemma {:induction false} FirstFailureWhen(calls: seq<Call>)
    ensures FirstFailure(calls).Some? <==> exists c :: c in calls && c.inner.Failed?
  {
    if calls != [] {
      var init, last := calls[..|calls| - 1], calls[|calls| - 1];
      FirstFailureWhen(init);
      assert calls == init + [last];
    }
  }

  function Ops(calls: seq<Call>): (r: seq<FileOp>)
    ensures |r| == |calls|
    ensures forall j :: 0 <= j < |r| ==> r[j] == calls[j].op
  {
    seq(|calls|, j requires 0 <= j < |calls| => calls[j].op)
  }

  lemma OpsSnoc(calls: seq<Call>, c: Call)
    ensures Ops(calls + [c]) == Ops(calls) + [c.op]
  {
  }

  /** Calls that reach the file: all of them, up to a best-effort sink's first
      failed write. */
  lemma {:induction false} FileSeesNothingAfterFailure(required: bool, calls: seq<Call>, n: nat)
    requires n <= |calls|
    requires forall k :: 0 <= k < n ==> required || !WriteFailure(calls[k])
    requires n < |calls| ==> !required && WriteFailure(calls[n])
    ensures var reach := if n < |calls| then n + 1 else n;
            HandledAll(Sink(required, None, false, []), calls).file == Ops(calls[..reach])
  {
    if calls != [] {
      var init, last := calls[..|calls| - 1], calls[|calls| - 1];
      FaultIsTheFirstFailure(required, init);
      assert calls == init + [last];
      if n < |calls| - 1 {
        assert init[n] == calls[n] && init[n] in init;
        FileSeesNothingAfterFailure(required, init, n);
        assert init[..n + 1] == calls[..n + 1];
      } else {
        FileSeesNothingAfterFailure(required, init, |init|);
        assert init[..|init|] == init && calls[..|calls|] == calls;
        OpsSnoc(init, last);
      }
    }
  }
}
