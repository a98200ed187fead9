/** `run_native`: one session from opening its recording to finalising it, with
    everything outside the process supplied as inputs. */
module NativeSession {
  import opened Text
  import opened Recording

  // ── The event loop ─────────────────────────────────────────────────

  datatype ClientFrame = TextFrame(text: string, size: nat, utf8: bool) | BinaryFrame(size: nat)

  /** Why the loop ends: the gateway's own reasons, or one the watchdog or the
      reading of forwarded input gives. */
  datatype Reason =
    | GatewayShuttingDown
    | TerminatedByAdministrator
    | SessionEnded
    | InvalidUtf8
    | ClientSocketClosed
    | ClientClosedTheSocket
    | ClientSocketError
    | Given(text: string)

  /** What the select loop can see next. `delivered` is whether the operator's
      socket took the frame; `refusal` why forwarded input ended the session. */
  datatype Event =
    | Shutdown
    | Kill
    | Watchdog(verdict: Option<string>)
    | EngineFrame(frame: ClientFrame, delivered: bool)
    | EngineClosed
    | ClientText(size: nat, refusal: Option<string>)
    | ClientClosed
    | ClientError
    | ClientOther
    | GuestInput(accepted: bool)

  /** What a session does that others can see. */
  datatype Milestone =
    | RecordingOpened
    | Dialled
    | Registered
    | RingPush(text: string)
    | ChannelSend(text: string)
    | Unregistered
    | Finalised

  /** What the loop has done: frames pushed to the ring and broadcast, with the
      order of the two; frames taken by the operator's socket; byte counters;
      and why it ended. */
  datatype Log = Log(ring: seq<string>, broadcast: seq<string>, order: seq<Milestone>, operator: seq<ClientFrame>,
                     bytesDown: nat, bytesUp: nat, reason: Option<Reason>)

  /** An event that ends the loop, and why. */
  predicate Stops(e: Event, registered: bool, why: Reason) {
    || (e.Shutdown? && why == GatewayShuttingDown)
    || (e.Kill? && registered && why == TerminatedByAdministrator)
    || (e.Watchdog? && e.verdict.Some? && why == Given(e.verdict.value))
    || (e.EngineClosed? && why == SessionEnded)
    || (e.EngineFrame? && e.frame.TextFrame? && !e.frame.utf8 && why == InvalidUtf8)
    || (e.EngineFrame? && (e.frame.TextFrame? ==> e.frame.utf8) && !e.delivered && why == ClientSocketClosed)
    || (e.ClientText? && e.refusal.Some? && why == Given(e.refusal.value))
    || (e.ClientClosed? && why == ClientClosedTheSocket)
    || (e.ClientError? && why == ClientSocketError)
    || (e.GuestInput? && !e.accepted && why == SessionEnded)
  }

  /** The event ends the loop for this reason, or does not end it. */
  ghost predicate Ends(e: Event, registered: bool, reason: Option<Reason>) {
    if reason.Some? then Stops(e, registered, reason.value) else forall why :: !Stops(e, registered, why)
  }

  /** The frame an event passes on, if it has one the loop accepts. */
  function Passed(e: Event): Option<ClientFrame> {
    if e.EngineFrame? && !(e.frame.TextFrame? && !e.frame.utf8) then Some(e.frame) else None
  }

  function Frames(events: seq<Event>): seq<ClientFrame> {
    if events == [] then []
    else
      var before, last := Frames(events[..|events| - 1]), Passed(events[|events| - 1]);
      if last.Some? then before + [last.value] else before
  }

  function Texts(frames: seq<ClientFrame>): seq<string> {
    if frames == [] then []
    else
      var before, last := Texts(frames[..|frames| - 1]), frames[|frames| - 1];
      if last.TextFrame? then before + [last.text] else before
  }

  function Total(frames: seq<ClientFrame>): nat {
    if frames == [] then 0 else Total(frames[..|frames| - 1]) + frames[|frames| - 1].size
  }

  function Received(events: seq<Event>): nat {
    if events == [] then 0
    else
      var last := events[|events| - 1];
      Received(events[..|events| - 1]) + if last.ClientText? then last.size else 0
  }

  lemma Snoc(events: seq<Event>, e: Event)
    ensures Frames(events + [e]) == if Passed(e).Some? then Frames(events) + [Passed(e).value] else Frames(events)
    ensures Received(events + [e]) == Received(events) + if e.ClientText? then e.size else 0
  {
    assert (events + [e])[..|events|] == events;
  }

  lemma FrameSnoc(frames: seq<ClientFrame>, f: ClientFrame)
    ensures Texts(frames + [f]) == if f.TextFrame? then Texts(frames) + [f.text] else Texts(frames)
    ensures Total(frames + [f]) == Total(frames) + f.size
  {
    assert (frames + [f])[..|frames|] == frames;
  }

  /** The text frames observers see: all of them, once the session is registered. */
  function RingOf(events: seq<Event>, registered: bool): seq<string> {
    if registered then Texts(Frames(events)) else []
  }

  /** Each text pushed to the ring, then broadcast, before the next. */
  function InTurn(texts: seq<string>): seq<Milestone> {
    if texts == [] then []
    else
      var last := texts[|texts| - 1];
      InTurn(texts[..|texts| - 1]) + [RingPush(last), ChannelSend(last)]
  }

  lemma InTurnSnoc(texts: seq<string>, t: string)
    ensures InTurn(texts + [t]) == InTurn(texts) + [RingPush(t), ChannelSend(t)]
  {
    assert (texts + [t])[..|texts|] == texts;
  }

  /** One frame pushed, broadcast and counted. */
  function Share(log: Log, frame: ClientFrame, registered: bool): Log {
    if !registered then log
    else if frame.TextFrame? then
      log.(ring := log.ring + [frame.text], broadcast := log.broadcast + [frame.text],
           order := log.order + [RingPush(frame.text), ChannelSend(frame.text)],
           bytesDown := log.bytesDown + frame.size)
    else log.(bytesDown := log.bytesDown + frame.size)
  }

  /** The log agrees with the events taken, but for the operator's socket. */
  ghost predicate Tallies(log: Log, events: seq<Event>, registered: bool) {
    && log.ring == log.broadcast == RingOf(events, registered)
    && log.order == InTurn(log.ring)
    && log.bytesDown == (if registered then Total(Frames(events)) else 0)
    && log.bytesUp == (if registered then Received(events) else 0)
  }

  lemma ShareTallies(log: Log, events: seq<Event>, e: Event, registered: bool)
    requires Tallies(log, events, registered) && Passed(e).Some?
    ensures Tallies(Share(log, Passed(e).value, registered), events + [e], registered)
    ensures Frames(events + [e]) == Frames(events) + [Passed(e).value]
  {
    var frame := Passed(e).value;
    Snoc(events, e);
    FrameSnoc(Frames(events), frame);
    if frame.TextFrame? {
      InTurnSnoc(log.ring, frame.text);
    }
  }

  lemma OtherTallies(log: Log, events: seq<Event>, e: Event, registered: bool)
    requires Tallies(log, events, registered) && Passed(e).None?
    ensures Frames(events + [e]) == Frames(events)
    ensures Tallies(if registered && e.ClientText? then log.(bytesUp := log.bytesUp + e.size) else log,
                    events + [e], registered)
  {
    Snoc(events, e);
  }

  /** Observers see what the operator sees, but for at most one last frame: the
      one the operator's socket died on. */
  ghost predicate SeenAlike(log: Log) {
    || log.ring == Texts(log.operator)
    || (log.reason == Some(ClientSocketClosed) && exists t :: log.ring == Texts(log.operator) + [t])
  }

  lemma SharedIsSeen(log: Log, events: seq<Event>, frame: ClientFrame)
    requires Tallies(log, events, true) && log.operator == Frames(events)
    ensures var shared := Share(log, frame, true);
            && SeenAlike(shared.(reason := Some(ClientSocketClosed)))
            && SeenAlike(shared.(operator := log.operator + [frame]))
  {
    FrameSnoc(log.operator, frame);
  }

  /** What the operator's socket took: every accepted frame, but for one it
      died on. */
  ghost predicate Taken(log: Log, before: seq<Event>, events: seq<Event>) {
    log.operator == Frames(if log.reason == Some(ClientSocketClosed) then before else events)
  }

  /** A frame the operator's socket took, or died on. */
  lemma TakenFrame(log: Log, done: seq<Event>, e: Event, registered: bool)
    requires Tallies(log, done, registered) && log.operator == Frames(done) && Passed(e).Some?
    ensures var shared := Share(log, Passed(e).value, registered);
            && Tallies(shared, done + [e], registered)
            && shared.operator == log.operator && shared.reason == log.reason
            && log.operator + [Passed(e).value] == Frames(done + [e])
            && (registered ==> SeenAlike(shared.(reason := Some(ClientSocketClosed)))
                               && SeenAlike(shared.(operator := log.operator + [Passed(e).value])))
  {
    ShareTallies(log, done, e, registered);
    if registered {
      SharedIsSeen(log, done, Passed(e).value);
    }
  }

  /** One turn of the loop. */
  method Turn(log: Log, ghost done: seq<Event>, e: Event, registered: bool) returns (after: Log)
    requires Tallies(log, done, registered) && Taken(log, done, done) && log.reason.None?
    requires registered ==> SeenAlike(log)
    ensures Ends(e, registered, after.reason)
    ensures Tallies(after, done + [e], registered) && Taken(after, done, done + [e])
    ensures registered ==> SeenAlike(after)
  {
    match e {
      case EngineFrame(frame, delivered) =>
        if frame.TextFrame? && !frame.utf8 {
          OtherTallies(log, done, e, registered);
          return log.(reason := Some(InvalidUtf8));
        }
        TakenFrame(log, done, e, registered);
        after := Share(log, frame, registered);
        if !delivered {
          return after.(reason := Some(ClientSocketClosed));
        }
        after := after.(operator := after.operator + [frame]);
      case ClientText(size, refusal) =>
        OtherTallies(log, done, e, registered);
        after := if registered then log.(bytesUp := log.bytesUp + size) else log;
        if refusal.Some? {
          after := after.(reason := Some(Given(refusal.value)));
        }
      case _ =>
        OtherTallies(log, done, e, registered);
        var reason := TurnOther(e, registered);
        after := log.(reason := reason);
    }
  }

  /** The branches that neither pass a frame on nor read the operator's input. */
  method TurnOther(e: Event, registered: bool) returns (reason: Option<Reason>)
    requires !e.EngineFrame? && !e.ClientText?
    ensures Ends(e, registered, reason)
  {
    match e {
      case Shutdown => return Some(GatewayShuttingDown);
      case Kill =>
        if registered {
          return Some(TerminatedByAdministrator);
        }
      case Watchdog(verdict) =>
        if verdict.Some? {
          return Some(Given(verdict.value));
        }
      case EngineClosed => return Some(SessionEnded);
      case ClientClosed => return Some(ClientClosedTheSocket);
      case ClientError => return Some(ClientSocketError);
      case ClientOther =>
      case GuestInput(accepted) =>
        if !accepted {
          return Some(SessionEnded);
        }
    }
    return None;
  }

  /** What the loop has made of the first `used` events: all of them quiet, or
      all but the last, which gave its reason. */
  ghost predicate Looped(log: Log, events: seq<Event>, used: nat, registered: bool) {
    && used <= |events|
    && (forall k :: 0 <= k < used && (log.reason.None? || k < used - 1) ==> Ends(events[k], registered, None))
    && (log.reason.Some? ==> used > 0 && Ends(events[used - 1], registered, log.reason))
    && Tallies(log, events[..used], registered)
    && (log.reason.None? ==> log.operator == Frames(events[..used]))
    && (log.reason.Some? ==> Taken(log, events[..used - 1], events[..used]))
    && (registered ==> SeenAlike(log))
  }

  lemma TurnLooped(log: Log, after: Log, events: seq<Event>, used: nat, registered: bool)
    requires Looped(log, events, used, registered) && used < |events| && log.reason.None?
    requires var done, e := events[..used], events[used];
             && Ends(e, registered, after.reason)
             && Tallies(after, done + [e], registered) && Taken(after, done, done + [e])
             && (registered ==> SeenAlike(after))
    ensures Looped(after, events, used + 1, registered)
  {
    var done, e := events[..used], events[used];
    assert events[..used + 1] == done + [e];
    assert events[..used + 1 - 1] == done;
  }

  /** The select loop, over whatever events come; `used` of them are taken. */
  method Loop(events: seq<Event>, registered: bool) returns (log: Log, used: nat)
    ensures Looped(log, events, used, registered)
    ensures log.reason.None? ==> used == |events|
  {
    log := Log([], [], [], [], 0, 0, None);
    used := 0;
    while used < |events| && log.reason.None?
      invariant Looped(log, events, used, registered)
    {
      var after := Turn(log, events[..used], events[used], registered);
      TurnLooped(log, after, events, used, registered);
      log, used := after, used + 1;
    }
  }

  /** The loop goes no further than the event at `i`, and ending there is for `why`. */
  ghost predicate StopsBy(log: Log, used: nat, i: nat, why: Reason) {
    used <= i + 1 && (used == i + 1 ==> log.reason == Some(why))
  }

  /** What ends a session, event by event: a shutdown of the gateway, an
      administrator's kill of a registered session, a verdict of the watchdog,
      the end of the engine, a frame that is not text or that the operator's
      socket does not take, refused input, and the operator's socket closing or
      failing. Nothing after any of these is read. */
  lemma WhatEndsTheLoop(log: Log, events: seq<Event>, used: nat, registered: bool, i: nat)
    requires Looped(log, events, used, registered) && i < |events|
    ensures events[i] == Shutdown ==> StopsBy(log, used, i, GatewayShuttingDown)
    ensures events[i] == Kill && registered ==> StopsBy(log, used, i, TerminatedByAdministrator)
    ensures events[i].Watchdog? && events[i].verdict.Some? ==> StopsBy(log, used, i, Given(events[i].verdict.value))
    ensures events[i] == EngineClosed ==> StopsBy(log, used, i, SessionEnded)
    ensures events[i].EngineFrame? && events[i].frame.TextFrame? && !events[i].frame.utf8 ==>
              StopsBy(log, used, i, InvalidUtf8)
    ensures events[i].EngineFrame? && !events[i].delivered && (events[i].frame.TextFrame? ==> events[i].frame.utf8) ==>
              StopsBy(log, used, i, ClientSocketClosed)
    ensures events[i].ClientText? && events[i].refusal.Some? ==>
              StopsBy(log, used, i, Given(events[i].refusal.value))
    ensures events[i] == ClientClosed ==> StopsBy(log, used, i, ClientClosedTheSocket)
    ensures events[i] == ClientError ==> StopsBy(log, used, i, ClientSocketError)
    ensures events[i] == GuestInput(false) ==> StopsBy(log, used, i, SessionEnded)
  {
    if used > i {
      forall why | Stops(events[i], registered, why) ensures StopsBy(log, used, i, why) {
        assert !Ends(events[i], registered, None);
        assert used == i + 1 && log.reason.Some?;
        OneReason(events[i], registered, why, log.reason.value);
      }
    }
  }

  lemma OneReason(e: Event, registered: bool, why: Reason, other: Reason)
    requires Stops(e, registered, why) && Stops(e, registered, other)
    ensures why == other
  {
  }

  /** What does not: a frame taken, input accepted, a clean watchdog, a ping, and a
      kill of a session that was never registered. */
  lemma WhatDoesNot(log: Log, events: seq<Event>, used: nat, registered: bool)
    requires Looped(log, events, used, registered) && used > 0 && log.reason.Some?
    ensures var e := events[used - 1];
            && e != ClientOther && e != Watchdog(None) && e != GuestInput(true) && (e == Kill ==> registered)
            && !(e.ClientText? && e.refusal.None?)
            && !(e.EngineFrame? && e.delivered && (e.frame.TextFrame? ==> e.frame.utf8))
  {
  }

  // ── The lifecycle ──────────────────────────────────────────────────

  /** Whether the session is observed, and its recording settings. */
  datatype Setup = Setup(observed: bool, path: bool, name: bool, required: bool)

  predicate Recorded(s: Setup) {
    s.path && s.name
  }

  /** What the outside world does: opening the file, dialling the target,
      registering, the loop's events, the actor's calls on the sink, and how
      many of those are over when the fault is read. */
  datatype World = World(opens: bool, connects: bool, registers: bool, events: seq<Event>,
                         calls: seq<Call>, seen: nat)

  datatype Status = InProgress | Complete | Incomplete | FailedOutright

  /** `mark_failed` through `mark_recording`: only for a named recording. */
  function Marked(setup: Setup, row: Status, to: Status): Status {
    if setup.observed && setup.name then to else row
  }

  /** The `CASE` in `finalize_session`: a status already set stands. */
  function Closed(row: Status, fault: Option<string>): Status {
    if row == InProgress then (if fault.Some? then Incomplete else Complete) else row
  }

  /** The fault the bridge reads: the first failure among the calls over. */
  function SeenFault(setup: Setup, w: World): Option<string> {
    if Recorded(setup) && w.opens && w.seen <= |w.calls| then FirstFailure(w.calls[..w.seen]) else None
  }

  /** Whether the session gets as far as its event loop. */
  predicate Runs(setup: Setup, w: World) {
    && (Recorded(setup) && setup.required ==> w.opens)
    && w.connects
    && (setup.observed ==> w.registers)
  }

  /** What a session does, in order, as the world lets it, when its loop shares
      `texts` with observers. */
  function Milestones(setup: Setup, w: World, texts: seq<string>): seq<Milestone> {
    var opening := if Recorded(setup) && w.opens then [RecordingOpened] else [];
    if Recorded(setup) && setup.required && !w.opens then []
    else if setup.observed && Runs(setup, w) then
      opening + [Dialled, Registered] + InTurn(texts) + [Unregistered, Finalised]
    else opening + [Dialled]
  }

  lemma {:induction false} InTurnShape(texts: seq<string>)
    ensures |InTurn(texts)| == 2 * |texts|
    ensures forall k :: 0 <= k < |texts| ==>
              InTurn(texts)[2 * k] == RingPush(texts[k]) && InTurn(texts)[2 * k + 1] == ChannelSend(texts[k])
  {
    if texts != [] {
      InTurnShape(texts[..|texts| - 1]);
    }
  }

  /** Where a session's sharing with observers falls in what it does. */
  ghost predicate InOrder(trace: seq<Milestone>, start: nat, texts: seq<string>) {
    && |trace| == start + 2 + 2 * |texts| + 2
    && trace[start] == Dialled && trace[start + 1] == Registered
    && (forall k :: 0 <= k < |texts| ==>
          trace[start + 2 + 2 * k] == RingPush(texts[k]) && trace[start + 3 + 2 * k] == ChannelSend(texts[k]))
    && trace[|trace| - 2] == Unregistered && trace[|trace| - 1] == Finalised
  }

  /** A required recording is open before the target is dialled; a registered
      session pushes each text to the ring and then broadcasts it, all between
      registering and unregistering; and a session is finalised, last of all,
      exactly when it was registered. */
  lemma MilestonesInOrder(setup: Setup, w: World, texts: seq<string>)
    ensures var trace := Milestones(setup, w, texts);
            var start := if Recorded(setup) && w.opens then 1 else 0;
            && (start == 1 ==> trace != [] && trace[0] == RecordingOpened)
            && (trace == [] <==> Recorded(setup) && setup.required && !w.opens)
            && (trace != [] ==> start < |trace| && trace[start] == Dialled)
            && (if setup.observed && Runs(setup, w) then InOrder(trace, start, texts) else |trace| <= start + 1)
  {
    InTurnShape(texts);
    var trace := Milestones(setup, w, texts);
    if setup.observed && Runs(setup, w) {
      var start := if Recorded(setup) && w.opens then 1 else 0;
      var turns := InTurn(texts);
      assert trace[start + 2..|trace| - 2] == turns;
      forall k | 0 <= k < |texts|
        ensures trace[start + 2 + 2 * k] == turns[2 * k] && trace[start + 3 + 2 * k] == turns[2 * k + 1]
      {
      }
    }
  }

  /** `run_native`. `row` is the status of the session's recording row, and
      `trace` what was done, in order. */
  method RunNative(setup: Setup, w: World) returns (row: Status, trace: seq<Milestone>, log: Option<Log>, used: nat)
    requires w.seen <= |w.calls| && ActorCalls(w.calls)
    // The recording's status tells how the session went.
    ensures setup.observed ==>
              && (row == Complete <==> Runs(setup, w) && (Recorded(setup) ==> w.opens && SeenFault(setup, w).None?))
              && (row == Incomplete <==> Runs(setup, w) && SeenFault(setup, w).Some?)
              && (row == FailedOutright <==> setup.name && (!Runs(setup, w) || (Recorded(setup) && !w.opens)))
    ensures !setup.observed ==> row == InProgress
    ensures trace == Milestones(setup, w, if log.Some? then log.value.ring else [])
    // The loop runs on the session's events.
    ensures log.Some? <==> Runs(setup, w)
    ensures log.Some? ==> Looped(log.value, w.events, used, setup.observed)
    ensures log.Some? && log.value.reason.None? ==> used == |w.events|
  {
    row, trace, log, used := InProgress, [], None, 0;
    var fault: Option<string> := None;
    if setup.path && setup.name {
      if w.opens {
        trace := [RecordingOpened];
        var sink := new TrackedRecording(setup.required);
        fault := Drive(sink, w.calls[..w.seen]);
      } else {
        row := Marked(setup, row, FailedOutright);
        if setup.required {
          return;
        }
      }
    }
    trace := trace + [Dialled];
    if !w.connects {
      row := Marked(setup, row, FailedOutright);
      return;
    }
    if setup.observed {
      if !w.registers {
        row := Marked(setup, row, FailedOutright);
        return;
      }
      trace := trace + [Registered];
    }
    var ended;
    ended, used := Loop(w.events, setup.observed);
    log := Some(ended);
    if setup.observed {
      if fault.Some? {
        row := Marked(setup, row, Incomplete);
      }
      row := Closed(row, fault);
      trace := trace + ended.order + [Unregistered, Finalised];
    }
  }

  /** The actor's calls on its sink, and the fault they leave. */
  method Drive(sink: TrackedRecording, calls: seq<Call>) returns (fault: Option<string>)
    requires sink.View() == Sink(sink.required, None, false, []) && ActorCalls(calls)
    modifies sink
    ensures fault == FirstFailure(calls)
  {
    ghost var start := sink.View();
    for k := 0 to |calls|
      invariant sink.View() == HandledAll(start, calls[..k])
    {
      assert calls[..k + 1][..k] == calls[..k];
      var c := calls[k];
      if c.op == Finalize {
        var _ := sink.Finish(c.inner);
      } else {
        var _ := sink.Write(c.op, c.inner);
      }
    }
    assert calls[..|calls|] == calls;
    FaultIsTheFirstFailure(sink.required, calls);
    fault := sink.fault;
  }

  // ── Is the status truthful? ────────────────────────────────────────

  /** Every operation on the recording succeeded. */
  predicate AllDone(calls: seq<Call>) {
    forall c :: c in calls ==> c.inner.Done?
  }

  /** The status a session's row ends with says `complete`. */
  predicate SaysComplete(setup: Setup, w: World)
    requires w.seen <= |w.calls|
  {
    Runs(setup, w) && (Recorded(setup) ==> w.opens && SeenFault(setup, w).None?)
  }

  /** `complete` is said of an imperfect recording exactly when no failure had
      been reported by the time the fault was read, and a finalise was given up
      on or something not yet over then did not succeed. */
  lemma CompleteIsUntrueIff(setup: Setup, w: World)
    requires w.seen <= |w.calls| && Recorded(setup) && Runs(setup, w) && w.opens
    ensures SaysComplete(setup, w) && !AllDone(w.calls)
       <==> && (forall c :: c in w.calls[..w.seen] ==> !c.inner.Failed?)
            && ((exists c :: c in w.calls[..w.seen] && c.inner.GivenUp?)
                || (exists c :: c in w.calls[w.seen..] && !c.inner.Done?))
    ensures AllDone(w.calls) ==> SaysComplete(setup, w)
  {
    FirstFailureWhen(w.calls[..w.seen]);
    assert w.calls == w.calls[..w.seen] + w.calls[w.seen..];
    assert forall c :: c in w.calls <==> c in w.calls[..w.seen] || c in w.calls[w.seen..];
  }

  /** With the actor closed in time and nothing given up on, `complete` means
      the recording opened, the session ran, and every operation succeeded. */
  lemma CompleteIsTruthful(setup: Setup, w: World)
    requires w.seen == |w.calls| && Recorded(setup) && forall c :: c in w.calls ==> !c.inner.GivenUp?
    ensures SaysComplete(setup, w) <==> w.opens && Runs(setup, w) && AllDone(w.calls)
  {
    assert w.calls[..w.seen] == w.calls;
    FirstFailureWhen(w.calls);
  }

  /** A finalise given up on by the teardown limit leaves no fault: the row says
      `complete` for any session otherwise free of failures. */
  lemma GivenUpFinaliseSaysComplete(setup: Setup, w: World)
    requires w.seen == |w.calls| && Recorded(setup) && w.opens && Runs(setup, w)
    requires Call(Finalize, GivenUp) in w.calls && forall c :: c in w.calls ==> !c.inner.Failed?
    ensures SaysComplete(setup, w) && !AllDone(w.calls)
  {
    assert w.calls[..w.seen] == w.calls;
    FirstFailureWhen(w.calls);
  }
}
