/** Rewind: which buffered frames an observer is shown at once and which are
    replayed at pace, and how the paced part is timed. */
module Pacing {

  /** A buffered frame with its delay in milliseconds after the first. */
  datatype Timed = Timed(ms: nat, frame: string)

  /** What the paced loop does, in order. */
  datatype Event = Sleep(ms: nat) | Progress(ms: nat) | Send(frame: string)

  const U64: nat := 0x1_0000_0000_0000_0000

  predicate Monotone(frames: seq<Timed>) {
    forall j, k :: 0 <= j < k < |frames| ==> frames[j].ms <= frames[k].ms
  }

  function Total(frames: seq<Timed>): nat {
    if frames == [] then 0 else frames[|frames| - 1].ms
  }

  /** `saturating_sub`. */
  function Saturating(a: nat, b: nat): nat {
    if a >= b then a - b else 0
  }

  /** `offset * 1000` in 64 bits. */
  function OffsetMs(offset: nat): nat {
    offset * 1000 % U64
  }

  /** Where the paced part begins, for a rewind of `offsetMs`. */
  function Boundary(frames: seq<Timed>, offsetMs: nat): nat {
    Saturating(Total(frames), offsetMs)
  }

  /** The split puts exactly the frames older than the boundary in the part
      shown at once; a rewind of zero puts them all there. */
  method Split(frames: seq<Timed>, offset: nat) returns (split: nat)
    requires Monotone(frames)
    ensures split <= |frames|
    ensures offset == 0 ==> split == |frames|
    ensures offset != 0 ==>
              forall i :: 0 <= i < |frames| ==> (i < split <==> frames[i].ms < Boundary(frames, OffsetMs(offset)))
    ensures 0 < offset && offset * 1000 < 0x1_0000_0000_0000_0000 ==>
              forall i :: 0 <= i < |frames| ==>
                (i < split <==> frames[i].ms + offset * 1000 < frames[|frames| - 1].ms)
    ensures split < |frames| ==> Total(frames) - frames[split].ms <= offset * 1000
    ensures offset != 0 && frames != [] ==> split < |frames|
  {
    if offset == 0 {
      return |frames|;
    }
    var boundary := Boundary(frames, OffsetMs(offset));
    split := 0;
    while split < |frames| && frames[split].ms < boundary
      invariant split <= |frames|
      invariant forall i :: 0 <= i < split ==> frames[i].ms < boundary
    {
      split := split + 1;
    }
  }

  /** The 64-bit product keeps the requested boundary exactly when it does not
      wrap, or what is left of it still covers the whole buffer. */
  lemma WrappedBoundaryIff(frames: seq<Timed>, offset: nat)
    requires Total(frames) < U64
    ensures Boundary(frames, OffsetMs(offset)) == Boundary(frames, offset * 1000)
       <==> offset * 1000 < U64 || Total(frames) <= offset * 1000 % U64
  {
    if offset * 1000 < U64 {
      assert offset * 1000 % U64 == offset * 1000;
    }
  }

  // ── Reading the log of a replay ────────────────────────────────────

  function Sends(events: seq<Event>): seq<string> {
    if events == [] then []
    else
      var last := events[|events| - 1];
      Sends(events[..|events| - 1]) + if last.Send? then [last.frame] else []
  }

  function Marks(events: seq<Event>): seq<nat> {
    if events == [] then []
    else
      var last := events[|events| - 1];
      Marks(events[..|events| - 1]) + if last.Progress? then [last.ms] else []
  }

  function Slept(events: seq<Event>): nat {
    if events == [] then 0
    else
      var last := events[|events| - 1];
      Slept(events[..|events| - 1]) + if last.Sleep? then last.ms else 0
  }

  lemma Logged(events: seq<Event>, e: Event)
    ensures Sends(events + [e]) == Sends(events) + if e.Send? then [e.frame] else []
    ensures Marks(events + [e]) == Marks(events) + if e.Progress? then [e.ms] else []
    ensures Slept(events + [e]) == Slept(events) + if e.Sleep? then e.ms else 0
  {
    assert (events + [e])[..|events|] == events;
  }

  function Texts(frames: seq<Timed>): (r: seq<string>)
    ensures |r| == |frames|
    ensures forall j :: 0 <= j < |r| ==> r[j] == frames[j].frame
  {
    seq(|frames|, j requires 0 <= j < |frames| => frames[j].frame)
  }

  /** Marks sent for `n` paced frames: every twentieth, and the last. */
  function MarkCount(n: nat): nat {
    if n == 0 then 0 else (n - 1) / 20 + 1 + if (n - 1) % 20 == 0 then 0 else 1
  }

  /** A replay speed, and the quotient of a gap by it as the machine computes it,
      which is within a relative `error` of the true one: zero for exact
      division, and 2 to the power -53 for that of 64-bit floats. */
  datatype Rate = Rate(speed: real, quotient: nat -> real, error: real)

  ghost predicate Rounds(rate: Rate) {
    && rate.error >= 0.0
    && (rate.speed > 0.0 ==> forall gap: nat :: rate.quotient(gap) * rate.speed <= gap as real * (1.0 + rate.error))
  }

  /** Sleeping `slept` at this rate fits in `span`, up to rounding. */
  ghost predicate Fits(slept: nat, rate: Rate, span: nat) {
    slept as real * rate.speed <= span as real * (1.0 + rate.error)
  }

  lemma FitsAdd(slept: nat, more: nat, rate: Rate, span: nat, gap: nat)
    requires Fits(slept, rate, span) && Fits(more, rate, gap)
    ensures Fits(slept + more, rate, span + gap)
  {
    assert (slept + more) as real * rate.speed == slept as real * rate.speed + more as real * rate.speed;
    assert (span + gap) as real * (1.0 + rate.error)
        == span as real * (1.0 + rate.error) + gap as real * (1.0 + rate.error);
  }

  /** The pause before a frame that came `gap` after the one before it. */
  function Pause(gap: nat, rate: Rate): nat {
    var adjusted := if gap > 0 then Truncated(rate.quotient(gap)) else 0;
    if adjusted <= 500 then adjusted else 500
  }

  /** `as u64`. */
  function Truncated(q: real): (n: nat)
    ensures n as real <= q || n == 0
  {
    if q < 0.0 then 0 else q.Floor
  }

  /** A pause is at most the gap divided by the speed, up to rounding. */
  lemma PauseFits(gap: nat, rate: Rate)
    requires Rounds(rate) && rate.speed > 0.0
    ensures Fits(Pause(gap, rate), rate, gap)
  {
    var q, ms := rate.quotient(gap), Pause(gap, rate);
    if ms == 0 {
      assert gap as real * (1.0 + rate.error) >= 0.0;
    } else {
      assert ms as real <= q;
      assert ms as real * rate.speed <= q * rate.speed;
    }
  }

  /** The marks sent for `frames[split..i]`: from zero, never back, at the last
      frame the whole span. */
  ghost predicate MarksTo(marks: seq<nat>, frames: seq<Timed>, split: nat, i: nat)
    requires split <= i <= |frames|
  {
    && (forall j, k :: 0 <= j < k < |marks| ==> marks[j] <= marks[k])
    && (i == split ==> marks == [])
    && (i > split ==> marks != [] && marks[0] == 0)
    && (i > split ==> forall j :: 0 <= j < |marks| ==> marks[j] + frames[split].ms <= frames[i - 1].ms)
    && |marks| == (if i == |frames| then MarkCount(|frames| - split) else (i - split + 19) / 20)
    && (i == |frames| > split ==> marks[|marks| - 1] + frames[split].ms == frames[i - 1].ms)
  }

  lemma NoMarks(frames: seq<Timed>, split: nat)
    requires split <= |frames|
    ensures MarksTo([], frames, split, split)
  {
  }

  lemma MarksStep(marks: seq<nat>, frames: seq<Timed>, split: nat, i: nat)
    requires Monotone(frames) && split <= i < |frames| && MarksTo(marks, frames, split, i)
    ensures MarksTo(if Due(frames, split, i) then marks + [Saturating(frames[i].ms, frames[split].ms)] else marks,
                    frames, split, i + 1)
  {
  }

  lemma MarksNext(marks: seq<nat>, next: seq<nat>, frames: seq<Timed>, split: nat, i: nat)
    requires Monotone(frames) && split <= i < |frames| && MarksTo(marks, frames, split, i)
    requires next == if Due(frames, split, i) then marks + [Saturating(frames[i].ms, frames[split].ms)] else marks
    ensures MarksTo(next, frames, split, i + 1)
  {
    MarksStep(marks, frames, split, i);
  }

  /** The pause computed before frame `i`; zero when there is none. */
  function PauseBefore(frames: seq<Timed>, split: nat, i: nat, rate: Rate): (pause: nat)
    requires split <= i < |frames|
    ensures pause <= 500
  {
    if rate.speed > 0.0 && i > split then Pause(Saturating(frames[i].ms, frames[i - 1].ms), rate) else 0
  }

  predicate Due(frames: seq<Timed>, split: nat, i: nat)
    requires split <= i
  {
    (i - split) % 20 == 0 || i == |frames| - 1
  }

  /** Sleep taken before the frames up to `i`. */
  function SleepTo(frames: seq<Timed>, split: nat, i: nat, rate: Rate): nat
    requires split <= i <= |frames|
  {
    if i == split then 0
    else
      var pause := PauseBefore(frames, split, i - 1, rate);
      SleepTo(frames, split, i - 1, rate) + if pause > 5 then pause else 0
  }

  /** Progress marks sent with the frames up to `i`. */
  function ProgressTo(frames: seq<Timed>, split: nat, i: nat): seq<nat>
    requires split <= i <= |frames|
  {
    if i == split then []
    else
      var before := ProgressTo(frames, split, i - 1);
      if Due(frames, split, i - 1) then before + [Saturating(frames[i - 1].ms, frames[split].ms)] else before
  }

  lemma TextsSnoc(frames: seq<Timed>, split: nat, i: nat)
    requires split <= i < |frames|
    ensures Texts(frames[split..i + 1]) == Texts(frames[split..i]) + [frames[i].frame]
  {
    assert frames[split..i + 1] == frames[split..i] + [frames[i]];
  }

  /** Before frame `i`: a pause if it is worth taking, then a mark if one is due. */
  function Lead(frames: seq<Timed>, split: nat, i: nat, rate: Rate): seq<Event>
    requires split <= i < |frames|
  {
    var pause := PauseBefore(frames, split, i, rate);
    (if pause > 5 then [Sleep(pause)] else []) +
    (if Due(frames, split, i) then [Progress(Saturating(frames[i].ms, frames[split].ms))] else [])
  }

  function EventsTo(frames: seq<Timed>, split: nat, i: nat, rate: Rate): seq<Event>
    requires split <= i <= |frames|
  {
    if i == split then []
    else EventsTo(frames, split, i - 1, rate) + Lead(frames, split, i - 1, rate) + [Send(frames[i - 1].frame)]
  }

  /** Phase 1b: the paced loop. */
  method Pace(frames: seq<Timed>, split: nat, rate: Rate) returns (events: seq<Event>)
    requires split <= |frames|
    ensures events == EventsTo(frames, split, |frames|, rate)
    ensures Sends(events) == Texts(frames[split..])
    ensures Marks(events) == ProgressTo(frames, split, |frames|)
    ensures Slept(events) == SleepTo(frames, split, |frames|, rate)
  {
    events := [];
    for i := split to |frames|
      invariant events == EventsTo(frames, split, i, rate)
    {
      ghost var before := events;
      var pause := PauseBefore(frames, split, i, rate);
      if pause > 5 {
        events := events + [Sleep(pause)];
      }
      if Due(frames, split, i) {
        events := events + [Progress(Saturating(frames[i].ms, frames[split].ms))];
      }
      assert events == before + Lead(frames, split, i, rate);
      events := events + [Send(frames[i].frame)];
    }
    EventsProject(frames, split, |frames|, rate);
    assert frames[split..|frames|] == frames[split..];
  }

  /** What the events up to `i` amount to. */
  ghost predicate Projects(events: seq<Event>, sends: seq<string>, marks: seq<nat>, slept: nat) {
    Sends(events) == sends && Marks(events) == marks && Slept(events) == slept
  }

  lemma ProjectPause(events: seq<Event>, sends: seq<string>, marks: seq<nat>, slept: nat, pause: nat)
    requires Projects(events, sends, marks, slept)
    ensures Projects(events + [Sleep(pause)], sends, marks, slept + pause)
  {
    Logged(events, Sleep(pause));
  }

  lemma ProjectMark(events: seq<Event>, sends: seq<string>, marks: seq<nat>, slept: nat, mark: nat)
    requires Projects(events, sends, marks, slept)
    ensures Projects(events + [Progress(mark)], sends, marks + [mark], slept)
  {
    Logged(events, Progress(mark));
  }

  lemma ProjectSend(events: seq<Event>, sends: seq<string>, marks: seq<nat>, slept: nat, frame: string)
    requires Projects(events, sends, marks, slept)
    ensures Projects(events + [Send(frame)], sends + [frame], marks, slept)
  {
    Logged(events, Send(frame));
  }

  lemma ProjectTurn(events: seq<Event>, sends: seq<string>, marks: seq<nat>, slept: nat,
                    pause: nat, due: bool, mark: nat, frame: string)
    requires Projects(events, sends, marks, slept)
    ensures var lead := (if pause > 5 then [Sleep(pause)] else []) + (if due then [Progress(mark)] else []);
            Projects(events + lead + [Send(frame)], sends + [frame],
                     if due then marks + [mark] else marks, slept + if pause > 5 then pause else 0)
  {
    var mid, slept' := events, slept;
    if pause > 5 {
      ProjectPause(events, sends, marks, slept, pause);
      mid, slept' := events + [Sleep(pause)], slept + pause;
    }
    var last, marks' := mid, marks;
    if due {
      ProjectMark(mid, sends, marks, slept', mark);
      last, marks' := mid + [Progress(mark)], marks + [mark];
    }
    ProjectSend(last, sends, marks', slept', frame);
    var lead := (if pause > 5 then [Sleep(pause)] else []) + (if due then [Progress(mark)] else []);
    assert events + lead == last;
  }

  lemma {:induction false} EventsProject(frames: seq<Timed>, split: nat, i: nat, rate: Rate)
    requires split <= i <= |frames|
    ensures Projects(EventsTo(frames, split, i, rate), Texts(frames[split..i]),
                     ProgressTo(frames, split, i), SleepTo(frames, split, i, rate))
  {
    if i > split {
      var j := i - 1;
      EventsProject(frames, split, j, rate);
      TextsSnoc(frames, split, j);
      ProjectTurn(EventsTo(frames, split, j, rate), Texts(frames[split..j]), ProgressTo(frames, split, j),
                  SleepTo(frames, split, j, rate), PauseBefore(frames, split, j, rate), Due(frames, split, j),
                  Saturating(frames[j].ms, frames[split].ms), frames[j].frame);
    }
  }

  /** Progress starts at zero, never goes back, is sent every twentieth frame
      and with the last, and ends at the paced span. */
  lemma {:induction false} ProgressReachesSpan(frames: seq<Timed>, split: nat, i: nat)
    requires Monotone(frames) && split <= i <= |frames|
    ensures MarksTo(ProgressTo(frames, split, i), frames, split, i)
  {
    if i == split {
      NoMarks(frames, split);
    } else {
      ProgressReachesSpan(frames, split, i - 1);
      MarksNext(ProgressTo(frames, split, i - 1), ProgressTo(frames, split, i), frames, split, i - 1);
    }
  }

  /** Each mark but the last is where its frame, the twentieth after that of the
      one before, is in the paced part. */
  lemma {:induction false} MarkIsItsFrame(frames: seq<Timed>, split: nat, i: nat, k: nat)
    requires Monotone(frames) && split <= i <= |frames| && split + 20 * k < i
    ensures k < |ProgressTo(frames, split, i)|
    ensures ProgressTo(frames, split, i)[k] == frames[split + 20 * k].ms - frames[split].ms
  {
    var before := ProgressTo(frames, split, i - 1);
    ProgressReachesSpan(frames, split, i - 1);
    assert |before| == (i - 1 - split + 19) / 20;
    if split + 20 * k < i - 1 {
      MarkIsItsFrame(frames, split, i - 1, k);
    } else {
      assert Due(frames, split, i - 1) && |before| == k;
    }
  }

  /** The whole replay sleeps no longer than its span takes at this speed, up to
      the rounding of the quotients. */
  lemma {:induction false} SleepFitsSpan(frames: seq<Timed>, split: nat, i: nat, rate: Rate)
    requires Rounds(rate) && Monotone(frames) && split <= i <= |frames|
    ensures Fits(SleepTo(frames, split, i, rate), rate, if i == split then 0 else frames[i - 1].ms - frames[split].ms)
    ensures rate.speed <= 0.0 ==> SleepTo(frames, split, i, rate) == 0
  {
    if i > split + 1 {
      SleepFitsSpan(frames, split, i - 1, rate);
      var pause := PauseBefore(frames, split, i - 1, rate);
      var span, gap := frames[i - 2].ms - frames[split].ms, frames[i - 1].ms - frames[i - 2].ms;
      assert Saturating(frames[i - 1].ms, frames[i - 2].ms) == gap;
      if rate.speed > 0.0 {
        PauseFits(gap, rate);
      }
      FitsAdd(SleepTo(frames, split, i - 1, rate), 0, rate, span, gap);
      FitsAdd(SleepTo(frames, split, i - 1, rate), pause, rate, span, gap);
    }
  }

  // ── Pausing no less than it should ─────────────────────────────────

  /** The machine's quotient is not below the true one by more than the error. */
  ghost predicate RoundsNear(rate: Rate) {
    && 0.0 <= rate.error <= 1.0 && rate.speed > 0.0
    && forall gap: nat :: gap as real * (1.0 - rate.error) <= rate.quotient(gap) * rate.speed
  }

  /** What is left of a gap when pauses are cut at half a second. */
  function Cut(gap: nat, speed: real): real {
    if gap as real <= 500.0 * speed then gap as real else 500.0 * speed
  }

  /** The span of a replay up to frame `i`, each gap so cut. */
  function CutSpan(frames: seq<Timed>, split: nat, i: nat, speed: real): real
    requires split <= i <= |frames|
  {
    if i <= split + 1 then 0.0
    else CutSpan(frames, split, i - 1, speed) + Cut(Saturating(frames[i - 1].ms, frames[i - 2].ms), speed)
  }

  function Taken(gap: nat, rate: Rate): nat {
    if Pause(gap, rate) > 5 then Pause(gap, rate) else 0
  }

  lemma TruncatedNear(q: real)
    ensures q < Truncated(q) as real + 1.0
  {
  }

  lemma Scales(a: real, b: real, c: real)
    requires a <= b && c >= 0.0
    ensures a * c <= b * c
  {
  }

  lemma Shrinks(a: real, keep: real)
    requires 0.0 <= a && keep <= 1.0
    ensures a * keep <= a
  {
    assert a * (1.0 - keep) >= 0.0;
    assert a * (1.0 - keep) == a - a * keep;
  }

  lemma TakenNear(gap: nat, rate: Rate)
    requires gap > 0
    ensures Taken(gap, rate) == 500 || rate.quotient(gap) <= (Taken(gap, rate) + 6) as real
  {
    TruncatedNear(rate.quotient(gap));
  }

  /** Sleeping `slept` covers `span` at this rate, up to rounding. */
  ghost predicate Reaches(slept: int, rate: Rate, span: real) {
    span * (1.0 - rate.error) <= slept as real * rate.speed
  }

  lemma ReachesAdd(slept: int, more: int, rate: Rate, span: real, gap: real)
    requires Reaches(slept, rate, span) && Reaches(more, rate, gap)
    ensures Reaches(slept + more, rate, span + gap)
  {
    assert (slept + more) as real * rate.speed == slept as real * rate.speed + more as real * rate.speed;
    assert (span + gap) * (1.0 - rate.error) == span * (1.0 - rate.error) + gap * (1.0 - rate.error);
  }

  lemma ReachesByQuotient(slept: int, rate: Rate, span: real, gap: nat)
    requires RoundsNear(rate) && span <= gap as real && rate.quotient(gap) <= slept as real
    ensures Reaches(slept, rate, span)
  {
    Scales(span, gap as real, 1.0 - rate.error);
    Scales(rate.quotient(gap), slept as real, rate.speed);
    assert gap as real * (1.0 - rate.error) <= rate.quotient(gap) * rate.speed;
  }

  lemma ReachesByLongest(slept: int, rate: Rate, span: real)
    requires rate.speed > 0.0 && 0.0 <= rate.error && 0.0 <= span <= 500.0 * rate.speed && 500 <= slept
    ensures Reaches(slept, rate, span)
  {
    var longest, all := 500.0 * rate.speed, slept as real * rate.speed;
    Scales(500.0, slept as real, rate.speed);
    assert longest <= all;
    Shrinks(span, 1.0 - rate.error);
    assert span * (1.0 - rate.error) <= span <= longest;
  }

  /** Before each frame the sleep falls short of the gap, cut at half a second of
      pause, by less than six milliseconds of pause. */
  lemma TakenReaches(gap: nat, rate: Rate)
    requires RoundsNear(rate)
    ensures Reaches(Taken(gap, rate) + 6, rate, Cut(gap, rate.speed))
  {
    if gap == 0 {
      Scales(0.0, (Taken(gap, rate) + 6) as real, rate.speed);
    } else {
      TakenNear(gap, rate);
      if Taken(gap, rate) == 500 {
        ReachesByLongest(506, rate, Cut(gap, rate.speed));
      } else {
        ReachesByQuotient(Taken(gap, rate) + 6, rate, Cut(gap, rate.speed), gap);
      }
    }
  }

  lemma SleepStep(frames: seq<Timed>, split: nat, i: nat, rate: Rate)
    requires split + 1 < i <= |frames| && rate.speed > 0.0
    ensures SleepTo(frames, split, i, rate)
         == SleepTo(frames, split, i - 1, rate) + Taken(Saturating(frames[i - 1].ms, frames[i - 2].ms), rate)
  {
  }

  /** A replay is paced: up to every frame, it has slept its span, gaps cut at
      half a second of pause, divided by the speed, short by less than six
      milliseconds for each frame after the first, and by rounding. */
  lemma {:induction false} SleepReachesSpan(frames: seq<Timed>, split: nat, i: nat, rate: Rate)
    requires RoundsNear(rate) && split < i <= |frames|
    ensures Reaches(SleepTo(frames, split, i, rate) + 6 * (i - split - 1), rate, CutSpan(frames, split, i, rate.speed))
  {
    if i == split + 1 {
      assert SleepTo(frames, split, split, rate) == 0 && SleepTo(frames, split, i, rate) == 0;
    } else {
      var gap := Saturating(frames[i - 1].ms, frames[i - 2].ms);
      SleepReachesSpan(frames, split, i - 1, rate);
      TakenReaches(gap, rate);
      SleepStep(frames, split, i, rate);
      ReachesAdd(SleepTo(frames, split, i - 1, rate) + 6 * (i - split - 2), Taken(gap, rate) + 6, rate,
                 CutSpan(frames, split, i - 1, rate.speed), Cut(gap, rate.speed));
    }
  }

  /** The true quotient, without rounding. */
  ghost predicate Exact(rate: Rate) {
    rate.speed > 0.0 && forall gap: nat :: rate.quotient(gap) == gap as real / rate.speed
  }

  /** At the session's own speed, with every gap from six milliseconds to half a
      second, a replay sleeps exactly its span, up to every frame. */
  lemma {:induction false} OwnSpeedSleepsTheSpan(frames: seq<Timed>, split: nat, i: nat, rate: Rate)
    requires Exact(rate) && rate.speed == 1.0 && Monotone(frames) && split < i <= |frames|
    requires forall j :: split < j < |frames| ==> 6 <= frames[j].ms - frames[j - 1].ms <= 500
    ensures SleepTo(frames, split, i, rate) == frames[i - 1].ms - frames[split].ms
  {
    if i == split + 1 {
      assert SleepTo(frames, split, split, rate) == 0;
    } else {
      OwnSpeedSleepsTheSpan(frames, split, i - 1, rate);
      SleepStep(frames, split, i, rate);
      var gap := Saturating(frames[i - 1].ms, frames[i - 2].ms);
      assert rate.quotient(gap) == gap as real;
      assert Pause(gap, rate) == gap;
    }
  }

  // ── When the bound holds without the rounding ──────────────────────

  /** Sleeping `slept` at this rate fits in `span` exactly. */
  ghost predicate FitsExactly(slept: nat, rate: Rate, span: nat) {
    slept as real * rate.speed <= span as real
  }

  /** The gap is so long that the longest pause fits, or its quotient does not
      round up past a whole number of milliseconds. */
  ghost predicate RoundsDown(gap: nat, rate: Rate)
    requires rate.speed > 0.0
  {
    gap == 0 || 500.0 * rate.speed <= gap as real || Truncated(rate.quotient(gap)) <= (gap as real / rate.speed).Floor
  }

  lemma WholeFits(gap: nat, speed: real, ms: nat)
    requires speed > 0.0
    ensures ms as real * speed <= gap as real <==> ms <= (gap as real / speed).Floor
  {
    var q := gap as real / speed;
    assert q * speed == gap as real;
    if ms as real <= q {
      assert ms as real * speed <= q * speed;
    } else {
      assert ms as real * speed > q * speed;
    }
  }

  /** A pause is at most the gap divided by the speed exactly when the quotient
      does not round up past a whole millisecond below the longest pause. */
  lemma PauseFitsExactlyIff(gap: nat, rate: Rate)
    requires rate.speed > 0.0
    ensures FitsExactly(Pause(gap, rate), rate, gap) <==> RoundsDown(gap, rate)
  {
    if gap > 0 {
      var adjusted := Truncated(rate.quotient(gap));
      WholeFits(gap, rate.speed, adjusted);
      WholeFits(gap, rate.speed, 500);
      WholeFits(gap, rate.speed, Pause(gap, rate));
    }
  }

  /** A pause short enough to be skipped, or one that rounds down. */
  ghost predicate Harmless(gap: nat, rate: Rate)
    requires rate.speed > 0.0
  {
    Pause(gap, rate) <= 5 || RoundsDown(gap, rate)
  }

  function Span(frames: seq<Timed>, split: nat, i: nat): nat
    requires Monotone(frames) && split <= i <= |frames|
  {
    if i == split then 0 else frames[i - 1].ms - frames[split].ms
  }

  ghost predicate ReplayFits(frames: seq<Timed>, split: nat, rate: Rate) {
    Monotone(frames) && split <= |frames| ==>
      FitsExactly(SleepTo(frames, split, |frames|, rate), rate, Span(frames, split, |frames|))
  }

  lemma FitsExactlyAdd(slept: nat, more: nat, rate: Rate, span: nat, gap: nat)
    requires FitsExactly(slept, rate, span) && FitsExactly(more, rate, gap)
    ensures FitsExactly(slept + more, rate, span + gap)
  {
    assert (slept + more) as real * rate.speed == slept as real * rate.speed + more as real * rate.speed;
  }

  lemma {:induction false} HarmlessSleepFits(frames: seq<Timed>, split: nat, i: nat, rate: Rate)
    requires Monotone(frames) && split <= i <= |frames| && rate.speed > 0.0
    requires forall gap: nat :: Harmless(gap, rate)
    ensures FitsExactly(SleepTo(frames, split, i, rate), rate, Span(frames, split, i))
  {
    if i > split + 1 {
      HarmlessSleepFits(frames, split, i - 1, rate);
      var gap := frames[i - 1].ms - frames[i - 2].ms;
      assert Saturating(frames[i - 1].ms, frames[i - 2].ms) == gap && Harmless(gap, rate);
      PauseFitsExactlyIff(gap, rate);
      var slept, span := SleepTo(frames, split, i - 1, rate), Span(frames, split, i - 1);
      FitsExactlyAdd(slept, 0, rate, span, gap);
      if Pause(gap, rate) > 5 {
        FitsExactlyAdd(slept, Pause(gap, rate), rate, span, gap);
      }
    }
  }

  /** Two frames `gap` apart, replayed from the first. */
  lemma PairSleeps(gap: nat, rate: Rate) returns (frames: seq<Timed>)
    requires rate.speed > 0.0
    ensures Monotone(frames) && |frames| == 2 && Span(frames, 0, 2) == gap
    ensures SleepTo(frames, 0, 2, rate) == if Pause(gap, rate) > 5 then Pause(gap, rate) else 0
  {
    frames := [Timed(0, ""), Timed(gap, "")];
    assert SleepTo(frames, 0, 1, rate) == 0;
    assert PauseBefore(frames, 0, 1, rate) == Pause(gap, rate);
  }

  /** A rate keeps every replay within its span divided by the speed if and only
      if no pause it takes rounds up. */
  lemma EveryReplayFitsIff(rate: Rate)
    requires rate.speed > 0.0
    ensures (forall frames: seq<Timed>, split: nat :: ReplayFits(frames, split, rate))
       <==> forall gap: nat :: Harmless(gap, rate)
  {
    if forall frames: seq<Timed>, split: nat :: ReplayFits(frames, split, rate) {
      forall gap: nat ensures Harmless(gap, rate) {
        var frames := PairSleeps(gap, rate);
        assert ReplayFits(frames, 0, rate);
        PauseFitsExactlyIff(gap, rate);
      }
    }
    if forall gap: nat :: Harmless(gap, rate) {
      forall frames: seq<Timed>, split: nat ensures ReplayFits(frames, split, rate) {
        if Monotone(frames) && split <= |frames| {
          HarmlessSleepFits(frames, split, |frames|, rate);
        }
      }
    }
  }

  /** One tenth, as a 64-bit float has it. */
  const TENTH: real := 3602879701896397.0 / 36028797018963968.0

  /** At that speed the quotient of 1 rounds to 10. */
  function TenthRate(): Rate {
    Rate(TENTH, gap => if gap == 1 then 10.0 else gap as real / TENTH, 1.0 / 9007199254740992.0)
  }

  lemma TenthRounds()
    ensures Rounds(TenthRate()) && TenthRate().speed > 0.0
  {
    var rate := TenthRate();
    forall gap: nat ensures rate.quotient(gap) * rate.speed <= gap as real * (1.0 + rate.error) {
      if gap != 1 {
        assert gap as real / TENTH * TENTH == gap as real;
        assert gap as real * rate.error >= 0.0;
      }
    }
  }

  /** The bound fails for floating point: frames a millisecond apart, at a tenth of
      the speed, are slept between for longer than a millisecond divided by it. */
  lemma RoundedReplayOversleeps()
    ensures Rounds(TenthRate()) && exists frames :: !ReplayFits(frames, 0, TenthRate())
  {
    var rate := TenthRate();
    TenthRounds();
    assert Pause(1, rate) == 10;
    assert 10.0 * TENTH > 1.0;
    var frames := PairSleeps(1, rate);
    assert !ReplayFits(frames, 0, rate);
  }
}
