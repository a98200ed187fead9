/** `SessionBuffer`: the five-minute ring of frames kept for each live session,
    and the log of drawing instructions salvaged from frames it evicts. */
module ReplayBuffer {
  import opened Text
  import opened Guacamole
  import opened BaseState

  /** Nanoseconds; `MAX_BUFFER_DURATION` and the span observers ask for. */
  const SPAN: int := 300_000_000_000

  // ── Credential filtering ───────────────────────────────────────────

  /** `str::parse::<usize>`. */
  function ParseUsize(s: string): Option<nat> {
    var digits := if s != "" && s[0] == '+' then s[1..] else s;
    if digits == "" || !AllDigits(digits) || DigitsValue(digits) >= 0x1_0000_0000_0000_0000 then None
    else Some(DigitsValue(digits))
  }

  /** `parse_opcode`: the opcode, if its declared length is its length. */
  function ParseOpcode(inst: string): Option<string> {
    var dot := Find(inst, {'.'});
    if dot == |inst| then None
    else match ParseUsize(inst[..dot])
         case None => None
         case Some(declared) =>
           var opcode := Head(inst[dot + 1..]);
           if Utf8Size(opcode) == declared then Some(opcode) else None
  }

  const SENSITIVE: set<string> := {"connect", "args"}

  predicate KeptByFilter(piece: string) {
    !Blank(piece) &&
    var op := ParseOpcode(Trim(piece));
    !(op.Some? && op.value in SENSITIVE)
  }

  function FilterSensitive(data: string): string {
    Keep(KeptByFilter, Pieces(data))
  }

  // ── Salvage ────────────────────────────────────────────────────────

  const EPHEMERAL: set<string> := {"4.sync", "3.nop", "3.key", "5.mouse"}

  predicate Salvageable(piece: string) {
    !Blank(piece) && Head(Trim(piece)) !in EPHEMERAL
  }

  function Chosen(p: string -> bool, pieces: seq<string>): seq<string> {
    if pieces == [] then []
    else if p(pieces[0]) then [pieces[0]] + Chosen(p, pieces[1..])
    else Chosen(p, pieces[1..])
  }

  function Salvage(data: string): seq<string> {
    Chosen(Salvageable, Pieces(data))
  }

  lemma {:induction false} InChosen(p: string -> bool, pieces: seq<string>, q: string)
    ensures q in Chosen(p, pieces) <==> q in pieces && p(q)
  {
    if pieces != [] {
      InChosen(p, pieces[1..], q);
    }
  }

  /** What is salvaged from any text at all: the pieces between semicolons that are
      not blank and do not begin as a sync, a keep-alive or echoed input. */
  lemma SalvagedIff(data: string, q: string)
    ensures q in Salvage(data) <==> q in Pieces(data) && Trim(q) != "" && !Passing(Head(Trim(q)))
  {
    InChosen(Salvageable, Pieces(data), q);
    LastsIff(Trim(q));
  }

  predicate Passing(head: string) {
    head == "4.sync" || head == "3.nop" || head == "3.key" || head == "5.mouse"
  }

  lemma LastsIff(t: string)
    ensures Head(t) in EPHEMERAL <==> Passing(Head(t))
  {
  }

  /** A length is read with or without a plus sign, if it fits 64 bits. */
  lemma LengthReads(n: nat)
    ensures ParseUsize(Digits(n)) == ParseUsize("+" + Digits(n))
    ensures ParseUsize(Digits(n)) == if n < 0x1_0000_0000_0000_0000 then Some(n) else None
  {
    DigitsValueOfDigits(n);
    assert ("+" + Digits(n))[1..] == Digits(n) && Digits(n)[0] != '+';
  }

  function FlatMap(f: string -> seq<string>, chunks: seq<string>): seq<string> {
    if chunks == [] then [] else f(chunks[0]) + FlatMap(f, chunks[1..])
  }

  lemma {:induction false} FlatMapConcat(f: string -> seq<string>, a: seq<string>, b: seq<string>)
    ensures FlatMap(f, a + b) == FlatMap(f, a) + FlatMap(f, b)
  {
    if a == [] {
      assert a + b == b;
    } else {
      assert (a + b)[1..] == a[1..] + b;
      FlatMapConcat(f, a[1..], b);
    }
  }

  lemma FlatMapSnoc(f: string -> seq<string>, a: seq<string>, chunk: string)
    ensures FlatMap(f, a + [chunk]) == FlatMap(f, a) + f(chunk)
  {
    FlatMapConcat(f, a, [chunk]);
    assert FlatMap(f, [chunk]) == f(chunk) + FlatMap(f, []);
  }

  function Sum(size: string -> nat, entries: seq<string>): nat {
    if entries == [] then 0 else size(entries[0]) + Sum(size, entries[1..])
  }

  lemma {:induction false} SumConcat(size: string -> nat, a: seq<string>, b: seq<string>)
    ensures Sum(size, a + b) == Sum(size, a) + Sum(size, b)
  {
    if a == [] {
      assert a + b == b;
    } else {
      assert (a + b)[1..] == a[1..] + b;
      SumConcat(size, a[1..], b);
    }
  }

  lemma SumSnoc(size: string -> nat, a: seq<string>, e: string)
    ensures Sum(size, a + [e]) == Sum(size, a) + size(e)
  {
    SumConcat(size, a, [e]);
    assert Sum(size, [e]) == size(e) + Sum(size, []);
  }

  /** `filter_sensitive_instructions`. */
  method FilterSensitiveInstructions(data: string) returns (filtered: string)
    ensures filtered == FilterSensitive(data)
  {
    var pieces := Pieces(data);
    filtered := "";
    for k := 0 to |pieces|
      invariant filtered + Keep(KeptByFilter, pieces[k..]) == Keep(KeptByFilter, pieces)
    {
      var inst := pieces[k];
      KeepFrom(KeptByFilter, pieces, k);
      var trimmed := Trim(inst);
      if trimmed != "" {
        var opcode := ParseOpcode(trimmed);
        var sensitive := opcode == Some("connect") || opcode == Some("args");
        if !sensitive {
          Associates(filtered, inst, Keep(KeptByFilter, pieces[k + 1..]));
          filtered := filtered + inst;
        }
      }
    }
    assert pieces[|pieces|..] == [];
  }

  // ── The ring ───────────────────────────────────────────────────────

  datatype Frame = Frame(timestamp: int, data: string)

  function Data(frames: seq<Frame>): (r: seq<string>)
    ensures |r| == |frames|
    ensures forall j :: 0 <= j < |frames| ==> r[j] == frames[j].data
  {
    seq(|frames|, j requires 0 <= j < |frames| => frames[j].data)
  }

  predicate Sorted(frames: seq<Frame>) {
    forall j, k :: 0 <= j < k < |frames| ==> frames[j].timestamp <= frames[k].timestamp
  }

  /** How many of the oldest frames a push drops: those older than `cutoff`,
      and as many more as bring the ring within `cap`. */
  function Evictions(size: string -> nat, frames: seq<Frame>, cutoff: int, cap: nat): (n: nat)
    ensures n <= |frames|
  {
    if frames != [] && (frames[0].timestamp < cutoff || Sum(size, Data(frames)) > cap)
    then 1 + Evictions(size, frames[1..], cutoff, cap)
    else 0
  }

  // ── What an observer is given ──────────────────────────────────────

  /** The frames `frames_with_timing` selects at `now`. */
  function Fresh(frames: seq<Frame>, now: int): seq<Frame> {
    if frames == [] then []
    else if frames[0].timestamp >= now - SPAN then [frames[0]] + Fresh(frames[1..], now)
    else Fresh(frames[1..], now)
  }

  /** How many of the oldest frames it leaves out. */
  function Stale(frames: seq<Frame>, now: int): (n: nat)
    ensures n <= |frames|
  {
    if frames != [] && frames[0].timestamp < now - SPAN then 1 + Stale(frames[1..], now) else 0
  }

  lemma {:induction false} FreshIsSuffix(frames: seq<Frame>, now: int)
    requires Sorted(frames)
    ensures Fresh(frames, now) == frames[Stale(frames, now)..]
    ensures forall j :: 0 <= j < |frames| ==> (j < Stale(frames, now) <==> frames[j].timestamp < now - SPAN)
  {
    if frames != [] {
      assert Sorted(frames[1..]);
      FreshIsSuffix(frames[1..], now);
      if frames[0].timestamp >= now - SPAN {
        assert |frames| > 1 ==> frames[1].timestamp >= now - SPAN;
        assert Stale(frames[1..], now) == 0;
      } else {
        assert frames[Stale(frames, now)..] == frames[1..][Stale(frames[1..], now)..];
      }
    }
  }

  /** The selected frames, each with its delay in milliseconds after the first. */
  function FramesWithTiming(frames: seq<Frame>, now: int): seq<(int, string)> {
    var selected := Fresh(frames, now);
    seq(|selected|, j requires 0 <= j < |selected| =>
      ((selected[j].timestamp - selected[0].timestamp) / 1_000_000, selected[j].data))
  }

  /** Replay delays start at zero and never decrease. */
  lemma TimingIsMonotone(frames: seq<Frame>, now: int)
    requires Sorted(frames)
    ensures var r := FramesWithTiming(frames, now);
            && (r != [] ==> r[0].0 == 0)
            && forall j, k :: 0 <= j < k < |r| ==> r[j].0 <= r[k].0
  {
    FreshIsSuffix(frames, now);
  }

  /** An observer is given the frames young enough, in order, each with the whole
      milliseconds from the first of them to it. */
  lemma TimingIsExact(frames: seq<Frame>, now: int, j: nat)
    requires Sorted(frames) && j < |FramesWithTiming(frames, now)|
    ensures |FramesWithTiming(frames, now)| == |frames| - Stale(frames, now)
    ensures var first, f := frames[Stale(frames, now)], frames[Stale(frames, now) + j];
            var r := FramesWithTiming(frames, now)[j];
            && r.1 == f.data
            && r.0 * 1_000_000 <= f.timestamp - first.timestamp < (r.0 + 1) * 1_000_000
  {
    FreshIsSuffix(frames, now);
  }

  // ── The buffer ─────────────────────────────────────────────────────

  /** The ring holds the chunks after the first `evicted`, and the log holds
      what was salvaged from those, less its `dropped` oldest entries. */
  ghost predicate Consistent(salvage: string -> seq<string>, frames: seq<Frame>, log: seq<string>,
                             history: seq<string>, evicted: nat, dropped: nat)
  {
    && evicted <= |history|
    && Data(frames) == history[evicted..]
    && Sorted(frames)
    && dropped <= |FlatMap(salvage, history[..evicted])|
    && log == FlatMap(salvage, history[..evicted])[dropped..]
  }

  lemma ConsistentEvict(salvage: string -> seq<string>, frames: seq<Frame>, log: seq<string>,
                        history: seq<string>, evicted: nat, dropped: nat)
    requires Consistent(salvage, frames, log, history, evicted, dropped) && frames != []
    ensures Consistent(salvage, frames[1..], log + salvage(frames[0].data), history, evicted + 1, dropped)
    ensures history[evicted] == frames[0].data
  {
    assert history[evicted] == Data(frames)[0] == frames[0].data;
    assert Data(frames[1..]) == history[evicted + 1..];
    assert history[..evicted + 1] == history[..evicted] + [history[evicted]];
    FlatMapSnoc(salvage, history[..evicted], history[evicted]);
  }

  lemma ConsistentAppend(salvage: string -> seq<string>, frames: seq<Frame>, log: seq<string>,
                         history: seq<string>, evicted: nat, dropped: nat, f: Frame)
    requires Consistent(salvage, frames, log, history, evicted, dropped)
    requires forall g :: g in frames ==> g.timestamp <= f.timestamp
    ensures Consistent(salvage, frames + [f], log, history + [f.data], evicted, dropped)
    ensures Data(frames + [f]) == Data(frames) + [f.data]
  {
    assert Data(frames + [f]) == Data(frames) + [f.data];
    assert (history + [f.data])[evicted..] == history[evicted..] + [f.data];
    assert (history + [f.data])[..evicted] == history[..evicted];
  }

  /** The ring and the log, over the three passes made on a chunk's text:
      redaction, salvage and length. */
  class SessionBuffer {
    const redact: string -> string
    const salvage: string -> seq<string>
    const size: string -> nat

    var frames: seq<Frame>
    var totalBytes: nat
    var log: seq<string>
    var logBytes: nat

    ghost var history: seq<string>
    ghost var evicted: nat
    ghost var dropped: nat

    ghost predicate Valid()
      reads this
    {
      && Consistent(salvage, frames, log, history, evicted, dropped)
      && totalBytes == Sum(size, Data(frames))
      && logBytes == Sum(size, log)
    }

    constructor ()
      ensures Valid()
      ensures redact == FilterSensitive && salvage == Salvage && size == Utf8Size
      ensures history == [] && frames == [] && log == [] && evicted == dropped == 0
    {
      redact, salvage, size := FilterSensitive, Salvage, Utf8Size;
      frames, totalBytes, log, logBytes := [], 0, [], 0;
      history, evicted, dropped := [], 0, 0;
    }

    /** Drop the oldest log entries until the log is within its cap. */
    method TrimLog(logCap: nat)
      requires Valid()
      modifies this`log, this`logBytes, this`dropped
      ensures Valid() && logBytes <= logCap && dropped >= old(dropped)
      ensures old(logBytes) <= logCap ==> dropped == old(dropped) && logBytes == old(logBytes)
    {
      while logBytes > logCap
        invariant Valid() && dropped >= old(dropped)
        invariant old(logBytes) <= logCap ==> dropped == old(dropped) && logBytes == old(logBytes)
        decreases |log|
      {
        log, logBytes := log[1..], logBytes - size(log[0]);
        dropped := dropped + 1;
      }
    }

    /** Evict the oldest frame, salvaging from it and trimming the log. */
    method EvictFront(logCap: nat)
      requires Valid() && frames != []
      modifies this`frames, this`totalBytes, this`log, this`logBytes, this`evicted, this`dropped
      ensures Valid()
      ensures frames == old(frames)[1..] && evicted == old(evicted) + 1
      ensures logBytes <= logCap && dropped >= old(dropped)
      ensures history[old(evicted)] == old(frames)[0].data
      ensures var kept := old(logBytes) + Sum(size, salvage(old(frames)[0].data));
              kept <= logCap ==> dropped == old(dropped) && logBytes == kept
    {
      var front := frames[0].data;
      ConsistentEvict(salvage, frames, log, history, evicted, dropped);
      assert Data(frames)[1..] == Data(frames[1..]);
      SumConcat(size, log, salvage(front));
      frames, totalBytes := frames[1..], totalBytes - size(front);
      log, logBytes := log + salvage(front), logBytes + Sum(size, salvage(front));
      evicted := evicted + 1;
      TrimLog(logCap);
    }

    /** Append a chunk, without its credential-bearing instructions. */
    method Push(data: string, stamp: int, now: int, ringCap: nat, logCap: nat)
      requires Valid()
      requires stamp <= now && forall f :: f in frames ==> f.timestamp <= stamp
      modifies this
      ensures Valid()
      ensures redact(data) == "" ==> unchanged(this)
      ensures redact(data) != "" ==>
                && history == old(history) + [redact(data)]
                && evicted == old(evicted) +
                              Evictions(size, old(frames) + [Frame(stamp, redact(data))], now - SPAN, ringCap)
                && frames == (old(frames) + [Frame(stamp, redact(data))])[evicted - old(evicted)..]
      ensures old(dropped) <= dropped && old(evicted) <= evicted <= |history|
      ensures dropped > old(dropped) ==>
                old(logBytes) + Sum(size, FlatMap(salvage, history[old(evicted)..evicted])) > logCap
    {
      var chunk := redact(data);
      if chunk == "" {
        return;
      }
      Store(chunk, stamp, now - SPAN, ringCap, logCap);
    }

    /** Append a chunk, then evict what is older than `cutoff` or over the cap. */
    method Store(chunk: string, stamp: int, cutoff: int, ringCap: nat, logCap: nat)
      requires Valid() && forall f :: f in frames ==> f.timestamp <= stamp
      modifies this
      ensures Valid() && history == old(history) + [chunk]
      ensures Evicting(old(frames) + [Frame(stamp, chunk)], cutoff, ringCap,
                       old(evicted), old(logBytes), old(dropped), logCap)
      ensures evicted == old(evicted) + Evictions(size, old(frames) + [Frame(stamp, chunk)], cutoff, ringCap)
    {
      ghost var e0, l0, d0 := evicted, logBytes, dropped;
      Append(chunk, stamp);
      ghost var all := frames;
      EvictingStarts(cutoff, ringCap, logCap);
      EvictOld(cutoff, all, ringCap, e0, l0, d0, logCap);
      EvictExcess(cutoff, all, ringCap, e0, l0, d0, logCap);
    }

    method Append(chunk: string, stamp: int)
      requires Valid() && forall f :: f in frames ==> f.timestamp <= stamp
      modifies this`frames, this`totalBytes, this`history
      ensures Valid()
      ensures frames == old(frames) + [Frame(stamp, chunk)] && history == old(history) + [chunk]
    {
      ConsistentAppend(salvage, frames, log, history, evicted, dropped, Frame(stamp, chunk));
      SumSnoc(size, Data(frames), chunk);
      frames, totalBytes := frames + [Frame(stamp, chunk)], totalBytes + size(chunk);
      history := history + [chunk];
    }

    lemma EvictingStarts(cutoff: int, ringCap: nat, logCap: nat)
      requires Valid()
      ensures Evicting(frames, cutoff, ringCap, evicted, logBytes, dropped, logCap)
    {
      assert history[evicted..evicted] == [];
    }

    method EvictOld(cutoff: int, ghost all: seq<Frame>, ghost ringCap: nat,
                    ghost e0: nat, ghost l0: nat, ghost d0: nat, logCap: nat)
      requires Valid() && Evicting(all, cutoff, ringCap, e0, l0, d0, logCap)
      modifies this`frames, this`totalBytes, this`log, this`logBytes, this`evicted, this`dropped
      ensures Valid() && Evicting(all, cutoff, ringCap, e0, l0, d0, logCap)
      ensures frames != [] ==> frames[0].timestamp >= cutoff
    {
      while frames != [] && frames[0].timestamp < cutoff
        invariant Valid() && Evicting(all, cutoff, ringCap, e0, l0, d0, logCap)
        decreases |frames|
      {
        EvictOne(cutoff, all, ringCap, e0, l0, d0, logCap);
      }
    }

    method EvictExcess(ghost cutoff: int, ghost all: seq<Frame>, ringCap: nat,
                       ghost e0: nat, ghost l0: nat, ghost d0: nat, logCap: nat)
      requires Valid() && Evicting(all, cutoff, ringCap, e0, l0, d0, logCap)
      requires frames != [] ==> frames[0].timestamp >= cutoff
      modifies this`frames, this`totalBytes, this`log, this`logBytes, this`evicted, this`dropped
      ensures Valid() && Evicting(all, cutoff, ringCap, e0, l0, d0, logCap)
      ensures evicted == e0 + Evictions(size, all, cutoff, ringCap)
    {
      while totalBytes > ringCap
        invariant Valid() && Evicting(all, cutoff, ringCap, e0, l0, d0, logCap)
        invariant frames != [] ==> frames[0].timestamp >= cutoff
        decreases |frames|
      {
        EvictOne(cutoff, all, ringCap, e0, l0, d0, logCap);
      }
    }

    /** Progress of a push's evictions: `all` is the ring with the new frame,
        and `e0`, `l0`, `d0` are the counts before the push. */
    ghost predicate Evicting(all: seq<Frame>, cutoff: int, ringCap: nat, e0: nat, l0: nat, d0: nat, logCap: nat)
      reads this
    {
      && e0 <= evicted <= e0 + |all| && evicted <= |history|
      && frames == all[evicted - e0..]
      && (evicted - e0) + Evictions(size, frames, cutoff, ringCap) == Evictions(size, all, cutoff, ringCap)
      && d0 <= dropped
      && var salvaged := Sum(size, FlatMap(salvage, history[e0..evicted]));
         (l0 + salvaged <= logCap ==> dropped == d0 && logBytes == l0 + salvaged)
    }

    method EvictOne(ghost cutoff: int, ghost all: seq<Frame>, ghost ringCap: nat,
                    ghost e0: nat, ghost l0: nat, ghost d0: nat, logCap: nat)
      requires Valid() && frames != []
      requires frames[0].timestamp < cutoff || totalBytes > ringCap
      requires Evicting(all, cutoff, ringCap, e0, l0, d0, logCap)
      modifies this`frames, this`totalBytes, this`log, this`logBytes, this`evicted, this`dropped
      ensures Valid() && Evicting(all, cutoff, ringCap, e0, l0, d0, logCap)
      ensures frames == old(frames)[1..]
    {
      ghost var front, known := frames[0].data, history[e0..evicted];
      EvictFront(logCap);
      assert history[e0..evicted] == known + [front];
      FlatMapSnoc(salvage, known, front);
      SumConcat(size, FlatMap(salvage, known), salvage(front));
    }
  }

  // ── Coverage ───────────────────────────────────────────────────────

  /** Log and ring together hold every salvageable instruction ever pushed, in
      order, less the oldest entries trimmed from the log. */
  lemma LogAndRingCover(salvage: string -> seq<string>, frames: seq<Frame>, log: seq<string>,
                        history: seq<string>, evicted: nat, dropped: nat)
    requires Consistent(salvage, frames, log, history, evicted, dropped)
    ensures dropped + |log| + |FlatMap(salvage, Data(frames))| == |FlatMap(salvage, history)|
    ensures log + FlatMap(salvage, Data(frames)) == FlatMap(salvage, history)[dropped..]
  {
    var gone := FlatMap(salvage, history[..evicted]);
    assert history == history[..evicted] + history[evicted..];
    FlatMapConcat(salvage, history[..evicted], history[evicted..]);
    assert (gone + FlatMap(salvage, Data(frames)))[dropped..] == gone[dropped..] + FlatMap(salvage, Data(frames));
  }

  /** What an observer is given covers everything pushed exactly when the log has
      never been trimmed and the ring frames older than the span hold nothing
      to salvage. Frames leave the ring only at a push, but are left out of a
      snapshot by age. */
  lemma SnapshotCoversIff(salvage: string -> seq<string>, frames: seq<Frame>, log: seq<string>,
                          history: seq<string>, evicted: nat, dropped: nat, now: int)
    requires Consistent(salvage, frames, log, history, evicted, dropped)
    ensures log + FlatMap(salvage, Data(Fresh(frames, now))) == FlatMap(salvage, history)
       <==> dropped == 0 && FlatMap(salvage, Data(frames[..Stale(frames, now)])) == []
  {
    LogAndRingCover(salvage, frames, log, history, evicted, dropped);
    FreshIsSuffix(frames, now);
    var aged, young := frames[..Stale(frames, now)], Fresh(frames, now);
    assert Data(frames) == Data(aged) + Data(young);
    FlatMapConcat(salvage, Data(aged), Data(young));
    var lost, kept := FlatMap(salvage, Data(aged)), FlatMap(salvage, Data(young));
    if dropped == 0 && lost == [] {
      assert lost + kept == kept;
    } else {
      assert |log + kept| < |FlatMap(salvage, history)|;
    }
  }

  /** At the clock of the last push no frame is stale, so the snapshot covers
      everything exactly when the log has never been trimmed. */
  lemma SnapshotAfterEvictionCovers(salvage: string -> seq<string>, size: string -> nat,
                                    all: seq<Frame>, cap: nat, log: seq<string>,
                                    history: seq<string>, evicted: nat, dropped: nat, now: int)
    requires var frames := all[Evictions(size, all, now - SPAN, cap)..];
             Consistent(salvage, frames, log, history, evicted, dropped)
    ensures var frames := all[Evictions(size, all, now - SPAN, cap)..];
            log + FlatMap(salvage, Data(Fresh(frames, now))) == FlatMap(salvage, history) <==> dropped == 0
  {
    var frames := all[Evictions(size, all, now - SPAN, cap)..];
    EvictionsStop(size, all, now - SPAN, cap);
    assert frames[..Stale(frames, now)] == [];
    assert Data(frames[..Stale(frames, now)]) == [];
    SnapshotCoversIff(salvage, frames, log, history, evicted, dropped, now);
  }

  lemma {:induction false} EvictionsStop(size: string -> nat, all: seq<Frame>, cutoff: int, cap: nat)
    ensures var rest := all[Evictions(size, all, cutoff, cap)..];
            rest != [] ==> rest[0].timestamp >= cutoff && Sum(size, Data(rest)) <= cap
  {
    if all != [] && (all[0].timestamp < cutoff || Sum(size, Data(all)) > cap) {
      EvictionsStop(size, all[1..], cutoff, cap);
      assert all[1..][Evictions(size, all[1..], cutoff, cap)..] == all[Evictions(size, all, cutoff, cap)..];
    }
  }

  /** A push evicts no frame it need not: each was over age, or began a ring over
      the cap. */
  lemma {:induction false} EvictionsNeeded(size: string -> nat, all: seq<Frame>, cutoff: int, cap: nat, k: nat)
    requires k < Evictions(size, all, cutoff, cap)
    ensures all[k].timestamp < cutoff || Sum(size, Data(all[k..])) > cap
  {
    if k == 0 {
      assert all[0..] == all;
    } else {
      EvictionsNeeded(size, all[1..], cutoff, cap, k - 1);
      assert all[1..][k - 1..] == all[k..];
    }
  }

  /** A session idle for longer than the span has every ring frame left out:
      an observer is given the log alone. */
  lemma IdleSnapshotIsLogOnly(frames: seq<Frame>, now: int)
    requires Sorted(frames) && frames != [] && frames[|frames| - 1].timestamp < now - 300_000_000_000
    ensures Fresh(frames, now) == [] && Stale(frames, now) == |frames|
  {
    FreshIsSuffix(frames, now);
    assert |frames| - 1 < Stale(frames, now);
  }
}
