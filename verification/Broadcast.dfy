/** Live observation of a session: one producer pushes each frame to the ring
    and then broadcasts it; observers join from a snapshot, follow the
    broadcast, and rebuild from the ring when they fall behind. Frames are
    named by their position in push order. */
module Broadcast {

  /** `BROADCAST_CAPACITY`: how many messages the channel retains. */
  const CAPACITY: nat := 8192

  /** `delivered` is everything sent to this observer's socket, `next` its place
      in the channel, `reached` that place before a lag not yet repaired;
      `base` and `from` are the ring size and the place at its last snapshot. */
  datatype Observer = Observer(delivered: seq<nat>, next: nat, reached: nat,
                               base: nat, from: nat, lagged: bool, rebuilt: bool)

  /** `evicted` frames have left the ring for the salvaged log, and `trimmed` of
      those have left the log, which drops its oldest entries at its cap; a
      frame counts as gone once any of its entries is. */
  datatype State = State(pushed: nat, sent: nat, evicted: nat, trimmed: nat, observers: map<nat, Observer>)

  /** A snapshot at a moment when ring frames before `stale` are over age. */
  datatype Action =
    | Push(evicted: nat, trimmed: nat)
    | Send
    | Join(id: nat, stale: nat)
    | Receive(id: nat)
    | Lag(id: nat)
    | Rebuild(id: nat, stale: nat)
    | Leave(id: nat)

  function Range(lo: nat, hi: nat): (r: seq<nat>)
    ensures |r| == if lo <= hi then hi - lo else 0
    ensures forall k :: 0 <= k < |r| ==> r[k] == lo + k
    ensures forall x :: x in r <==> lo <= x < hi
  {
    if lo >= hi then [] else Range(lo, hi - 1) + [hi - 1]
  }

  const Init: State := State(0, 0, 0, 0, map[])

  predicate Enabled(s: State, a: Action) {
    match a
    case Push(evicted, trimmed) =>
      s.pushed == s.sent && s.evicted <= evicted <= s.pushed + 1 && s.trimmed <= trimmed <= evicted
    case Send => s.sent < s.pushed
    case Join(id, stale) => id !in s.observers && s.evicted <= stale <= s.pushed
    case Receive(id) =>
      id in s.observers && !s.observers[id].lagged &&
      s.observers[id].next < s.sent <= s.observers[id].next + CAPACITY
    case Lag(id) =>
      id in s.observers && !s.observers[id].lagged && s.observers[id].next + CAPACITY < s.sent
    case Rebuild(id, stale) =>
      id in s.observers && s.observers[id].lagged && s.evicted <= stale <= s.pushed
    case Leave(id) => id in s.observers
  }

  /** Log and ring as a snapshot gives them: evicted frames still in the log,
      then the ring frames young enough to be selected. */
  function Snapshot(s: State, stale: nat): seq<nat> {
    Range(s.trimmed, s.evicted) + Range(stale, s.pushed)
  }

  function Received(o: Observer): Observer {
    o.(delivered := o.delivered + [o.next], next := o.next + 1, reached := o.next + 1)
  }

  function Next(s: State, a: Action): State
    requires Enabled(s, a)
  {
    match a
    case Push(evicted, trimmed) => s.(pushed := s.pushed + 1, evicted := evicted, trimmed := trimmed)
    case Send => s.(sent := s.sent + 1)
    case Join(id, stale) =>
      s.(observers := s.observers[id := Observer(Snapshot(s, stale), s.sent, s.sent, s.pushed, s.sent, false, false)])
    case Receive(id) =>
      var o := s.observers[id];
      s.(observers := s.observers[id := Received(o)])
    case Lag(id) =>
      var o := s.observers[id];
      s.(observers := s.observers[id := o.(next := s.sent - CAPACITY, lagged := true)])
    case Rebuild(id, stale) =>
      var o := s.observers[id];
      s.(observers := s.observers[id := o.(delivered := o.delivered + Snapshot(s, stale), reached := o.next,
                                           base := s.pushed, from := o.next, lagged := false, rebuilt := true)])
    case Leave(id) => s.(observers := s.observers - {id})
  }

  /** The states a run goes through, from the start. */
  ghost predicate Run(states: seq<State>, actions: seq<Action>) {
    && |states| == |actions| + 1 && states[0] == Init
    && forall k :: 0 <= k < |actions| ==> Enabled(states[k], actions[k]) && states[k + 1] == Next(states[k], actions[k])
  }

  /** A snapshot is timely when the ring holds no over-age frame and the log has
      never been trimmed. */
  predicate TimelySnapshot(s: State, stale: nat) {
    stale == s.evicted && s.trimmed == 0
  }

  /** Steps at which the observer is sent a snapshot. */
  predicate Snaps(a: Action, id: nat) {
    (a.Join? || a.Rebuild?) && a.id == id
  }

  /** The observer's latest snapshot before `k` was timely; what it lost before
      that, or others have lost since, does not matter. */
  ghost predicate Timely(states: seq<State>, actions: seq<Action>, id: nat, k: nat)
    requires |states| == |actions| + 1 && k <= |actions|
  {
    if k == 0 then true
    else
      var s, a := states[k - 1], actions[k - 1];
      if Snaps(a, id) then TimelySnapshot(s, a.stale) else Timely(states, actions, id, k - 1)
  }

  /** In the run, at `k`, the observer is there and its latest snapshot was timely. */
  ghost predicate Watching(states: seq<State>, actions: seq<Action>, id: nat, k: nat) {
    Run(states, actions) && k < |states| && id in states[k].observers && Timely(states, actions, id, k)
  }

  // ── Nothing is lost ────────────────────────────────────────────────

  predicate Covered(o: Observer) {
    forall k :: 0 <= k < o.reached ==> k in o.delivered
  }

  /** What was sent since the last snapshot: the whole ring, then the broadcast
      from where the observer stood. */
  predicate Tail(o: Observer, cut: nat) {
    && o.from <= o.base && o.from <= o.reached
    && cut <= |o.delivered|
    && o.delivered[cut..] == Range(0, o.base) + Range(o.from, o.reached)
    && (!o.rebuilt ==> cut == 0 && o.base <= o.from + 1)
  }

  ghost predicate Sound(s: State, o: Observer) {
    && o.reached <= o.next <= s.sent && o.base <= s.pushed
    && (!o.lagged ==> o.reached == o.next)
    && Covered(o)
    && (forall x :: x in o.delivered ==> x < o.base || x < o.reached)
    && exists cut: nat :: Tail(o, cut)
  }

  /** The counters of every reachable state. */
  predicate Bounds(s: State) {
    s.sent <= s.pushed <= s.sent + 1 && s.trimmed <= s.evicted <= s.pushed
  }

  /** Where any observer stands, whatever it has lost. */
  predicate Placed(s: State, o: Observer) {
    && o.reached <= o.next <= s.sent && o.base <= s.pushed
    && (!o.lagged ==> o.reached == o.next)
    && forall k :: 0 <= k < |o.delivered| ==> o.delivered[k] < s.pushed
  }

  ghost predicate AllPlaced(s: State) {
    Bounds(s) && forall id :: id in s.observers ==> Placed(s, s.observers[id])
  }

  lemma SnapshotBelow(s: State, stale: nat)
    requires Bounds(s)
    ensures forall k :: 0 <= k < |Snapshot(s, stale)| ==> Snapshot(s, stale)[k] < s.pushed
  {
    forall k | 0 <= k < |Snapshot(s, stale)| ensures Snapshot(s, stale)[k] < s.pushed {
      assert Snapshot(s, stale)[k] in Range(s.trimmed, s.evicted) || Snapshot(s, stale)[k] in Range(stale, s.pushed);
    }
  }

  lemma StaysPlaced(s: State, s': State, o: Observer)
    requires Placed(s, o) && s.sent <= s'.sent && s.pushed <= s'.pushed
    ensures Placed(s', o)
  {
  }

  lemma SnapsPlaced(s: State, a: Action, id: nat)
    requires AllPlaced(s) && Enabled(s, a) && Snaps(a, id)
    ensures Placed(s, Next(s, a).observers[id])
  {
    SnapshotBelow(s, a.stale);
    if a.Rebuild? {
      assert Placed(s, s.observers[id]);
    }
  }

  lemma StepKeepsPlaced(s: State, a: Action, s': State)
    requires AllPlaced(s) && Enabled(s, a) && s' == Next(s, a)
    ensures AllPlaced(s')
  {
    forall id | id in s'.observers ensures Placed(s', s'.observers[id]) {
      if Snaps(a, id) {
        SnapsPlaced(s, a, id);
      } else {
        assert Placed(s, s.observers[id]);
      }
      StaysPlaced(s, s', s'.observers[id]);
    }
  }

  lemma {:induction false} RunKeepsPlaced(states: seq<State>, actions: seq<Action>, k: nat)
    requires Run(states, actions) && k < |states|
    ensures AllPlaced(states[k])
  {
    if k > 0 {
      RunKeepsPlaced(states, actions, k - 1);
      StepKeepsPlaced(states[k - 1], actions[k - 1], states[k]);
    }
  }

  lemma SnapshotIsWhole(s: State)
    requires s.trimmed == 0 && s.evicted <= s.pushed
    ensures Snapshot(s, s.evicted) == Range(0, s.pushed)
  {
  }

  lemma TailReceives(o: Observer, o': Observer, cut: nat)
    requires Tail(o, cut) && o.reached == o.next
    requires o' == Received(o)
    ensures Tail(o', cut)
  {
    var body, live := Range(0, o.base), Range(o.from, o.next);
    assert o'.delivered[cut..] == o.delivered[cut..] + [o.next];
    assert Range(o.from, o.next + 1) == live + [o.next];
    assert body + (live + [o.next]) == (body + live) + [o.next];
  }

  lemma ReceiveSound(s: State, o: Observer)
    requires Sound(s, o) && !o.lagged && o.next < s.sent
    ensures Sound(s, Received(o))
  {
    var o' := Received(o);
    var cut: nat :| Tail(o, cut);
    TailReceives(o, o', cut);
    forall k | 0 <= k < o'.reached ensures k in o'.delivered {
      if k == o.next {
        assert o'.delivered[|o.delivered|] == k;
      }
    }
  }

  lemma SnapshotSound(s: State, o: Observer, pre: seq<nat>)
    requires s.trimmed == 0 && s.evicted <= s.pushed && s.sent <= s.pushed
    requires o.delivered == pre + Snapshot(s, s.evicted)
    requires o.next == o.reached == o.from <= s.sent && o.base == s.pushed
    requires !o.lagged && (!o.rebuilt ==> pre == [] && s.pushed <= o.from + 1)
    requires forall x :: x in pre ==> x < s.pushed
    ensures Sound(s, o)
  {
    SnapshotIsWhole(s);
    assert o.delivered[|pre|..] == Range(0, o.base) + Range(o.from, o.reached);
    assert Tail(o, |pre|);
    forall k | 0 <= k < o.reached ensures k in o.delivered {
      assert k in Range(0, s.pushed);
    }
  }

  lemma StaysSound(s: State, s': State, o: Observer)
    requires Sound(s, o) && s.sent <= s'.sent && s.pushed <= s'.pushed
    ensures Sound(s', o)
  {
  }

  lemma LagSound(s: State, o: Observer)
    requires Sound(s, o) && !o.lagged && o.next + CAPACITY < s.sent
    ensures Sound(s, o.(next := s.sent - CAPACITY, lagged := true))
  {
    var cut: nat :| Tail(o, cut);
    assert Tail(o.(next := s.sent - CAPACITY, lagged := true), cut);
  }

  /** An observer the step does not concern keeps its place and deliveries. */
  lemma OthersStaySound(s: State, a: Action, id: nat)
    requires Enabled(s, a) && id in s.observers && Sound(s, s.observers[id])
    requires a.Push? || a.Send? || a.id != id
    ensures id in Next(s, a).observers && Sound(Next(s, a), Next(s, a).observers[id])
  {
    StaysSound(s, Next(s, a), s.observers[id]);
  }

  /** A timely snapshot makes an observer sound, whatever it had lost. */
  lemma TimelySnapshotSound(s: State, a: Action, id: nat)
    requires AllPlaced(s) && Enabled(s, a) && Snaps(a, id) && TimelySnapshot(s, a.stale)
    ensures Sound(Next(s, a), Next(s, a).observers[id])
  {
    var s' := Next(s, a);
    var o' := s'.observers[id];
    if a.Join? {
      assert o'.delivered == [] + Snapshot(s, s.evicted);
      SnapshotSound(s, o', []);
    } else {
      assert Placed(s, s.observers[id]);
      SnapshotSound(s, o', s.observers[id].delivered);
    }
    StaysSound(s, s', o');
  }

  /** Each step other than a snapshot keeps an observer sound, whatever the others
      have been sent. */
  lemma StepKeepsSound(s: State, a: Action, id: nat)
    requires Enabled(s, a) && id in s.observers && Sound(s, s.observers[id])
    requires id in Next(s, a).observers && !Snaps(a, id)
    ensures Sound(Next(s, a), Next(s, a).observers[id])
  {
    var s', o := Next(s, a), s.observers[id];
    if a.Push? || a.Send? || a.id != id {
      OthersStaySound(s, a, id);
    } else {
      match a
      case Receive(_) => ReceiveSound(s, o);
      case Lag(_) => LagSound(s, o);
      StaysSound(s, s', s'.observers[id]);
    }
  }

  lemma WasThere(s: State, a: Action, id: nat)
    requires Enabled(s, a) && id in Next(s, a).observers && !Snaps(a, id)
    ensures id in s.observers
  {
  }

  lemma ReachedSound(s: State, a: Action, s': State, id: nat)
    requires AllPlaced(s) && Enabled(s, a) && s' == Next(s, a) && id in s'.observers
    requires Snaps(a, id) ==> TimelySnapshot(s, a.stale)
    requires !Snaps(a, id) ==> id in s.observers && Sound(s, s.observers[id])
    ensures Sound(s', s'.observers[id])
  {
    if Snaps(a, id) {
      TimelySnapshotSound(s, a, id);
    } else {
      StepKeepsSound(s, a, id);
    }
  }

  /** Nothing is lost: in every interleaving of pushes, broadcasts, joins,
      receives, lags and rebuilds, an observer whose latest snapshot was timely
      has been sent every frame before its place, and since that snapshot the
      whole ring and then the broadcast in order. */
  lemma {:induction false} NothingIsLost(states: seq<State>, actions: seq<Action>, k: nat, id: nat)
    requires Watching(states, actions, id, k)
    ensures Sound(states[k], states[k].observers[id])
  {
    RunKeepsPlaced(states, actions, k - 1);
    if !Snaps(actions[k - 1], id) {
      WasThere(states[k - 1], actions[k - 1], id);
      NothingIsLost(states, actions, k - 1, id);
    }
    ReachedSound(states[k - 1], actions[k - 1], states[k], id);
  }

  /** A joining observer has been sent every frame before its place exactly when
      nothing of what was broadcast has left the log, and the over-age frames
      its snapshot leaves out are still to be broadcast. */
  lemma JoinCoversIff(s: State, id: nat, stale: nat)
    requires Bounds(s) && Enabled(s, Join(id, stale))
    ensures Covered(Next(s, Join(id, stale)).observers[id])
       <==> (s.trimmed == 0 || s.sent == 0) && (stale <= s.evicted || s.sent <= s.evicted)
  {
    var o := Next(s, Join(id, stale)).observers[id];
    if 0 < s.trimmed && 0 < s.sent {
      assert 0 !in o.delivered;
    } else if s.evicted < stale && s.evicted < s.sent {
      assert s.evicted !in o.delivered;
    }
  }

  /** How many frames a sound observer has been sent: exactly the first so many. */
  function Known(o: Observer): nat {
    if o.base <= o.reached then o.reached else o.base
  }

  lemma DeliveredIsKnown(s: State, o: Observer)
    requires Sound(s, o)
    ensures forall k: nat :: k in o.delivered <==> k < Known(o)
  {
    var cut: nat :| Tail(o, cut);
    forall k: nat | k < Known(o) ensures k in o.delivered {
      if k < o.base {
        assert k in Range(0, o.base);
        assert k in o.delivered[cut..];
      }
    }
  }

  /** A rebuild loses a frame exactly when one the observer has not been sent,
      and will not be, has left the log or is over age in the ring. */
  lemma RebuildCoversIff(s: State, id: nat, stale: nat)
    requires Bounds(s) && Enabled(s, Rebuild(id, stale)) && Sound(s, s.observers[id])
    ensures var o := s.observers[id];
            var unsent := Known(o);
            var unlogged := if unsent <= s.evicted then s.evicted else unsent;
            Covered(Next(s, Rebuild(id, stale)).observers[id])
            <==> (s.trimmed <= unsent || o.next <= unsent) && (stale <= unlogged || o.next <= unlogged)
  {
    var o, o' := s.observers[id], Next(s, Rebuild(id, stale)).observers[id];
    var unsent := Known(o);
    var unlogged := if unsent <= s.evicted then s.evicted else unsent;
    forall k: nat ensures k in o'.delivered <==> k < unsent || s.trimmed <= k < s.evicted || stale <= k < s.pushed {
      DeliveredIsKnown(s, o);
      assert k in o'.delivered <==> k in o.delivered || k in Snapshot(s, stale);
    }
    if unsent < s.trimmed && unsent < o.next {
      assert unsent !in o'.delivered;
    } else if unlogged < stale && unlogged < o.next {
      assert unlogged !in o'.delivered;
    }
  }

  // ── Order ──────────────────────────────────────────────────────────

  /** Of the first `n` frames, some delivery of each comes after every delivery
      of the frames before it. */
  ghost predicate LastInOrder(ds: seq<nat>, n: nat) {
    forall i, j :: 0 <= i < j < n ==> After(ds, i, j)
  }

  ghost predicate After(ds: seq<nat>, i: nat, j: nat) {
    exists p :: 0 <= p < |ds| && ds[p] == j && forall q :: 0 <= q < |ds| && ds[q] == i ==> q < p
  }

  lemma AfterAt(ds: seq<nat>, i: nat, j: nat, p: nat)
    requires p < |ds| && ds[p] == j
    requires forall q :: p <= q < |ds| ==> ds[q] != i
    ensures After(ds, i, j)
  {
  }

  /** After a snapshot of `m` frames and the broadcast from `a` to `n`, last
      deliveries are in push order exactly when nothing has been received yet
      or everything in the snapshot has been passed. */
  lemma TailInOrderIff(pre: seq<nat>, m: nat, a: nat, n: nat)
    requires a <= m && a <= n
    ensures var ds := pre + Range(0, m) + Range(a, n);
            LastInOrder(ds, if m <= n then n else m) <==> n == a || m <= n
  {
    var ds := pre + Range(0, m) + Range(a, n);
    var body, tail := |pre|, |pre| + m;
    var top := if m <= n then n else m;
    assert forall p :: body <= p < tail ==> ds[p] == p - body;
    assert forall p :: tail <= p < |ds| ==> ds[p] == p - tail + a;
    if n == a || m <= n {
      forall i, j | 0 <= i < j < top ensures After(ds, i, j) {
        if a <= j < n {
          AfterAt(ds, i, j, tail + (j - a));
        } else {
          AfterAt(ds, i, j, body + j);
        }
      }
    } else {
      var i, j := n - 1, m - 1;
      assert ds[tail + (i - a)] == i;
      assert !After(ds, i, j);
    }
  }

  lemma PassedTailInOrder(o: Observer, cut: nat)
    requires Tail(o, cut) && o.reached >= o.base
    ensures LastInOrder(o.delivered, o.reached)
  {
    var pre, body, live := o.delivered[..cut], Range(0, o.base), Range(o.from, o.reached);
    TailInOrderIff(pre, o.base, o.from, o.reached);
    assert o.delivered == pre + o.delivered[cut..];
    assert pre + (body + live) == pre + body + live;
  }

  /** In every run, an observer that has passed its last snapshot has had each
      frame last delivered in push order, and none that it has not reached. */
  lemma CaughtUpInOrder(states: seq<State>, actions: seq<Action>, k: nat, id: nat)
    requires Watching(states, actions, id, k)
    requires var o := states[k].observers[id]; o.reached >= o.base
    ensures var o := states[k].observers[id]; LastInOrder(o.delivered, o.reached)
  {
    NothingIsLost(states, actions, k, id);
    var o := states[k].observers[id];
    var cut: nat :| Tail(o, cut);
    PassedTailInOrder(o, cut);
  }

  /** Joining is gap-free: until it first rebuilds, an observer has been sent
      the snapshot and then the broadcast, with at most one frame twice. */
  lemma JoinIsGapFree(states: seq<State>, actions: seq<Action>, k: nat, id: nat)
    requires Watching(states, actions, id, k)
    requires !states[k].observers[id].rebuilt
    ensures var o := states[k].observers[id];
            && o.delivered == Range(0, o.base) + Range(o.from, o.reached)
            && o.from <= o.reached && (o.from == o.base || o.from == o.base - 1)
  {
    NothingIsLost(states, actions, k, id);
    var o := states[k].observers[id];
    var cut: nat :| Tail(o, cut);
    assert o.delivered[0..] == o.delivered;
  }

  // ── What the client has painted ────────────────────────────────────

  /** A frame whose drawing overwrites: the cells it sets and their colours. */
  type Writes = map<int, int>

  predicate Ids(ds: seq<nat>, n: nat) {
    forall k :: 0 <= k < |ds| ==> ds[k] < n
  }

  function Paint(canvas: Writes, frames: seq<Writes>, ds: seq<nat>): Writes
    requires Ids(ds, |frames|)
  {
    if ds == [] then canvas
    else Paint(canvas, frames, ds[..|ds| - 1]) + frames[ds[|ds| - 1]]
  }

  lemma {:induction false} PaintCell(canvas: Writes, frames: seq<Writes>, ds: seq<nat>, cell: int, p: nat)
    requires Ids(ds, |frames|)
    requires p < |ds| && cell in frames[ds[p]]
    requires forall q :: p < q < |ds| ==> cell !in frames[ds[q]]
    ensures cell in Paint(canvas, frames, ds) && Paint(canvas, frames, ds)[cell] == frames[ds[p]][cell]
  {
    if p < |ds| - 1 {
      var init := ds[..|ds| - 1];
      assert forall q :: 0 <= q < |init| ==> init[q] == ds[q];
      assert cell !in frames[ds[|ds| - 1]];
      PaintCell(canvas, frames, init, cell, p);
    }
  }

  lemma {:induction false} PaintNoCell(canvas: Writes, frames: seq<Writes>, ds: seq<nat>, cell: int)
    requires Ids(ds, |frames|)
    requires forall q :: 0 <= q < |ds| ==> cell !in frames[ds[q]]
    ensures cell in Paint(canvas, frames, ds) <==> cell in canvas
    ensures cell in canvas ==> Paint(canvas, frames, ds)[cell] == canvas[cell]
  {
    if ds != [] {
      var init := ds[..|ds| - 1];
      assert forall q :: 0 <= q < |init| ==> init[q] == ds[q];
      PaintNoCell(canvas, frames, init, cell);
    }
  }

  /** The last frame, if any, to set `cell`. */
  lemma {:induction false} LastWriter(frames: seq<Writes>, cell: int, n: nat) returns (j: int)
    requires n <= |frames|
    ensures -1 <= j < n
    ensures j >= 0 ==> cell in frames[j]
    ensures forall i :: j < i < n ==> cell !in frames[i]
  {
    if n == 0 {
      j := -1;
    } else if cell in frames[n - 1] {
      j := n - 1;
    } else {
      j := LastWriter(frames, cell, n - 1);
    }
  }

  lemma {:induction false} LastDelivery(ds: seq<nat>, j: nat) returns (p: nat)
    requires j in ds
    ensures p < |ds| && ds[p] == j
    ensures forall q :: p < q < |ds| ==> ds[q] != j
  {
    if ds[|ds| - 1] == j {
      p := |ds| - 1;
    } else {
      var init := ds[..|ds| - 1];
      assert ds == init + [ds[|ds| - 1]];
      p := LastDelivery(init, j);
      assert forall q :: 0 <= q < |init| ==> init[q] == ds[q];
    }
  }

  lemma CellOfOrdered(canvas: Writes, frames: seq<Writes>, ds: seq<nat>, cell: int, j: int)
    requires Ids(ds, |frames|)
    requires forall k :: 0 <= k < |frames| ==> k in ds
    requires LastInOrder(ds, |frames|)
    requires -1 <= j < |frames| && (j >= 0 ==> cell in frames[j])
    requires forall i :: j < i < |frames| ==> cell !in frames[i]
    ensures if j >= 0 then cell in Paint(canvas, frames, ds) && Paint(canvas, frames, ds)[cell] == frames[j][cell]
            else (cell in Paint(canvas, frames, ds) <==> cell in canvas) &&
                 (cell in canvas ==> Paint(canvas, frames, ds)[cell] == canvas[cell])
  {
    if j < 0 {
      PaintNoCell(canvas, frames, ds, cell);
    } else {
      var p := LastDelivery(ds, j);
      forall q | p < q < |ds| ensures cell !in frames[ds[q]] {
        assert ds[q] < j ==> After(ds, ds[q], j);
      }
      PaintCell(canvas, frames, ds, cell, p);
    }
  }

  lemma RangeInOrder(n: nat)
    ensures LastInOrder(Range(0, n), n)
  {
    forall i, j | 0 <= i < j < n ensures After(Range(0, n), i, j) {
      AfterAt(Range(0, n), i, j, j);
    }
  }

  /** When last deliveries are in push order, repeats cannot be seen: a client
      of overwriting frames shows what one clean replay would have shown. */
  lemma OrderedDeliveryPaints(canvas: Writes, frames: seq<Writes>, ds: seq<nat>)
    requires Ids(ds, |frames|)
    requires forall k :: 0 <= k < |frames| ==> k in ds
    requires LastInOrder(ds, |frames|)
    ensures Paint(canvas, frames, ds) == Paint(canvas, frames, Range(0, |frames|))
  {
    var clean := Range(0, |frames|);
    RangeInOrder(|frames|);
    forall cell: int
      ensures cell in Paint(canvas, frames, ds) <==> cell in Paint(canvas, frames, clean)
      ensures cell in Paint(canvas, frames, ds) ==>
                Paint(canvas, frames, ds)[cell] == Paint(canvas, frames, clean)[cell]
    {
      var j := LastWriter(frames, cell, |frames|);
      CellOfOrdered(canvas, frames, ds, cell, j);
      CellOfOrdered(canvas, frames, clean, cell, j);
    }
  }

  /** In every run, an observer that has passed its last snapshot shows what
      the frames before its place show when replayed once, in order. */
  lemma CaughtUpClientShowsTheSession(states: seq<State>, actions: seq<Action>, k: nat, id: nat,
                                      canvas: Writes, frames: seq<Writes>)
    requires Watching(states, actions, id, k)
    requires var o := states[k].observers[id]; o.reached >= o.base && |frames| == o.reached
    ensures var ds := states[k].observers[id].delivered;
            Ids(ds, |frames|) && Paint(canvas, frames, ds) == Paint(canvas, frames, Range(0, |frames|))
  {
    NothingIsLost(states, actions, k, id);
    var o := states[k].observers[id];
    forall j | 0 <= j < |o.delivered| ensures o.delivered[j] < |frames| {
      assert o.delivered[j] in o.delivered;
    }
    CaughtUpInOrder(states, actions, k, id);
    OrderedDeliveryPaints(canvas, frames, o.delivered);
  }

  // ── Drawing that reads the canvas ──────────────────────────────────

  function Replay<C>(draw: (C, nat) -> C, canvas: C, ds: seq<nat>): C
    decreases |ds|
  {
    if ds == [] then canvas else Replay(draw, draw(canvas, ds[0]), ds[1..])
  }

  lemma {:induction false} ReplayConcat<C>(draw: (C, nat) -> C, canvas: C, a: seq<nat>, b: seq<nat>)
    ensures Replay(draw, canvas, a + b) == Replay(draw, Replay(draw, canvas, a), b)
    decreases |a|
  {
    if a == [] {
      assert a + b == b;
    } else {
      assert (a + b)[1..] == a[1..] + b;
      ReplayConcat(draw, draw(canvas, a[0]), a[1..], b);
    }
  }

  lemma RangeSplit(lo: nat, mid: nat, hi: nat)
    requires lo <= mid <= hi
    ensures Range(lo, hi) == Range(lo, mid) + Range(mid, hi)
  {
  }

  /** The canvas once the frames of the last snapshot sent again by the
      broadcast have all been drawn over what the snapshot left. */
  ghost function Redrawn<C>(draw: (C, nat) -> C, canvas: C, o: Observer, cut: nat): C
    requires cut <= |o.delivered|
  {
    var rebuilt := Replay(draw, Replay(draw, canvas, o.delivered[..cut]), Range(0, o.base));
    Replay(draw, rebuilt, Range(o.from, o.base))
  }

  lemma TailReplays<C>(draw: (C, nat) -> C, canvas: C, o: Observer, cut: nat)
    requires Tail(o, cut) && o.base <= o.reached
    ensures Replay(draw, canvas, o.delivered) == Replay(draw, Redrawn(draw, canvas, o, cut), Range(o.base, o.reached))
    ensures Replay(draw, canvas, Range(0, o.reached))
         == Replay(draw, Replay(draw, canvas, Range(0, o.base)), Range(o.base, o.reached))
  {
    var pre, body, live := o.delivered[..cut], Range(0, o.base), Range(o.from, o.reached);
    assert o.delivered == pre + (body + live);
    ReplayConcat(draw, canvas, pre, body + live);
    ReplayConcat(draw, Replay(draw, canvas, pre), body, live);
    var rebuilt := Replay(draw, Replay(draw, canvas, pre), body);
    RangeSplit(o.from, o.base, o.reached);
    ReplayConcat(draw, rebuilt, Range(o.from, o.base), Range(o.base, o.reached));
    RangeSplit(0, o.base, o.reached);
    ReplayConcat(draw, canvas, body, Range(o.base, o.reached));
  }

  ghost predicate ShowsTheSession<C>(draw: (C, nat) -> C, canvas: C, o: Observer) {
    Replay(draw, canvas, o.delivered) == Replay(draw, canvas, Range(0, o.reached))
  }

  /** For drawing of any kind, an observer that joined and has just passed its
      snapshot shows the session exactly when it joined between broadcasts, or
      redrawing the last frame of the snapshot on the session's canvas changes
      nothing; later, exactly when the frames since lead both canvases to one.
      Once it shows the session it goes on doing so until a rebuild. */
  lemma JoinedShowsIff<C>(states: seq<State>, actions: seq<Action>, k: nat, id: nat, draw: (C, nat) -> C, canvas: C)
    requires Watching(states, actions, id, k)
    requires var o := states[k].observers[id]; !o.rebuilt && o.base <= o.reached
    ensures var o := states[k].observers[id];
            var session := Replay(draw, canvas, Range(0, o.base));
            var again := if o.from >= o.base then session else draw(session, o.base - 1);
            var live := Range(o.base, o.reached);
            && (ShowsTheSession(draw, canvas, o) <==> Replay(draw, again, live) == Replay(draw, session, live))
            && (o.reached == o.base ==> (ShowsTheSession(draw, canvas, o) <==> again == session))
            && (again == session ==> ShowsTheSession(draw, canvas, o))
  {
    NothingIsLost(states, actions, k, id);
    var o := states[k].observers[id];
    var cut: nat :| Tail(o, cut);
    JoinedRedraws(draw, canvas, o, cut);
    TailReplays(draw, canvas, o, cut);
    assert Range(o.base, o.base) == [];
  }

  lemma JoinedRedraws<C>(draw: (C, nat) -> C, canvas: C, o: Observer, cut: nat)
    requires Tail(o, cut) && !o.rebuilt
    ensures var session := Replay(draw, canvas, Range(0, o.base));
            Redrawn(draw, canvas, o, cut) == if o.from >= o.base then session else draw(session, o.base - 1)
  {
    var session := Replay(draw, canvas, Range(0, o.base));
    assert o.delivered[..cut] == [];
    if o.from == o.base {
      assert Range(o.from, o.base) == [];
    } else {
      var again := Range(o.from, o.base);
      assert again == [o.base - 1] && again[1..] == [];
      assert Replay(draw, draw(session, o.base - 1), []) == draw(session, o.base - 1);
    }
  }

  /** After a rebuild the condition is on the frames from the observer's place to
      the end of the ring, drawn again over what the rebuild left: the observer
      that has just passed its snapshot shows the session exactly when that
      leaves the session's canvas, which for a rebuild that itself restored the
      canvas means that redrawing those frames on it changes nothing. */
  lemma RebuiltShowsIff<C>(states: seq<State>, actions: seq<Action>, k: nat, id: nat, draw: (C, nat) -> C, canvas: C)
    returns (cut: nat)
    requires Watching(states, actions, id, k)
    requires var o := states[k].observers[id]; o.base <= o.reached
    ensures var o := states[k].observers[id];
            var session := Replay(draw, canvas, Range(0, o.base));
            && Tail(o, cut)
            && var rebuilt := Replay(draw, Replay(draw, canvas, o.delivered[..cut]), Range(0, o.base));
               var again := Replay(draw, rebuilt, Range(o.from, o.base));
               var live := Range(o.base, o.reached);
               && (ShowsTheSession(draw, canvas, o) <==> Replay(draw, again, live) == Replay(draw, session, live))
               && (o.reached == o.base ==> (ShowsTheSession(draw, canvas, o) <==> again == session))
               && (again == session ==> ShowsTheSession(draw, canvas, o))
               && (o.reached == o.base && rebuilt == session ==>
                     (ShowsTheSession(draw, canvas, o) <==> Replay(draw, session, Range(o.from, o.base)) == session))
  {
    NothingIsLost(states, actions, k, id);
    var o := states[k].observers[id];
    cut :| Tail(o, cut);
    TailReplays(draw, canvas, o, cut);
    assert Range(o.base, o.base) == [];
  }

  // ── Repaints ───────────────────────────────────────────────────────

  /** A frame that leaves the same canvas whatever it is drawn on. */
  ghost predicate Repaints<C(!new)>(draw: (C, nat) -> C, r: nat) {
    forall c, d :: draw(c, r) == draw(d, r)
  }

  lemma ReplayCons<C>(draw: (C, nat) -> C, canvas: C, r: nat, ds: seq<nat>)
    ensures Replay(draw, canvas, [r] + ds) == Replay(draw, draw(canvas, r), ds)
  {
    assert ([r] + ds)[1..] == ds;
  }

  lemma ReplayFrom<C>(draw: (C, nat) -> C, canvas: C, lo: nat, r: nat, hi: nat) returns (c: C)
    requires lo <= r < hi
    ensures Replay(draw, canvas, Range(lo, hi)) == Replay(draw, draw(c, r), Range(r + 1, hi))
  {
    var before, rest := Range(lo, r), Range(r + 1, hi);
    RangeSplit(lo, r, hi);
    assert Range(r, hi) == [r] + rest;
    ReplayConcat(draw, canvas, before, [r] + rest);
    c := Replay(draw, canvas, before);
    ReplayCons(draw, c, r, rest);
  }

  /** Past a repaint, what was drawn before is forgotten. */
  lemma RepaintForgets<C(!new)>(draw: (C, nat) -> C, c: C, lo: nat, d: C, lo': nat, r: nat, hi: nat)
    requires Repaints(draw, r) && lo <= r < hi && lo' <= r
    ensures Replay(draw, c, Range(lo, hi)) == Replay(draw, d, Range(lo', hi))
  {
    var x := ReplayFrom(draw, c, lo, r, hi);
    var y := ReplayFrom(draw, d, lo', r, hi);
    assert draw(x, r) == draw(y, r);
  }

  /** A repaint decides a rebuild. If one is among the frames sent again, the
      observer that has passed its snapshot shows the session; if one is before
      them, it does just after passing exactly when redrawing those frames on
      the session's canvas changes nothing. */
  lemma RepaintRestores<C(!new)>(states: seq<State>, actions: seq<Action>, k: nat, id: nat,
                                 draw: (C, nat) -> C, canvas: C, r: nat)
    requires Watching(states, actions, id, k) && Repaints(draw, r)
    requires var o := states[k].observers[id]; r < o.base <= o.reached
    ensures var o := states[k].observers[id];
            var session := Replay(draw, canvas, Range(0, o.base));
            && (o.from <= r ==> ShowsTheSession(draw, canvas, o))
            && (o.reached == o.base ==>
                  (ShowsTheSession(draw, canvas, o) <==> Replay(draw, session, Range(o.from, o.base)) == session))
  {
    var o := states[k].observers[id];
    var cut := RebuiltShowsIff(states, actions, k, id, draw, canvas);
    var before := Replay(draw, canvas, o.delivered[..cut]);
    RepaintForgets(draw, before, 0, canvas, 0, r, o.base);
    if o.from <= r {
      RepaintForgets(draw, Replay(draw, before, Range(0, o.base)), o.from, canvas, 0, r, o.base);
    }
  }

  // ── No observer is left behind ─────────────────────────────────────

  lemma {:induction false} TimelyPrefix(states: seq<State>, actions: seq<Action>, s: State, a: Action, id: nat, k: nat)
    requires |states| == |actions| + 1 && k <= |actions|
    ensures Timely(states + [s], actions + [a], id, k) == Timely(states, actions, id, k)
  {
    if k > 0 {
      TimelyPrefix(states, actions, s, a, id, k - 1);
      assert (states + [s])[k - 1] == states[k - 1] && (actions + [a])[k - 1] == actions[k - 1];
    }
  }

  /** The latest snapshot of the observer was timely and the next can be. */
  ghost predicate Whole(states: seq<State>, actions: seq<Action>, id: nat) {
    Run(states, actions) && Timely(states, actions, id, |actions|) && states[|actions|].trimmed == 0
  }

  lemma StaysWhole(states: seq<State>, actions: seq<Action>, a: Action, id: nat)
    returns (states': seq<State>, actions': seq<Action>)
    requires Run(states, actions) && Enabled(states[|actions|], a) && !a.Push?
    requires Snaps(a, id) ==> a.stale == states[|actions|].evicted
    ensures Run(states', actions')
    ensures states' == states + [Next(states[|actions|], a)] && actions' == actions + [a]
    ensures Whole(states, actions, id) ==> Whole(states', actions', id)
  {
    var s := states[|actions|];
    states', actions' := Extend(states, actions, a);
    TimelyPrefix(states, actions, Next(s, a), a, id, |actions|);
    assert states'[|actions|] == s && actions'[|actions|] == a;
  }

  ghost function Gap(lo: nat, hi: nat): nat {
    if lo <= hi then hi - lo else 0
  }

  /** How far an observer is from the end of everything pushed. */
  ghost function Behind(s: State, o: Observer): nat {
    Gap(s.sent, s.pushed) + 2 * Gap(o.next, s.pushed) + if o.lagged then 1 else 0
  }

  /** What brings the observer nearer. */
  function CatchUp(s: State, id: nat): Action
    requires id in s.observers
  {
    var o := s.observers[id];
    if s.sent < s.pushed then Send
    else if o.lagged then Rebuild(id, s.evicted)
    else if o.next + CAPACITY < s.sent then Lag(id)
    else Receive(id)
  }

  /** The observer is at the end of everything pushed. */
  predicate CaughtUp(s: State, id: nat) {
    && id in s.observers && s.sent == s.pushed
    && s.observers[id].next == s.sent && !s.observers[id].lagged
  }

  lemma CatchUpWorks(s: State, id: nat)
    requires AllPlaced(s) && id in s.observers && !CaughtUp(s, id)
    ensures Enabled(s, CatchUp(s, id))
    ensures var s' := Next(s, CatchUp(s, id));
            && id in s'.observers && s'.pushed == s.pushed
            && Behind(s', s'.observers[id]) < Behind(s, s.observers[id])
  {
    assert Placed(s, s.observers[id]);
  }

  /** No observer is left behind: wherever a run has come to, however far an
      observer has lagged, it can go on, without another push, to where the
      observer has passed everything pushed. It has then been sent all of it, if
      its latest snapshot was timely and the log has never been trimmed. */
  lemma {:induction false} EveryObserverCanCatchUp(states: seq<State>, actions: seq<Action>, id: nat)
    returns (states': seq<State>, actions': seq<Action>)
    requires Run(states, actions) && id in states[|actions|].observers
    ensures Run(states', actions') && states <= states' && actions <= actions'
    ensures CaughtUp(states'[|actions'|], id) && states'[|actions'|].pushed == states[|actions|].pushed
    ensures Whole(states, actions, id) ==>
              forall f :: 0 <= f < states[|actions|].pushed ==> f in states'[|actions'|].observers[id].delivered
    decreases Behind(states[|actions|], states[|actions|].observers[id])
  {
    var s := states[|actions|];
    RunKeepsPlaced(states, actions, |actions|);
    if CaughtUp(s, id) {
      states', actions' := states, actions;
      if Whole(states, actions, id) {
        NothingIsLost(states, actions, |actions|, id);
      }
    } else {
      CatchUpWorks(s, id);
      states', actions' := StaysWhole(states, actions, CatchUp(s, id), id);
      states', actions' := EveryObserverCanCatchUp(states', actions', id);
    }
  }

  // ── A run that misleads ────────────────────────────────────────────

  lemma Extend(states: seq<State>, actions: seq<Action>, a: Action)
    returns (states': seq<State>, actions': seq<Action>)
    requires Run(states, actions) && Enabled(states[|states| - 1], a)
    ensures Run(states', actions')
    ensures states' == states + [Next(states[|states| - 1], a)] && actions' == actions + [a]
  {
    states', actions' := states + [Next(states[|states| - 1], a)], actions + [a];
  }

  /** Frame 0 pushed and broadcast, frame 1 pushed. */
  lemma TwoPushed() returns (states: seq<State>, actions: seq<Action>)
    ensures Run(states, actions) && |actions| == 3 && states[3] == State(2, 1, 0, 0, map[])
  {
    states, actions := [Init], [];
    states, actions := Extend(states, actions, Push(0, 0));
    states, actions := Extend(states, actions, Send);
    states, actions := Extend(states, actions, Push(0, 0));
  }

  /** An observer that joined between the push and the broadcast of frame 1, and
      has then received it. */
  lemma JoinedMidway() returns (states: seq<State>, actions: seq<Action>)
    ensures |states| == 7 && Watching(states, actions, 0, 6)
    ensures states[6].pushed == 2 && states[6].observers[0] == Observer([0, 1, 1], 2, 2, 2, 1, false, false)
  {
    states, actions := TwoPushed();
    var s := states[3];
    assert Snapshot(s, 0) == [0, 1];
    states, actions := Extend(states, actions, Join(0, 0));
    states, actions := Extend(states, actions, Send);
    states, actions := Extend(states, actions, Receive(0));
    assert states[3] == s && actions[3] == Join(0, 0) && actions[4] == Send && actions[5] == Receive(0);
    assert Timely(states, actions, 0, 4);
    assert Timely(states, actions, 0, 5);
    assert Timely(states, actions, 0, 6);
  }

  /** An observer that has caught up, never having lagged, does not show the
      session. */
  ghost predicate Misleads<C>(draw: (C, nat) -> C, canvas: C, states: seq<State>, actions: seq<Action>) {
    && |states| > 0 && Watching(states, actions, 0, |states| - 1)
    && var s := states[|states| - 1];
       && !s.observers[0].rebuilt && s.observers[0].reached == s.pushed
       && !ShowsTheSession(draw, canvas, s.observers[0])
  }

  /** Frames that read the canvas, as `copy` does, are not protected: in a run
      with no lag, an observer that has caught up shows something else. */
  lemma RepeatedCopyShows()
    ensures exists draw: (int, nat) -> int, states: seq<State>, actions: seq<Action> ::
              Misleads(draw, 0, states, actions)
  {
    var draw: (int, nat) -> int := (c, k) => if k == 0 then 1 else c + c;
    var states, actions := JoinedMidway();
    assert Range(0, 2) == [0, 1] && [0, 1][1..] == [1];
    assert Replay(draw, 0, [0, 1]) == Replay(draw, 1, [1]) == Replay(draw, 2, []) == 2;
    JoinedShowsIff(states, actions, 6, 0, draw, 0);
    assert Misleads(draw, 0, states, actions);
  }
}
