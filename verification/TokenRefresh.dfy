/** Refreshing the access token: any number of tabs share one refresh cookie,
    each with module variables that share an attempt in flight, against a
    server that rotates the token each time it is presented. */
module TokenRefresh {
  import opened Text

  // ── One tab's module variables ─────────────────────────────────────

  /** `isRefreshing` and `refreshPromise`, with attempts named by number. */
  datatype Vars = Vars(isRefreshing: bool, promise: Option<nat>)

  const Cleared: Vars := Vars(false, None)

  /** `refreshAccessToken` up to its first await: the variables and the attempt
      the caller awaits, where `next` names one not yet begun. */
  function Joined(v: Vars, next: nat): (Vars, nat) {
    if v.isRefreshing && v.promise.Some? then (v, v.promise.value) else (Vars(true, Some(next)), next)
  }

  class TabState {
    var isRefreshing: bool
    var refreshPromise: Option<nat>

    function View(): Vars
      reads this
    {
      Vars(isRefreshing, refreshPromise)
    }

    constructor ()
      ensures View() == Cleared
    {
      isRefreshing, refreshPromise := false, None;
    }

    /** Share the attempt in flight, or begin the one named `next`. */
    method Refresh(next: nat) returns (promise: nat)
      modifies this
      ensures (View(), promise) == Joined(old(View()), next)
    {
      if isRefreshing && refreshPromise.Some? {
        return refreshPromise.value;
      }
      isRefreshing := true;
      refreshPromise := Some(next);
      return next;
    }

    /** The `finally` handler. */
    method Settle()
      modifies this
      ensures View() == Cleared
    {
      isRefreshing := false;
      refreshPromise := None;
    }
  }

  // ── The protocol ───────────────────────────────────────────────────

  datatype Answer = Rotated(token: nat) | Concurrent | Refused

  /** Where an attempt is: waiting for the tab lock, holding it, request sent,
      answered by the server, resolved, or past its `finally` handler. */
  datatype Phase =
    | Queued
    | Holding
    | Sent(presented: nat)
    | Answered(answer: Answer)
    | Resolved(ok: bool)
    | Settled(ok: bool)

  datatype Attempt = Attempt(tab: nat, phase: Phase)

  datatype Outcome = Ok(status: nat) | ApiError(status: nat)

  /** A call of `request`, or of `refreshAccessToken` itself. */
  datatype Call = Request(path: string) | Direct

  /** A call begun, awaiting an attempt, or over, with the attempt it awaited. */
  datatype Stage =
    | Started
    | Awaiting(attempt: nat)
    | Over(outcome: Outcome, redirected: bool, awaited: Option<nat>)
    | Returned(ok: bool, attempted: nat)

  /** `fetched` is what each fetch of a request's path was answered. */
  datatype Caller = Caller(tab: nat, call: Call, fetched: seq<nat>, stage: Stage)

  /** `newest` is the last token the server issued, `holder` the attempt that
      has the tab lock, `adrift` the tokens of requests given up on that the
      server may still serve, and `lost` whether a rotation's new token will
      never reach the browser. */
  datatype State = State(newest: nat, cookie: nat, holder: Option<nat>, vars: map<nat, Vars>,
                         attempts: seq<Attempt>, callers: map<nat, Caller>, adrift: multiset<nat>, lost: bool)

  datatype Action =
    | Open(id: nat, tab: nat, call: Call)
    | FirstFetch(id: nat, status: nat)
    | Ask(id: nat)
    | Acquire(attempt: nat)
    | Send(attempt: nat)
    | Serve(attempt: nat, recent: bool)
    | Deliver(attempt: nat)
    | Lose(attempt: nat)
    | ServeLate(token: nat)
    | Settle(attempt: nat)
    | Resume(id: nat, retry: nat, publicRoute: bool)

  const REFRESH: string := "/auth/refresh"

  const Init: State := State(0, 0, None, map[], [], map[], multiset{}, false)

  function VarsOf(s: State, tab: nat): Vars {
    if tab in s.vars then s.vars[tab] else Cleared
  }

  /** `locks` tells whether the browser has `navigator.locks`. */
  predicate Enabled(locks: bool, s: State, a: Action) {
    match a
    case Open(id, tab, call) => id !in s.callers
    case FirstFetch(id, status) => id in s.callers && s.callers[id].stage.Started? && s.callers[id].call.Request?
    case Ask(id) => id in s.callers && s.callers[id].stage.Started? && s.callers[id].call.Direct?
    case Acquire(p) => p < |s.attempts| && s.attempts[p].phase.Queued? && (locks ==> s.holder.None?)
    case Send(p) => p < |s.attempts| && s.attempts[p].phase.Holding?
    case Serve(p, recent) => p < |s.attempts| && s.attempts[p].phase.Sent?
    case Deliver(p) => p < |s.attempts| && s.attempts[p].phase.Answered?
    case Lose(p) => p < |s.attempts| && (s.attempts[p].phase.Sent? || s.attempts[p].phase.Answered?)
    case ServeLate(token) => token in s.adrift
    case Settle(p) => p < |s.attempts| && s.attempts[p].phase.Resolved?
    case Resume(id, retry, publicRoute) =>
      id in s.callers && s.callers[id].stage.Awaiting? &&
      s.callers[id].stage.attempt < |s.attempts| && s.attempts[s.callers[id].stage.attempt].phase.Settled?
  }

  /** A 401 on a path other than the refresh endpoint. */
  predicate NeedsRefresh(path: string, status: nat) {
    status == 401 && path != REFRESH
  }

  predicate Success(status: nat) {
    200 <= status < 300
  }

  function Ended(status: nat): Outcome {
    if Success(status) then Ok(status) else ApiError(status)
  }

  /** Rotation succeeds for the newest token only; an older one is answered
      409 if spent moments ago and refused otherwise. */
  function Rotate(newest: nat, presented: nat, recent: bool): Answer {
    if presented == newest then Rotated(newest + 1) else if recent then Concurrent else Refused
  }

  function Phased(s: State, p: nat, phase: Phase): State
    requires p < |s.attempts|
  {
    s.(attempts := s.attempts[p := s.attempts[p].(phase := phase)])
  }

  function Released(s: State, locks: bool): State {
    if locks then s.(holder := None) else s
  }

  /** A call of `refreshAccessToken` by the caller `c`. */
  function Asked(s: State, id: nat, c: Caller): State {
    var (v, p) := Joined(VarsOf(s, c.tab), |s.attempts|);
    s.(vars := s.vars[c.tab := v],
       attempts := if p == |s.attempts| then s.attempts + [Attempt(c.tab, Queued)] else s.attempts,
       callers := s.callers[id := c.(stage := Awaiting(p))])
  }

  /** A request that has had its first answer. */
  function FirstAnswered(s: State, id: nat, status: nat): State
    requires id in s.callers && s.callers[id].call.Request?
  {
    var c := s.callers[id].(fetched := [status]);
    if NeedsRefresh(c.call.path, status) then Asked(s, id, c)
    else s.(callers := s.callers[id := c.(stage := Over(Ended(status), false, None))])
  }

  /** A call whose attempt has settled: a request fetches once more, or gives up. */
  function Resumed(c: Caller, p: nat, ok: bool, retry: nat, publicRoute: bool): Caller {
    if c.call.Direct? then c.(stage := Returned(ok, p))
    else if ok then c.(fetched := c.fetched + [retry], stage := Over(Ended(retry), false, Some(p)))
    else c.(stage := Over(ApiError(401), !publicRoute, Some(p)))
  }

  function Next(locks: bool, s: State, a: Action): State
    requires Enabled(locks, s, a)
  {
    match a
    case Open(id, tab, call) => s.(callers := s.callers[id := Caller(tab, call, [], Started)])
    case FirstFetch(id, status) => FirstAnswered(s, id, status)
    case Ask(id) => Asked(s, id, s.callers[id])
    case Acquire(p) => Phased(s, p, Holding).(holder := if locks then Some(p) else s.holder)
    case Send(p) => Phased(s, p, Sent(s.cookie))
    case Serve(p, recent) =>
      var answer := Rotate(s.newest, s.attempts[p].phase.presented, recent);
      Phased(s, p, Answered(answer)).(newest := if answer.Rotated? then answer.token else s.newest)
    case Deliver(p) =>
      var answer := s.attempts[p].phase.answer;
      var s1 := Phased(Released(s, locks), p, Resolved(!answer.Refused?));
      s1.(cookie := if answer.Rotated? then answer.token else s.cookie)
    case Lose(p) =>
      var s1 := Phased(Released(s, locks), p, Resolved(false));
      if s.attempts[p].phase.Sent? then s1.(adrift := s.adrift + multiset{s.attempts[p].phase.presented})
      else s1.(lost := s.lost || s.attempts[p].phase.answer.Rotated?)
    case ServeLate(token) =>
      var s1 := s.(adrift := s.adrift - multiset{token});
      if token == s.newest then s1.(newest := s.newest + 1, lost := true) else s1
    case Settle(p) =>
      Phased(s, p, Settled(s.attempts[p].phase.ok)).(vars := s.vars[s.attempts[p].tab := Cleared])
    case Resume(id, retry, publicRoute) =>
      var c := s.callers[id];
      var p := c.stage.attempt;
      s.(callers := s.callers[id := Resumed(c, p, s.attempts[p].phase.ok, retry, publicRoute)])
  }

  ghost predicate Run(locks: bool, states: seq<State>, actions: seq<Action>) {
    && |states| == |actions| + 1 && states[0] == Init
    && forall k :: 0 <= k < |actions| ==> Enabled(locks, states[k], actions[k]) &&
                                          states[k + 1] == Next(locks, states[k], actions[k])
  }

  /** Steps that call `refreshAccessToken`. */
  predicate Asks(s: State, a: Action) {
    a.Ask? || (a.FirstFetch? && a.id in s.callers && s.callers[a.id].call.Request?
               && NeedsRefresh(s.callers[a.id].call.path, a.status))
  }

  // ── One attempt per tab ────────────────────────────────────────────

  /** An attempt whose promise is still pending. */
  predicate InFlight(s: State, p: nat) {
    p < |s.attempts| && !s.attempts[p].phase.Settled?
  }

  /** A tab's variables name its attempt in flight, and there is no other. */
  ghost predicate Guarded(s: State) {
    && (forall tab :: tab in s.vars ==> (s.vars[tab].isRefreshing <==> s.vars[tab].promise.Some?))
    && (forall tab :: tab in s.vars && s.vars[tab].promise.Some? ==>
          InFlight(s, s.vars[tab].promise.value) && s.attempts[s.vars[tab].promise.value].tab == tab)
    && (forall p: nat :: InFlight(s, p) ==> VarsOf(s, s.attempts[p].tab).promise == Some(p))
  }

  /** A step that begins and settles nothing. */
  lemma GuardedStill(s: State, s': State)
    requires Guarded(s) && s'.vars == s.vars && |s'.attempts| == |s.attempts|
    requires forall p :: 0 <= p < |s.attempts| ==>
               s'.attempts[p].tab == s.attempts[p].tab && s'.attempts[p].phase.Settled? == s.attempts[p].phase.Settled?
    ensures Guarded(s')
  {
    assert forall p: nat :: InFlight(s', p) <==> InFlight(s, p);
  }

  lemma GuardedAtAsk(s: State, id: nat, c: Caller)
    requires Guarded(s)
    ensures Guarded(Asked(s, id, c))
  {
    var s' := Asked(s, id, c);
    forall p: nat | InFlight(s', p) ensures VarsOf(s', s'.attempts[p].tab).promise == Some(p) {
      if p < |s.attempts| {
        assert InFlight(s, p) && s'.attempts[p] == s.attempts[p];
      }
    }
  }

  lemma GuardedAtSettle(s: State, p: nat)
    requires Guarded(s) && p < |s.attempts| && s.attempts[p].phase.Resolved?
    ensures Guarded(Next(true, s, Settle(p)))
  {
    var s' := Next(true, s, Settle(p));
    assert InFlight(s, p);
    forall q: nat | InFlight(s', q) ensures VarsOf(s', s'.attempts[q].tab).promise == Some(q) {
      assert InFlight(s, q) && s'.attempts[q] == s.attempts[q];
    }
  }

  predicate OfCaller(a: Action) {
    a.Open? || a.FirstFetch? || a.Ask? || a.Resume?
  }

  lemma CallersLeaveAttempts(locks: bool, s: State, a: Action)
    requires Enabled(locks, s, a) && (OfCaller(a) || a.ServeLate?) && !Asks(s, a)
    ensures Next(locks, s, a).vars == s.vars && Next(locks, s, a).attempts == s.attempts
  {
  }

  /** A step of one attempt, other than its `finally` handler. */
  lemma AttemptsLeaveOthers(locks: bool, s: State, a: Action)
    requires Enabled(locks, s, a) && !OfCaller(a) && !a.ServeLate? && !a.Settle?
    ensures var s', p := Next(locks, s, a), a.attempt;
            && s'.vars == s.vars && p < |s.attempts|
            && s'.attempts == s.attempts[p := Attempt(s.attempts[p].tab, s'.attempts[p].phase)]
            && !s.attempts[p].phase.Settled? && !s'.attempts[p].phase.Settled?
  {
  }

  lemma GuardedKept(locks: bool, s: State, a: Action)
    requires Guarded(s) && Enabled(locks, s, a)
    ensures Guarded(Next(locks, s, a))
  {
    if Asks(s, a) {
      GuardedAtAsk(s, a.id, if a.Ask? then s.callers[a.id] else s.callers[a.id].(fetched := [a.status]));
    } else if a.Settle? {
      GuardedAtSettle(s, a.attempt);
    } else {
      if OfCaller(a) || a.ServeLate? {
        CallersLeaveAttempts(locks, s, a);
      } else {
        AttemptsLeaveOthers(locks, s, a);
      }
      GuardedStill(s, Next(locks, s, a));
    }
  }

  lemma {:induction false} RunKeepsGuarded(locks: bool, states: seq<State>, actions: seq<Action>, k: nat)
    requires Run(locks, states, actions) && k < |states|
    ensures Guarded(states[k])
  {
    if k > 0 {
      RunKeepsGuarded(locks, states, actions, k - 1);
      GuardedKept(locks, states[k - 1], actions[k - 1]);
    }
  }

  /** In every run, with or without the tab lock, a tab has at most one attempt
      in flight. */
  lemma OneAttemptPerTab(locks: bool, states: seq<State>, actions: seq<Action>, k: nat, i: nat, j: nat)
    requires Run(locks, states, actions) && k < |states|
    requires InFlight(states[k], i) && InFlight(states[k], j) && states[k].attempts[i].tab == states[k].attempts[j].tab
    ensures i == j
  {
    RunKeepsGuarded(locks, states, actions, k);
  }

  // ── Callers ────────────────────────────────────────────────────────

  /** How a call stands, from what it has fetched and the attempt it awaited. */
  ghost predicate Stands(s: State, c: Caller) {
    match c.stage
    case Started => c.fetched == []
    case Awaiting(p) =>
      && (if c.call.Direct? then c.fetched == [] else c.fetched == [401] && c.call.path != REFRESH)
      && p < |s.attempts| && s.attempts[p].tab == c.tab
    case Returned(ok, p) =>
      && c.call.Direct? && c.fetched == []
      && p < |s.attempts| && s.attempts[p].tab == c.tab && s.attempts[p].phase == Settled(ok)
    case Over(outcome, redirected, awaited) =>
      && c.call.Request? && 1 <= |c.fetched| <= 2
      && (awaited.Some? <==> NeedsRefresh(c.call.path, c.fetched[0]))
      && (awaited.None? ==> |c.fetched| == 1 && outcome == Ended(c.fetched[0]) && !redirected)
      && (awaited.Some? ==>
            && awaited.value < |s.attempts| && s.attempts[awaited.value].tab == c.tab
            && s.attempts[awaited.value].phase.Settled?
            && (|c.fetched| == 2 <==> s.attempts[awaited.value].phase.ok)
            && outcome == (if |c.fetched| == 2 then Ended(c.fetched[1]) else ApiError(401))
            && (redirected ==> |c.fetched| == 1))
  }

  ghost predicate AllStand(s: State) {
    forall id :: id in s.callers ==> Stands(s, s.callers[id])
  }

  /** A call stands as it did while attempts only begin and go on. */
  lemma StillStands(s: State, s': State, c: Caller)
    requires Stands(s, c) && |s.attempts| <= |s'.attempts|
    requires forall p :: 0 <= p < |s.attempts| ==> s'.attempts[p].tab == s.attempts[p].tab
    requires forall p :: 0 <= p < |s.attempts| && s.attempts[p].phase.Settled? ==> s'.attempts[p] == s.attempts[p]
    ensures Stands(s', c)
  {
  }

  lemma ActorStands(locks: bool, s: State, a: Action)
    requires Guarded(s) && AllStand(s) && Enabled(locks, s, a) && OfCaller(a)
    ensures Stands(Next(locks, s, a), Next(locks, s, a).callers[a.id])
  {
    if !a.Open? {
      assert Stands(s, s.callers[a.id]);
    }
  }

  lemma AllStandKept(locks: bool, s: State, a: Action)
    requires Guarded(s) && AllStand(s) && Enabled(locks, s, a)
    ensures AllStand(Next(locks, s, a))
  {
    var s' := Next(locks, s, a);
    forall id | id in s'.callers ensures Stands(s', s'.callers[id]) {
      if OfCaller(a) && a.id == id {
        ActorStands(locks, s, a);
      } else {
        StillStands(s, s', s.callers[id]);
      }
    }
  }

  lemma {:induction false} RunKeepsAllStand(locks: bool, states: seq<State>, actions: seq<Action>, k: nat)
    requires Run(locks, states, actions) && k < |states|
    ensures AllStand(states[k])
  {
    if k > 0 {
      RunKeepsAllStand(locks, states, actions, k - 1);
      RunKeepsGuarded(locks, states, actions, k - 1);
      AllStandKept(locks, states[k - 1], actions[k - 1]);
    }
  }

  /** In every run, calls of one tab that await a refresh await the same one,
      unless theirs has settled and they are about to go on. */
  lemma CallersShareTheAttempt(locks: bool, states: seq<State>, actions: seq<Action>, k: nat, i: nat, j: nat)
    requires Run(locks, states, actions) && k < |states|
    requires var s := states[k];
             && i in s.callers && j in s.callers && s.callers[i].tab == s.callers[j].tab
             && s.callers[i].stage.Awaiting? && s.callers[j].stage.Awaiting?
    ensures var s := states[k];
            var p, q := s.callers[i].stage.attempt, s.callers[j].stage.attempt;
            p == q || !InFlight(s, p) || !InFlight(s, q)
  {
    RunKeepsAllStand(locks, states, actions, k);
    var s := states[k];
    assert Stands(s, s.callers[i]) && Stands(s, s.callers[j]);
    var p, q := s.callers[i].stage.attempt, s.callers[j].stage.attempt;
    if InFlight(s, p) && InFlight(s, q) {
      OneAttemptPerTab(locks, states, actions, k, p, q);
    }
  }

  /** In every run, a call of `refreshAccessToken`, direct or after a 401, begins
      an attempt if and only if its tab has none in flight. */
  lemma AttemptBeginsIff(locks: bool, states: seq<State>, actions: seq<Action>, k: nat)
    requires Run(locks, states, actions) && k < |actions| && Asks(states[k], actions[k])
    ensures var s, s' := states[k], states[k + 1];
            |s'.attempts| > |s.attempts|
            <==> !exists p: nat :: InFlight(s, p) && s.attempts[p].tab == s.callers[actions[k].id].tab
  {
    RunKeepsGuarded(locks, states, actions, k);
    var s := states[k];
    var v := VarsOf(s, s.callers[actions[k].id].tab);
    if v.promise.Some? {
      assert InFlight(s, v.promise.value);
    }
  }

  /** One refresh, one retry: in every run, with or without the tab lock, a call
      fetches its path at most twice, and the refresh endpoint once; it fetches
      again exactly when the attempt it awaited succeeded, and ends as its last
      fetch does, or with 401 when that attempt failed. A direct call returns
      whether its attempt succeeded. */
  lemma RequestEnds(locks: bool, states: seq<State>, actions: seq<Action>, k: nat, id: nat)
    requires Run(locks, states, actions) && k < |states| && id in states[k].callers
    ensures var c := states[k].callers[id];
            && |c.fetched| <= 2 && (c.call == Request(REFRESH) ==> |c.fetched| <= 1)
            && (c.stage.Returned? ==> c.call.Direct? && c.stage.attempted < |states[k].attempts| &&
                                      states[k].attempts[c.stage.attempted].phase == Settled(c.stage.ok))
            && (c.stage.Over? ==>
                  && c.call.Request? && c.fetched != []
                  && c.stage.outcome.status == c.fetched[|c.fetched| - 1]
                  && (c.stage.outcome.Ok? <==> 200 <= c.fetched[|c.fetched| - 1] < 300)
                  && (c.stage.redirected ==> c.fetched == [401])
                  && (c.fetched[0] == 401 && c.call.path != "/auth/refresh" <==> c.stage.awaited.Some?)
                  && (c.stage.awaited.Some? ==>
                        var p := c.stage.awaited.value;
                        && p < |states[k].attempts| && states[k].attempts[p].phase.Settled?
                        && (|c.fetched| == 2 <==> states[k].attempts[p].phase.ok)))
  {
    RunKeepsAllStand(locks, states, actions, k);
    assert Stands(states[k], states[k].callers[id]);
  }

  // ── Which token is presented ───────────────────────────────────────

  /** A rotation answered whose cookie the browser has not stored yet. */
  predicate Undelivered(s: State, p: nat) {
    p < |s.attempts| && s.attempts[p].phase.Answered? && s.attempts[p].phase.answer.Rotated?
  }

  /** The browser has the newest token: no rotation is undelivered or lost. */
  ghost predicate UpToDate(s: State) {
    !s.lost && forall p: nat :: !Undelivered(s, p)
  }

  /** What the tokens about are worth: none is ahead of the cookie, and the cookie
      is behind the server exactly when a rotation is undelivered or lost. */
  ghost predicate Books(s: State) {
    && s.cookie <= s.newest
    && (s.cookie == s.newest <==> UpToDate(s))
    && (forall p :: 0 <= p < |s.attempts| && s.attempts[p].phase.Sent? ==> s.attempts[p].phase.presented <= s.cookie)
    && (forall t :: t in s.adrift ==> t <= s.cookie)
    && (forall p: nat :: Undelivered(s, p) ==> !s.lost && s.attempts[p].phase.answer.token == s.newest)
    && (forall p: nat, q: nat :: Undelivered(s, p) && Undelivered(s, q) ==> p == q)
  }

  /** A step of a caller, or of an attempt before it is sent or after it is over. */
  lemma BooksStill(locks: bool, s: State, a: Action)
    requires Books(s) && Enabled(locks, s, a)
    requires OfCaller(a) || a.Acquire? || a.Settle?
    ensures Books(Next(locks, s, a))
  {
    var s' := Next(locks, s, a);
    assert forall p: nat :: Undelivered(s', p) <==> Undelivered(s, p);
  }

  lemma BooksAtSend(locks: bool, s: State, p: nat)
    requires Books(s) && Enabled(locks, s, Send(p))
    ensures Books(Next(locks, s, Send(p)))
  {
    var s' := Next(locks, s, Send(p));
    assert forall q: nat :: Undelivered(s', q) <==> Undelivered(s, q);
  }

  lemma BooksAtServe(locks: bool, s: State, p: nat, recent: bool)
    requires Books(s) && Enabled(locks, s, Serve(p, recent))
    ensures Books(Next(locks, s, Serve(p, recent)))
  {
    var s' := Next(locks, s, Serve(p, recent));
    assert forall q: nat :: q != p ==> (Undelivered(s', q) <==> Undelivered(s, q));
    assert !Undelivered(s, p);
    if s.attempts[p].phase.presented == s.newest {
      assert UpToDate(s);
      assert Undelivered(s', p);
    }
  }

  lemma BooksAtDeliver(locks: bool, s: State, p: nat)
    requires Books(s) && Enabled(locks, s, Deliver(p))
    ensures Books(Next(locks, s, Deliver(p)))
  {
    var s' := Next(locks, s, Deliver(p));
    assert !Undelivered(s', p);
    assert forall q: nat :: q != p ==> (Undelivered(s', q) <==> Undelivered(s, q));
    if s.attempts[p].phase.answer.Rotated? {
      assert Undelivered(s, p);
    } else {
      assert !Undelivered(s, p);
    }
  }

  lemma BooksAtLose(locks: bool, s: State, p: nat)
    requires Books(s) && Enabled(locks, s, Lose(p))
    ensures Books(Next(locks, s, Lose(p)))
  {
    var s' := Next(locks, s, Lose(p));
    assert !Undelivered(s', p);
    assert forall q: nat :: q != p ==> (Undelivered(s', q) <==> Undelivered(s, q));
    if s.attempts[p].phase.Answered? && s.attempts[p].phase.answer.Rotated? {
      assert Undelivered(s, p);
    } else {
      assert !Undelivered(s, p);
    }
  }

  lemma BooksAtServeLate(locks: bool, s: State, token: nat)
    requires Books(s) && Enabled(locks, s, ServeLate(token))
    ensures Books(Next(locks, s, ServeLate(token)))
  {
    var s' := Next(locks, s, ServeLate(token));
    assert forall p: nat :: Undelivered(s', p) <==> Undelivered(s, p);
  }

  lemma BooksKept(locks: bool, s: State, a: Action)
    requires Books(s) && Enabled(locks, s, a)
    ensures Books(Next(locks, s, a))
  {
    match a
    case Send(p) => BooksAtSend(locks, s, p);
    case Serve(p, recent) => BooksAtServe(locks, s, p, recent);
    case Deliver(p) => BooksAtDeliver(locks, s, p);
    case Lose(p) => BooksAtLose(locks, s, p);
    case ServeLate(token) => BooksAtServeLate(locks, s, token);
    case _ => BooksStill(locks, s, a);
  }

  lemma {:induction false} RunKeepsBooks(locks: bool, states: seq<State>, actions: seq<Action>, k: nat)
    requires Run(locks, states, actions) && k < |states|
    ensures Books(states[k])
  {
    if k > 0 {
      RunKeepsBooks(locks, states, actions, k - 1);
      BooksKept(locks, states[k - 1], actions[k - 1]);
    }
  }

  /** Steps at which the server issues a token. */
  predicate Rotates(s: State, a: Action) {
    || (a.Serve? && a.attempt < |s.attempts| && s.attempts[a.attempt].phase == Sent(s.newest))
    || (a.ServeLate? && a.token == s.newest)
  }

  lemma NewestAfter(locks: bool, s: State, a: Action)
    requires Enabled(locks, s, a)
    ensures Next(locks, s, a).newest == if Rotates(s, a) then s.newest + 1 else s.newest
  {
  }

  /** Attempts go through their phases once, in order. */
  function Rank(p: Phase): nat {
    match p
    case Queued => 0
    case Holding => 1
    case Sent(_) => 2
    case Answered(_) => 3
    case Resolved(_) => 4
    case Settled(_) => 5
  }

  /** `later` is `earlier`, or a phase after it that remembers how it ended. */
  predicate Follows(earlier: Phase, later: Phase) {
    earlier == later ||
    (Rank(earlier) < Rank(later) && (earlier.Resolved? && later.Settled? ==> earlier.ok == later.ok))
  }

  lemma PhaseFollows(locks: bool, s: State, a: Action, s': State, p: nat)
    requires Enabled(locks, s, a) && s' == Next(locks, s, a) && p < |s.attempts|
    ensures p < |s'.attempts| && Follows(s.attempts[p].phase, s'.attempts[p].phase)
  {
    if !OfAttempt(a, p) {
      OtherAttempts(locks, s, a, s', p);
    }
  }

  predicate OfAttempt(a: Action, p: nat) {
    (a.Acquire? || a.Send? || a.Serve? || a.Deliver? || a.Lose? || a.Settle?) && a.attempt == p
  }

  lemma OtherAttempts(locks: bool, s: State, a: Action, s': State, p: nat)
    requires Enabled(locks, s, a) && s' == Next(locks, s, a) && p < |s.attempts| && !OfAttempt(a, p)
    ensures p < |s'.attempts| && s'.attempts[p] == s.attempts[p]
  {
  }

  /** How a step carries the server's token and each attempt forward. */
  ghost predicate Advances(s: State, a: Action, s': State) {
    && s'.newest == (if Rotates(s, a) then s.newest + 1 else s.newest)
    && |s.attempts| <= |s'.attempts|
    && forall p :: 0 <= p < |s.attempts| ==> Follows(s.attempts[p].phase, s'.attempts[p].phase)
  }

  ghost predicate Chain(states: seq<State>, actions: seq<Action>) {
    |states| == |actions| + 1 &&
    forall k :: 0 < k < |states| ==> Advances(states[k - 1], actions[k - 1], states[k])
  }

  lemma StepAdvances(locks: bool, s: State, a: Action, s': State)
    requires Enabled(locks, s, a) && s' == Next(locks, s, a)
    ensures Advances(s, a, s')
  {
    NewestAfter(locks, s, a);
    forall p | 0 <= p < |s.attempts| ensures p < |s'.attempts| && Follows(s.attempts[p].phase, s'.attempts[p].phase) {
      PhaseFollows(locks, s, a, s', p);
    }
    if s.attempts != [] {
      PhaseFollows(locks, s, a, s', |s.attempts| - 1);
    }
  }

  lemma RunIsChain(locks: bool, states: seq<State>, actions: seq<Action>)
    requires Run(locks, states, actions)
    ensures Chain(states, actions)
  {
    forall k | 0 < k < |states| ensures Advances(states[k - 1], actions[k - 1], states[k]) {
      StepAdvances(locks, states[k - 1], actions[k - 1], states[k]);
    }
  }

  lemma {:induction false} NewestSince(states: seq<State>, actions: seq<Action>, j: nat, k: nat)
    requires Chain(states, actions) && j <= k <= |actions|
    ensures states[j].newest <= states[k].newest
    ensures states[j].newest == states[k].newest <==> forall i :: j <= i < k ==> !Rotates(states[i], actions[i])
  {
    if j < k {
      NewestSince(states, actions, j, k - 1);
      assert Advances(states[k - 1], actions[k - 1], states[k]);
    }
  }

  lemma {:induction false} PhasesFollow(states: seq<State>, actions: seq<Action>, p: nat, j: nat, k: nat)
    requires Chain(states, actions) && j <= k <= |actions| && p < |states[j].attempts|
    ensures p < |states[k].attempts| && Follows(states[j].attempts[p].phase, states[k].attempts[p].phase)
  {
    if j < k {
      PhasesFollow(states, actions, p, j, k - 1);
      assert Advances(states[k - 1], actions[k - 1], states[k]);
    }
  }

  /** The attempt was sent at `j` and is still with the server at `k`. */
  ghost predicate WithServer(locks: bool, states: seq<State>, actions: seq<Action>, p: nat, j: nat, k: nat)
    requires Run(locks, states, actions)
  {
    j < k <= |actions| && actions[j] == Send(p) && p < |states[k].attempts| && states[k].attempts[p].phase.Sent?
  }

  lemma SentAt(locks: bool, states: seq<State>, actions: seq<Action>, p: nat, j: nat)
    requires Run(locks, states, actions) && j < |actions| && actions[j] == Send(p)
    ensures p < |states[j].attempts| && states[j].attempts[p].phase.Holding?
    ensures p < |states[j + 1].attempts| && states[j + 1].attempts[p].phase == Sent(states[j].cookie)
    ensures states[j + 1].newest == states[j].newest && states[j + 1].lost == states[j].lost
  {
  }

  lemma StillSent(states: seq<State>, actions: seq<Action>, p: nat, i: nat, k: nat, h: nat)
    requires Chain(states, actions) && i <= h <= k < |states|
    requires p < |states[i].attempts| && p < |states[k].attempts|
    requires states[i].attempts[p].phase.Sent? && states[k].attempts[p].phase.Sent?
    ensures p < |states[h].attempts| && states[h].attempts[p].phase == states[i].attempts[p].phase
    ensures states[k].attempts[p].phase == states[i].attempts[p].phase
  {
    PhasesFollow(states, actions, p, i, h);
    PhasesFollow(states, actions, p, h, k);
  }

  lemma {:induction false} WhenSent(locks: bool, states: seq<State>, actions: seq<Action>, p: nat, k: nat)
    returns (j: nat)
    requires Run(locks, states, actions) && k < |states|
    requires p < |states[k].attempts| && states[k].attempts[p].phase.Sent?
    ensures WithServer(locks, states, actions, p, j, k)
  {
    if actions[k - 1] == Send(p) {
      j := k - 1;
    } else {
      SentBefore(locks, states[k - 1], actions[k - 1], states[k], p);
      j := WhenSent(locks, states, actions, p, k - 1);
    }
  }

  lemma SentBefore(locks: bool, s: State, a: Action, s': State, p: nat)
    requires Enabled(locks, s, a) && s' == Next(locks, s, a) && a != Send(p)
    requires p < |s'.attempts| && s'.attempts[p].phase.Sent?
    ensures p < |s.attempts| && s.attempts[p].phase.Sent?
  {
  }

  /** Exactly when a refresh presents the newest token, with or without the tab
      lock: no rotation was undelivered or lost when it was sent, and the server
      has issued no token since. */
  lemma PresentsNewestIff(locks: bool, states: seq<State>, actions: seq<Action>, p: nat, j: nat, k: nat)
    requires Run(locks, states, actions) && WithServer(locks, states, actions, p, j, k)
    ensures states[k].attempts[p].phase.presented == states[k].newest
       <==> UpToDate(states[j]) && forall i :: j <= i < k ==> !Rotates(states[i], actions[i])
  {
    RunKeepsBooks(locks, states, actions, j);
    RunIsChain(locks, states, actions);
    NewestSince(states, actions, j, k);
    SentAt(locks, states, actions, p, j);
    StillSent(states, actions, p, j + 1, k, k);
  }

  /** A request given up on is rotated, if it is ever served, exactly when it has
      the newest token; the browser then never has the newest again. */
  lemma AbandonedRotationIsLost(locks: bool, states: seq<State>, actions: seq<Action>, k: nat, later: nat)
    requires Run(locks, states, actions) && k < later <= |actions| && actions[k].ServeLate?
    ensures Rotates(states[k], actions[k]) ==> states[later].cookie < states[later].newest
    ensures Rotates(states[k], actions[k]) ==> UpToDate(states[k])
  {
    RunKeepsBooks(locks, states, actions, k);
    if Rotates(states[k], actions[k]) {
      LostForGood(locks, states, actions, k + 1, later);
      RunKeepsBooks(locks, states, actions, later);
    }
  }

  lemma {:induction false} LostForGood(locks: bool, states: seq<State>, actions: seq<Action>, j: nat, k: nat)
    requires Run(locks, states, actions) && j <= k <= |actions| && states[j].lost
    ensures states[k].lost
  {
    if j < k {
      LostForGood(locks, states, actions, j, k - 1);
    }
  }

  // ── One tab at a time ──────────────────────────────────────────────

  /** Phases in which an attempt holds the tab lock. */
  predicate Active(p: Phase) {
    p.Holding? || p.Sent? || p.Answered?
  }

  /** The lock is held by exactly the one active attempt. */
  ghost predicate Exclusive(s: State) {
    forall p :: 0 <= p < |s.attempts| && Active(s.attempts[p].phase) ==> s.holder == Some(p)
  }

  lemma ExclusiveKept(s: State, a: Action)
    requires Exclusive(s) && Enabled(true, s, a)
    ensures Exclusive(Next(true, s, a))
  {
  }

  lemma {:induction false} RunKeepsExclusive(states: seq<State>, actions: seq<Action>, k: nat)
    requires Run(true, states, actions) && k < |states|
    ensures Exclusive(states[k])
  {
    if k > 0 {
      RunKeepsExclusive(states, actions, k - 1);
      ExclusiveKept(states[k - 1], actions[k - 1]);
    }
  }

  /** At most one attempt, of all tabs, is with the server and still awaited; any
      other request the server has is one that was given up on. */
  lemma OneRefreshAtATime(states: seq<State>, actions: seq<Action>, k: nat, i: nat, j: nat)
    requires Run(true, states, actions) && k < |states|
    requires i < |states[k].attempts| && j < |states[k].attempts|
    requires Active(states[k].attempts[i].phase) && Active(states[k].attempts[j].phase)
    ensures i == j
  {
    RunKeepsExclusive(states, actions, k);
  }

  /** Whatever is issued between two states is lost. */
  ghost predicate LosesWhatIsIssued(s: State, s': State) {
    s.newest <= s'.newest && (s'.lost <==> s.lost || s.newest < s'.newest)
  }

  /** While an attempt is with the server, and stays there, only the serving of
      a request given up on can rotate, and that is what loses a rotation. */
  lemma LostWhileSent(s: State, a: Action, s': State, p: nat)
    requires Exclusive(s) && Enabled(true, s, a) && s' == Next(true, s, a)
    requires p < |s.attempts| && s.attempts[p].phase.Sent? && p < |s'.attempts| && s'.attempts[p].phase.Sent?
    ensures LosesWhatIsIssued(s, s')
  {
    NewestAfter(true, s, a);
    assert Active(s.attempts[p].phase);
  }

  predicate SentIn(s: State, p: nat) {
    p < |s.attempts| && s.attempts[p].phase.Sent?
  }

  ghost predicate LosesWhile(states: seq<State>, p: nat) {
    forall k :: 0 < k < |states| && SentIn(states[k - 1], p) && SentIn(states[k], p) ==>
      LosesWhatIsIssued(states[k - 1], states[k])
  }

  lemma RunLosesWhile(states: seq<State>, actions: seq<Action>, p: nat)
    requires Run(true, states, actions)
    ensures LosesWhile(states, p)
  {
    forall k | 0 < k < |states| && SentIn(states[k - 1], p) && SentIn(states[k], p)
      ensures LosesWhatIsIssued(states[k - 1], states[k])
    {
      RunKeepsExclusive(states, actions, k - 1);
      LostWhileSent(states[k - 1], actions[k - 1], states[k], p);
    }
  }

  lemma {:induction false} LostSince(states: seq<State>, actions: seq<Action>, p: nat, i: nat, k: nat)
    requires Chain(states, actions) && LosesWhile(states, p) && i <= k < |states|
    requires SentIn(states[i], p) && SentIn(states[k], p)
    ensures LosesWhatIsIssued(states[i], states[k])
  {
    if i < k {
      StillSent(states, actions, p, i, k, k - 1);
      LostSince(states, actions, p, i, k - 1);
      assert LosesWhatIsIssued(states[k - 1], states[k]);
    }
  }

  lemma HolderAlone(s: State, p: nat)
    requires Exclusive(s) && p < |s.attempts| && s.attempts[p].phase.Holding?
    ensures forall q: nat :: !Undelivered(s, q)
  {
    assert Active(s.attempts[p].phase);
    forall q: nat | Undelivered(s, q) ensures false {
      assert Active(s.attempts[q].phase);
    }
  }

  /** With the tab lock, in every interleaving, a refresh presents the newest
      token the server has issued exactly when no rotation has been lost: by a
      response that did not arrive, or at a request given up on. */
  lemma PresentsNewestIffNothingLost(states: seq<State>, actions: seq<Action>, k: nat)
    requires Run(true, states, actions) && k < |actions| && actions[k].Serve?
    ensures states[k].attempts[actions[k].attempt].phase.presented == states[k].newest <==> !states[k].lost
  {
    var p := actions[k].attempt;
    var j := WhenSent(true, states, actions, p, k);
    RunKeepsExclusive(states, actions, j);
    HolderAlone(states[j], p);
    PresentsNewestIff(true, states, actions, p, j, k);
    RunIsChain(true, states, actions);
    NewestSince(states, actions, j, k);
    SentAt(true, states, actions, p, j);
    RunLosesWhile(states, actions, p);
    LostSince(states, actions, p, j + 1, k);
  }

  // ── How an attempt ends, and its callers ───────────────────────────

  /** The server accepted the refresh at `i`, by rotating its token or as one
      spent moments ago, and the answer reached the browser at `h`. */
  ghost predicate Accepted(states: seq<State>, actions: seq<Action>, p: nat, i: nat, h: nat)
    requires |states| == |actions| + 1
  {
    && i < h < |actions| && actions[h] == Deliver(p)
    && actions[i].Serve? && actions[i].attempt == p && (Rotates(states[i], actions[i]) || actions[i].recent)
  }

  ghost predicate AcceptedBefore(states: seq<State>, actions: seq<Action>, p: nat, k: nat)
    requires |states| == |actions| + 1
  {
    exists i: nat, h: nat :: h < k && Accepted(states, actions, p, i, h)
  }

  predicate Ends(phase: Phase) {
    phase.Resolved? || phase.Settled?
  }

  /** What the server's answer to the serving at `i` was. */
  lemma ServedAt(locks: bool, states: seq<State>, actions: seq<Action>, p: nat, i: nat)
    requires Run(locks, states, actions) && i < |actions| && actions[i].Serve? && actions[i].attempt == p
    ensures p < |states[i + 1].attempts| && states[i + 1].attempts[p].phase.Answered?
    ensures states[i + 1].attempts[p].phase.answer.Refused?
       <==> !Rotates(states[i], actions[i]) && !actions[i].recent
  {
  }

  lemma DeliveredAt(locks: bool, states: seq<State>, actions: seq<Action>, p: nat, h: nat)
    requires Run(locks, states, actions) && h < |actions| && actions[h] == Deliver(p)
    ensures p < |states[h].attempts| && states[h].attempts[p].phase.Answered?
    ensures p < |states[h + 1].attempts|
    ensures states[h + 1].attempts[p].phase == Resolved(!states[h].attempts[p].phase.answer.Refused?)
  {
  }

  lemma LostAt(locks: bool, states: seq<State>, actions: seq<Action>, p: nat, h: nat)
    requires Run(locks, states, actions) && h < |actions| && actions[h] == Lose(p)
    ensures p < |states[h + 1].attempts| && states[h + 1].attempts[p].phase == Resolved(false)
  {
  }

  /** An attempt whose answer was delivered succeeds exactly when the server
      accepted it: by rotating its token, or with 409 for one just spent. */
  lemma DeliveredSucceedsIff(locks: bool, states: seq<State>, actions: seq<Action>, p: nat, i: nat, h: nat, k: nat)
    requires Run(locks, states, actions) && i < h < k < |states|
    requires actions[i].Serve? && actions[i].attempt == p && actions[h] == Deliver(p)
    ensures p < |states[k].attempts| && Ends(states[k].attempts[p].phase)
    ensures states[k].attempts[p].phase.ok <==> Rotates(states[i], actions[i]) || actions[i].recent
  {
    RunIsChain(locks, states, actions);
    ServedAt(locks, states, actions, p, i);
    DeliveredAt(locks, states, actions, p, h);
    PhasesFollow(states, actions, p, i + 1, h);
    PhasesFollow(states, actions, p, h + 1, k);
  }

  /** One that was given up on, or whose answer was lost, fails. */
  lemma LostFails(locks: bool, states: seq<State>, actions: seq<Action>, p: nat, h: nat, k: nat)
    requires Run(locks, states, actions) && h < k < |states| && actions[h] == Lose(p)
    ensures p < |states[k].attempts| && Ends(states[k].attempts[p].phase) && !states[k].attempts[p].phase.ok
  {
    RunIsChain(locks, states, actions);
    LostAt(locks, states, actions, p, h);
    PhasesFollow(states, actions, p, h + 1, k);
  }

  lemma EndsBefore(locks: bool, s: State, a: Action, s': State, p: nat)
    requires Enabled(locks, s, a) && s' == Next(locks, s, a) && a != Deliver(p) && a != Lose(p)
    requires p < |s'.attempts| && Ends(s'.attempts[p].phase)
    ensures p < |s.attempts| && Ends(s.attempts[p].phase)
  {
  }

  lemma {:induction false} WhenEnded(locks: bool, states: seq<State>, actions: seq<Action>, p: nat, k: nat)
    returns (h: nat)
    requires Run(locks, states, actions) && k < |states|
    requires p < |states[k].attempts| && Ends(states[k].attempts[p].phase)
    ensures h < k && (actions[h] == Deliver(p) || actions[h] == Lose(p))
  {
    if actions[k - 1] == Deliver(p) || actions[k - 1] == Lose(p) {
      h := k - 1;
    } else {
      EndsBefore(locks, states[k - 1], actions[k - 1], states[k], p);
      h := WhenEnded(locks, states, actions, p, k - 1);
    }
  }

  lemma AnsweredBefore(locks: bool, s: State, a: Action, s': State, p: nat)
    requires Enabled(locks, s, a) && s' == Next(locks, s, a) && !(a.Serve? && a.attempt == p)
    requires p < |s'.attempts| && s'.attempts[p].phase.Answered?
    ensures p < |s.attempts| && s.attempts[p].phase.Answered?
  {
  }

  lemma {:induction false} WhenServed(locks: bool, states: seq<State>, actions: seq<Action>, p: nat, k: nat)
    returns (i: nat)
    requires Run(locks, states, actions) && k < |states|
    requires p < |states[k].attempts| && states[k].attempts[p].phase.Answered?
    ensures i < k && actions[i].Serve? && actions[i].attempt == p
  {
    if actions[k - 1].Serve? && actions[k - 1].attempt == p {
      i := k - 1;
    } else {
      AnsweredBefore(locks, states[k - 1], actions[k - 1], states[k], p);
      i := WhenServed(locks, states, actions, p, k - 1);
    }
  }

  /** In every run, an attempt that has ended succeeded exactly when the server
      accepted its refresh and the answer arrived. */
  lemma AttemptSucceedsIff(locks: bool, states: seq<State>, actions: seq<Action>, p: nat, k: nat)
    requires Run(locks, states, actions) && k < |states|
    requires p < |states[k].attempts| && Ends(states[k].attempts[p].phase)
    ensures states[k].attempts[p].phase.ok <==> AcceptedBefore(states, actions, p, k)
  {
    if states[k].attempts[p].phase.ok {
      var h := WhenEnded(locks, states, actions, p, k);
      if actions[h] == Lose(p) {
        LostFails(locks, states, actions, p, h, k);
      }
      DeliveredAt(locks, states, actions, p, h);
      var i := WhenServed(locks, states, actions, p, h);
      DeliveredSucceedsIff(locks, states, actions, p, i, h, k);
      assert Accepted(states, actions, p, i, h);
    }
    if AcceptedBefore(states, actions, p, k) {
      var i: nat, h: nat :| h < k && Accepted(states, actions, p, i, h);
      DeliveredSucceedsIff(locks, states, actions, p, i, h, k);
    }
  }

  lemma ResumedAt(locks: bool, states: seq<State>, actions: seq<Action>, m: nat) returns (p: nat)
    requires Run(locks, states, actions) && m < |actions| && actions[m].Resume?
    ensures var id := actions[m].id;
            && id in states[m].callers && states[m].callers[id].stage == Awaiting(p)
            && p < |states[m].attempts| && states[m].attempts[p].phase.Settled?
            && id in states[m + 1].callers
            && states[m + 1].callers[id] == Resumed(states[m].callers[id], p, states[m].attempts[p].phase.ok,
                                                    actions[m].retry, actions[m].publicRoute)
  {
    p := states[m].callers[actions[m].id].stage.attempt;
  }

  /** How a request goes on from its 401: when the server accepted the refresh it
      awaited it fetches once more and ends as that fetch does; otherwise it ends
      with 401, and goes to the login page unless it is on a public one. A direct
      call returns whether the server accepted. */
  lemma CallResumes(locks: bool, states: seq<State>, actions: seq<Action>, m: nat) returns (p: nat)
    requires Run(locks, states, actions) && m < |actions| && actions[m].Resume?
    ensures var id, retry := actions[m].id, actions[m].retry;
            && id in states[m].callers && states[m].callers[id].stage == Awaiting(p) && id in states[m + 1].callers
            && var c, accepted := states[m + 1].callers[id], AcceptedBefore(states, actions, p, m);
               if c.call.Direct? then c.stage == Returned(accepted, p)
               else if accepted then
                 && c.fetched == [401, retry]
                 && c.stage == Over(if 200 <= retry < 300 then Ok(retry) else ApiError(retry), false, Some(p))
               else c.fetched == [401] && c.stage == Over(ApiError(401), !actions[m].publicRoute, Some(p))
  {
    p := ResumedAt(locks, states, actions, m);
    AttemptSucceedsIff(locks, states, actions, p, m);
    RunKeepsAllStand(locks, states, actions, m);
    assert Stands(states[m], states[m].callers[actions[m].id]);
  }

  // ── No call waits for good ─────────────────────────────────────────

  /** Whoever has the tab lock is at work, so an attempt that ended has given it up. */
  ghost predicate HeldAtWork(s: State) {
    s.holder.Some? ==> s.holder.value < |s.attempts| && Active(s.attempts[s.holder.value].phase)
  }

  lemma HeldAtWorkKept(locks: bool, s: State, a: Action)
    requires HeldAtWork(s) && Enabled(locks, s, a) && (!locks ==> s.holder.None?)
    ensures HeldAtWork(Next(locks, s, a)) && (!locks ==> Next(locks, s, a).holder.None?)
  {
  }

  lemma {:induction false} RunKeepsHeldAtWork(locks: bool, states: seq<State>, actions: seq<Action>, k: nat)
    requires Run(locks, states, actions) && k < |states|
    ensures HeldAtWork(states[k]) && (!locks ==> states[k].holder.None?)
  {
    if k > 0 {
      RunKeepsHeldAtWork(locks, states, actions, k - 1);
      HeldAtWorkKept(locks, states[k - 1], actions[k - 1]);
    }
  }

  /** How many steps of attempts are left at most. */
  ghost function Left(attempts: seq<Attempt>): nat {
    if attempts == [] then 0
    else Left(attempts[..|attempts| - 1]) + 5 - Rank(attempts[|attempts| - 1].phase)
  }

  lemma {:induction false} LeftShrinks(attempts: seq<Attempt>, p: nat, phase: Phase)
    requires p < |attempts| && Rank(attempts[p].phase) < Rank(phase)
    ensures Left(attempts[p := attempts[p].(phase := phase)]) < Left(attempts)
  {
    var last, after := |attempts| - 1, attempts[p := attempts[p].(phase := phase)];
    if p < last {
      LeftShrinks(attempts[..last], p, phase);
      assert after[..last] == attempts[..last][p := attempts[p].(phase := phase)];
    } else {
      assert after[..last] == attempts[..last];
    }
  }

  /** The step an attempt takes next, when it need not wait. */
  function StepOf(s: State, p: nat): Action
    requires InFlight(s, p)
  {
    match s.attempts[p].phase
    case Queued => Acquire(p)
    case Holding => Send(p)
    case Sent(_) => Serve(p, false)
    case Answered(_) => Deliver(p)
    case Resolved(_) => Settle(p)
  }

  lemma StepMoves(locks: bool, s: State, p: nat, s': State)
    requires InFlight(s, p) && Enabled(locks, s, StepOf(s, p)) && s' == Next(locks, s, StepOf(s, p))
    ensures s'.callers == s.callers && |s'.attempts| == |s.attempts|
    ensures Rank(s.attempts[p].phase) < Rank(s'.attempts[p].phase)
    ensures s'.attempts == s.attempts[p := s.attempts[p].(phase := s'.attempts[p].phase)]
  {
  }

  lemma StepWorks(locks: bool, s: State, p: nat, s': State)
    requires InFlight(s, p) && Enabled(locks, s, StepOf(s, p)) && s' == Next(locks, s, StepOf(s, p))
    ensures s'.callers == s.callers && Left(s'.attempts) < Left(s.attempts)
  {
    StepMoves(locks, s, p, s');
    LeftShrinks(s.attempts, p, s'.attempts[p].phase);
  }

  /** Some attempt can take its step: this one, or the one whose lock it waits for. */
  lemma SomeAttemptSteps(locks: bool, s: State, p: nat) returns (q: nat)
    requires HeldAtWork(s) && InFlight(s, p)
    ensures InFlight(s, q) && Enabled(locks, s, StepOf(s, q))
    ensures q == p || (locks && s.attempts[p].phase.Queued? && s.holder == Some(q))
  {
    q := if locks && s.attempts[p].phase.Queued? && s.holder.Some? then s.holder.value else p;
  }

  /** No call is left waiting by the locks: wherever a run has come to, with
      whatever lost and given up on, it can go on to where the call is over. */
  lemma {:induction false} EveryCallCanEnd(locks: bool, states: seq<State>, actions: seq<Action>, id: nat)
    returns (states': seq<State>, actions': seq<Action>)
    requires Run(locks, states, actions)
    requires id in states[|states| - 1].callers && states[|states| - 1].callers[id].stage.Awaiting?
    ensures Run(locks, states', actions') && states <= states' && actions <= actions'
    ensures id in states'[|states'| - 1].callers
    ensures var stage := states'[|states'| - 1].callers[id].stage; stage.Over? || stage.Returned?
    decreases Left(states[|states| - 1].attempts)
  {
    var s := states[|states| - 1];
    var p := s.callers[id].stage.attempt;
    RunKeepsAllStand(locks, states, actions, |states| - 1);
    RunKeepsHeldAtWork(locks, states, actions, |states| - 1);
    assert Stands(s, s.callers[id]);
    if InFlight(s, p) {
      var q := SomeAttemptSteps(locks, s, p);
      states', actions' := Extend(locks, states, actions, StepOf(s, q));
      StepWorks(locks, s, q, states'[|states'| - 1]);
      states', actions' := EveryCallCanEnd(locks, states', actions', id);
    } else {
      states', actions' := Extend(locks, states, actions, Resume(id, 200, false));
    }
  }

  // ── Without the tab lock ───────────────────────────────────────────

  /** A refresh not lost presents a token already spent. */
  ghost predicate PresentsSpent(locks: bool, states: seq<State>, actions: seq<Action>, p: nat, k: nat) {
    && Run(locks, states, actions) && k < |states| && !states[k].lost
    && p < |states[k].attempts| && states[k].attempts[p].phase.Sent?
    && states[k].attempts[p].phase.presented != states[k].newest
  }

  /** Without the tab lock two tabs can present the same token, and the second
      presents one already spent: the first was served between its sending and
      its serving. */
  lemma WithoutTabLockATokenIsSpentTwice()
    ensures exists states: seq<State>, actions: seq<Action>, k: nat :: PresentsSpent(false, states, actions, 1, k)
  {
    var states, actions := TwoTabsSent();
    var j, s := |actions| - 1, states[|states| - 1];
    states, actions := Extend(false, states, actions, Serve(0, true));
    var k := |actions|;
    assert states[k - 1] == s && Rotates(s, actions[k - 1]) && actions[j] == Send(1);
    assert WithServer(false, states, actions, 1, j, k);
    PresentsNewestIff(false, states, actions, 1, j, k);
    assert PresentsSpent(false, states, actions, 1, k);
  }

  /** A run made one action longer. */
  lemma Extend(locks: bool, states: seq<State>, actions: seq<Action>, a: Action)
    returns (states': seq<State>, actions': seq<Action>)
    requires Run(locks, states, actions) && Enabled(locks, states[|states| - 1], a)
    ensures Run(locks, states', actions')
    ensures states' == states + [Next(locks, states[|states| - 1], a)] && actions' == actions + [a]
  {
    states', actions' := states + [Next(locks, states[|states| - 1], a)], actions + [a];
  }

  lemma TwoTabsSent() returns (states: seq<State>, actions: seq<Action>)
    ensures Run(false, states, actions) && actions != [] && actions[|actions| - 1] == Send(1)
    ensures var s := states[|states| - 1];
            s.attempts == [Attempt(0, Sent(0)), Attempt(1, Sent(0))] && s.newest == 0 && !s.lost
  {
    states, actions := TwoTabsQueued();
    states, actions := Extend(false, states, actions, Acquire(0));
    states, actions := Extend(false, states, actions, Acquire(1));
    states, actions := Extend(false, states, actions, Send(0));
    states, actions := Extend(false, states, actions, Send(1));
  }

  lemma TwoTabsQueued() returns (states: seq<State>, actions: seq<Action>)
    ensures Run(false, states, actions)
    ensures var s := states[|states| - 1];
            s.attempts == [Attempt(0, Queued), Attempt(1, Queued)] && s.cookie == s.newest == 0 && !s.lost
  {
    states, actions := OneTabQueued();
    states, actions := Extend(false, states, actions, Open(1, 1, Direct));
    states, actions := Extend(false, states, actions, Ask(1));
  }

  lemma OneTabQueued() returns (states: seq<State>, actions: seq<Action>)
    ensures Run(false, states, actions)
    ensures var s := states[|states| - 1];
            && s.attempts == [Attempt(0, Queued)] && s.vars == map[0 := Vars(true, Some(0))] && s.callers.Keys == {0}
            && s.cookie == s.newest == 0 && !s.lost
  {
    states, actions := [Init], [];
    states, actions := Extend(false, states, actions, Open(0, 0, Direct));
    states, actions := Extend(false, states, actions, Ask(0));
  }
}
