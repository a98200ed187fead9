/** Per-key locks for cache single flight: the map of weak references behind a
    mutex, and the protocol its callers follow. */
module KeyedLocks {
  import opened Collections

  // ── The lock map ───────────────────────────────────────────────────

  /** The lock for `key` among those still held, if there is one. */
  predicate Live<L>(locks: map<string, L>, held: set<L>, key: string) {
    key in locks && locks[key] in held
  }

  /** Entries whose lock somebody still holds. */
  function Retained<L>(locks: map<string, L>, held: set<L>): map<string, L> {
    map k | k in locks && locks[k] in held :: locks[k]
  }

  /** The map and the lock a lookup yields, where `spare` is a lock nobody has. */
  function Lookup<L>(locks: map<string, L>, held: set<L>, key: string, spare: L): (map<string, L>, L) {
    if Live(locks, held, key) then (locks, locks[key])
    else (Retained(locks, held)[key := spare], spare)
  }

  /** An `Arc<Mutex<()>>` cell, with its count of strong references. */
  class Lock {
    var strong: nat

    constructor ()
      ensures strong == 1
    {
      strong := 1;
    }
  }

  class Registry {
    var locks: map<string, Lock>

    constructor ()
      ensures locks == map[]
    {
      locks := map[];
    }

    ghost function Held(): set<Lock>
      reads this, locks.Values
    {
      set l | l in locks.Values && l.strong > 0
    }

    /** `KeyedLocks::get`: the lock every current caller for `key` shares. */
    method Get(key: string) returns (lock: Lock)
      modifies this, locks.Values
      ensures (locks, lock) == Lookup(old(locks), old(Held()), key, lock)
      ensures old(Live(locks, Held(), key)) ==> lock.strong == old(locks[key].strong) + 1
      ensures !old(Live(locks, Held(), key)) ==> fresh(lock) && lock.strong == 1
      ensures forall l :: l in old(locks.Values) && l != lock ==> l.strong == old(l.strong)
    {
      ghost var held := Held();
      assert forall k :: k in locks ==> (locks[k] in held <==> locks[k].strong > 0);
      if key in locks && locks[key].strong > 0 {
        lock := locks[key];
        lock.strong := lock.strong + 1;
        return;
      }
      var kept := map k | k in locks && locks[k].strong > 0 :: locks[k];
      assert kept == Retained(locks, held);
      lock := new Lock();
      locks := kept[key := lock];
    }

    /** A caller's `Arc` going out of scope: the lock stays held exactly while
        another caller has it. */
    method Drop(lock: Lock)
      requires lock in locks.Values && lock.strong > 0
      modifies lock
      ensures lock.strong == old(lock.strong) - 1
      ensures Held() == if lock.strong == 0 then old(Held()) - {lock} else old(Held())
    {
      lock.strong := lock.strong - 1;
    }

    /** A caller that comes and goes leaves the locks in use as they were, and the
        map with none but those and its own. */
    method ComeAndGo(key: string)
      modifies this, locks.Values
      ensures Held() == old(Held())
      ensures !old(Live(locks, Held(), key)) ==> forall k :: k in locks && k != key ==> locks[k] in Held()
    {
      ghost var before, held := locks, Held();
      var lock := Get(key);
      assert lock == locks[key];
      forall l | l in held ensures l in locks.Values {
        var k :| k in before && before[k] == l;
        assert k in locks && locks[k] == l;
      }
      forall l | l in locks.Values && l != lock && l.strong > 0 ensures l in held {
        var k :| k in locks && locks[k] == l;
        assert k in before && before[k] == l;
      }
      Drop(lock);
    }
  }

  // ── The callers' protocol ──────────────────────────────────────────

  datatype Stage = Waiting | Holding | Fetching | Finished

  datatype Caller = Caller(key: string, lock: nat, stage: Stage)

  /** `started`, `failed` and `expired` count fetches begun, fetches that
      filled nothing, by failing or by their caller being dropped, and cache
      entries lost, per key. */
  datatype State = State(locks: map<string, nat>, next: nat, callers: map<nat, Caller>, cache: set<string>,
                         started: map<string, nat>, failed: map<string, nat>, expired: map<string, nat>,
                         peak: nat)

  datatype Action =
    | Get(id: nat, key: string)
    | Acquire(id: nat)
    | Hit(id: nat)
    | Fetch(id: nat)
    | Fill(id: nat)
    | Fail(id: nat)
    | Release(id: nat)
    | Abandon(id: nat)
    | Expire(key: string)

  const Init: State := State(map[], 0, map[], {}, map[], map[], map[], 0)

  function Count(m: map<string, nat>, key: string): nat {
    if key in m then m[key] else 0
  }

  /** Locks some caller has a strong reference to. */
  function HeldLocks(s: State): set<nat> {
    set id | id in s.callers :: s.callers[id].lock
  }

  function LiveKeys(s: State): set<string> {
    set id | id in s.callers :: s.callers[id].key
  }

  predicate Owns(c: Caller) {
    c.stage in {Holding, Fetching, Finished}
  }

  predicate Enabled(s: State, a: Action) {
    match a
    case Get(id, key) => id !in s.callers
    case Acquire(id) =>
      id in s.callers && s.callers[id].stage == Waiting &&
      forall o :: o in s.callers && s.callers[o].lock == s.callers[id].lock ==> !Owns(s.callers[o])
    case Hit(id) => id in s.callers && s.callers[id].stage == Holding && s.callers[id].key in s.cache
    case Fetch(id) => id in s.callers && s.callers[id].stage == Holding && s.callers[id].key !in s.cache
    case Fill(id) => id in s.callers && s.callers[id].stage == Fetching
    case Fail(id) => id in s.callers && s.callers[id].stage == Fetching
    case Release(id) => id in s.callers && s.callers[id].stage == Finished
    case Abandon(id) => id in s.callers && s.callers[id].stage != Finished
    case Expire(key) => key in s.cache
  }

  function Staged(s: State, id: nat, stage: Stage): State
    requires id in s.callers
  {
    s.(callers := s.callers[id := s.callers[id].(stage := stage)])
  }

  /** The greatest number of simultaneously live keys seen so far. */
  function Peaked(s: State): State {
    if |LiveKeys(s)| > s.peak then s.(peak := |LiveKeys(s)|) else s
  }

  function Next(s: State, a: Action): State
    requires Enabled(s, a)
  {
    match a
    case Get(id, key) =>
      var (locks, lock) := Lookup(s.locks, HeldLocks(s), key, s.next);
      Peaked(s.(locks := locks, next := s.next + 1, callers := s.callers[id := Caller(key, lock, Waiting)]))
    case Acquire(id) => Staged(s, id, Holding)
    case Hit(id) => Staged(s, id, Finished)
    case Fetch(id) =>
      var key := s.callers[id].key;
      Staged(s, id, Fetching).(started := s.started[key := Count(s.started, key) + 1])
    case Fill(id) =>
      Staged(s, id, Finished).(cache := s.cache + {s.callers[id].key})
    case Fail(id) =>
      var key := s.callers[id].key;
      Staged(s, id, Finished).(failed := s.failed[key := Count(s.failed, key) + 1])
    case Release(id) => s.(callers := s.callers - {id})
    case Abandon(id) =>
      var key := s.callers[id].key;
      var s1 := s.(callers := s.callers - {id});
      if s.callers[id].stage == Fetching then s1.(failed := s.failed[key := Count(s.failed, key) + 1]) else s1
    case Expire(key) =>
      s.(cache := s.cache - {key}, expired := s.expired[key := Count(s.expired, key) + 1])
  }

  ghost predicate Run(states: seq<State>, actions: seq<Action>) {
    && |states| == |actions| + 1 && states[0] == Init
    && forall k :: 0 <= k < |actions| ==> Enabled(states[k], actions[k]) && states[k + 1] == Next(states[k], actions[k])
  }

  // ── Single flight ──────────────────────────────────────────────────

  /** Callers share a lock exactly when they share a key, and that lock is the
      one the map has for it. */
  ghost predicate Shared(s: State) {
    && (forall id :: id in s.callers ==>
          s.callers[id].key in s.locks && s.locks[s.callers[id].key] == s.callers[id].lock)
    && (forall j, k :: j in s.locks && k in s.locks && j != k ==> s.locks[j] != s.locks[k])
    && (forall k :: k in s.locks ==> s.locks[k] < s.next)
  }

  predicate Owner(s: State, id: nat) {
    id in s.callers && Owns(s.callers[id])
  }

  ghost predicate OneOwner(s: State) {
    forall i, j :: Owner(s, i) && Owner(s, j) && s.callers[i].lock == s.callers[j].lock ==> i == j
  }

  predicate Fetches(s: State, id: nat, key: string) {
    id in s.callers && s.callers[id].key == key && s.callers[id].stage == Fetching
  }

  ghost predicate InFlight(s: State, key: string) {
    exists id :: Fetches(s, id, key)
  }

  /** Every fetch begun is accounted for: in flight, in the cache, failed, or
      lost from the cache since. */
  ghost predicate Accounted(s: State, key: string) {
    Count(s.started, key) == Count(s.failed, key) + Count(s.expired, key) +
      (if key in s.cache || InFlight(s, key) then 1 else 0)
  }

  ghost predicate Inv(s: State) {
    && Shared(s) && OneOwner(s)
    && (forall key :: key in s.cache ==> !InFlight(s, key))
    && (forall key :: Accounted(s, key))
    && |s.locks| <= s.peak
  }

  /** A step other than `Get` leaves the map and its callers' locks alone, and
      only an acquisition makes an owner. */
  lemma CallersKept(s: State, a: Action, id: nat)
    requires Enabled(s, a) && !a.Get? && id in Next(s, a).callers
    ensures id in s.callers
    ensures Next(s, a).callers[id].key == s.callers[id].key && Next(s, a).callers[id].lock == s.callers[id].lock
    ensures Owner(Next(s, a), id) ==> Owner(s, id) || a == Acquire(id)
  {
  }

  lemma GetCallers(s: State, a: Action, id: nat)
    requires Enabled(s, a) && a.Get? && id in Next(s, a).callers
    ensures id == a.id ==>
              Next(s, a).callers[id] == Caller(a.key, Lookup(s.locks, HeldLocks(s), a.key, s.next).1, Waiting)
    ensures id != a.id ==> id in s.callers && Next(s, a).callers[id] == s.callers[id]
    ensures Next(s, a).locks == Lookup(s.locks, HeldLocks(s), a.key, s.next).0
    ensures Next(s, a).next == s.next + 1
  {
  }

  lemma SharedAfterGet(s: State, a: Action)
    requires Shared(s) && Enabled(s, a) && a.Get?
    ensures Shared(Next(s, a))
  {
    var s' := Next(s, a);
    GetCallers(s, a, a.id);
    forall id | id in s'.callers
      ensures s'.callers[id].key in s'.locks && s'.locks[s'.callers[id].key] == s'.callers[id].lock
    {
      GetCallers(s, a, id);
      if id != a.id {
        assert s.callers[id].lock in HeldLocks(s);
      }
    }
  }

  lemma SharedKept(s: State, a: Action)
    requires Shared(s) && Enabled(s, a)
    ensures Shared(Next(s, a))
  {
    if a.Get? {
      SharedAfterGet(s, a);
    } else {
      var s' := Next(s, a);
      assert s'.locks == s.locks && s'.next == s.next;
      forall id | id in s'.callers
        ensures s'.callers[id].key in s'.locks && s'.locks[s'.callers[id].key] == s'.callers[id].lock
      {
        CallersKept(s, a, id);
      }
    }
  }

  lemma OneOwnerKept(s: State, a: Action)
    requires OneOwner(s) && Enabled(s, a)
    ensures OneOwner(Next(s, a))
  {
    var s' := Next(s, a);
    forall i, j | Owner(s', i) && Owner(s', j) && s'.callers[i].lock == s'.callers[j].lock ensures i == j {
      if a.Get? {
        GetCallers(s, a, i);
        GetCallers(s, a, j);
      } else {
        CallersKept(s, a, i);
        CallersKept(s, a, j);
      }
    }
  }

  lemma FetchesAfter(s: State, a: Action, id: nat, key: string)
    requires Enabled(s, a)
    ensures Fetches(Next(s, a), id, key) <==>
              if a == Fetch(id) then s.callers[id].key == key
              else Fetches(s, id, key) && a !in {Fill(id), Fail(id), Abandon(id)}
  {
  }

  /** Steps after which the fetch for `key` is no longer running. */
  predicate EndsFetch(s: State, a: Action, key: string) {
    (a.Fill? || a.Fail? || a.Abandon?) && Fetches(s, a.id, key)
  }

  lemma OneFetchPerKey(s: State, i: nat, j: nat, key: string)
    requires Shared(s) && OneOwner(s) && Fetches(s, i, key) && Fetches(s, j, key)
    ensures i == j
  {
    assert Owner(s, i) && Owner(s, j) && s.callers[i].lock == s.callers[j].lock;
  }

  /** Only the caller that acts can change what is in flight for its key. */
  lemma InFlightAfter(s: State, a: Action, key: string)
    requires Shared(s) && OneOwner(s) && Enabled(s, a)
    ensures var s' := Next(s, a);
            InFlight(s', key) <==>
              if a.Fetch? && s.callers[a.id].key == key then true
              else if EndsFetch(s, a, key) then false
              else InFlight(s, key)
  {
    var s' := Next(s, a);
    if InFlight(s', key) {
      var id :| Fetches(s', id, key);
      FetchesAfter(s, a, id, key);
      if EndsFetch(s, a, key) {
        OneFetchPerKey(s, id, a.id, key);
      }
    }
    if InFlight(s, key) {
      var id :| Fetches(s, id, key);
      FetchesAfter(s, a, id, key);
    }
    if a.Fetch? {
      FetchesAfter(s, a, a.id, key);
    }
  }

  lemma NotInFlightWhileHeld(s: State, id: nat)
    requires Shared(s) && OneOwner(s) && id in s.callers && s.callers[id].stage == Holding
    ensures !InFlight(s, s.callers[id].key)
  {
    forall o ensures !Fetches(s, o, s.callers[id].key) {
      assert o in s.callers && s.callers[o].key == s.callers[id].key ==> s.callers[o].lock == s.callers[id].lock;
      assert Owner(s, id);
      assert o in s.callers && s.callers[o].stage == Fetching ==> Owner(s, o);
    }
  }

  lemma AccountedKept(s: State, a: Action, key: string)
    requires Inv(s) && Enabled(s, a)
    ensures Accounted(Next(s, a), key)
    ensures key in Next(s, a).cache ==> !InFlight(Next(s, a), key)
  {
    assert Accounted(s, key);
    InFlightAfter(s, a, key);
    if a.Fetch? && s.callers[a.id].key == key {
      NotInFlightWhileHeld(s, a.id);
    }
    if EndsFetch(s, a, key) {
      assert InFlight(s, key);
    }
  }

  /** Right after an insertion the map holds only keys some caller is using. */
  lemma InsertionForgetsIdleKeys(s: State, id: nat, key: string)
    requires Shared(s) && Enabled(s, Get(id, key)) && !Live(s.locks, HeldLocks(s), key)
    ensures Next(s, Get(id, key)).locks.Keys <= LiveKeys(Next(s, Get(id, key)))
  {
    var s' := Next(s, Get(id, key));
    assert s'.callers[id].key == key;
    forall k | k in s'.locks ensures k in LiveKeys(s') {
      if k != key {
        assert s.locks[k] in HeldLocks(s);
        var c :| c in s.callers && s.callers[c].lock == s.locks[k];
        assert s.callers[c].key == k;
        assert s'.callers[c] == s.callers[c];
      }
    }
  }

  lemma MapStaysSmall(s: State, a: Action)
    requires Inv(s) && Enabled(s, a)
    ensures |Next(s, a).locks| <= Next(s, a).peak
  {
    if a.Get? && !Live(s.locks, HeldLocks(s), a.key) {
      InsertionForgetsIdleKeys(s, a.id, a.key);
      var s' := Next(s, a);
      SubsetSize(s'.locks.Keys, LiveKeys(s'));
      assert |s'.locks| == |s'.locks.Keys|;
    }
  }

  lemma StepKeepsInv(s: State, a: Action)
    requires Inv(s) && Enabled(s, a)
    ensures Inv(Next(s, a))
  {
    SharedKept(s, a);
    OneOwnerKept(s, a);
    MapStaysSmall(s, a);
    forall key: string
      ensures Accounted(Next(s, a), key)
      ensures key in Next(s, a).cache ==> !InFlight(Next(s, a), key)
    {
      AccountedKept(s, a, key);
    }
  }

  lemma {:induction false} RunKeepsInv(states: seq<State>, actions: seq<Action>, k: nat)
    requires Run(states, actions) && k < |states|
    ensures Inv(states[k])
  {
    if k > 0 {
      RunKeepsInv(states, actions, k - 1);
      StepKeepsInv(states[k - 1], actions[k - 1]);
    }
  }

  /** Single flight: in every run, callers share a lock exactly when they share
      a key, and at most one fetch per key is running. */
  lemma SingleFlight(states: seq<State>, actions: seq<Action>, k: nat, i: nat, j: nat)
    requires Run(states, actions) && k < |states|
    requires i in states[k].callers && j in states[k].callers
    ensures var a, b := states[k].callers[i], states[k].callers[j];
            && (a.lock == b.lock <==> a.key == b.key)
            && (a.key == b.key && a.stage == Fetching && b.stage == Fetching ==> i == j)
  {
    RunKeepsInv(states, actions, k);
    var s := states[k];
    assert s.callers[i].stage == Fetching ==> Owner(s, i);
    assert s.callers[j].stage == Fetching ==> Owner(s, j);
  }

  /** Waiters do not fetch again: over a whole run, a key is fetched at most
      once more than its fetches failed and its cache entry was lost. */
  lemma FetchesAreBounded(states: seq<State>, actions: seq<Action>, k: nat, key: string)
    requires Run(states, actions) && k < |states|
    ensures Count(states[k].started, key) <= 1 + Count(states[k].failed, key) + Count(states[k].expired, key)
  {
    RunKeepsInv(states, actions, k);
    assert Accounted(states[k], key);
  }

  // ── No caller waits for good ───────────────────────────────────────

  lemma Extend(states: seq<State>, actions: seq<Action>, a: Action)
    returns (states': seq<State>, actions': seq<Action>)
    requires Run(states, actions) && Enabled(states[|states| - 1], a)
    ensures Run(states', actions')
    ensures states' == states + [Next(states[|states| - 1], a)] && actions' == actions + [a]
  {
    states', actions' := states + [Next(states[|states| - 1], a)], actions + [a];
  }

  /** A caller that has its lock finds its value in the cache, or puts it there. */
  lemma CanFinish(states: seq<State>, actions: seq<Action>, id: nat)
    returns (states': seq<State>, actions': seq<Action>)
    requires Run(states, actions)
    requires id in states[|states| - 1].callers && states[|states| - 1].callers[id].stage in {Holding, Fetching}
    ensures Run(states', actions') && states <= states' && actions <= actions'
    ensures var s, s' := states[|states| - 1], states'[|states'| - 1];
            s'.callers == s.callers[id := s.callers[id].(stage := Finished)] && s.callers[id].key in s'.cache
  {
    var s := states[|states| - 1];
    states', actions' := states, actions;
    if s.callers[id].stage == Holding {
      if s.callers[id].key in s.cache {
        states', actions' := Extend(states', actions', Hit(id));
        return;
      }
      states', actions' := Extend(states', actions', Fetch(id));
    }
    states', actions' := Extend(states', actions', Fill(id));
  }

  /** The lock a caller waits for can be given up by whoever has it. */
  lemma CanBeFreed(states: seq<State>, actions: seq<Action>, id: nat, owner: nat)
    returns (states': seq<State>, actions': seq<Action>)
    requires Run(states, actions) && id in states[|states| - 1].callers && Owner(states[|states| - 1], owner)
    requires var s := states[|states| - 1]; id != owner && s.callers[owner].lock == s.callers[id].lock
    ensures Run(states', actions') && states <= states' && actions <= actions'
    ensures var s, s' := states[|states| - 1], states'[|states'| - 1];
            && id in s'.callers && s'.callers[id] == s.callers[id]
            && forall o :: Owner(s', o) ==> s'.callers[o].lock != s.callers[id].lock
  {
    RunKeepsInv(states, actions, |states| - 1);
    var s := states[|states| - 1];
    states', actions' := states, actions;
    if s.callers[owner].stage != Finished {
      states', actions' := CanFinish(states', actions', owner);
    }
    states', actions' := Extend(states', actions', Release(owner));
    var s' := states'[|states'| - 1];
    assert forall o :: o in s'.callers ==> o != owner && o in s.callers && s'.callers[o] == s.callers[o];
    forall o | Owner(s', o) ensures s'.callers[o].lock != s.callers[id].lock {
      assert Owner(s, o);
    }
  }

  /** No caller is left waiting: wherever a run has come to, whatever failed or
      was dropped, it can go on to where a given caller has its value. */
  lemma EveryCallerCanBeServed(states: seq<State>, actions: seq<Action>, id: nat)
    returns (states': seq<State>, actions': seq<Action>)
    requires Run(states, actions)
    requires id in states[|states| - 1].callers && states[|states| - 1].callers[id].stage != Finished
    ensures Run(states', actions') && states <= states' && actions <= actions'
    ensures var s, s' := states[|states| - 1], states'[|states'| - 1];
            id in s'.callers && s'.callers[id].stage == Finished && s.callers[id].key in s'.cache
  {
    var s := states[|states| - 1];
    states', actions' := states, actions;
    if s.callers[id].stage == Waiting {
      if owner :| Owner(s, owner) && s.callers[owner].lock == s.callers[id].lock {
        states', actions' := CanBeFreed(states', actions', id, owner);
      }
      var freed := states'[|states'| - 1];
      assert forall o :: o in freed.callers && Owns(freed.callers[o]) ==> Owner(freed, o);
      states', actions' := Extend(states', actions', Acquire(id));
    }
    states', actions' := CanFinish(states', actions', id);
  }

  // ── The size of the map ────────────────────────────────────────────

  /** The lock map never outgrows the greatest number of keys in use at once. */
  lemma MapBoundedByPeak(states: seq<State>, actions: seq<Action>, k: nat)
    requires Run(states, actions) && k < |states|
    ensures |states[k].locks| <= states[k].peak
    ensures exists j :: 0 <= j <= k && states[k].peak == |LiveKeys(states[j])|
  {
    RunKeepsInv(states, actions, k);
    PeakWasReached(states, actions, k);
  }

  lemma {:induction false} PeakWasReached(states: seq<State>, actions: seq<Action>, k: nat)
    requires Run(states, actions) && k < |states|
    ensures exists j :: 0 <= j <= k && states[k].peak == |LiveKeys(states[j])|
  {
    if k == 0 {
      assert LiveKeys(states[0]) == {};
      assert states[0].peak == |LiveKeys(states[0])|;
    } else {
      PeakWasReached(states, actions, k - 1);
      var j :| 0 <= j <= k - 1 && states[k - 1].peak == |LiveKeys(states[j])|;
      PeakAfter(states[k - 1], actions[k - 1]);
      if states[k].peak == states[k - 1].peak {
        assert states[k].peak == |LiveKeys(states[j])|;
      } else {
        assert states[k].peak == |LiveKeys(states[k])|;
      }
    }
  }

  lemma PeakAfter(s: State, a: Action)
    requires Enabled(s, a)
    ensures Next(s, a).peak == s.peak || Next(s, a).peak == |LiveKeys(Next(s, a))|
  {
    if a.Get? {
      var s' := Next(s, a);
      assert LiveKeys(s'.(peak := s.peak)) == LiveKeys(s');
    }
  }
}
