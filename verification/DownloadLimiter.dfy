/** The per-address limiter of the public download endpoint: a map of recent
    request times that is pruned as it is used, against the full history. */
module DownloadLimiter {
  import opened Collections

  const MAX_PER_IP: nat := 60
  const MAX_ENTRIES: nat := 50_000

  /** Nanoseconds. */
  const WINDOW: int := 60_000_000_000

  // ── Times ──────────────────────────────────────────────────────────

  /** `retain(|t| *t > cutoff)`. */
  function Recent(times: seq<int>, cutoff: int): (r: seq<int>)
    ensures |r| <= |times|
    ensures forall t :: t in r <==> t in times && t > cutoff
  {
    if times == [] then []
    else
      var r := Recent(times[..|times| - 1], cutoff);
      var last := times[|times| - 1];
      assert times == times[..|times| - 1] + [last];
      if last > cutoff then r + [last] else r
  }

  lemma RecentSnoc(times: seq<int>, t: int, cutoff: int)
    ensures Recent(times + [t], cutoff) == if t > cutoff then Recent(times, cutoff) + [t] else Recent(times, cutoff)
  {
    assert (times + [t])[..|times|] == times;
  }

  /** Pruning at an earlier cutoff does not change a later one. */
  lemma {:induction false} RecentTwice(times: seq<int>, early: int, late: int)
    requires early <= late
    ensures Recent(Recent(times, early), late) == Recent(times, late)
  {
    if times != [] {
      var init, last := times[..|times| - 1], times[|times| - 1];
      RecentTwice(init, early, late);
      if last > early {
        RecentSnoc(Recent(init, early), last, late);
      }
    }
  }

  // ── The limiter ────────────────────────────────────────────────────

  type Table = map<string, seq<int>>

  function Times(table: Table, ip: string): seq<int> {
    if ip in table then table[ip] else []
  }

  /** `retain` over the whole map: recent times only, and no empty lists. */
  function Pruned(table: Table, cutoff: int): Table {
    map ip | ip in table && Recent(table[ip], cutoff) != [] :: Recent(table[ip], cutoff)
  }

  /** A request, with its clock readings and what was decided. */
  datatype Entry = Entry(ip: string, time: int, admitted: bool)

  /** Times at which `ip` was admitted. */
  function Admitted(history: seq<Entry>, ip: string): seq<int> {
    if history == [] then []
    else
      var before, last := Admitted(history[..|history| - 1], ip), history[|history| - 1];
      if last.ip == ip && last.admitted then before + [last.time] else before
  }

  lemma AdmittedSnoc(history: seq<Entry>, e: Entry, ip: string)
    ensures Admitted(history + [e], ip) ==
            if e.ip == ip && e.admitted then Admitted(history, ip) + [e.time] else Admitted(history, ip)
  {
    assert (history + [e])[..|history|] == history;
  }

  /** Decided from the full history: fewer than the limit in the last window. */
  predicate Allowed(history: seq<Entry>, ip: string, now: int) {
    |Recent(Admitted(history, ip), now - WINDOW)| < MAX_PER_IP
  }

  /** The table agrees with the history on every window not closed by `clock`. */
  ghost predicate Faithful(table: Table, history: seq<Entry>, clock: int) {
    forall ip, cutoff {:trigger Agrees(table, history, ip, cutoff)} ::
      cutoff >= clock - WINDOW ==> Agrees(table, history, ip, cutoff)
  }

  predicate Agrees(table: Table, history: seq<Entry>, ip: string, cutoff: int) {
    Recent(Times(table, ip), cutoff) == Recent(Admitted(history, ip), cutoff)
  }

  /** Dropping times outside a window that has closed loses nothing: neither
      for the whole map nor for one list. */
  lemma PrunedIsFaithful(table: Table, history: seq<Entry>, clock: int, at: int)
    requires Faithful(table, history, clock) && clock <= at
    ensures Faithful(Pruned(table, at - WINDOW), history, at)
  {
    var table' := Pruned(table, at - WINDOW);
    forall ip, cutoff | cutoff >= at - WINDOW ensures Agrees(table', history, ip, cutoff) {
      assert Agrees(table, history, ip, cutoff);
      assert Times(table', ip) == Recent(Times(table, ip), at - WINDOW);
      RecentTwice(Times(table, ip), at - WINDOW, cutoff);
    }
  }

  lemma TrimmedIsFaithful(table: Table, history: seq<Entry>, clock: int, ip: string, now: int)
    requires Faithful(table, history, clock) && clock <= now
    ensures Faithful(table[ip := Recent(Times(table, ip), now - WINDOW)], history, now)
  {
    var table' := table[ip := Recent(Times(table, ip), now - WINDOW)];
    forall other, cutoff | cutoff >= now - WINDOW ensures Agrees(table', history, other, cutoff) {
      assert Agrees(table, history, other, cutoff);
      RecentTwice(Times(table, other), now - WINDOW, cutoff);
    }
  }

  lemma RecordedIsFaithful(table: Table, history: seq<Entry>, clock: int, ip: string, at: int, admitted: bool)
    requires Faithful(table, history, clock) && clock <= at && ip in table
    ensures var table' := if admitted then table[ip := table[ip] + [at]] else table;
            Faithful(table', history + [Entry(ip, at, admitted)], at)
  {
    var e := Entry(ip, at, admitted);
    var table' := if admitted then table[ip := table[ip] + [at]] else table;
    forall other, cutoff | cutoff >= at - WINDOW ensures Agrees(table', history + [e], other, cutoff) {
      assert Agrees(table, history, other, cutoff);
      AdmittedSnoc(history, e, other);
      RecentSnoc(Times(table, other), at, cutoff);
      RecentSnoc(Admitted(history, other), at, cutoff);
    }
  }

  lemma KeysNoMore<T>(a: map<string, T>, b: map<string, T>)
    requires a.Keys <= b.Keys
    ensures |a| <= |b|
  {
    SubsetSize(a.Keys, b.Keys);
    assert |a| == |a.Keys| && |b| == |b.Keys|;
  }

  lemma OneMoreKey<T>(m: map<string, T>, k: string, v: T)
    ensures |m[k := v]| <= |m| + 1
  {
    assert m[k := v].Keys == m.Keys + {k};
    assert |m[k := v]| == |m[k := v].Keys| && |m| == |m.Keys|;
  }

  // ── Windows ────────────────────────────────────────────────────────

  /** How many of `times` fall in the window that ends at `end`. */
  function InWindow(times: seq<int>, end: int): nat {
    if times == [] then 0
    else
      var before, last := InWindow(times[..|times| - 1], end), times[|times| - 1];
      if end - WINDOW < last <= end then before + 1 else before
  }

  lemma {:induction false} InWindowBound(times: seq<int>, end: int, cutoff: int)
    requires cutoff <= end - WINDOW
    ensures InWindow(times, end) <= |Recent(times, cutoff)|
  {
    if times != [] {
      InWindowBound(times[..|times| - 1], end, cutoff);
    }
  }

  /** Each admission was decided, at or before its time, from the history. */
  ghost predicate Disciplined(history: seq<Entry>) {
    forall k :: 0 <= k < |history| && history[k].admitted ==> FairlyAdmitted(history, k)
  }

  ghost predicate FairlyAdmitted(history: seq<Entry>, k: nat)
    requires k < |history|
  {
    exists now :: now <= history[k].time && Allowed(history[..k], history[k].ip, now)
  }

  lemma DisciplinedSnoc(history: seq<Entry>, e: Entry, now: int)
    requires Disciplined(history) && now <= e.time && (e.admitted ==> Allowed(history, e.ip, now))
    ensures Disciplined(history + [e])
  {
    var all := history + [e];
    forall k | 0 <= k < |all| && all[k].admitted ensures FairlyAdmitted(all, k) {
      if k < |history| {
        assert FairlyAdmitted(history, k);
        assert all[..k] == history[..k];
      } else {
        assert all[..k] == history;
      }
    }
  }

  /** No window of any history decided this way holds more than the limit. */
  lemma {:induction false} WindowHoldsAtMostTheLimit(history: seq<Entry>, ip: string, end: int)
    requires Disciplined(history)
    ensures InWindow(Admitted(history, ip), end) <= 60
  {
    if history != [] {
      var init, e := history[..|history| - 1], history[|history| - 1];
      assert Disciplined(init) by {
        forall k | 0 <= k < |init| && init[k].admitted ensures FairlyAdmitted(init, k) {
          assert FairlyAdmitted(history, k);
          assert history[..k] == init[..k];
        }
      }
      WindowHoldsAtMostTheLimit(init, ip, end);
      if e.ip == ip && e.admitted {
        var times := Admitted(init, ip);
        assert (times + [e.time])[..|times|] == times;
        if end - WINDOW < e.time <= end {
          assert FairlyAdmitted(history, |init|);
          var now :| now <= e.time && Allowed(history[..|init|], e.ip, now);
          InWindowBound(times, end, now - WINDOW);
        }
      }
    }
  }

  // ── Across clears ──────────────────────────────────────────────────

  function Joined(parts: seq<seq<Entry>>): seq<Entry> {
    if parts == [] then [] else Joined(parts[..|parts| - 1]) + parts[|parts| - 1]
  }

  lemma JoinedSnoc(parts: seq<seq<Entry>>, part: seq<Entry>)
    ensures Joined(parts + [part]) == Joined(parts) + part
  {
    assert (parts + [part])[..|parts|] == parts;
  }

  predicate Touches(part: seq<Entry>, end: int) {
    exists e :: e in part && end - WINDOW < e.time <= end
  }

  /** How many of the parts have a request in the window that ends at `end`. */
  function Touched(parts: seq<seq<Entry>>, end: int): nat {
    if parts == [] then 0
    else Touched(parts[..|parts| - 1], end) + if Touches(parts[|parts| - 1], end) then 1 else 0
  }

  lemma {:induction false} InWindowConcat(a: seq<int>, b: seq<int>, end: int)
    ensures InWindow(a + b, end) == InWindow(a, end) + InWindow(b, end)
  {
    if b == [] {
      assert a + b == a;
    } else {
      var init := b[..|b| - 1];
      assert (a + b)[..|a + b| - 1] == a + init;
      InWindowConcat(a, init, end);
    }
  }

  lemma {:induction false} AdmittedConcat(a: seq<Entry>, b: seq<Entry>, ip: string)
    ensures Admitted(a + b, ip) == Admitted(a, ip) + Admitted(b, ip)
  {
    if b == [] {
      assert a + b == a;
    } else {
      var init := b[..|b| - 1];
      assert (a + b)[..|a + b| - 1] == a + init;
      AdmittedConcat(a, init, ip);
    }
  }

  lemma {:induction false} UntouchedIsEmpty(part: seq<Entry>, ip: string, end: int)
    requires !Touches(part, end)
    ensures InWindow(Admitted(part, ip), end) == 0
  {
    if part != [] {
      var init, e := part[..|part| - 1], part[|part| - 1];
      assert part == init + [e] && e in part;
      UntouchedIsEmpty(init, ip, end);
      AdmittedSnoc(init, e, ip);
      var times := Admitted(init, ip);
      assert (times + [e.time])[..|times|] == times;
    }
  }

  /** Whatever clears a window spans, it holds at most the limit for each stretch
      between clears that it touches: twice the limit for one clear. */
  lemma {:induction false} WindowAcrossClears(parts: seq<seq<Entry>>, ip: string, end: int)
    requires forall k :: 0 <= k < |parts| ==> Disciplined(parts[k])
    ensures InWindow(Admitted(Joined(parts), ip), end) <= MAX_PER_IP * Touched(parts, end)
  {
    if parts != [] {
      var init, part := parts[..|parts| - 1], parts[|parts| - 1];
      WindowAcrossClears(init, ip, end);
      AdmittedConcat(Joined(init), part, ip);
      InWindowConcat(Admitted(Joined(init), ip), Admitted(part, ip), end);
      if Touches(part, end) {
        WindowHoldsAtMostTheLimit(part, ip, end);
      } else {
        UntouchedIsEmpty(part, ip, end);
      }
    }
  }

  // ── The limiter in use ─────────────────────────────────────────────

  /** Admissions outside the window do not count. */
  lemma {:induction false} OldDoNotCount(before: seq<Entry>, history: seq<Entry>, ip: string, cutoff: int)
    requires forall e :: e in before ==> e.time <= cutoff
    ensures Recent(Admitted(before + history, ip), cutoff) == Recent(Admitted(history, ip), cutoff)
  {
    if history == [] {
      assert before + history == before;
      AllOld(before, ip, cutoff);
    } else {
      var init, e := history[..|history| - 1], history[|history| - 1];
      OldDoNotCount(before, init, ip, cutoff);
      assert before + history == (before + init) + [e] && history == init + [e];
      AdmittedSnoc(before + init, e, ip);
      AdmittedSnoc(init, e, ip);
      RecentSnoc(Admitted(before + init, ip), e.time, cutoff);
      RecentSnoc(Admitted(init, ip), e.time, cutoff);
    }
  }

  lemma {:induction false} AllOld(before: seq<Entry>, ip: string, cutoff: int)
    requires forall e :: e in before ==> e.time <= cutoff
    ensures Recent(Admitted(before, ip), cutoff) == []
  {
    if before != [] {
      var init, e := before[..|before| - 1], before[|before| - 1];
      AllOld(init, ip, cutoff);
      assert before == init + [e] && e in before;
      AdmittedSnoc(init, e, ip);
      RecentSnoc(Admitted(init, ip), e.time, cutoff);
    }
  }

  lemma AgedDoNotCount(before: seq<Entry>, known: seq<Entry>, clearedAt: int, ip: string, now: int)
    requires before == [] || clearedAt <= now - WINDOW
    requires forall e :: e in before ==> e.time <= clearedAt
    ensures Allowed(before + known, ip, now) <==> Allowed(known, ip, now)
  {
    OldDoNotCount(before, known, ip, now - WINDOW);
  }

  /** Addresses admitted since `cutoff`. */
  function ActiveIps(history: seq<Entry>, cutoff: int): set<string> {
    set e | e in history && e.admitted && e.time > cutoff :: e.ip
  }

  lemma {:induction false} AdmittedSince(history: seq<Entry>, ip: string, cutoff: int)
    ensures Recent(Admitted(history, ip), cutoff) != [] <==> ip in ActiveIps(history, cutoff)
  {
    if history != [] {
      var init, e := history[..|history| - 1], history[|history| - 1];
      AdmittedSince(init, ip, cutoff);
      assert history == init + [e];
      AdmittedSnoc(init, e, ip);
      RecentSnoc(Admitted(init, ip), e.time, cutoff);
      assert ActiveIps(history, cutoff) ==
             ActiveIps(init, cutoff) + if e.admitted && e.time > cutoff then {e.ip} else {};
    }
  }

  /** Pruning leaves exactly the addresses admitted in the window. */
  lemma PrunedIsActive(table: Table, history: seq<Entry>, clock: int, at: int)
    requires Faithful(table, history, clock) && clock <= at
    ensures Pruned(table, at - WINDOW).Keys == ActiveIps(history, at - WINDOW)
  {
    var left, active := Pruned(table, at - WINDOW).Keys, ActiveIps(history, at - WINDOW);
    forall ip ensures ip in left <==> ip in active {
      assert Agrees(table, history, ip, at - WINDOW);
      AdmittedSince(history, ip, at - WINDOW);
    }
  }

  /** The table is cleared: pruning it leaves too many addresses. */
  ghost predicate Overflows(table: Table, pruneAt: int) {
    |Pruned(table, pruneAt - WINDOW)| > MAX_ENTRIES
  }

  /** `history` is what happened since the table was last cleared, at `clearedAt`,
      and `before` what happened until then, in `parts` between clears. */
  class Limiter {
    var table: Table

    ghost var parts: seq<seq<Entry>>
    ghost var before: seq<Entry>
    ghost var clearedAt: int
    ghost var history: seq<Entry>
    ghost var clock: int

    ghost predicate Valid()
      reads this
    {
      && |table| <= MAX_ENTRIES + 1
      && (forall ip :: ip in table ==> |table[ip]| <= MAX_PER_IP)
      && Faithful(table, history, clock) && Disciplined(history)
      && before == Joined(parts) && (forall k :: 0 <= k < |parts| ==> Disciplined(parts[k]))
      && (forall e :: e in history ==> e.time <= clock)
      && (forall e :: e in before ==> e.time <= clearedAt) && (before != [] ==> clearedAt <= clock)
    }

    constructor ()
      ensures Valid() && parts == [] && before == history == [] && table == map[]
    {
      table, history, clock := map[], [], 0;
      parts, before, clearedAt := [], [], 0;
    }

    /** The limiter inside `download`. The clock is read when pruning, when
        deciding and when recording. Decisions are those of everything admitted
        since the table was last cleared, and of everything ever admitted if it
        never was, or a window has passed since. */
    method Download(ip: string, pruneAt: int, now: int, recordAt: int) returns (admitted: bool, ghost known: seq<Entry>)
      requires Valid() && clock <= pruneAt <= now <= recordAt
      modifies this
      ensures Valid() && clock == recordAt
      ensures known == if Overflows(old(table), pruneAt) then [] else old(history)
      ensures before + known == old(before) + old(history) && history == known + [Entry(ip, recordAt, admitted)]
      ensures Overflows(old(table), pruneAt) <==> |ActiveIps(old(history), pruneAt - WINDOW)| > 50_000
      ensures admitted <==> Allowed(known, ip, now)
      ensures before == [] || clearedAt <= now - WINDOW ==> (admitted <==> Allowed(before + known, ip, now))
      ensures clearedAt == if Overflows(old(table), pruneAt) then pruneAt else old(clearedAt)
      ensures parts == if Overflows(old(table), pruneAt) then old(parts) + [old(history)] else old(parts)
      ensures ip in table && |Times(table, ip)| <= MAX_PER_IP
    {
      MakeRoom(pruneAt);
      known := history;
      ghost var aged := before == [] || clearedAt <= now - WINDOW;
      if aged {
        AgedDoNotCount(before, known, clearedAt, ip, now);
      }
      admitted := Decide(ip, now, recordAt);
    }

    /** Prune a table that has grown too large, and clear it if that is not enough. */
    method MakeRoom(pruneAt: int)
      requires Valid() && clock <= pruneAt
      modifies this
      ensures Valid() && old(clock) <= clock <= pruneAt && |table| <= MAX_ENTRIES
      ensures if Overflows(old(table), pruneAt)
              then before == old(before) + old(history) && clearedAt == pruneAt && history == []
              else before == old(before) && clearedAt == old(clearedAt) && history == old(history)
      ensures before + history == old(before) + old(history)
      ensures parts == if Overflows(old(table), pruneAt) then old(parts) + [old(history)] else old(parts)
      ensures Overflows(old(table), pruneAt) <==> |ActiveIps(old(history), pruneAt - WINDOW)| > 50_000
    {
      PrunedIsActive(table, history, clock, pruneAt);
      KeysNoMore(Pruned(table, pruneAt - WINDOW), table);
      if |table| > MAX_ENTRIES {
        Prune(pruneAt);
        if |table| > MAX_ENTRIES {
          Clear(pruneAt);
        }
      }
    }

    method Clear(ghost at: int)
      requires Valid() && clock == at
      modifies this`table, this`parts, this`before, this`clearedAt, this`history
      ensures Valid() && table == map[] && history == [] && clearedAt == at
      ensures before == old(before) + old(history) && parts == old(parts) + [old(history)]
    {
      forall e | e in before + history ensures e.time <= at {
        assert e in before || e in history;
      }
      JoinedSnoc(parts, history);
      table := map[];
      parts, before, clearedAt, history := parts + [history], before + history, at, [];
    }

    /** However often the table has been cleared, a window of everything ever
        admitted holds at most the limit for each stretch it touches. */
    lemma AnyWindow(ip: string, end: int)
      requires Valid()
      ensures InWindow(Admitted(before + history, ip), end) <= MAX_PER_IP * Touched(parts + [history], end)
    {
      JoinedSnoc(parts, history);
      WindowAcrossClears(parts + [history], ip, end);
    }

    method Prune(at: int)
      requires Valid() && clock <= at
      modifies this`table, this`clock
      ensures Valid() && clock == at
      ensures table == Pruned(old(table), at - WINDOW)
    {
      PrunedIsFaithful(table, history, clock, at);
      var table' := Pruned(table, at - WINDOW);
      KeysNoMore(table', table);
      table := table';
      clock := at;
    }

    /** Trim this address's list, and record the request if there is room. */
    method Decide(ip: string, now: int, recordAt: int) returns (admitted: bool)
      requires Valid() && clock <= now <= recordAt && |table| <= MAX_ENTRIES
      modifies this`table, this`history, this`clock
      ensures Valid() && clock == recordAt
      ensures history == old(history) + [Entry(ip, recordAt, admitted)]
      ensures admitted <==> Allowed(old(history), ip, now)
      ensures ip in table && |Times(table, ip)| <= MAX_PER_IP
    {
      var attempts := Recent(Times(table, ip), now - WINDOW);
      assert Agrees(table, history, ip, now - WINDOW);
      TrimmedIsFaithful(table, history, clock, ip, now);
      OneMoreKey(table, ip, attempts);
      table := table[ip := attempts];
      admitted := |attempts| < MAX_PER_IP;
      RecordedIsFaithful(table, history, now, ip, recordAt, admitted);
      DisciplinedSnoc(history, Entry(ip, recordAt, admitted), now);
      if admitted {
        var table' := table[ip := attempts + [recordAt]];
        assert table'.Keys == table.Keys;
        KeysNoMore(table', table);
        table := table';
      }
      history := history + [Entry(ip, recordAt, admitted)];
      clock := recordAt;
    }
  }
}
