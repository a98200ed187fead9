/** SSH host-key trust: what a connection's stored keys make a session accept,
    and how a first key gets pinned when any number of sessions race. */
module HostKeys {
  import opened Text

  // ── Reading the stored parameters ──────────────────────────────────

  datatype Mode = Pinned | TrustOnFirstUse | Unverified

  /** `HostKeyMode::from_param`; anything unrecognised fails closed. */
  function ModeOf(param: string): Mode {
    var v := Lower(Trim(param));
    if v == "tofu" then TrustOnFirstUse else if v == "none" then Unverified else Pinned
  }

  /** `str::split`. */
  function Split(s: string, c: char): (r: seq<string>)
    ensures r != []
    decreases |s|
  {
    var k := Find(s, {c});
    if k == |s| then [s] else [s[..k]] + Split(s[k + 1..], c)
  }

  /** `str::lines`. */
  function Lines(s: string): seq<string>
    decreases |s|
  {
    if s == "" then []
    else
      var k := Find(s, {'\n'});
      var line := if 0 < k && s[k - 1] == '\r' then s[..k - 1] else s[..k];
      [line] + (if k == |s| then [] else Lines(s[k + 1..]))
  }

  function SplitEach(lines: seq<string>): seq<string> {
    if lines == [] then [] else Split(lines[0], ',') + SplitEach(lines[1..])
  }

  function FilterMap(fp: string -> Option<string>, parts: seq<string>): seq<string> {
    if parts == [] then []
    else (if fp(parts[0]).Some? then [fp(parts[0]).value] else []) + FilterMap(fp, parts[1..])
  }

  /** `filter(p)` after `map(trim)`. */
  function TrimmedWhere(p: string -> bool, parts: seq<string>): seq<string> {
    if parts == [] then []
    else (if p(Trim(parts[0])) then [Trim(parts[0])] else []) + TrimmedWhere(p, parts[1..])
  }

  predicate NonEmpty(s: string) {
    s != ""
  }

  predicate IsSha256(s: string) {
    "SHA256:" <= s
  }

  /** Fingerprints of the OpenSSH keys listed in `raw`. */
  function KeyFingerprints(fp: string -> Option<string>, raw: string): seq<string> {
    FilterMap(fp, SplitEach(Lines(raw)))
  }

  /** The stored parameters that decide trust; a missing one is empty. */
  datatype Params = Params(policy: string, fingerprints: string, key: string)

  /** `host_key_fingerprints`. */
  function Pins(fp: string -> Option<string>, p: Params): seq<string> {
    var explicit := TrimmedWhere(NonEmpty, Split(p.fingerprints, ','));
    if explicit != [] then explicit else KeyFingerprints(fp, p.key)
  }

  datatype Policy = Fingerprints(allowed: seq<string>) | AcceptAny

  predicate Accepts(policy: Policy, fingerprint: string) {
    policy.AcceptAny? || fingerprint in policy.allowed
  }

  /** `session_host_key_policy`. */
  function SessionPolicy(fp: string -> Option<string>, p: Params): Policy {
    var pins := Pins(fp, p);
    match ModeOf(p.policy)
    case Unverified => AcceptAny
    case TrustOnFirstUse => if pins == [] then AcceptAny else Fingerprints(pins)
    case Pinned => Fingerprints(pins)
  }

  /** A key a server presented, and how it renders in OpenSSH form. */
  datatype HostKey = HostKey(fingerprint: string, publicKey: string)

  /** The rendering is one line naming one key: the one presented. */
  predicate Genuine(fp: string -> Option<string>, k: HostKey) {
    && k.publicKey != ""
    && fp(k.publicKey) == Some(k.fingerprint)
    && ',' !in k.publicKey && '\n' !in k.publicKey && '\r' !in k.publicKey
  }

  // ── Sessions ───────────────────────────────────────────────────────

  /** A session has read its parameters, or connected and accepted a key. */
  datatype Session = Opened(params: Params) | Connected(params: Params, key: HostKey)

  datatype Event =
    | KeyPinned(fingerprint: string)
    | KeyUnverified(fingerprint: string)
    | KeyApproved(fingerprint: string)

  datatype State = State(stored: Params, sessions: map<nat, Session>, audit: seq<Event>)

  datatype Action =
    | Open(id: nat)
    | Connect(id: nat, key: HostKey)
    | Record(id: nat)
    | Approve(text: string)

  predicate Enabled(fp: string -> Option<string>, s: State, a: Action) {
    match a
    case Open(id) => id !in s.sessions
    case Connect(id, key) =>
      id in s.sessions && s.sessions[id].Opened? && Accepts(SessionPolicy(fp, s.sessions[id].params), key.fingerprint)
    case Record(id) => id in s.sessions && s.sessions[id].Connected?
    case Approve(text) => fp(text).Some?
  }

  /** `pin_first_host_key` matches a row only while both columns are empty. */
  predicate Unset(stored: Params) {
    stored.key == "" && stored.fingerprints == ""
  }

  /** `record_host_key`. */
  function Recorded(fp: string -> Option<string>, s: State, params: Params, key: HostKey): State {
    match ModeOf(params.policy)
    case Pinned => s
    case Unverified => s.(audit := s.audit + [KeyUnverified(key.fingerprint)])
    case TrustOnFirstUse =>
      if Pins(fp, params) == [] && Unset(s.stored) then
        s.(stored := s.stored.(key := key.publicKey), audit := s.audit + [KeyPinned(key.fingerprint)])
      else s
  }

  function Next(fp: string -> Option<string>, s: State, a: Action): State
    requires Enabled(fp, s, a)
  {
    match a
    case Open(id) => s.(sessions := s.sessions[id := Opened(s.stored)])
    case Connect(id, key) => s.(sessions := s.sessions[id := Connected(s.sessions[id].params, key)])
    case Record(id) =>
      var c := s.sessions[id];
      Recorded(fp, s, c.params, c.key).(sessions := s.sessions - {id})
    case Approve(text) =>
      s.(stored := s.stored.(key := Trim(text)), audit := s.audit + [KeyApproved(fp(text).value)])
  }

  ghost predicate Run(fp: string -> Option<string>, states: seq<State>, actions: seq<Action>) {
    && |states| == |actions| + 1 && states[0].sessions == map[] && states[0].audit == []
    && forall k :: 0 <= k < |actions| ==> Enabled(fp, states[k], actions[k]) &&
                                          states[k + 1] == Next(fp, states[k], actions[k])
  }

  /** A run without an administrator's approval. */
  ghost predicate Unapproved(fp: string -> Option<string>, states: seq<State>, actions: seq<Action>) {
    Run(fp, states, actions) && forall k :: 0 <= k < |actions| ==> !actions[k].Approve?
  }

  /** Such a run in which every key accepted is `ok`, which no key that renders as
      nothing is. */
  ghost predicate SessionRun(fp: string -> Option<string>, ok: HostKey -> bool, states: seq<State>,
                             actions: seq<Action>) {
    && Unapproved(fp, states, actions) && Rendered(ok)
    && forall k :: 0 <= k < |actions| && actions[k].Connect? ==> ok(actions[k].key)
  }

  ghost predicate Rendered(ok: HostKey -> bool) {
    forall k :: ok(k) ==> k.publicKey != ""
  }

  function PinnedEvents(audit: seq<Event>): seq<string> {
    if audit == [] then []
    else
      var last := audit[|audit| - 1];
      PinnedEvents(audit[..|audit| - 1]) + if last.KeyPinned? then [last.fingerprint] else []
  }

  lemma PinnedEventsSnoc(audit: seq<Event>, e: Event)
    ensures PinnedEvents(audit + [e]) == PinnedEvents(audit) + if e.KeyPinned? then [e.fingerprint] else []
  {
    assert (audit + [e])[..|audit|] == audit;
  }

  // ── What a stored key makes a session accept ───────────────────────

  lemma NoCut(s: string, c: char)
    requires c !in s
    ensures Split(s, c) == [s]
  {
    FindUnique(s, {c}, |s|);
  }

  lemma OneLine(s: string)
    requires s != "" && '\n' !in s && '\r' !in s
    ensures Lines(s) == [s]
  {
    FindUnique(s, {'\n'}, |s|);
    assert s[..|s|] == s;
  }

  /** What a stored rendering on one line pins. */
  lemma RenderingPins(fp: string -> Option<string>, p: Params)
    requires p.fingerprints == "" && ',' !in p.key && '\n' !in p.key && '\r' !in p.key
    ensures Pins(fp, p) == if p.key != "" && fp(p.key).Some? then [fp(p.key).value] else []
  {
    NoCut("", ',');
    assert TrimmedWhere(NonEmpty, [""]) == [] + TrimmedWhere(NonEmpty, []);
    if p.key == "" {
      assert KeyFingerprints(fp, "") == FilterMap(fp, []);
    } else {
      OneLine(p.key);
      NoCut(p.key, ',');
      assert SplitEach([p.key]) == [p.key] + SplitEach([]);
      assert FilterMap(fp, [p.key]) == (if fp(p.key).Some? then [fp(p.key).value] else []) + FilterMap(fp, []);
    }
  }

  /** A stored genuine key pins exactly its own fingerprint. */
  lemma GenuineKeyPins(fp: string -> Option<string>, p: Params, k: HostKey)
    requires Genuine(fp, k) && p.fingerprints == "" && p.key == k.publicKey
    ensures Pins(fp, p) == [k.fingerprint]
    ensures Says(p.policy, "tofu") ==> SessionPolicy(fp, p) == Fingerprints([k.fingerprint])
  {
    RenderingPins(fp, p);
    ModeByText(p.policy);
  }

  /** Which connections accept any key. */
  lemma AcceptsAnyIff(fp: string -> Option<string>, p: Params)
    ensures SessionPolicy(fp, p) == AcceptAny
       <==> Says(p.policy, "none") || (Says(p.policy, "tofu") && Pins(fp, p) == [])
  {
    ModeByText(p.policy);
  }

  // ── What a policy's text means ─────────────────────────────────────

  /** The text, less the white space around it, is `word` in any letter case. */
  predicate Says(text: string, word: string) {
    AnyCase(Trim(text), word)
  }

  lemma SaysIff(text: string, word: string)
    requires forall j :: 0 <= j < |word| ==> 'a' <= word[j] <= 'z'
    ensures Says(text, word) <==> Lower(Trim(text)) == word
  {
    AnyCaseIff(Trim(text), word);
  }

  lemma ModeByText(text: string)
    ensures ModeOf(text) == TrustOnFirstUse <==> Says(text, "tofu")
    ensures ModeOf(text) == Unverified <==> Says(text, "none")
  {
    SaysIff(text, "tofu");
    SaysIff(text, "none");
  }

  /** What a session accepts: any key under `none`; under `tofu` any key while none
      is pinned; otherwise, whatever the text is or if there is none, only the
      keys pinned. */
  lemma PolicyByText(fp: string -> Option<string>, p: Params, fingerprint: string)
    ensures Accepts(SessionPolicy(fp, p), fingerprint) <==>
              || fingerprint in Pins(fp, p)
              || Says(p.policy, "none")
              || (Says(p.policy, "tofu") && Pins(fp, p) == [])
  {
    ModeByText(p.policy);
  }

  /** The policy is a setting no session and no approval of a key touches, and
      sessions go by what the row was when they read it. */
  ghost predicate PolicyKept(initial: Params, s: State) {
    && s.stored.policy == initial.policy && s.stored.fingerprints == initial.fingerprints
    && forall id :: id in s.sessions ==> s.sessions[id].params.policy == initial.policy
  }

  lemma StepKeepsPolicy(fp: string -> Option<string>, initial: Params, s: State, a: Action)
    requires Enabled(fp, s, a)
    ensures PolicyKept(initial, s) ==> PolicyKept(initial, Next(fp, s, a))
  {
  }

  lemma {:induction false} RunKeepsPolicy(fp: string -> Option<string>, states: seq<State>, actions: seq<Action>,
                                          k: nat)
    requires Run(fp, states, actions) && k < |states|
    ensures PolicyKept(states[0].stored, states[k])
  {
    if k > 0 {
      RunKeepsPolicy(fp, states, actions, k - 1);
      StepKeepsPolicy(fp, states[0].stored, states[k - 1], actions[k - 1]);
    }
  }

  /** Failing closed: in every run on a connection whose policy is neither `tofu`
      nor `none`, as one that has none, a session connects only to a key pinned
      in what it read, and the row and the audit change only by approvals. */
  lemma ClosedUnlessOpened(fp: string -> Option<string>, states: seq<State>, actions: seq<Action>, k: nat)
    requires Run(fp, states, actions) && k < |actions|
    ensures var policy := states[0].stored.policy;
            || Says(policy, "tofu") || Says(policy, "none")
            || (&& (actions[k].Connect? ==>
                      actions[k].key.fingerprint in Pins(fp, states[k].sessions[actions[k].id].params))
                && (!actions[k].Approve? ==>
                      states[k + 1].stored == states[k].stored && states[k + 1].audit == states[k].audit))
  {
    RunKeepsPolicy(fp, states, actions, k);
    ModeByText(states[0].stored.policy);
    if actions[k].Connect? {
      PolicyByText(fp, states[k].sessions[actions[k].id].params, actions[k].key.fingerprint);
    }
  }

  /** Under `none` every key may connect, the row never changes but by approvals,
      and each recorded session is audited as unverified. */
  lemma UnverifiedIsAudited(fp: string -> Option<string>, states: seq<State>, actions: seq<Action>, k: nat)
    requires Run(fp, states, actions) && k < |actions| && Says(states[0].stored.policy, "none")
    ensures forall id, key :: id in states[k].sessions && states[k].sessions[id].Opened? ==>
              Enabled(fp, states[k], Connect(id, key))
    ensures !actions[k].Approve? ==> states[k + 1].stored == states[k].stored
    ensures actions[k].Record? ==>
              var key := states[k].sessions[actions[k].id].key;
              states[k + 1].audit == states[k].audit + [KeyUnverified(key.fingerprint)]
    ensures !actions[k].Approve? && !actions[k].Record? ==> states[k + 1].audit == states[k].audit
  {
    RunKeepsPolicy(fp, states, actions, k);
    ModeByText(states[0].stored.policy);
  }

  /** An approval stores the key and is audited; sessions that read the row after
      it are held to that key, and those before it to what they read. */
  lemma ApprovalHolds(fp: string -> Option<string>, s: State, text: string, fingerprint: string)
    requires fp(text) == fp(Trim(text)) == Some(fingerprint) && Enabled(fp, s, Approve(text))
    requires Trim(text) != "" && ',' !in Trim(text) && '\n' !in Trim(text) && '\r' !in Trim(text)
    requires s.stored.fingerprints == ""
    ensures var s' := Next(fp, s, Approve(text));
            && Pins(fp, s'.stored) == [fingerprint] && s'.audit == s.audit + [KeyApproved(fingerprint)]
            && s'.sessions == s.sessions
  {
    RenderingPins(fp, s.stored.(key := Trim(text)));
  }

  // ── What the lists name ────────────────────────────────────────────

  function Join(parts: seq<string>, c: char): string
    requires parts != []
  {
    if |parts| == 1 then parts[0] else parts[0] + [c] + Join(parts[1..], c)
  }

  /** Splitting undoes joining, for any text and any parts. */
  lemma {:induction false} JoinOfSplit(s: string, c: char)
    ensures Join(Split(s, c), c) == s
    ensures forall part :: part in Split(s, c) ==> c !in part
    decreases |s|
  {
    var k := Find(s, {c});
    if k < |s| {
      var rest := Split(s[k + 1..], c);
      JoinOfSplit(s[k + 1..], c);
      assert ([s[..k]] + rest)[1..] == rest;
      assert s == s[..k] + [c] + s[k + 1..];
    }
  }

  lemma SplitCut(part: string, c: char, rest: string)
    requires c !in part
    ensures Split(part + [c] + rest, c) == [part] + Split(rest, c)
  {
    var s := part + [c] + rest;
    assert forall j :: 0 <= j < |part| ==> s[j] == part[j];
    FindUnique(s, {c}, |part|);
    assert s[..|part|] == part && s[|part| + 1..] == rest;
  }

  lemma {:induction false} SplitOfJoin(parts: seq<string>, c: char)
    requires parts != [] && forall part :: part in parts ==> c !in part
    ensures Split(Join(parts, c), c) == parts
  {
    var s := Join(parts, c);
    assert parts[0] in parts;
    if |parts| == 1 {
      FindUnique(s, {c}, |s|);
      assert parts == [parts[0]];
    } else {
      assert forall part :: part in parts[1..] ==> part in parts;
      SplitOfJoin(parts[1..], c);
      SplitCut(parts[0], c, Join(parts[1..], c));
      assert parts == [parts[0]] + parts[1..];
    }
  }

  /** Lines, each with its ending: a line feed, or with a carriage return. */
  function Ended(lines: seq<string>, crlf: seq<bool>): string
    requires |crlf| == |lines|
  {
    if lines == [] then "" else lines[0] + (if crlf[0] then "\r\n" else "\n") + Ended(lines[1..], crlf[1..])
  }

  /** Lines read back whichever way each was ended. */
  lemma {:induction false} LinesOfEnded(lines: seq<string>, crlf: seq<bool>)
    requires |crlf| == |lines|
    requires forall line :: line in lines ==> '\n' !in line && '\r' !in line
    ensures Lines(Ended(lines, crlf)) == lines
  {
    if lines != [] {
      var line, rest := lines[0], Ended(lines[1..], crlf[1..]);
      assert line in lines && forall l :: l in lines[1..] ==> l in lines;
      LinesOfEnded(lines[1..], crlf[1..]);
      OneEnded(line, crlf[0], rest);
      assert lines == [line] + lines[1..];
    }
  }

  lemma OneEnded(line: string, crlf: bool, rest: string)
    requires '\n' !in line && '\r' !in line
    ensures Lines(line + (if crlf then "\r\n" else "\n") + rest) == [line] + Lines(rest)
  {
    var head := if crlf then line + "\r" else line;
    assert line + (if crlf then "\r\n" else "\n") + rest == head + "\n" + rest;
    LineCut(head, rest);
    if crlf {
      assert head[..|head| - 1] == line;
    } else if line != "" {
      assert line[|line| - 1] in line;
    }
  }

  lemma LineCut(head: string, rest: string)
    requires '\n' !in head
    ensures var line := if head != "" && head[|head| - 1] == '\r' then head[..|head| - 1] else head;
            Lines(head + "\n" + rest) == [line] + Lines(rest)
  {
    var s := head + "\n" + rest;
    assert forall j :: 0 <= j < |head| ==> s[j] == head[j];
    FindUnique(s, {'\n'}, |head|);
    assert s[..|head|] == head && s[|head| + 1..] == rest;
    if head != "" {
      assert s[..|head| - 1] == head[..|head| - 1];
    }
  }

  predicate TrimsTo(parts: seq<string>, f: string) {
    exists part :: part in parts && Trim(part) == f
  }

  lemma {:induction false} InTrimmedWhere(p: string -> bool, parts: seq<string>, f: string)
    ensures f in TrimmedWhere(p, parts) <==> p(f) && TrimsTo(parts, f)
  {
    if parts != [] {
      InTrimmedWhere(p, parts[1..], f);
      assert forall part :: part in parts <==> part == parts[0] || part in parts[1..];
    }
  }

  lemma {:induction false} InFilterMap(fp: string -> Option<string>, parts: seq<string>, f: string)
    ensures f in FilterMap(fp, parts) <==> exists part :: part in parts && fp(part) == Some(f)
  {
    if parts != [] {
      InFilterMap(fp, parts[1..], f);
      assert forall part :: part in parts <==> part == parts[0] || part in parts[1..];
    }
  }

  lemma {:induction false} InSplitEach(lines: seq<string>, part: string)
    ensures part in SplitEach(lines) <==> exists line :: line in lines && part in Split(line, ',')
  {
    if lines != [] {
      var first, rest := lines[0], lines[1..];
      InSplitEach(rest, part);
      assert part in SplitEach(lines) <==> part in Split(first, ',') || part in SplitEach(rest);
      assert first in lines && forall line :: line in rest ==> line in lines;
      if exists line :: line in lines && part in Split(line, ',') {
        var line :| line in lines && part in Split(line, ',');
        assert line == first || line in rest;
      }
    }
  }

  /** Some line of `raw` has, between commas, a key with this fingerprint. */
  ghost predicate NamesKey(fp: string -> Option<string>, raw: string, f: string) {
    exists line, part :: line in Lines(raw) && part in Split(line, ',') && fp(part) == Some(f)
  }

  /** Some part of `raw` between commas is this text, less white space. */
  ghost predicate ListsText(raw: string, f: string) {
    exists part :: part in Split(raw, ',') && Trim(part) == f
  }

  lemma InKeyFingerprints(fp: string -> Option<string>, raw: string, f: string)
    ensures f in KeyFingerprints(fp, raw) <==> NamesKey(fp, raw, f)
  {
    InFilterMap(fp, SplitEach(Lines(raw)), f);
    if f in KeyFingerprints(fp, raw) {
      var part :| part in SplitEach(Lines(raw)) && fp(part) == Some(f);
      InSplitEach(Lines(raw), part);
    }
    if NamesKey(fp, raw, f) {
      var line, part :| line in Lines(raw) && part in Split(line, ',') && fp(part) == Some(f);
      InSplitEach(Lines(raw), part);
      assert part in SplitEach(Lines(raw));
    }
  }

  lemma ListedOr(fp: string -> Option<string>, p: string -> bool, raw: string, other: string, f: string)
    ensures var explicit := TrimmedWhere(p, Split(raw, ','));
            f in (if explicit != [] then explicit else KeyFingerprints(fp, other)) <==>
            if exists g :: p(g) && ListsText(raw, g) then p(f) && ListsText(raw, f) else NamesKey(fp, other, f)
  {
    var explicit := TrimmedWhere(p, Split(raw, ','));
    InTrimmedWhere(p, Split(raw, ','), f);
    InKeyFingerprints(fp, other, f);
    if explicit != [] {
      InTrimmedWhere(p, Split(raw, ','), explicit[0]);
      assert explicit[0] in explicit;
    }
    if exists g :: p(g) && ListsText(raw, g) {
      var g :| p(g) && ListsText(raw, g);
      InTrimmedWhere(p, Split(raw, ','), g);
    }
  }

  /** What a connection pins: the fingerprints it lists, if it lists any; failing
      that, those of the keys it names, on any of its lines. */
  lemma PinsMean(fp: string -> Option<string>, p: Params, f: string)
    ensures f in Pins(fp, p) <==>
            if exists g :: g != "" && ListsText(p.fingerprints, g) then f != "" && ListsText(p.fingerprints, f)
            else NamesKey(fp, p.key, f)
  {
    ListedOr(fp, NonEmpty, p.fingerprints, p.key, f);
    assert forall g :: NonEmpty(g) <==> g != "";
  }

  // ── Trust on first use ─────────────────────────────────────────────

  /** Nothing pinned yet, or one key pinned with one event. */
  ghost predicate PinInv(ok: HostKey -> bool, initial: Params, stored: Params, audit: seq<Event>) {
    && (stored == initial ==> PinnedEvents(audit) == [])
    && (stored != initial ==> exists k :: ok(k) && stored == initial.(key := k.publicKey) &&
                                          PinnedEvents(audit) == [k.fingerprint])
  }

  /** Sessions have read the row as it started or as it is. */
  ghost predicate Inv(ok: HostKey -> bool, initial: Params, s: State) {
    && PinInv(ok, initial, s.stored, s.audit)
    && (forall id :: id in s.sessions ==> s.sessions[id].params in {initial, s.stored})
    && (forall id :: id in s.sessions && s.sessions[id].Connected? ==> ok(s.sessions[id].key))
  }

  /** A session's record pins its own key over nothing, or leaves the row. */
  lemma RecordedKeepsPin(fp: string -> Option<string>, ok: HostKey -> bool, initial: Params, s: State,
                         params: Params, key: HostKey)
    requires Rendered(ok) && Unset(initial) && PinInv(ok, initial, s.stored, s.audit) && ok(key)
    ensures var s' := Recorded(fp, s, params, key);
            && PinInv(ok, initial, s'.stored, s'.audit)
            && (s.stored != initial ==> s'.stored == s.stored)
  {
    var s' := Recorded(fp, s, params, key);
    if s'.stored != s.stored {
      PinnedEventsSnoc(s.audit, KeyPinned(key.fingerprint));
      assert s'.stored == initial.(key := key.publicKey);
    } else if s'.audit != s.audit {
      PinnedEventsSnoc(s.audit, KeyUnverified(key.fingerprint));
    }
  }

  lemma StepKeepsInv(fp: string -> Option<string>, ok: HostKey -> bool, initial: Params, s: State, a: Action)
    requires Rendered(ok) && Unset(initial) && Inv(ok, initial, s) && Enabled(fp, s, a)
    requires !a.Approve? && (a.Connect? ==> ok(a.key))
    ensures Inv(ok, initial, Next(fp, s, a))
    ensures s.stored != initial ==> Next(fp, s, a).stored == s.stored
  {
    if a.Record? {
      var c := s.sessions[a.id];
      RecordedKeepsPin(fp, ok, initial, s, c.params, c.key);
    }
  }

  lemma {:induction false} RunKeepsInv(fp: string -> Option<string>, ok: HostKey -> bool, states: seq<State>,
                                       actions: seq<Action>, k: nat)
    requires SessionRun(fp, ok, states, actions) && k < |states| && Unset(states[0].stored)
    ensures Inv(ok, states[0].stored, states[k])
  {
    if k > 0 {
      RunKeepsInv(fp, ok, states, actions, k - 1);
      StepKeepsInv(fp, ok, states[0].stored, states[k - 1], actions[k - 1]);
    }
  }

  /** However many sessions race, at most one key is pinned, with exactly one
      audit event naming it. */
  lemma OnePinAtMost(fp: string -> Option<string>, ok: HostKey -> bool, states: seq<State>, actions: seq<Action>,
                     k: nat)
    requires SessionRun(fp, ok, states, actions) && k < |states| && Unset(states[0].stored)
    ensures || (states[k].stored == states[0].stored && PinnedEvents(states[k].audit) == [])
            || exists key :: ok(key) && states[k].stored == states[0].stored.(key := key.publicKey)
                             && PinnedEvents(states[k].audit) == [key.fingerprint]
  {
    RunKeepsInv(fp, ok, states, actions, k);
  }

  /** What a step does to the stored row and to each session's reading of it. */
  ghost predicate Follows(initial: Params, s: State, s': State) {
    && (s.stored != initial ==> s'.stored == s.stored)
    && forall id :: id in s'.sessions ==>
         s'.sessions[id].params == if id in s.sessions then s.sessions[id].params else s.stored
  }

  ghost predicate Chain(states: seq<State>) {
    forall k :: 0 < k < |states| ==> Follows(states[0].stored, states[k - 1], states[k])
  }

  lemma StepFollows(fp: string -> Option<string>, ok: HostKey -> bool, initial: Params, s: State, a: Action)
    requires Rendered(ok) && Unset(initial) && Inv(ok, initial, s) && Enabled(fp, s, a)
    requires !a.Approve? && (a.Connect? ==> ok(a.key))
    ensures Follows(initial, s, Next(fp, s, a))
  {
    StepKeepsInv(fp, ok, initial, s, a);
  }

  lemma RunIsChain(fp: string -> Option<string>, ok: HostKey -> bool, states: seq<State>, actions: seq<Action>)
    requires SessionRun(fp, ok, states, actions) && Unset(states[0].stored)
    ensures Chain(states)
  {
    forall k | 0 < k < |states| ensures Follows(states[0].stored, states[k - 1], states[k]) {
      RunKeepsInv(fp, ok, states, actions, k - 1);
      StepFollows(fp, ok, states[0].stored, states[k - 1], actions[k - 1]);
    }
  }

  lemma {:induction false} ChainKeepsPin(states: seq<State>, j: nat, k: nat)
    requires Chain(states) && j <= k < |states| && states[j].stored != states[0].stored
    ensures states[k].stored == states[j].stored
  {
    if j < k {
      ChainKeepsPin(states, j, k - 1);
    }
  }

  lemma {:induction false} ChainReads(states: seq<State>, j: nat, k: nat, id: nat)
    requires Chain(states) && j <= k < |states| && states[j].stored != states[0].stored
    requires id !in states[j].sessions && id in states[k].sessions
    ensures states[k].sessions[id].params == states[j].stored
  {
    if id in states[k - 1].sessions {
      ChainReads(states, j, k - 1, id);
    } else {
      ChainKeepsPin(states, j, k - 1);
    }
  }

  /** Once pinned, no session step changes the key. */
  lemma PinIsStable(fp: string -> Option<string>, ok: HostKey -> bool, states: seq<State>, actions: seq<Action>,
                    j: nat, k: nat)
    requires SessionRun(fp, ok, states, actions) && j <= k < |states| && Unset(states[0].stored)
    requires states[j].stored != states[0].stored
    ensures states[k].stored == states[j].stored
  {
    RunIsChain(fp, ok, states, actions);
    ChainKeepsPin(states, j, k);
  }

  lemma SetKeyStays(fp: string -> Option<string>, s: State, a: Action)
    requires Enabled(fp, s, a) && !a.Approve? && !Unset(s.stored)
    ensures Next(fp, s, a).stored == s.stored
  {
  }

  /** In any run at all, whatever the keys presented, a stored key that is not
      empty changes only by an administrator's approval. */
  lemma {:induction false} OnlyApprovalReplacesAKey(fp: string -> Option<string>, states: seq<State>,
                                                    actions: seq<Action>, j: nat, k: nat)
    requires Run(fp, states, actions) && j <= k < |states| && !Unset(states[j].stored)
    requires forall i :: j <= i < k ==> !actions[i].Approve?
    ensures states[k].stored == states[j].stored
  {
    if j < k {
      OnlyApprovalReplacesAKey(fp, states, actions, j, k - 1);
      SetKeyStays(fp, states[k - 1], actions[k - 1]);
    }
  }

  lemma PinnedKey(fp: string -> Option<string>, ok: HostKey -> bool, states: seq<State>, actions: seq<Action>, j: nat)
    returns (key: HostKey)
    requires SessionRun(fp, ok, states, actions) && j < |states| && Unset(states[0].stored)
    requires states[j].stored != states[0].stored
    ensures ok(key) && states[j].stored == states[0].stored.(key := key.publicKey)
  {
    RunKeepsInv(fp, ok, states, actions, j);
    key :| ok(key) && states[j].stored == states[0].stored.(key := key.publicKey);
  }

  /** A session whose parameters were read after the pin accepts that key and
      no other. */
  lemma LaterSessionsAcceptOnlyThePin(fp: string -> Option<string>, ok: HostKey -> bool, states: seq<State>,
                                      actions: seq<Action>, j: nat, k: nat, id: nat)
    requires SessionRun(fp, ok, states, actions) && j <= k < |states| && Unset(states[0].stored)
    requires states[j].stored != states[0].stored && id !in states[j].sessions && id in states[k].sessions
    requires forall key :: ok(key) ==> Genuine(fp, key)
    requires Says(states[0].stored.policy, "tofu")
    ensures exists key :: Genuine(fp, key) && states[j].stored.key == key.publicKey
                          && SessionPolicy(fp, states[k].sessions[id].params) == Fingerprints([key.fingerprint])
  {
    RunIsChain(fp, ok, states, actions);
    ChainReads(states, j, k, id);
    var key := PinnedKey(fp, ok, states, actions, j);
    GenuineKeyPins(fp, states[j].stored, key);
  }

  // ── When nothing can be pinned ─────────────────────────────────────

  /** A first-use connection that accepts any key pins the next one recorded
      exactly when both stored texts are empty. */
  lemma PinsNextKeyIff(fp: string -> Option<string>, s: State, id: nat)
    requires id in s.sessions && s.sessions[id].Connected? && s.sessions[id].params == s.stored
    requires Says(s.stored.policy, "tofu") && SessionPolicy(fp, s.stored) == AcceptAny
    ensures var s' := Next(fp, s, Record(id));
            (|PinnedEvents(s'.audit)| > |PinnedEvents(s.audit)| <==> Unset(s.stored))
  {
    var key := s.sessions[id].key;
    ModeByText(s.stored.policy);
    AcceptsAnyIff(fp, s.stored);
    PinnedEventsSnoc(s.audit, KeyPinned(key.fingerprint));
  }

  /** With stored text that names no key, every session of every run accepts
      any key, and nothing is ever pinned or recorded. */
  lemma UnreadableKeyStaysOpen(fp: string -> Option<string>, states: seq<State>, actions: seq<Action>, k: nat)
    requires Unapproved(fp, states, actions) && k < |states|
    requires var p := states[0].stored; Says(p.policy, "tofu") && Pins(fp, p) == [] && !Unset(p)
    ensures states[k].stored == states[0].stored && states[k].audit == []
    ensures forall id :: id in states[k].sessions ==> SessionPolicy(fp, states[k].sessions[id].params) == AcceptAny
  {
    UnreadableSessions(fp, states, actions, k);
    AcceptsAnyIff(fp, states[0].stored);
  }

  lemma {:induction false} UnreadableSessions(fp: string -> Option<string>, states: seq<State>, actions: seq<Action>,
                                              k: nat)
    requires Unapproved(fp, states, actions) && k < |states|
    requires var p := states[0].stored; Says(p.policy, "tofu") && Pins(fp, p) == [] && !Unset(p)
    ensures states[k].stored == states[0].stored && states[k].audit == []
    ensures forall id :: id in states[k].sessions ==> states[k].sessions[id].params == states[0].stored
  {
    if k > 0 {
      UnreadableSessions(fp, states, actions, k - 1);
      UnreadableStep(fp, states[0].stored, states[k - 1], actions[k - 1]);
    }
  }

  lemma UnreadableStep(fp: string -> Option<string>, p: Params, s: State, a: Action)
    requires Says(p.policy, "tofu") && Pins(fp, p) == [] && !Unset(p)
    requires s.stored == p && s.audit == [] && forall id :: id in s.sessions ==> s.sessions[id].params == p
    requires Enabled(fp, s, a) && !a.Approve?
    ensures var s' := Next(fp, s, a);
            s'.stored == p && s'.audit == [] && forall id :: id in s'.sessions ==> s'.sessions[id].params == p
  {
    ModeByText(p.policy);
  }

  /** A key audited as pinned is the one later sessions are held to exactly when
      its rendering is not empty and reads back as that key. */
  lemma AuditedPinHoldsIff(fp: string -> Option<string>, s: State, id: nat)
    requires id in s.sessions && s.sessions[id].Connected? && Unset(s.stored)
    requires Says(s.sessions[id].params.policy, "tofu") && Pins(fp, s.sessions[id].params) == []
    requires var k := s.sessions[id].key; ',' !in k.publicKey && '\n' !in k.publicKey && '\r' !in k.publicKey
    ensures var k, s' := s.sessions[id].key, Next(fp, s, Record(id));
            && PinnedEvents(s'.audit) == PinnedEvents(s.audit) + [k.fingerprint]
            && (Pins(fp, s'.stored) == [k.fingerprint] <==> k.publicKey != "" && fp(k.publicKey) == Some(k.fingerprint))
  {
    var k, s' := s.sessions[id].key, Next(fp, s, Record(id));
    ModeByText(s.sessions[id].params.policy);
    PinnedEventsSnoc(s.audit, KeyPinned(k.fingerprint));
    RenderingPins(fp, s'.stored);
  }

  /** A key that does not render is reported pinned and leaves nothing pinned. */
  lemma EmptyRenderingPinsNothing(fp: string -> Option<string>, s: State, id: nat)
    requires id in s.sessions && s.sessions[id].Connected? && s.sessions[id].key.publicKey == ""
    requires Says(s.sessions[id].params.policy, "tofu") && Pins(fp, s.sessions[id].params) == []
    requires Unset(s.stored)
    ensures var s' := Next(fp, s, Record(id));
            s'.stored == s.stored && PinnedEvents(s'.audit) == PinnedEvents(s.audit) + [s.sessions[id].key.fingerprint]
  {
    ModeByText(s.sessions[id].params.policy);
    PinnedEventsSnoc(s.audit, KeyPinned(s.sessions[id].key.fingerprint));
  }

  // ── File transfer ──────────────────────────────────────────────────

  /** `fingerprints_from`. */
  function FingerprintsFrom(fp: string -> Option<string>, raw: string): seq<string> {
    var explicit := TrimmedWhere(IsSha256, Split(raw, ','));
    if explicit != [] then explicit else KeyFingerprints(fp, raw)
  }

  /** What a transfer's own setting names: the `SHA256:` fingerprints it lists, if
      any; failing that, those of the keys it names. */
  lemma FingerprintsFromMean(fp: string -> Option<string>, raw: string, f: string)
    ensures f in FingerprintsFrom(fp, raw) <==>
            if exists g :: "SHA256:" <= g && ListsText(raw, g) then "SHA256:" <= f && ListsText(raw, f)
            else NamesKey(fp, raw, f)
  {
    ListedOr(fp, IsSha256, raw, raw, f);
    assert forall g :: IsSha256(g) <==> "SHA256:" <= g;
  }

  /** `sftp_host_key_policy`. */
  function SftpPolicy(fp: string -> Option<string>, p: Params, sftpKey: string, sameHost: bool): Policy {
    var explicit := FingerprintsFrom(fp, sftpKey);
    if explicit != [] then Fingerprints(explicit)
    else if sameHost then SessionPolicy(fp, p)
    else Fingerprints([])
  }

  /** The SFTP half of `preflight`. */
  predicate SftpPreflight(fp: string -> Option<string>, p: Params, sftpKey: string, sameHost: bool) {
    SftpPolicy(fp, p, sftpKey, sameHost) != Fingerprints([])
  }

  /** The policy `connect_engine` attaches with, given the key the session saw. */
  function AttachedPolicy(fp: string -> Option<string>, p: Params, sftpKey: string, sameHost: bool,
                          presented: Option<HostKey>): Policy
  {
    var policy := SftpPolicy(fp, p, sftpKey, sameHost);
    if policy.AcceptAny? && ModeOf(p.policy) == TrustOnFirstUse && presented.Some?
    then Fingerprints([presented.value.fingerprint])
    else policy
  }

  /** File transfer accepts any key exactly when it follows an unverified
      session, or a first-use one whose own protocol presented no host key. */
  lemma TransferAcceptsAnyIff(fp: string -> Option<string>, p: Params, sftpKey: string, sameHost: bool,
                              presented: Option<HostKey>)
    ensures AttachedPolicy(fp, p, sftpKey, sameHost, presented) == AcceptAny
       <==> && FingerprintsFrom(fp, sftpKey) == [] && sameHost
            && (Says(p.policy, "none")
                || (Says(p.policy, "tofu") && Pins(fp, p) == [] && presented.None?))
  {
    ModeByText(p.policy);
  }

  /** A connection that enables file transfer is refused before it starts exactly
      when no key is named for it and either it goes to another host, or the
      session's own policy accepts nothing. */
  lemma PreflightRefusesIff(fp: string -> Option<string>, p: Params, sftpKey: string, sameHost: bool)
    ensures !SftpPreflight(fp, p, sftpKey, sameHost)
       <==> && FingerprintsFrom(fp, sftpKey) == []
            && (!sameHost || (!Says(p.policy, "tofu") && !Says(p.policy, "none") && Pins(fp, p) == []))
  {
    ModeByText(p.policy);
  }

  /** On an SSH session's first use, its file transfer accepts only the key the
      session itself accepted, or the ones named for it. */
  lemma TransferFollowsTheSession(fp: string -> Option<string>, p: Params, sftpKey: string, sameHost: bool,
                                  session: HostKey, other: string)
    requires Says(p.policy, "tofu") && SftpPreflight(fp, p, sftpKey, sameHost)
    requires Accepts(SessionPolicy(fp, p), session.fingerprint)
    requires Accepts(AttachedPolicy(fp, p, sftpKey, sameHost, Some(session)), other)
    ensures || other in FingerprintsFrom(fp, sftpKey)
            || other in Pins(fp, p)
            || (other == session.fingerprint && Pins(fp, p) == [])
  {
    ModeByText(p.policy);
  }
}
