/** The start-up check that an applied database migration still has the text it
    was applied with, and the three reasons a changed checksum is repaired. */
module Migrations {
  import opened Text

  // ── Line endings ───────────────────────────────────────────────────

  /** Every carriage return before a line feed dropped, in one pass. */
  function ToLf(s: string): string {
    if |s| < 2 then s
    else if s[0] == '\r' && s[1] == '\n' then ['\n'] + ToLf(s[2..])
    else [s[0]] + ToLf(s[1..])
  }

  /** A carriage return before every line feed. */
  function ToCrlf(s: string): string {
    if s == "" then ""
    else if s[0] == '\n' then ['\r', '\n'] + ToCrlf(s[1..])
    else [s[0]] + ToCrlf(s[1..])
  }

  /** What is left of a text once its carriage returns are disregarded. */
  function EraseCr(s: string): string {
    if s == "" then ""
    else if s[0] == '\r' then EraseCr(s[1..])
    else [s[0]] + EraseCr(s[1..])
  }

  lemma {:induction false} ToCrlfHead(s: string)
    requires s != "" && s[0] != '\n'
    ensures ToCrlf(s)[0] == s[0] && ToCrlf(s)[1..] == ToCrlf(s[1..])
  {
  }

  lemma ToLfJoins(t: string)
    ensures ToLf(['\r', '\n'] + t) == ['\n'] + ToLf(t)
  {
    assert (['\r', '\n'] + t)[2..] == t;
  }

  lemma ToLfSkips(c: char, t: string)
    requires t == "" || t[0] != '\n'
    ensures ToLf([c] + t) == [c] + ToLf(t)
  {
    assert ([c] + t)[1..] == t;
  }

  /** Converting to CRLF and back is the identity, whatever the text holds. */
  lemma {:induction false} LfOfCrlf(s: string)
    ensures ToLf(ToCrlf(s)) == s
  {
    if s != "" {
      var c, rest := s[0], s[1..];
      assert s == [c] + rest;
      LfOfCrlf(rest);
      if c == '\n' {
        ToLfJoins(ToCrlf(rest));
      } else {
        NoLoneFeed(rest);
        ToLfSkips(c, ToCrlf(rest));
      }
    }
  }

  lemma NoLoneFeed(s: string)
    ensures ToCrlf(s) != "" ==> ToCrlf(s)[0] != '\n'
    ensures ToCrlf(s) == "" ==> s == ""
  {
  }

  lemma {:induction false} ToLfErases(s: string)
    ensures EraseCr(ToLf(s)) == EraseCr(s)
  {
    if |s| < 2 {
    } else if s[0] == '\r' && s[1] == '\n' {
      ToLfErases(s[2..]);
      var t := ToLf(s);
      assert t[1..] == ToLf(s[2..]);
      assert s[1..][1..] == s[2..];
      assert EraseCr(s) == EraseCr(s[1..]) == ['\n'] + EraseCr(s[2..]);
    } else {
      ToLfErases(s[1..]);
      assert ToLf(s)[1..] == ToLf(s[1..]);
    }
  }

  lemma {:induction false} ToCrlfErases(s: string)
    ensures EraseCr(ToCrlf(s)) == EraseCr(s)
  {
    if s == "" {
    } else if s[0] == '\n' {
      ToCrlfErases(s[1..]);
      var t := ToCrlf(s);
      assert t[1..][1..] == t[2..] == ToCrlf(s[1..]);
      assert EraseCr(t) == EraseCr(t[1..]) == ['\n'] + EraseCr(t[2..]);
    } else {
      ToCrlfErases(s[1..]);
      ToCrlfHead(s);
    }
  }

  lemma {:induction false} ToLfKeeps(s: string)
    requires '\r' !in s
    ensures ToLf(s) == s
  {
    if |s| >= 2 {
      ToLfKeeps(s[1..]);
      assert s == [s[0]] + s[1..];
    }
  }

  // ── Repairs ────────────────────────────────────────────────────────

  type Digest = string

  datatype Repair = LineEndings | KnownEdit | Operator

  datatype Migration = Migration(version: int, sql: string, checksum: Digest)

  /** What the check goes by: the digest, the reviewed historical edits and the
      versions an operator has named. */
  datatype Rules = Rules(digest: string -> Digest, known: set<(int, Digest)>, operator: set<int>)

  function ChecksumRepair(rules: Rules, m: Migration, stored: Digest): Option<Repair> {
    var lf := ToLf(m.sql);
    var crlf := ToCrlf(lf);
    if rules.digest(lf) == stored || rules.digest(crlf) == stored then Some(LineEndings)
    else if (m.version, stored) in rules.known then Some(KnownEdit)
    else if m.version in rules.operator then Some(Operator)
    else None
  }

  /** A changed checksum is repaired exactly when it is that of a line-ending form
      of the build's text, that of an edit reviewed for this very version, or its
      version is one the operator named. */
  lemma RepairedIff(rules: Rules, m: Migration, stored: Digest)
    ensures ChecksumRepair(rules, m, stored).Some? <==>
              || stored == rules.digest(ToLf(m.sql)) || stored == rules.digest(ToCrlf(ToLf(m.sql)))
              || (m.version, stored) in rules.known
              || m.version in rules.operator
    ensures ChecksumRepair(rules, m, stored) == Some(Operator) ==> (m.version, stored) !in rules.known
  {
  }

  /** No two of the texts compared share a digest. */
  ghost predicate CollisionFree(digest: string -> Digest) {
    forall s, t :: digest(s) == digest(t) ==> s == t
  }

  /** A repair for line endings means the applied text was the build's LF form or
      its CRLF form and nothing else, so that the two differ in carriage returns
      only. */
  lemma LineEndingRepairIff(rules: Rules, m: Migration, applied: string)
    requires CollisionFree(rules.digest)
    ensures ChecksumRepair(rules, m, rules.digest(applied)) == Some(LineEndings)
       <==> applied == ToLf(m.sql) || applied == ToCrlf(ToLf(m.sql))
    ensures ChecksumRepair(rules, m, rules.digest(applied)) == Some(LineEndings)
       ==> EraseCr(applied) == EraseCr(m.sql)
  {
    ToLfErases(m.sql);
    ToCrlfErases(ToLf(m.sql));
  }

  /** The two ways one source text is checked out. */
  ghost predicate Checkout(source: string, text: string) {
    text == source || text == ToCrlf(source)
  }

  /** Whichever way a build and an earlier one were checked out, the applied
      checksum is accepted; and a repair for line endings accepts no text that is
      not a checkout of the same source. */
  lemma CheckoutsAgree(rules: Rules, m: Migration, source: string, applied: string)
    requires '\r' !in source && Checkout(source, m.sql)
    ensures Checkout(source, applied) ==> ChecksumRepair(rules, m, rules.digest(applied)) == Some(LineEndings)
    ensures CollisionFree(rules.digest) && ChecksumRepair(rules, m, rules.digest(applied)) == Some(LineEndings)
       ==> Checkout(source, applied)
  {
    ToLfKeeps(source);
    LfOfCrlf(source);
    assert ToLf(m.sql) == source;
  }

  // ── The check over the applied rows ────────────────────────────────

  /** A row the build does not match and no rule accepts. */
  predicate Refuses(rules: Rules, rows: map<int, Digest>, m: Migration) {
    m.version in rows && rows[m.version] != m.checksum && ChecksumRepair(rules, m, rows[m.version]).None?
  }

  function Visit(rules: Rules, rows: map<int, Digest>, m: Migration): map<int, Digest> {
    if m.version in rows && rows[m.version] != m.checksum && ChecksumRepair(rules, m, rows[m.version]).Some?
    then rows[m.version := m.checksum]
    else rows
  }

  /** The rows after the migrations in turn. */
  function After(rules: Rules, rows: map<int, Digest>, ms: seq<Migration>): map<int, Digest> {
    if ms == [] then rows
    else Visit(rules, After(rules, rows, ms[..|ms| - 1]), ms[|ms| - 1])
  }

  /** The versions refused, each judged by the row it finds. */
  function RefusedInTurn(rules: Rules, rows: map<int, Digest>, ms: seq<Migration>): seq<int> {
    if ms == [] then []
    else
      var before := ms[..|ms| - 1];
      var m := ms[|ms| - 1];
      if Refuses(rules, After(rules, rows, before), m)
      then RefusedInTurn(rules, rows, before) + [m.version]
      else RefusedInTurn(rules, rows, before)
  }

  /** The versions whose rows, as they stood at the start, no rule accepts. */
  function RefusedAtStart(rules: Rules, rows: map<int, Digest>, ms: seq<Migration>): seq<int> {
    if ms == [] then []
    else
      var m := ms[|ms| - 1];
      if Refuses(rules, rows, m)
      then RefusedAtStart(rules, rows, ms[..|ms| - 1]) + [m.version]
      else RefusedAtStart(rules, rows, ms[..|ms| - 1])
  }

  /** The check itself, reading and updating one row at a time. */
  method VerifyAppliedChecksums(rules: Rules, tableExists: bool, rows: map<int, Digest>, ms: seq<Migration>)
    returns (after: map<int, Digest>, refused: seq<int>, ok: bool)
    ensures !tableExists ==> ok && after == rows && refused == []
    ensures tableExists ==> after == After(rules, rows, ms) && refused == RefusedInTurn(rules, rows, ms)
    ensures ok <==> refused == []
    ensures after.Keys == rows.Keys
  {
    after := rows;
    refused := [];
    if !tableExists {
      return after, refused, true;
    }
    for i := 0 to |ms|
      invariant after == After(rules, rows, ms[..i])
      invariant refused == RefusedInTurn(rules, rows, ms[..i])
      invariant after.Keys == rows.Keys
    {
      assert ms[..i + 1][..i] == ms[..i];
      var m := ms[i];
      if m.version in after && after[m.version] != m.checksum {
        if ChecksumRepair(rules, m, after[m.version]).None? {
          refused := refused + [m.version];
        } else {
          after := after[m.version := m.checksum];
        }
      }
    }
    assert ms[..|ms|] == ms;
    ok := refused == [];
  }

  ghost predicate Distinct(ms: seq<Migration>) {
    forall i, j :: 0 <= i < j < |ms| ==> ms[i].version != ms[j].version
  }

  /** Each row depends on its own migration alone. */
  lemma {:induction false} RowAfter(rules: Rules, rows: map<int, Digest>, ms: seq<Migration>, version: int)
    requires Distinct(ms)
    ensures After(rules, rows, ms).Keys == rows.Keys
    ensures version in rows && (forall i :: 0 <= i < |ms| ==> ms[i].version != version)
       ==> After(rules, rows, ms)[version] == rows[version]
    ensures forall i :: 0 <= i < |ms| && ms[i].version == version && version in rows ==>
       After(rules, rows, ms)[version] == if Refuses(rules, rows, ms[i]) then rows[version] else ms[i].checksum
  {
    if ms != [] {
      RowAfter(rules, rows, ms[..|ms| - 1], version);
    }
  }

  /** Repairing one row never changes the verdict on another. */
  lemma {:induction false} VerdictsAreIndependent(rules: Rules, rows: map<int, Digest>, ms: seq<Migration>)
    requires Distinct(ms)
    ensures RefusedInTurn(rules, rows, ms) == RefusedAtStart(rules, rows, ms)
  {
    if ms != [] {
      var before := ms[..|ms| - 1];
      VerdictsAreIndependent(rules, rows, before);
      RowAfter(rules, rows, before, ms[|ms| - 1].version);
    }
  }

  lemma {:induction false} RefusedIff(rules: Rules, rows: map<int, Digest>, ms: seq<Migration>, version: int)
    ensures version in RefusedAtStart(rules, rows, ms)
       <==> exists i :: 0 <= i < |ms| && ms[i].version == version && Refuses(rules, rows, ms[i])
  {
    if ms != [] {
      var n := |ms| - 1;
      RefusedIff(rules, rows, ms[..n], version);
      assert forall i :: 0 <= i < n ==> ms[..n][i] == ms[i];
      if ms[n].version == version && Refuses(rules, rows, ms[n]) {
        assert version in RefusedAtStart(rules, rows, ms);
      }
    }
  }

  /** Every applied migration has the checksum of its build. */
  ghost predicate Matches(rows: map<int, Digest>, ms: seq<Migration>) {
    forall i :: 0 <= i < |ms| && ms[i].version in rows ==> rows[ms[i].version] == ms[i].checksum
  }

  /** The check passes exactly when nothing is refused at the start, and then, and
      only then, every applied migration has its build's checksum. */
  lemma PassesIffMatched(rules: Rules, rows: map<int, Digest>, ms: seq<Migration>)
    requires Distinct(ms)
    ensures RefusedInTurn(rules, rows, ms) == [] <==> Matches(After(rules, rows, ms), ms)
  {
    var after := After(rules, rows, ms);
    VerdictsAreIndependent(rules, rows, ms);
    forall i | 0 <= i < |ms| && ms[i].version in rows
      ensures after.Keys == rows.Keys
      ensures after[ms[i].version] == ms[i].checksum <==> !Refuses(rules, rows, ms[i])
      ensures Refuses(rules, rows, ms[i]) ==> RefusedInTurn(rules, rows, ms) != []
    {
      RowAfter(rules, rows, ms, ms[i].version);
      RefusedIff(rules, rows, ms, ms[i].version);
    }
    RowAfter(rules, rows, ms, 0);
    var refused := RefusedAtStart(rules, rows, ms);
    if refused != [] {
      RefusedIff(rules, rows, ms, refused[0]);
      assert refused[0] in refused;
    }
  }

  lemma {:induction false} MatchedStays(rules: Rules, rows: map<int, Digest>, ms: seq<Migration>)
    requires Matches(rows, ms)
    ensures After(rules, rows, ms) == rows && RefusedInTurn(rules, rows, ms) == []
  {
    if ms != [] {
      MatchedStays(rules, rows, ms[..|ms| - 1]);
    }
  }

  /** A start that passes leaves nothing for the next: it passes and changes
      nothing, even with no rule left to repair by. */
  lemma NextStartChangesNothing(rules: Rules, later: Rules, rows: map<int, Digest>, ms: seq<Migration>)
    requires Distinct(ms) && RefusedInTurn(rules, rows, ms) == []
    ensures var after := After(rules, rows, ms);
            After(later, after, ms) == after && RefusedInTurn(later, after, ms) == []
  {
    PassesIffMatched(rules, rows, ms);
    MatchedStays(later, After(rules, rows, ms), ms);
  }

  lemma LaterRefuses(rules: Rules, rows: map<int, Digest>, after: map<int, Digest>, m: Migration, named: set<int>)
    requires after.Keys == rows.Keys
    requires m.version in rows ==>
      after[m.version] == if Refuses(rules, rows, m) then rows[m.version] else m.checksum
    ensures Refuses(rules.(operator := named), after, m) <==> Refuses(rules, rows, m) && m.version !in named
  {
  }

  ghost predicate Passes(rules: Rules, rows: map<int, Digest>, ms: seq<Migration>) {
    RefusedInTurn(rules, rows, ms) == []
  }

  ghost predicate Covers(named: set<int>, versions: seq<int>) {
    forall version :: version in versions ==> version in named
  }

  lemma EmptyIffCovered(again: seq<int>, refused: seq<int>, named: set<int>)
    requires forall version :: version in again <==> version in refused && version !in named
    ensures again == [] <==> Covers(named, refused)
  {
    if again == [] {
      forall version | version in refused ensures version in named {
        assert version !in again;
      }
    } else {
      var version := again[0];
      assert version in again;
    }
  }

  /** After a refusal, naming exactly the refused versions is what it takes: the
      next start passes if and only if the operator's list covers them all, the
      other rules being as they were. */
  lemma NamingTheRefusedIff(rules: Rules, rows: map<int, Digest>, ms: seq<Migration>, named: set<int>)
    requires Distinct(ms)
    ensures Passes(rules.(operator := named), After(rules, rows, ms), ms)
       <==> Covers(named, RefusedInTurn(rules, rows, ms))
  {
    var after := After(rules, rows, ms);
    var later := rules.(operator := named);
    VerdictsAreIndependent(rules, rows, ms);
    VerdictsAreIndependent(later, after, ms);
    forall i | 0 <= i < |ms|
      ensures Refuses(later, after, ms[i]) <==> Refuses(rules, rows, ms[i]) && ms[i].version !in named
    {
      RowAfter(rules, rows, ms, ms[i].version);
      LaterRefuses(rules, rows, after, ms[i], named);
    }
    var refused, again := RefusedAtStart(rules, rows, ms), RefusedAtStart(later, after, ms);
    forall version ensures version in again <==> version in refused && version !in named {
      RefusedIff(later, after, ms, version);
      RefusedIff(rules, rows, ms, version);
    }
    EmptyIffCovered(again, refused, named);
  }
}
