/** The syntactic check on an administrator's LDAP search filter: a one-counter
    scan, against the balanced-parenthesis grammar it stands for. */
module LdapFilter {
  import opened Text

  const MAX_LEN: nat := 2048
  const MAX_DEPTH: nat := 32

  datatype Error = Empty | TooLong | BadEnds | ControlCharacter | TooDeep | Unbalanced | MatchEverything

  datatype Result = Ok | Err(error: Error)

  // ── The grammar ────────────────────────────────────────────────────

  /** A word of the balanced grammar: nothing; a character other than a
      parenthesis, then a word; or a word in parentheses, then a word. */
  datatype Word = Done | Plain(c: char, rest: Word) | Group(inner: Word, rest: Word)

  predicate IsParen(c: char) {
    c == '(' || c == ')'
  }

  predicate WellFormed(w: Word) {
    match w
    case Done => true
    case Plain(c, rest) => !IsParen(c) && WellFormed(rest)
    case Group(inner, rest) => WellFormed(inner) && WellFormed(rest)
  }

  function Render(w: Word): string {
    match w
    case Done => ""
    case Plain(c, rest) => [c] + Render(rest)
    case Group(inner, rest) => "(" + Render(inner) + ")" + Render(rest)
  }

  function Nesting(w: Word): nat {
    match w
    case Done => 0
    case Plain(_, rest) => Nesting(rest)
    case Group(inner, rest) => if Nesting(inner) + 1 > Nesting(rest) then Nesting(inner) + 1 else Nesting(rest)
  }

  ghost predicate InGrammar(s: string, limit: nat) {
    exists w :: WellFormed(w) && Render(w) == s && Nesting(w) <= limit
  }

  // ── The scan ───────────────────────────────────────────────────────

  /** The counter after scanning `s` from `depth`, or the error met first. */
  datatype Scan = At(depth: nat) | Stopped(error: Error)

  function ScanChar(depth: nat, c: char): Scan {
    if c == '(' then (if depth + 1 > MAX_DEPTH then Stopped(TooDeep) else At(depth + 1))
    else if c == ')' then (if depth == 0 then Stopped(Unbalanced) else At(depth - 1))
    else At(depth)
  }

  function ScanFrom(depth: nat, s: string): Scan
    decreases |s|
  {
    if s == "" then At(depth)
    else match ScanChar(depth, s[0])
         case Stopped(e) => Stopped(e)
         case At(d) => ScanFrom(d, s[1..])
  }

  lemma {:induction false} ScanConcat(depth: nat, a: string, b: string)
    ensures ScanFrom(depth, a + b) == match ScanFrom(depth, a)
                                      case Stopped(e) => Stopped(e)
                                      case At(d) => ScanFrom(d, b)
    decreases |a|
  {
    if a == "" {
      assert a + b == b;
    } else {
      assert (a + b)[1..] == a[1..] + b;
      match ScanChar(depth, a[0])
      case Stopped(_) =>
      case At(d) => ScanConcat(d, a[1..], b);
    }
  }

  /** Every word of the grammar scans back to where it started, if its nesting
      leaves room. */
  lemma {:induction false} WordScans(w: Word, depth: nat)
    requires WellFormed(w) && depth + Nesting(w) <= MAX_DEPTH
    ensures ScanFrom(depth, Render(w)) == At(depth)
  {
    match w
    case Done =>
    case Plain(c, rest) =>
      assert Render(w)[1..] == Render(rest);
      WordScans(rest, depth);
    case Group(inner, rest) =>
      var tail := ")" + Render(rest);
      assert Render(w)[1..] == Render(inner) + tail;
      WordScans(inner, depth + 1);
      WordScans(rest, depth);
      ScanConcat(depth + 1, Render(inner), tail);
      assert tail[1..] == Render(rest);
  }

  /** `s`, scanned from `depth` down to zero, begins with the word `w`: up to
      the parenthesis closing the level it began in, or all of it. */
  ghost predicate SplitsOff(depth: nat, s: string, w: Word, k: nat) {
    && k <= |s| && WellFormed(w) && Render(w) == s[..k] && depth + Nesting(w) <= MAX_DEPTH
    && (if depth == 0 then k == |s| else k < |s| && s[k] == ')')
    && ScanFrom(depth, s[k..]) == At(0)
  }

  lemma SplitsOffPlain(depth: nat, s: string, rest: Word, j: nat)
    requires s != "" && !IsParen(s[0]) && SplitsOff(depth, s[1..], rest, j)
    ensures SplitsOff(depth, s, Plain(s[0], rest), j + 1)
  {
    assert s[..j + 1] == [s[0]] + s[1..][..j];
    assert s[j + 1..] == s[1..][j..];
  }

  lemma ScanClosing(depth: nat, s: string, inner: Word, j: nat)
    requires s != "" && SplitsOff(depth + 1, s[1..], inner, j)
    ensures j + 2 <= |s| && s[j + 1] == ')' && ScanFrom(depth, s[j + 2..]) == At(0)
  {
    var closing := s[1..][j..];
    assert closing[0] == ')' && closing[1..] == s[j + 2..];
  }

  lemma SplitsOffGroup(depth: nat, s: string, inner: Word, j: nat, rest: Word, i: nat)
    requires s != "" && s[0] == '(' && SplitsOff(depth + 1, s[1..], inner, j)
    requires j + 2 <= |s| && s[j + 1] == ')' && SplitsOff(depth, s[j + 2..], rest, i)
    ensures SplitsOff(depth, s, Group(inner, rest), j + 2 + i)
  {
    var k := j + 2 + i;
    assert s[..k] == "(" + s[1..][..j] + ")" + s[j + 2..][..i];
    assert s[k..] == s[j + 2..][i..];
  }

  lemma SplitsOffNothing(depth: nat, s: string)
    requires depth <= MAX_DEPTH && ScanFrom(depth, s) == At(0) && (s == "" || s[0] == ')')
    ensures SplitsOff(depth, s, Done, 0)
  {
    assert s[0..] == s && s[..0] == "";
  }

  lemma ScanSteps(depth: nat, s: string)
    requires ScanFrom(depth, s) == At(0) && s != "" && s[0] != ')'
    ensures if s[0] == '(' then depth < MAX_DEPTH && ScanFrom(depth + 1, s[1..]) == At(0)
            else ScanFrom(depth, s[1..]) == At(0)
  {
  }

  lemma {:induction false} ScanIsWord(depth: nat, s: string) returns (w: Word, k: nat)
    requires depth <= MAX_DEPTH && ScanFrom(depth, s) == At(0)
    ensures SplitsOff(depth, s, w, k)
    decreases |s|
  {
    if s == "" || s[0] == ')' {
      w, k := Done, 0;
      SplitsOffNothing(depth, s);
    } else if s[0] != '(' {
      ScanSteps(depth, s);
      var rest, j := ScanIsWord(depth, s[1..]);
      w, k := Plain(s[0], rest), j + 1;
      SplitsOffPlain(depth, s, rest, j);
    } else {
      ScanSteps(depth, s);
      var inner, j := ScanIsWord(depth + 1, s[1..]);
      ScanClosing(depth, s, inner, j);
      var rest, i := ScanIsWord(depth, s[j + 2..]);
      w, k := Group(inner, rest), j + 2 + i;
      SplitsOffGroup(depth, s, inner, j, rest, i);
    }
  }

  /** The scan accepts exactly the words of the grammar nested within the limit. */
  lemma ScanAcceptsExactlyTheGrammar(s: string)
    ensures ScanFrom(0, s) == At(0) <==> InGrammar(s, MAX_DEPTH)
  {
    if ScanFrom(0, s) == At(0) {
      var w, k := ScanIsWord(0, s);
      assert s[..k] == s;
    }
    if InGrammar(s, MAX_DEPTH) {
      var w :| WellFormed(w) && Render(w) == s && Nesting(w) <= MAX_DEPTH;
      WordScans(w, 0);
    }
  }

  // ── Match-everything filters ───────────────────────────────────────

  /** `trim_start_matches('(')` and `trim_end_matches(')')`. */
  function TrimOpen(s: string): (r: string)
    ensures |r| <= |s| && r == s[|s| - |r|..]
    ensures forall j :: 0 <= j < |s| - |r| ==> s[j] == '('
    ensures r != "" ==> r[0] != '('
  {
    if s != "" && s[0] == '(' then
      var r := TrimOpen(s[1..]);
      assert forall j :: 1 <= j < |s| - |r| ==> s[j] == s[1..][j - 1];
      r
    else s
  }

  function TrimClose(s: string): (r: string)
    ensures r <= s
    ensures forall j :: |r| <= j < |s| ==> s[j] == ')'
    ensures r != "" ==> r[|r| - 1] != ')'
  {
    if s != "" && s[|s| - 1] == ')' then TrimClose(s[..|s| - 1]) else s
  }

  predicate Everything(core: string) {
    core == "*" || Lower(core) == "objectclass=*"
  }

  predicate MatchesEverything(filter: string) {
    Everything(Trim(TrimClose(TrimOpen(filter))))
  }

  // ── The check ──────────────────────────────────────────────────────

  predicate ControlFree(s: string) {
    forall c :: c in s ==> c as int >= 0x20 || c == '\t'
  }

  predicate GoodEnds(s: string) {
    s != "" && s[0] == '(' && s[|s| - 1] == ')'
  }

  /** The loop over the filter's characters. */
  method CheckParens(filter: string) returns (r: Result)
    ensures r.Ok? <==> ScanFrom(0, filter) == At(0)
    ensures r.Err? ==> r.error in {TooDeep, Unbalanced}
    ensures r == Err(TooDeep) <==> ScanFrom(0, filter) == Stopped(TooDeep)
  {
    var depth, maxDepth := 0, 0;
    for k := 0 to |filter|
      invariant depth <= maxDepth <= MAX_DEPTH
      invariant ScanFrom(depth, filter[k..]) == ScanFrom(0, filter)
    {
      assert filter[k..][1..] == filter[k + 1..];
      if filter[k] == '(' {
        depth := depth + 1;
        if depth > maxDepth {
          maxDepth := depth;
        }
        if maxDepth > MAX_DEPTH {
          return Err(TooDeep);
        }
      } else if filter[k] == ')' {
        if depth == 0 {
          return Err(Unbalanced);
        }
        depth := depth - 1;
      }
    }
    assert filter[|filter|..] == "";
    if depth != 0 {
      return Err(Unbalanced);
    }
    return Ok;
  }

  /** What an accepted filter is. */
  ghost predicate Acceptable(filter: string) {
    && filter != "" && Utf8Size(filter) <= 2048
    && GoodEnds(filter) && ControlFree(filter)
    && InGrammar(filter, 32) && !MatchesEverything(filter)
  }

  /** `validate_ldap_filter`. */
  method ValidateLdapFilter(filter: string) returns (r: Result)
    ensures r.Ok? <==> Acceptable(filter)
    ensures r == Err(Empty) <==> filter == ""
    ensures r == Err(TooLong) <==> Utf8Size(filter) > MAX_LEN
    ensures r == Err(BadEnds) <==> filter != "" && Utf8Size(filter) <= MAX_LEN && !GoodEnds(filter)
    ensures r == Err(ControlCharacter) <==> Utf8Size(filter) <= MAX_LEN && GoodEnds(filter) && !ControlFree(filter)
    ensures r == Err(MatchEverything) <==>
              && Utf8Size(filter) <= MAX_LEN && GoodEnds(filter) && ControlFree(filter)
              && InGrammar(filter, MAX_DEPTH) && MatchesEverything(filter)
    ensures r == Err(TooDeep) <==>
              && Utf8Size(filter) <= MAX_LEN && GoodEnds(filter) && ControlFree(filter)
              && ScanFrom(0, filter) == Stopped(TooDeep)
  {
    ScanAcceptsExactlyTheGrammar(filter);
    if filter == "" {
      return Err(Empty);
    }
    if Utf8Size(filter) > MAX_LEN {
      return Err(TooLong);
    }
    if !(filter[0] == '(') || !(filter[|filter| - 1] == ')') {
      return Err(BadEnds);
    }
    if exists c :: c in filter && (c as int == 0 || (c as int < 0x20 && c != '\t')) {
      return Err(ControlCharacter);
    }
    var parens := CheckParens(filter);
    if parens.Err? {
      return parens;
    }
    var inner := Trim(TrimClose(TrimOpen(filter)));
    if inner == "*" || Lower(inner) == "objectclass=*" {
      return Err(MatchEverything);
    }
    return Ok;
  }

  // ── Which filters are refused as matching everything ───────────────

  function Repeat(c: char, n: nat): (r: string)
    ensures |r| == n && forall j :: 0 <= j < n ==> r[j] == c
  {
    if n == 0 then "" else [c] + Repeat(c, n - 1)
  }

  lemma AllSame(s: string, c: char)
    requires forall j :: 0 <= j < |s| ==> s[j] == c
    ensures s == Repeat(c, |s|)
  {
  }

  predicate NoParens(s: string) {
    forall j :: 0 <= j < |s| ==> !IsParen(s[j])
  }

  lemma {:induction false} ScanPlain(depth: nat, s: string)
    requires NoParens(s)
    ensures ScanFrom(depth, s) == At(depth)
  {
    if s != "" {
      ScanPlain(depth, s[1..]);
    }
  }

  lemma {:induction false} ScanOpens(depth: nat, n: nat)
    ensures ScanFrom(depth, Repeat('(', n)) ==
            if depth + n <= MAX_DEPTH || n == 0 then At(depth + n) else Stopped(TooDeep)
    decreases n
  {
    if n > 0 {
      assert Repeat('(', n)[1..] == Repeat('(', n - 1);
      ScanOpens(depth + 1, n - 1);
    }
  }

  lemma {:induction false} ScanCloses(depth: nat, n: nat)
    ensures ScanFrom(depth, Repeat(')', n)) == if n <= depth then At(depth - n) else Stopped(Unbalanced)
    decreases n
  {
    if n > 0 {
      assert Repeat(')', n)[1..] == Repeat(')', n - 1);
      if depth > 0 {
        ScanCloses(depth - 1, n - 1);
      }
    }
  }

  /** Balanced parentheses around plain text come in equal numbers. */
  lemma BalancedAround(a: nat, x: string, b: nat)
    requires NoParens(x) && ScanFrom(0, Repeat('(', a) + x + Repeat(')', b)) == At(0)
    ensures a == b
  {
    var opens, closes := Repeat('(', a), Repeat(')', b);
    ScanConcat(0, opens + x, closes);
    ScanConcat(0, opens, x);
    ScanOpens(0, a);
    ScanPlain(a, x);
    ScanCloses(a, b);
  }

  lemma EverythingIsPlain(core: string)
    requires Everything(core)
    ensures core != "" && NoParens(core) && !IsWhitespace(core[0]) && !IsWhitespace(core[|core| - 1])
  {
    if core != "*" {
      var target := "objectclass=*";
      assert Lower(core) == target && |target| == 13;
      assert forall j :: 0 <= j < |target| ==> !IsParen(target[j]) && !IsWhitespace(target[j]);
      forall j | 0 <= j < |core| ensures !IsParen(core[j]) && !IsWhitespace(core[j]) {
        assert Lower(core)[j] == target[j];
      }
    }
  }

  lemma WhitespaceIsPlain(s: string)
    requires AllWhitespace(s)
    ensures NoParens(s)
  {
  }

  /** Nothing but nested parentheses and white space around `core`. */
  ghost predicate Wraps(filter: string, core: string) {
    exists n: nat, a: string, b: string :: n > 0 && AllWhitespace(a) && AllWhitespace(b)
      && filter == Repeat('(', n) + (a + core + b) + Repeat(')', n)
  }

  lemma {:induction false} TrimOpenRepeat(n: nat, x: string)
    requires x != "" && x[0] != '('
    ensures TrimOpen(Repeat('(', n) + x) == x
    decreases n
  {
    if n == 0 {
      assert Repeat('(', 0) + x == x;
    } else {
      assert (Repeat('(', n) + x)[1..] == Repeat('(', n - 1) + x;
      TrimOpenRepeat(n - 1, x);
    }
  }

  lemma {:induction false} TrimCloseRepeat(x: string, n: nat)
    requires x != "" && x[|x| - 1] != ')'
    ensures TrimClose(x + Repeat(')', n)) == x
    decreases n
  {
    var s := x + Repeat(')', n);
    if n == 0 {
      assert s == x;
    } else {
      AllSame(Repeat(')', n)[..n - 1], ')');
      assert s[..|s| - 1] == x + Repeat(')', n - 1);
      TrimCloseRepeat(x, n - 1);
    }
  }

  lemma WrappedMatches(filter: string, core: string)
    requires Everything(core) && Wraps(filter, core)
    ensures MatchesEverything(filter)
  {
    EverythingIsPlain(core);
    var n: nat, a: string, b: string :| n > 0 && AllWhitespace(a) && AllWhitespace(b)
      && filter == Repeat('(', n) + (a + core + b) + Repeat(')', n);
    var x := a + core + b;
    WhitespaceIsPlain(a);
    WhitespaceIsPlain(b);
    assert NoParens(x) && x != "";
    assert filter == Repeat('(', n) + (x + Repeat(')', n));
    TrimOpenRepeat(n, x + Repeat(')', n));
    TrimCloseRepeat(x, n);
    TrimUnique(a, core, b);
  }

  lemma StripOpens(s: string) returns (m: nat)
    ensures s == Repeat('(', m) + TrimOpen(s)
    ensures s != "" && s[0] == '(' ==> m > 0
  {
    var t := TrimOpen(s);
    m := |s| - |t|;
    AllSame(s[..m], '(');
    assert s == s[..m] + s[m..];
  }

  lemma StripCloses(s: string) returns (n: nat)
    ensures s == TrimClose(s) + Repeat(')', n)
  {
    var t := TrimClose(s);
    n := |s| - |t|;
    AllSame(s[|t|..], ')');
    assert s == s[..|t|] + s[|t|..];
  }

  lemma TrimmedCoreIsPlain(x: string) returns (a: string, b: string)
    requires Everything(Trim(x))
    ensures x == a + Trim(x) + b && AllWhitespace(a) && AllWhitespace(b) && NoParens(x)
  {
    EverythingIsPlain(Trim(x));
    a, b := TrimSplits(x);
    WhitespaceIsPlain(a);
    WhitespaceIsPlain(b);
  }

  lemma StrippedEvenly(filter: string, t: string, x: string, m: nat, n: nat)
    requires filter == Repeat('(', m) + t && t == x + Repeat(')', n)
    requires NoParens(x) && ScanFrom(0, filter) == At(0)
    ensures filter == Repeat('(', m) + x + Repeat(')', m)
  {
    assert filter == Repeat('(', m) + x + Repeat(')', n);
    BalancedAround(m, x, n);
  }

  lemma WrapsBy(filter: string, core: string, n: nat, a: string, b: string)
    requires n > 0 && AllWhitespace(a) && AllWhitespace(b)
    requires filter == Repeat('(', n) + (a + core + b) + Repeat(')', n)
    ensures Wraps(filter, core)
  {
  }

  lemma MatchingIsWrapped(filter: string, t: string, x: string, core: string)
    requires GoodEnds(filter) && ScanFrom(0, filter) == At(0)
    requires t == TrimOpen(filter) && x == TrimClose(t) && core == Trim(x) && Everything(core)
    ensures Wraps(filter, core)
  {
    var m := StripOpens(filter);
    var n := StripCloses(t);
    var a, b := TrimmedCoreIsPlain(x);
    StrippedEvenly(filter, t, x, m, n);
    WrapsBy(filter, core, m, a, b);
  }

  lemma EverythingByText()
    ensures forall core :: Everything(core) <==> core == "*" || AnyCase(core, "objectclass=*")
  {
    forall core ensures Everything(core) <==> core == "*" || AnyCase(core, "objectclass=*") {
      AnyCaseIff(core, "objectclass=*");
    }
  }

  /** A balanced filter is refused as matching everything exactly when it is
      `*` or `objectClass=*` wrapped in parentheses and white space. */
  lemma MatchEverythingIff(filter: string)
    requires GoodEnds(filter) && InGrammar(filter, MAX_DEPTH)
    ensures MatchesEverything(filter)
       <==> Wraps(filter, "*") || exists core :: AnyCase(core, "objectclass=*") && Wraps(filter, core)
  {
    ScanAcceptsExactlyTheGrammar(filter);
    EverythingByText();
    if MatchesEverything(filter) {
      var t := TrimOpen(filter);
      MatchingIsWrapped(filter, t, TrimClose(t), Trim(TrimClose(t)));
    }
    if Wraps(filter, "*") {
      WrappedMatches(filter, "*");
    }
    if exists core :: AnyCase(core, "objectclass=*") && Wraps(filter, core) {
      var core :| AnyCase(core, "objectclass=*") && Wraps(filter, core);
      WrappedMatches(filter, core);
    }
  }

  // ── One filter or several ──────────────────────────────────────────

  /** A single parenthesised word, as section 3 of RFC 4515 has a filter be. */
  ghost predicate OneGroup(s: string) {
    exists inner :: WellFormed(inner) && Render(Group(inner, Done)) == s && Nesting(inner) < MAX_DEPTH
  }

  function Body(s: string): string
    requires GoodEnds(s)
  {
    assert |s| > 1;
    s[1..|s| - 1]
  }

  lemma RenderGroup(inner: Word)
    ensures Render(Group(inner, Done)) == "(" + Render(inner) + ")"
  {
    assert Render(Done) == "";
  }

  /** A word that ends before the text does is followed by a closing parenthesis
      with nothing to close. */
  lemma WordIsAll(body: string, w: Word, k: nat)
    requires ScanFrom(0, body) == At(0) && k <= |body| && WellFormed(w) && Nesting(w) <= MAX_DEPTH
    requires Render(w) == body[..k] && (k < |body| ==> body[k] == ')')
    ensures k == |body|
  {
    if k < |body| {
      assert ScanFrom(0, body[k..]) == Stopped(Unbalanced);
      assert body == body[..k] + body[k..];
      WordScans(w, 0);
      ScanConcat(0, body[..k], body[k..]);
    }
  }

  lemma InnerOf(s: string) returns (inner: Word)
    requires GoodEnds(s) && ScanFrom(0, s) == At(0) && ScanFrom(0, Body(s)) == At(0)
    ensures WellFormed(inner) && Render(inner) == Body(s) && Nesting(inner) < MAX_DEPTH
  {
    var body := Body(s);
    ScanSteps(0, s);
    var w, k := ScanIsWord(1, s[1..]);
    assert s[1..] == body + ")" && k <= |body|;
    assert s[1..][..k] == body[..k];
    assert k < |body| ==> body[k] == s[1..][k];
    WordIsAll(body, w, k);
    assert body[..|body|] == body;
    inner := w;
  }

  /** A text that passes the scan is one filter exactly when what is between its
      first and last characters passes on its own: that is, when the first
      parenthesis is closed by the last. */
  lemma OneGroupIff(s: string)
    requires GoodEnds(s) && InGrammar(s, MAX_DEPTH)
    ensures OneGroup(s) <==> ScanFrom(0, Body(s)) == At(0)
  {
    ScanAcceptsExactlyTheGrammar(s);
    if OneGroup(s) {
      var inner :| WellFormed(inner) && Render(Group(inner, Done)) == s && Nesting(inner) < MAX_DEPTH;
      RenderGroup(inner);
      assert Body(s) == Render(inner);
      WordScans(inner, 0);
    }
    if ScanFrom(0, Body(s)) == At(0) {
      var inner := InnerOf(s);
      RenderGroup(inner);
      assert s == "(" + Body(s) + ")";
    }
  }

  lemma TwoGroupsInGrammar(x: char, y: char)
    requires !IsParen(x) && !IsParen(y)
    ensures InGrammar("(" + [x] + ")(" + [y] + ")", MAX_DEPTH)
  {
    var u := Group(Plain(y, Done), Done);
    var w := Group(Plain(x, Done), u);
    assert Render(Done) == "";
    assert Render(Plain(x, Done)) == [x] + Render(Done) == [x];
    assert Render(Plain(y, Done)) == [y] + Render(Done) == [y];
    assert Render(w) == "(" + [x] + ")" + Render(u);
    assert Render(w) == "(" + [x] + ")(" + [y] + ")";
    assert Nesting(Done) == 0 && Nesting(Plain(x, Done)) == 0 && Nesting(Plain(y, Done)) == 0;
    assert Nesting(u) == 1;
    assert Nesting(w) == 1;
    assert WellFormed(Done) && WellFormed(Plain(x, Done)) && WellFormed(Plain(y, Done));
    assert WellFormed(u);
    assert WellFormed(w);
  }

  lemma StripOnce(core: string)
    requires core != "" && core[0] != '(' && core[|core| - 1] != ')'
    ensures TrimClose(TrimOpen("(" + (core + ")"))) == core
  {
    assert Repeat('(', 1) == "(" && Repeat(')', 1) == ")";
    TrimOpenRepeat(1, core + ")");
    TrimCloseRepeat(core, 1);
  }

  lemma ParenthesisRemains(core: string, k: nat)
    requires k < |core| && IsParen(core[k])
    ensures !Everything(Trim(core))
  {
    if Everything(Trim(core)) {
      var a, b := TrimmedCoreIsPlain(core);
    }
  }

  lemma TwoGroupsMatchSomething(s: string, x: char, y: char)
    requires s == "(" + [x] + ")(" + [y] + ")" && !IsParen(x) && !IsParen(y)
    ensures !MatchesEverything(s)
  {
    var core := [x] + ")(" + [y];
    assert s == "(" + (core + ")");
    StripOnce(core);
    ParenthesisRemains(core, 1);
  }

  lemma SixCharactersFit(s: string)
    requires |s| == 6
    ensures Utf8Size(s) <= 24
  {
    assert Utf8Size(s) <= 4 * |s| by { Utf8SizeAtMost(s); }
  }

  lemma {:induction false} Utf8SizeAtMost(s: string)
    ensures Utf8Size(s) <= 4 * |s|
  {
    if s != "" {
      Utf8SizeAtMost(s[1..]);
    }
  }

  predicate Printable(c: char) {
    c as int >= 0x20 && !IsParen(c)
  }

  lemma TwoGroupsKeepTheRules(s: string, x: char, y: char)
    requires s == "(" + [x] + ")(" + [y] + ")" && Printable(x) && Printable(y)
    ensures Utf8Size(s) <= MAX_LEN && GoodEnds(s) && ControlFree(s)
  {
    SixCharactersFit(s);
    forall c | c in s ensures c as int >= 0x20 {
      assert c in {'(', ')', x, y};
    }
  }

  lemma TwoGroupsAreNotOne(s: string, x: char, y: char)
    requires s == "(" + [x] + ")(" + [y] + ")" && !IsParen(x) && !IsParen(y)
    requires InGrammar(s, MAX_DEPTH)
    ensures !OneGroup(s)
  {
    OneGroupIff(s);
    var body := Body(s);
    assert body[0] == x && body[1] == ')';
    assert body[1..][0] == ')';
    assert ScanFrom(0, body[1..]) == Stopped(Unbalanced);
    assert ScanFrom(0, body) == ScanFrom(0, body[1..]);
  }

  /** Filters side by side are accepted, for any two printable characters in
      them, though they are not one filter. */
  lemma TwoFiltersPass(x: char, y: char)
    requires Printable(x) && Printable(y)
    ensures var s := "(" + [x] + ")(" + [y] + ")"; Acceptable(s) && !OneGroup(s)
  {
    var s := "(" + [x] + ")(" + [y] + ")";
    TwoGroupsInGrammar(x, y);
    TwoGroupsMatchSomething(s, x, y);
    TwoGroupsKeepTheRules(s, x, y);
    TwoGroupsAreNotOne(s, x, y);
  }
}
