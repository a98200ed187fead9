/** Text as Rust's `str` sees it: Unicode scalar values, measured in UTF-8
    bytes, trimmed by the Unicode `White_Space` property. */
module Text {

  datatype Option<+T> = None | Some(value: T)

  /** Bytes `c` occupies in UTF-8. */
  function Utf8Width(c: char): (w: nat)
    ensures 1 <= w <= 4
  {
    var code := c as int;
    if code < 0x80 then 1 else if code < 0x800 then 2 else if code < 0x10000 then 3 else 4
  }

  predicate IsAscii(c: char) {
    c as int < 0x80
  }

  /** Characters with the Unicode `White_Space` property. */
  predicate IsWhitespace(c: char) {
    var code := c as int;
    || 0x9 <= code <= 0xD
    || code == 0x20 || code == 0x85 || code == 0xA0 || code == 0x1680
    || 0x2000 <= code <= 0x200A
    || code == 0x2028 || code == 0x2029 || code == 0x202F || code == 0x205F || code == 0x3000
  }

  function TrimStart(s: string): (r: string)
    ensures |r| <= |s|
  {
    if s != "" && IsWhitespace(s[0]) then TrimStart(s[1..]) else s
  }

  function TrimEnd(s: string): (r: string)
    ensures |r| <= |s|
  {
    if s != "" && IsWhitespace(s[|s| - 1]) then TrimEnd(s[..|s| - 1]) else s
  }

  /** White space alone is cut from the start, up to something else. */
  lemma {:induction false} TrimStartCuts(s: string)
    ensures var r := TrimStart(s);
            && r == s[|s| - |r|..] && (r != "" ==> !IsWhitespace(r[0]))
            && forall j :: 0 <= j < |s| - |r| ==> IsWhitespace(s[j])
  {
    if s != "" && IsWhitespace(s[0]) {
      TrimStartCuts(s[1..]);
      var r := TrimStart(s);
      assert forall j :: 1 <= j < |s| - |r| ==> s[j] == s[1..][j - 1];
    }
  }

  /** And from the end. */
  lemma {:induction false} TrimEndCuts(s: string)
    ensures var r := TrimEnd(s);
            && r <= s && (r != "" ==> !IsWhitespace(r[|r| - 1]))
            && forall j :: |r| <= j < |s| ==> IsWhitespace(s[j])
  {
    if s != "" && IsWhitespace(s[|s| - 1]) {
      TrimEndCuts(s[..|s| - 1]);
    }
  }

  function Trim(s: string): string {
    TrimEnd(TrimStart(s))
  }

  predicate Blank(s: string) {
    Trim(s) == ""
  }

  /** ASCII lower case. */
  function Lower(s: string): (r: string)
    ensures |r| == |s|
    ensures forall j :: 0 <= j < |s| ==> r[j] == if 'A' <= s[j] <= 'Z' then s[j] - 'A' + 'a' else s[j]
  {
    seq(|s|, i requires 0 <= i < |s| => if 'A' <= s[i] <= 'Z' then s[i] - 'A' + 'a' else s[i])
  }

  /** `t` is `word`, itself without capitals, in any ASCII letter case. */
  predicate AnyCase(t: string, word: string) {
    && |t| == |word|
    && forall j :: 0 <= j < |word| ==> t[j] == word[j] || ('A' <= t[j] <= 'Z' && t[j] - 'A' + 'a' == word[j])
  }

  lemma AnyCaseIff(t: string, word: string)
    requires forall j :: 0 <= j < |word| ==> !('A' <= word[j] <= 'Z')
    ensures AnyCase(t, word) <==> Lower(t) == word
  {
    if Lower(t) == word {
      forall j | 0 <= j < |word| ensures t[j] == word[j] || ('A' <= t[j] <= 'Z' && t[j] - 'A' + 'a' == word[j]) {
        assert Lower(t)[j] == word[j];
      }
    }
  }

  /** Position of the first character of `s` that is in `cs`, or `|s|`. */
  function Find(s: string, cs: set<char>): (k: nat)
    ensures k <= |s|
    ensures forall j :: 0 <= j < k ==> s[j] !in cs
    ensures k < |s| ==> s[k] in cs
  {
    if s == "" || s[0] in cs then 0 else 1 + Find(s[1..], cs)
  }

  lemma FindUnique(s: string, cs: set<char>, k: nat)
    requires k <= |s|
    requires forall j :: 0 <= j < k ==> s[j] !in cs
    requires k < |s| ==> s[k] in cs
    ensures Find(s, cs) == k
  {
  }

  // ── Decimal numerals ───────────────────────────────────────────────

  predicate IsDigit(c: char) {
    '0' <= c <= '9'
  }

  function DigitChar(d: nat): (c: char)
    requires d < 10
    ensures IsDigit(c) && DigitValue(c) == d
  {
    '0' + (d as char)
  }

  function DigitValue(c: char): (d: nat)
    requires IsDigit(c)
    ensures d < 10
  {
    (c as int) - ('0' as int)
  }

  predicate AllDigits(s: string) {
    forall j :: 0 <= j < |s| ==> IsDigit(s[j])
  }

  /** `usize::to_string`. */
  function Digits(n: nat): (s: string)
    ensures s != "" && AllDigits(s)
  {
    if n < 10 then [DigitChar(n)] else Digits(n / 10) + [DigitChar(n % 10)]
  }

  function DigitsValue(s: string): nat
    requires AllDigits(s)
  {
    if s == "" then 0 else 10 * DigitsValue(s[..|s| - 1]) + DigitValue(s[|s| - 1])
  }

  lemma {:induction false} DigitsValueOfDigits(n: nat)
    ensures DigitsValue(Digits(n)) == n
  {
    if n >= 10 {
      DigitsValueOfDigits(n / 10);
      assert Digits(n)[..|Digits(n)| - 1] == Digits(n / 10);
    }
  }

  /** Length of the longest prefix of digits. */
  function SpanDigits(s: string): (k: nat)
    ensures k <= |s| && AllDigits(s[..k])
    ensures k < |s| ==> !IsDigit(s[k])
  {
    if s == "" || !IsDigit(s[0]) then 0 else
      var k := 1 + SpanDigits(s[1..]);
      assert s[..k] == [s[0]] + s[1..][..k - 1];
      k
  }

  lemma SpanDigitsUnique(s: string, k: nat)
    requires k < |s| && AllDigits(s[..k]) && !IsDigit(s[k])
    ensures SpanDigits(s) == k
  {
    var j := SpanDigits(s);
    assert forall i :: 0 <= i < k ==> s[i] == s[..k][i];
    assert forall i :: 0 <= i < j ==> s[i] == s[..j][i];
  }

  /** A numeral and what follows its dot are determined by the whole text. */
  lemma NumeralDotUnique(a: nat, x: string, b: nat, y: string)
    requires Digits(a) + "." + x == Digits(b) + "." + y
    ensures a == b && x == y
  {
    var s := Digits(a) + "." + x;
    assert s[..|Digits(a)|] == Digits(a) && s[|Digits(a)|] == '.';
    assert s[..|Digits(b)|] == Digits(b) && s[|Digits(b)|] == '.';
    SpanDigitsUnique(s, |Digits(a)|);
    SpanDigitsUnique(s, |Digits(b)|);
    DigitsValueOfDigits(a);
    DigitsValueOfDigits(b);
    assert x == s[|Digits(a)| + 1..] && y == s[|Digits(b)| + 1..];
  }

  // ── Sizes ──────────────────────────────────────────────────────────

  /** `str::len`. */
  function Utf8Size(s: string): (n: nat)
    ensures n >= |s|
  {
    if s == "" then 0 else Utf8Width(s[0]) + Utf8Size(s[1..])
  }

  lemma {:induction false} Utf8SizeConcat(a: string, b: string)
    ensures Utf8Size(a + b) == Utf8Size(a) + Utf8Size(b)
  {
    if a == "" {
      assert a + b == b;
    } else {
      assert (a + b)[1..] == a[1..] + b;
      Utf8SizeConcat(a[1..], b);
    }
  }

  /** Byte count and character count agree exactly on ASCII text. */
  lemma {:induction false} Utf8SizeIsLengthIffAscii(s: string)
    ensures Utf8Size(s) == |s| <==> forall c :: c in s ==> IsAscii(c)
  {
    if s != "" {
      Utf8SizeIsLengthIffAscii(s[1..]);
      assert forall c :: c in s <==> c == s[0] || c in s[1..];
      assert IsAscii(s[0]) <==> Utf8Width(s[0]) == 1;
      assert s[0] in s;
    }
  }

  /** Trimming leaves text alone when neither end is white space. */
  lemma TrimIdentity(s: string)
    requires s != "" && !IsWhitespace(s[0]) && !IsWhitespace(s[|s| - 1])
    ensures Trim(s) == s
  {
  }

  predicate AllWhitespace(s: string) {
    forall j :: 0 <= j < |s| ==> IsWhitespace(s[j])
  }

  /** Text is its trimmed part between runs of white space. */
  lemma TrimSplits(s: string) returns (a: string, b: string)
    ensures s == a + Trim(s) + b && AllWhitespace(a) && AllWhitespace(b)
  {
    var t := TrimStart(s);
    TrimStartCuts(s);
    TrimEndCuts(t);
    a, b := EndsAround(s, t, TrimEnd(t));
  }

  lemma EndsAround(s: string, t: string, r: string) returns (a: string, b: string)
    requires |t| <= |s| && t == s[|s| - |t|..] && r <= t
    requires forall j :: 0 <= j < |s| - |t| ==> IsWhitespace(s[j])
    requires forall j :: |r| <= j < |t| ==> IsWhitespace(t[j])
    ensures s == a + r + b && AllWhitespace(a) && AllWhitespace(b)
  {
    a, b := s[..|s| - |t|], t[|r|..];
    assert s == a + t && t == r + b;
  }

  lemma TrimUnique(a: string, core: string, b: string)
    requires AllWhitespace(a) && AllWhitespace(b)
    requires core != "" && !IsWhitespace(core[0]) && !IsWhitespace(core[|core| - 1])
    ensures Trim(a + core + b) == core
  {
    var t := core + b;
    assert a + core + b == a + t && t[0] == core[0];
    TrimStartSkips(a, t);
    TrimEndSkips(core, b);
  }

  lemma {:induction false} TrimStartSkips(a: string, t: string)
    requires AllWhitespace(a) && t != "" && !IsWhitespace(t[0])
    ensures TrimStart(a + t) == t
  {
    if a == "" {
      assert a + t == t;
    } else {
      assert (a + t)[1..] == a[1..] + t;
      TrimStartSkips(a[1..], t);
    }
  }

  lemma {:induction false} TrimEndSkips(t: string, b: string)
    requires AllWhitespace(b) && t != "" && !IsWhitespace(t[|t| - 1])
    ensures TrimEnd(t + b) == t
  {
    if b == "" {
      assert t + b == t;
    } else {
      assert (t + b)[..|t + b| - 1] == t + b[..|b| - 1];
      TrimEndSkips(t, b[..|b| - 1]);
    }
  }
}
