/** The Guacamole wire format: the instruction printer, length-prefixed
    readers of it, and the `split_inclusive(';')` passes that filter frames
    without reading lengths. */
module Guacamole {
  import opened Text

  datatype Instr = Instr(opcode: string, args: seq<string>)

  // ── Printer ────────────────────────────────────────────────────────

  function Element(e: string): string {
    Digits(Utf8Size(e)) + "." + e
  }

  function PrintArgs(args: seq<string>): string {
    if args == [] then "" else "," + Element(args[0]) + PrintArgs(args[1..])
  }

  function Print(i: Instr): string {
    Element(i.opcode) + PrintArgs(i.args) + ";"
  }

  function PrintAll(xs: seq<Instr>): string {
    if xs == [] then "" else Print(xs[0]) + PrintAll(xs[1..])
  }

  /** `format_guac_inst`: the opcode, then each argument, each behind its
      byte length. */
  method FormatGuacInst(opcode: string, args: seq<string>) returns (out: string)
    ensures out == Print(Instr(opcode, args))
    ensures ReadAll(Bytes, out) == Some([Instr(opcode, args)])
  {
    out := Digits(Utf8Size(opcode)) + "." + opcode;
    for k := 0 to |args|
      invariant out + PrintArgs(args[k..]) == Element(opcode) + PrintArgs(args)
    {
      PrintArgsFrom(args, k, out);
      out := out + ("," + Digits(Utf8Size(args[k])) + "." + args[k]);
    }
    assert args[|args|..] == [];
    assert out + PrintArgs([]) == out;
    out := out + ";";
    ReadOnePrinted(Instr(opcode, args));
  }

  lemma PrintArgsFrom(args: seq<string>, k: nat, out: string)
    requires k < |args|
    ensures out + PrintArgs(args[k..]) ==
            out + ("," + Digits(Utf8Size(args[k])) + "." + args[k]) + PrintArgs(args[k + 1..])
  {
    assert args[k..][1..] == args[k + 1..];
  }

  lemma ReadOnePrinted(i: Instr)
    ensures ReadAll(Bytes, Print(i)) == Some([i])
  {
    assert PrintAll([i]) == Print(i) + PrintAll([]) == Print(i);
    ReadPrinted([i]);
  }

  // ── Readers ────────────────────────────────────────────────────────

  /** What a reader takes an element's length to count. */
  datatype Unit = Bytes | Chars

  function Width(u: Unit, c: char): (w: nat)
    ensures 1 <= w
  {
    if u == Bytes then Utf8Width(c) else 1
  }

  function Size(u: Unit, s: string): nat {
    if u == Bytes then Utf8Size(s) else |s|
  }

  /** How many characters of `s` make up exactly `n` units. */
  function Take(u: Unit, s: string, n: nat): (k: Option<nat>)
    ensures k.Some? ==> k.value <= |s|
  {
    if n == 0 then Some(0)
    else if s == "" || Width(u, s[0]) > n then None
    else match Take(u, s[1..], n - Width(u, s[0]))
         case None => None
         case Some(k) => Some(k + 1)
  }

  /** One `<length>.<text>` element and the rest of the input. */
  function ReadElement(u: Unit, s: string): (r: Option<(string, string)>)
    ensures r.Some? ==> |r.value.1| < |s|
  {
    var k := SpanDigits(s);
    if k == 0 || k == |s| || s[k] != '.' then None
    else
      var body := s[k + 1..];
      match Take(u, body, DigitsValue(s[..k]))
      case None => None
      case Some(n) => Some((body[..n], body[n..]))
  }

  /** The elements up to and including the closing `;`. */
  function ReadElements(u: Unit, s: string): (r: Option<(seq<string>, string)>)
    ensures r.Some? ==> r.value.0 != [] && |r.value.1| < |s|
    decreases |s|
  {
    match ReadElement(u, s)
    case None => None
    case Some((e, rest)) =>
      if rest == "" then None
      else if rest[0] == ';' then Some(([e], rest[1..]))
      else if rest[0] == ',' then
        match ReadElements(u, rest[1..])
        case None => None
        case Some((es, tail)) => Some(([e] + es, tail))
      else None
  }

  function ReadAll(u: Unit, s: string): Option<seq<Instr>>
    decreases |s|
  {
    if s == "" then Some([])
    else match ReadElements(u, s)
         case None => None
         case Some((es, rest)) =>
           match ReadAll(u, rest)
           case None => None
           case Some(xs) => Some([Instr(es[0], es[1..])] + xs)
  }

  function Elements(i: Instr): seq<string> {
    [i.opcode] + i.args
  }

  /** The printed lengths are what a reader counting in `u` expects. */
  predicate Measured(u: Unit, es: seq<string>) {
    forall e :: e in es ==> Size(u, e) == Utf8Size(e)
  }

  lemma {:induction false} TakeExact(u: Unit, e: string, rest: string)
    ensures Take(u, e + rest, Size(u, e)) == Some(|e|)
  {
    if e == "" {
      assert Size(u, e) == 0;
    } else {
      assert (e + rest)[1..] == e[1..] + rest;
      TakeExact(u, e[1..], rest);
    }
  }

  /** A longer count never stops at the end of `e`. */
  lemma {:induction false} TakeBeyond(u: Unit, e: string, rest: string, n: nat)
    requires n > Size(u, e)
    ensures Take(u, e + rest, n) != Some(|e|)
  {
    if e == "" {
      assert e + rest == rest;
    } else {
      assert (e + rest)[1..] == e[1..] + rest;
      if Width(u, e[0]) <= n {
        TakeBeyond(u, e[1..], rest, n - Width(u, e[0]));
      }
    }
  }

  /** Reading back one printed element recovers it exactly when the reader's
      unit measures it as the printer did. */
  lemma ReadElementPrinted(u: Unit, e: string, rest: string)
    ensures Size(u, e) == Utf8Size(e) ==> ReadElement(u, Element(e) + rest) == Some((e, rest))
    ensures Size(u, e) != Utf8Size(e) ==>
              var r := ReadElement(u, Element(e) + rest);
              r.Some? ==> r.value.0 != e
  {
    var s := Element(e) + rest;
    var k := |Digits(Utf8Size(e))|;
    assert s[..k] == Digits(Utf8Size(e)) && s[k] == '.' && s[k + 1..] == e + rest;
    SpanDigitsUnique(s, k);
    DigitsValueOfDigits(Utf8Size(e));
    if Size(u, e) == Utf8Size(e) {
      TakeExact(u, e, rest);
      assert (e + rest)[..|e|] == e && (e + rest)[|e|..] == rest;
    } else {
      TakeBeyond(u, e, rest, Utf8Size(e));
      var taken := Take(u, e + rest, Utf8Size(e));
      assert taken.Some? ==> |(e + rest)[..taken.value]| != |e|;
    }
  }

  function PrintElements(es: seq<string>): string
    requires es != []
  {
    Element(es[0]) + PrintArgs(es[1..]) + ";"
  }

  lemma PrintElementsUnfold(es: seq<string>, rest: string)
    requires es != []
    ensures PrintElements(es) + rest ==
            Element(es[0]) + (if |es| == 1 then ";" + rest else "," + (PrintElements(es[1..]) + rest))
  {
    if |es| > 1 {
      assert es[1..][1..] == es[2..];
    }
  }

  lemma ReadLastElement(u: Unit, s: string, e: string, tail: string)
    requires ReadElement(u, s) == Some((e, ";" + tail))
    ensures ReadElements(u, s) == Some(([e], tail))
  {
    assert (";" + tail)[1..] == tail;
  }

  lemma ReadNextElement(u: Unit, s: string, e: string, tail: string)
    requires ReadElement(u, s) == Some((e, "," + tail))
    ensures ReadElements(u, s) == match ReadElements(u, tail)
                                  case None => None
                                  case Some((es, rest)) => Some(([e] + es, rest))
  {
    assert ("," + tail)[1..] == tail;
  }

  lemma ReadElementsHead(u: Unit, s: string)
    ensures ReadElements(u, s).Some? ==>
              ReadElement(u, s).Some? && ReadElements(u, s).value.0[0] == ReadElement(u, s).value.0
  {
  }

  lemma ReadLastPrinted(u: Unit, e: string, rest: string)
    requires Size(u, e) == Utf8Size(e)
    ensures ReadElements(u, Element(e) + (";" + rest)) == Some(([e], rest))
  {
    ReadElementPrinted(u, e, ";" + rest);
    ReadLastElement(u, Element(e) + (";" + rest), e, rest);
  }

  lemma ReadNextPrinted(u: Unit, e: string, tail: string, more: seq<string>, rest: string)
    requires Size(u, e) == Utf8Size(e) && ReadElements(u, tail) == Some((more, rest))
    ensures ReadElements(u, Element(e) + ("," + tail)) == Some(([e] + more, rest))
  {
    ReadElementPrinted(u, e, "," + tail);
    ReadNextElement(u, Element(e) + ("," + tail), e, tail);
  }

  lemma {:induction false} ReadElementsMeasured(u: Unit, es: seq<string>, rest: string)
    requires es != [] && Measured(u, es)
    ensures ReadElements(u, PrintElements(es) + rest) == Some((es, rest))
  {
    PrintElementsUnfold(es, rest);
    if |es| == 1 {
      assert es == [es[0]];
      ReadLastPrinted(u, es[0], rest);
    } else {
      var e, more := es[0], es[1..];
      assert es == [e] + more;
      ReadElementsMeasured(u, more, rest);
      ReadNextPrinted(u, e, PrintElements(more) + rest, more, rest);
    }
  }

  lemma {:induction false} ReadElementsMismeasured(u: Unit, es: seq<string>, rest: string)
    requires es != [] && !Measured(u, es)
    ensures var r := ReadElements(u, PrintElements(es) + rest);
            r.Some? ==> r.value.0 != es
  {
    var s := PrintElements(es) + rest;
    PrintElementsUnfold(es, rest);
    if Size(u, es[0]) != Utf8Size(es[0]) {
      ReadElementPrinted(u, es[0], if |es| == 1 then ";" + rest else "," + (PrintElements(es[1..]) + rest));
      ReadElementsHead(u, s);
    } else {
      var tail := PrintElements(es[1..]) + rest;
      assert es == [es[0]] + es[1..];
      ReadElementPrinted(u, es[0], "," + tail);
      ReadElementsMismeasured(u, es[1..], rest);
      ReadOtherElements(u, s, es, tail);
    }
  }

  lemma ReadOtherElements(u: Unit, s: string, es: seq<string>, tail: string)
    requires es != [] && ReadElement(u, s) == Some((es[0], "," + tail))
    requires ReadElements(u, tail).Some? ==> ReadElements(u, tail).value.0 != es[1..]
    ensures ReadElements(u, s).Some? ==> ReadElements(u, s).value.0 != es
  {
    ReadNextElement(u, s, es[0], tail);
    var r := ReadElements(u, tail);
    if r.Some? {
      assert ([es[0]] + r.value.0)[1..] == r.value.0;
    }
  }

  /** Unique decodability: the byte-counting reader recovers every printed
      instruction sequence, whatever bytes the elements hold. */
  lemma {:induction false} ReadPrinted(xs: seq<Instr>)
    ensures ReadAll(Bytes, PrintAll(xs)) == Some(xs)
  {
    ReadPrintedIffMeasured(Bytes, xs);
  }

  /** A reader counting characters, as Guacamole's own does, recovers the
      sequence exactly when every element is ASCII. */
  lemma CharReaderNeedsAscii(xs: seq<Instr>)
    ensures ReadAll(Chars, PrintAll(xs)) == Some(xs)
       <==> forall i, e, c :: i in xs && e in Elements(i) && c in e ==> IsAscii(c)
  {
    ReadPrintedIffMeasured(Chars, xs);
    forall i, e | i in xs && e in Elements(i)
      ensures Size(Chars, e) == Utf8Size(e) <==> forall c :: c in e ==> IsAscii(c)
    {
      Utf8SizeIsLengthIffAscii(e);
    }
  }

  lemma ReadAllMeasured(u: Unit, s: string, i: Instr, rest: string, more: seq<Instr>)
    requires s != "" && ReadElements(u, s) == Some((Elements(i), rest))
    ensures ReadAll(u, s) == Some([i] + more) <==> ReadAll(u, rest) == Some(more)
  {
    assert Elements(i)[1..] == i.args;
    var r := ReadAll(u, rest);
    if r.Some? {
      assert ReadAll(u, s) == Some([i] + r.value);
      assert ([i] + r.value)[1..] == r.value && ([i] + more)[1..] == more;
    }
  }

  lemma ReadAllMismeasured(u: Unit, s: string, i: Instr, more: seq<Instr>)
    requires s != "" && (ReadElements(u, s).Some? ==> ReadElements(u, s).value.0 != Elements(i))
    ensures ReadAll(u, s) != Some([i] + more)
  {
    var r := ReadElements(u, s);
    if r.Some? && ReadAll(u, r.value.1).Some? {
      var got := r.value.0;
      assert got == Elements(Instr(got[0], got[1..]));
      assert ReadAll(u, s).value[0] == Instr(got[0], got[1..]);
      assert ([i] + more)[0] == i;
    }
  }

  lemma {:induction false} ReadPrintedIffMeasured(u: Unit, xs: seq<Instr>)
    ensures ReadAll(u, PrintAll(xs)) == Some(xs) <==> forall i :: i in xs ==> Measured(u, Elements(i))
  {
    if xs != [] {
      var i, more := xs[0], xs[1..];
      var es := Elements(i);
      assert es[0] == i.opcode && es[1..] == i.args;
      assert PrintAll(xs) == PrintElements(es) + PrintAll(more);
      ReadPrintedIffMeasured(u, more);
      assert xs == [i] + more;
      assert forall j :: j in xs <==> j == i || j in more;
      if Measured(u, es) {
        ReadElementsMeasured(u, es, PrintAll(more));
        ReadAllMeasured(u, PrintAll(xs), i, PrintAll(more), more);
      } else {
        ReadElementsMismeasured(u, es, PrintAll(more));
        ReadAllMismeasured(u, PrintAll(xs), i, more);
      }
    }
  }

  /** Two instruction sequences never print alike. */
  lemma PrintAllInjective(xs: seq<Instr>, ys: seq<Instr>)
    requires PrintAll(xs) == PrintAll(ys)
    ensures xs == ys
  {
    ReadPrinted(xs);
    ReadPrinted(ys);
  }

  lemma {:induction false} PrintAllConcat(xs: seq<Instr>, ys: seq<Instr>)
    ensures PrintAll(xs + ys) == PrintAll(xs) + PrintAll(ys)
  {
    if xs == [] {
      assert xs + ys == ys;
    } else {
      assert (xs + ys)[1..] == xs[1..] + ys;
      PrintAllConcat(xs[1..], ys);
    }
  }

  // ── `split_inclusive(';')` passes ──────────────────────────────────

  function Pieces(s: string): seq<string> {
    if s == "" then []
    else
      var k := Find(s, {';'});
      if k == |s| then [s] else [s[..k + 1]] + Pieces(s[k + 1..])
  }

  /** The pieces `p` accepts, concatenated: what each filtering pass pushes. */
  function Keep(p: string -> bool, pieces: seq<string>): string {
    if pieces == [] then ""
    else if p(pieces[0]) then pieces[0] + Keep(p, pieces[1..])
    else Keep(p, pieces[1..])
  }

  function Select(p: Instr -> bool, xs: seq<Instr>): (r: seq<Instr>)
    ensures forall i :: i in r <==> i in xs && p(i)
  {
    if xs == [] then []
    else if p(xs[0]) then [xs[0]] + Select(p, xs[1..])
    else Select(p, xs[1..])
  }

  lemma {:induction false} SelectConcat(p: Instr -> bool, xs: seq<Instr>, ys: seq<Instr>)
    ensures Select(p, xs + ys) == Select(p, xs) + Select(p, ys)
  {
    if xs == [] {
      assert xs + ys == ys;
    } else {
      assert (xs + ys)[1..] == xs[1..] + ys;
      SelectConcat(p, xs[1..], ys);
    }
  }

  /** No element holds the `;` that `split_inclusive` cuts at, and the opcode
      has a length a `usize` can hold. */
  predicate Whole(i: Instr) {
    (forall e :: e in Elements(i) ==> ';' !in e) && Utf8Size(i.opcode) < 0x1_0000_0000_0000_0000
  }

  predicate AllWhole(xs: seq<Instr>) {
    forall i :: i in xs ==> Whole(i)
  }

  lemma ElementHasNoSemicolon(e: string)
    requires ';' !in e
    ensures ';' !in Element(e)
  {
  }

  lemma {:induction false} PrintArgsHasNoSemicolon(args: seq<string>)
    requires forall a :: a in args ==> ';' !in a
    ensures ';' !in PrintArgs(args)
  {
    if args != [] {
      ElementHasNoSemicolon(args[0]);
      PrintArgsHasNoSemicolon(args[1..]);
    }
  }

  /** A whole instruction has one `;`, its last character, and trims to itself. */
  lemma PrintShape(i: Instr)
    requires Whole(i)
    ensures Print(i) != "" && Print(i)[|Print(i)| - 1] == ';'
    ensures ';' !in Print(i)[..|Print(i)| - 1]
    ensures Trim(Print(i)) == Print(i)
  {
    assert i.opcode in Elements(i) && forall a :: a in i.args ==> a in Elements(i);
    ElementHasNoSemicolon(i.opcode);
    PrintArgsHasNoSemicolon(i.args);
    var body := Element(i.opcode) + PrintArgs(i.args);
    assert Print(i)[..|Print(i)| - 1] == body;
    assert Print(i)[0] == Digits(Utf8Size(i.opcode))[0];
    assert IsDigit(Print(i)[0]);
    TrimIdentity(Print(i));
  }

  lemma PiecesCut(t: string, rest: string)
    requires t != "" && t[|t| - 1] == ';' && ';' !in t[..|t| - 1]
    ensures Pieces(t + rest) == [t] + Pieces(rest)
  {
    var s, k := t + rest, |t| - 1;
    assert forall j :: 0 <= j < k ==> s[j] == t[..k][j];
    FindUnique(s, {';'}, k);
    assert s[..k + 1] == t && s[k + 1..] == rest;
  }

  lemma PiecesOfPrint(i: Instr, rest: string)
    requires Whole(i)
    ensures Pieces(Print(i) + rest) == [Print(i)] + Pieces(rest)
  {
    PrintShape(i);
    PiecesCut(Print(i), rest);
  }

  /** Filtering the pieces of printed instructions is filtering the
      instructions, for any text test `p` that decides `q`. */
  lemma {:induction false} KeepCommutes(p: string -> bool, q: Instr -> bool, xs: seq<Instr>)
    requires AllWhole(xs)
    requires forall i :: i in xs ==> p(Print(i)) == q(i)
    ensures Keep(p, Pieces(PrintAll(xs))) == PrintAll(Select(q, xs))
  {
    if xs != [] {
      PiecesOfPrint(xs[0], PrintAll(xs[1..]));
      var pieces := Pieces(PrintAll(xs));
      assert pieces[0] == Print(xs[0]) && pieces[1..] == Pieces(PrintAll(xs[1..]));
      KeepCommutes(p, q, xs[1..]);
      if q(xs[0]) {
        assert Select(q, xs)[1..] == Select(q, xs[1..]);
      }
    }
  }

  // ── Recognising an opcode in a piece ───────────────────────────────

  /** A piece up to its first `,` or `;`. */
  function Head(s: string): string {
    s[..Find(s, {',', ';'})]
  }

  predicate Plain(op: string) {
    ',' !in op && ';' !in op
  }

  lemma HeadCut(a: string, rest: string)
    requires Plain(a) && rest != "" && rest[0] in {',', ';'}
    ensures Head(a + rest) == a
  {
    var s := a + rest;
    assert forall j :: 0 <= j < |a| ==> s[j] == a[j];
    FindUnique(s, {',', ';'}, |a|);
  }

  lemma CutAtComma(code: string) returns (a: string, b: string)
    requires ';' !in code
    ensures code == a + b && Plain(a) && (b != "" <==> ',' in code)
    ensures b != "" ==> b[0] == ','
    ensures Utf8Size(code) == Utf8Size(a) + Utf8Size(b)
  {
    var k := Find(code, {',', ';'});
    a, b := code[..k], code[k..];
    Utf8SizeConcat(a, b);
    assert code == a + b;
  }

  lemma RegroupPrint(numeral: string, a: string, b: string, args: string)
    ensures numeral + "." + (a + b) + args + ";" == numeral + "." + (a + (b + (args + ";")))
  {
  }

  /** A printed instruction cut where its opcode meets the first `,` or `;`. */
  lemma OpcodeCut(i: Instr) returns (a: string, b: string, rest: string)
    requires Whole(i)
    ensures i.opcode == a + b && Plain(a) && (b != "" <==> ',' in i.opcode)
    ensures rest != "" && rest[0] in {',', ';'}
    ensures Print(i) == Digits(Utf8Size(i.opcode)) + "." + (a + rest)
    ensures Utf8Size(i.opcode) == Utf8Size(a) + Utf8Size(b)
  {
    assert i.opcode in Elements(i);
    a, b := CutAtComma(i.opcode);
    var args := PrintArgs(i.args);
    assert (args + ";")[0] in {',', ';'};
    rest := b + (args + ";");
    RegroupPrint(Digits(Utf8Size(i.opcode)), a, b, args);
  }

  /** The head of a printed instruction names `op` exactly when its opcode is
      `op`, even if the opcode itself holds a comma. */
  lemma HeadOfPrint(i: Instr, op: string)
    requires Whole(i) && Plain(op)
    ensures Head(Print(i)) == Element(op) <==> i.opcode == op
  {
    var a, b, rest := OpcodeCut(i);
    var n := Utf8Size(i.opcode);
    var numeral := Digits(n);
    assert Plain(numeral + "." + a);
    assert Print(i) == numeral + "." + a + rest;
    HeadCut(numeral + "." + a, rest);
    if numeral + "." + a == Element(op) {
      NumeralDotUnique(n, a, Utf8Size(op), op);
    }
    if i.opcode == op {
      assert b == "";
    }
  }

  lemma AfterOpcode(i: Instr)
    ensures Element(i.opcode) < Print(i)
    ensures Print(i)[|Element(i.opcode)|] == ',' <==> i.args != []
  {
    assert Print(i)[|Element(i.opcode)|..] == PrintArgs(i.args) + ";";
  }
}
