/** The base-state dump an observer receives: frames with their syncs stripped
    and one sync at the end, against what a Guacamole client would have shown
    had it been sent the frames as they were. */
module BaseState {
  import opened Text
  import opened Guacamole

  // ── The client ─────────────────────────────────────────────────────

  /** Drawing goes to the back buffer; a sync makes it visible. */
  datatype Client<C> = Client(back: C, visible: C)

  function Step<C>(draw: (C, Instr) -> C, c: Client<C>, i: Instr): Client<C> {
    if i.opcode == "sync" then c.(visible := c.back) else c.(back := draw(c.back, i))
  }

  function Feed<C>(draw: (C, Instr) -> C, c: Client<C>, xs: seq<Instr>): Client<C>
    decreases |xs|
  {
    if xs == [] then c else Feed(draw, Step(draw, c, xs[0]), xs[1..])
  }

  /** Every canvas the client makes visible on the way. */
  function Shown<C>(draw: (C, Instr) -> C, c: Client<C>, xs: seq<Instr>): seq<C>
    decreases |xs|
  {
    if xs == [] then []
    else (if xs[0].opcode == "sync" then [c.back] else []) + Shown(draw, Step(draw, c, xs[0]), xs[1..])
  }

  lemma {:induction false} FeedConcat<C>(draw: (C, Instr) -> C, c: Client<C>, xs: seq<Instr>, ys: seq<Instr>)
    ensures Feed(draw, c, xs + ys) == Feed(draw, Feed(draw, c, xs), ys)
    ensures Shown(draw, c, xs + ys) == Shown(draw, c, xs) + Shown(draw, Feed(draw, c, xs), ys)
    decreases |xs|
  {
    if xs == [] {
      assert xs + ys == ys;
    } else {
      assert (xs + ys)[1..] == xs[1..] + ys;
      FeedConcat(draw, Step(draw, c, xs[0]), xs[1..], ys);
    }
  }

  predicate IsDraw(i: Instr) {
    i.opcode != "sync"
  }

  /** The back buffer depends on the drawing instructions alone. */
  lemma {:induction false} BackIgnoresSyncs<C>(draw: (C, Instr) -> C, c: Client<C>, d: Client<C>, xs: seq<Instr>)
    requires c.back == d.back
    ensures Feed(draw, c, xs).back == Feed(draw, d, Select(IsDraw, xs)).back
    ensures Feed(draw, d, Select(IsDraw, xs)).visible == d.visible
    ensures Shown(draw, d, Select(IsDraw, xs)) == []
    decreases |xs|
  {
    if xs != [] {
      var c' := Step(draw, c, xs[0]);
      if IsDraw(xs[0]) {
        BackIgnoresSyncs(draw, c', Step(draw, d, xs[0]), xs[1..]);
        assert Select(IsDraw, xs)[1..] == Select(IsDraw, xs[1..]);
      } else {
        BackIgnoresSyncs(draw, c', d, xs[1..]);
        assert Select(IsDraw, xs) == Select(IsDraw, xs[1..]);
      }
    }
  }

  // ── Stripping ──────────────────────────────────────────────────────

  /** The test `observe_session_ws` applies to a piece. */
  predicate SyncLike(piece: string) {
    var t := Trim(piece);
    "4.sync," <= t || t == "4.sync"
  }

  predicate Stripped(piece: string) {
    !Blank(piece) && !SyncLike(piece)
  }

  /** A sync the text test recognises: one that carries an argument. */
  predicate TimedSync(i: Instr) {
    i.opcode == "sync" && i.args != []
  }

  predicate NotTimedSync(i: Instr) {
    !TimedSync(i)
  }

  function LastPiece(p: string -> bool, pieces: seq<string>, prior: Option<string>): Option<string> {
    if pieces == [] then prior
    else LastPiece(p, pieces[1..], if p(pieces[0]) then Some(pieces[0]) else prior)
  }

  predicate SyncPiece(piece: string) {
    !Blank(piece) && SyncLike(piece)
  }

  lemma KeepFrom(p: string -> bool, pieces: seq<string>, k: nat)
    requires k < |pieces|
    ensures Keep(p, pieces[k..]) ==
            if p(pieces[k]) then pieces[k] + Keep(p, pieces[k + 1..]) else Keep(p, pieces[k + 1..])
  {
    assert pieces[k..][1..] == pieces[k + 1..];
  }

  lemma LastPieceFrom(p: string -> bool, pieces: seq<string>, k: nat, prior: Option<string>)
    requires k < |pieces|
    ensures LastPiece(p, pieces[k..], prior) ==
            LastPiece(p, pieces[k + 1..], if p(pieces[k]) then Some(pieces[k]) else prior)
  {
    assert pieces[k..][1..] == pieces[k + 1..];
  }

  lemma Associates(a: string, b: string, c: string)
    ensures a + (b + c) == a + b + c
  {
  }

  /** The inner loop over one frame. */
  method StripFrame(frame: string, last: Option<string>) returns (stripped: string, last': Option<string>)
    ensures stripped == Keep(Stripped, Pieces(frame))
    ensures last' == LastPiece(SyncPiece, Pieces(frame), last)
  {
    var pieces := Pieces(frame);
    stripped, last' := "", last;
    for k := 0 to |pieces|
      invariant stripped + Keep(Stripped, pieces[k..]) == Keep(Stripped, pieces)
      invariant LastPiece(SyncPiece, pieces[k..], last') == LastPiece(SyncPiece, pieces, last)
    {
      KeepFrom(Stripped, pieces, k);
      LastPieceFrom(SyncPiece, pieces, k, last');
      var inst := pieces[k];
      var trimmed := Trim(inst);
      if trimmed == "" {
      } else if "4.sync," <= trimmed || trimmed == "4.sync" {
        last' := Some(inst);
      } else {
        Associates(stripped, inst, Keep(Stripped, pieces[k + 1..]));
        stripped := stripped + inst;
      }
    }
    assert pieces[|pieces|..] == [];
  }

  function Concat(messages: seq<string>): string {
    if messages == [] then "" else messages[0] + Concat(messages[1..])
  }

  lemma {:induction false} ConcatSnoc(messages: seq<string>, m: string)
    ensures Concat(messages + [m]) == Concat(messages) + m
  {
    if messages == [] {
      assert messages + [m] == [m];
      assert Concat([m]) == m + Concat([]);
    } else {
      assert (messages + [m])[1..] == messages[1..] + [m];
      ConcatSnoc(messages[1..], m);
    }
  }

  /** What the dump sends for `frames`, as one text. */
  function StrippedText(frames: seq<string>): string {
    if frames == [] then "" else Keep(Stripped, Pieces(frames[0])) + StrippedText(frames[1..])
  }

  function LastSync(frames: seq<string>, prior: Option<string>): Option<string> {
    if frames == [] then prior else LastSync(frames[1..], LastPiece(SyncPiece, Pieces(frames[0]), prior))
  }

  function DumpText(frames: seq<string>): string {
    var last := LastSync(frames, None);
    StrippedText(frames) + if last.Some? then last.value else ""
  }

  lemma {:induction false} StrippedTextSnoc(frames: seq<string>, frame: string)
    ensures StrippedText(frames + [frame]) == StrippedText(frames) + Keep(Stripped, Pieces(frame))
  {
    var kept := Keep(Stripped, Pieces(frame));
    if frames == [] {
      assert frames + [frame] == [frame];
      assert StrippedText([frame]) == kept + StrippedText([]) == kept;
    } else {
      var first := Keep(Stripped, Pieces(frames[0]));
      assert (frames + [frame])[1..] == frames[1..] + [frame];
      StrippedTextSnoc(frames[1..], frame);
      assert first + (StrippedText(frames[1..]) + kept) == first + StrippedText(frames[1..]) + kept;
    }
  }

  lemma {:induction false} LastSyncSnoc(frames: seq<string>, frame: string, prior: Option<string>)
    ensures LastSync(frames + [frame], prior) == LastPiece(SyncPiece, Pieces(frame), LastSync(frames, prior))
  {
    if frames == [] {
      assert frames + [frame] == [frame];
      assert [frame][1..] == [];
    } else {
      assert (frames + [frame])[1..] == frames[1..] + [frame];
      LastSyncSnoc(frames[1..], frame, LastPiece(SyncPiece, Pieces(frames[0]), prior));
    }
  }

  /** `socket.send`, skipped for an empty message. */
  function Send(sent: seq<string>, m: string): (r: seq<string>)
    ensures Concat(r) == Concat(sent) + m
    ensures (forall x :: x in sent ==> x != "") ==> forall x :: x in r ==> x != ""
  {
    ConcatSnoc(sent, m);
    if m == "" then sent else sent + [m]
  }

  /** The text sent and the last sync seen after the frames `done`. */
  ghost predicate Dumped(done: seq<string>, text: string, last: Option<string>) {
    text == StrippedText(done) && last == LastSync(done, None)
  }

  lemma DumpedNext(done: seq<string>, frame: string, text: string, last: Option<string>)
    requires Dumped(done, text, last)
    ensures Dumped(done + [frame], text + Keep(Stripped, Pieces(frame)), LastPiece(SyncPiece, Pieces(frame), last))
  {
    StrippedTextSnoc(done, frame);
    LastSyncSnoc(done, frame, None);
  }

  /** Phase 1a: each frame's remaining instructions as one message, empty ones
      skipped, then the last sync seen. */
  method Dump(frames: seq<string>) returns (sent: seq<string>)
    ensures Concat(sent) == DumpText(frames)
    ensures forall m :: m in sent ==> m != ""
  {
    sent := [];
    var last: Option<string> := None;
    for k := 0 to |frames|
      invariant Dumped(frames[..k], Concat(sent), last)
      invariant forall m :: m in sent ==> m != ""
    {
      DumpedNext(frames[..k], frames[k], Concat(sent), last);
      assert frames[..k + 1] == frames[..k] + [frames[k]];
      var stripped;
      stripped, last := StripFrame(frames[k], last);
      sent := Send(sent, stripped);
    }
    assert frames[..|frames|] == frames;
    if last.Some? {
      sent := Send(sent, last.value);
    }
  }

  // ── What the text test decides ─────────────────────────────────────

  lemma SyncElement()
    ensures Element("sync") == "4.sync"
  {
    assert Utf8Size("sync") == 4 by {
      Utf8SizeIsLengthIffAscii("sync");
    }
    assert Digits(4) == "4";
  }

  /** A printed instruction begins with an opcode's element and a comma exactly
      when that is its opcode and it has arguments. */
  lemma PrefixNames(i: Instr, op: string, text: string)
    requires Whole(i) && Plain(op) && Plain(text) && text == Element(op)
    ensures text + "," <= Print(i) <==> i.opcode == op && i.args != []
    ensures Print(i) != text
  {
    var s := Print(i);
    PrintShape(i);
    HeadOfPrint(i, op);
    if i.opcode == op {
      AfterOpcode(i);
      assert s[..|text|] == text;
      assert text + "," <= s <==> s[|text|] == ',';
    } else if text + "," <= s {
      assert s == text + s[|text|..];
      HeadCut(text, s[|text|..]);
      assert false;
    }
  }

  /** On whole instructions the test finds exactly the syncs that carry an
      argument. */
  lemma SyncLikeOfPrint(i: Instr)
    requires Whole(i)
    ensures !Blank(Print(i))
    ensures SyncLike(Print(i)) <==> TimedSync(i)
  {
    PrintShape(i);
    SyncElement();
    PrefixNames(i, "sync", "4.sync");
    assert "4.sync" + "," == "4.sync,";
  }

  // ── Meaning of the dump ────────────────────────────────────────────

  /** Frames made of printed instructions. */
  function PrintFrames(frames: seq<seq<Instr>>): (r: seq<string>)
    ensures |r| == |frames|
    ensures forall j :: 0 <= j < |frames| ==> r[j] == PrintAll(frames[j])
  {
    seq(|frames|, j requires 0 <= j < |frames| => PrintAll(frames[j]))
  }

  function Flatten(frames: seq<seq<Instr>>): seq<Instr> {
    if frames == [] then [] else frames[0] + Flatten(frames[1..])
  }

  function LastTimed(xs: seq<Instr>, prior: Option<Instr>): Option<Instr> {
    if xs == [] then prior else LastTimed(xs[1..], if TimedSync(xs[0]) then Some(xs[0]) else prior)
  }

  function Printed(i: Option<Instr>): Option<string> {
    if i.None? then None else Some(Print(i.value))
  }

  lemma {:induction false} LastPieceOfPrint(xs: seq<Instr>, prior: Option<Instr>)
    requires AllWhole(xs)
    ensures LastPiece(SyncPiece, Pieces(PrintAll(xs)), Printed(prior)) == Printed(LastTimed(xs, prior))
  {
    if xs != [] {
      PiecesOfPrint(xs[0], PrintAll(xs[1..]));
      SyncLikeOfPrint(xs[0]);
      var pieces := Pieces(PrintAll(xs));
      assert pieces[0] == Print(xs[0]) && pieces[1..] == Pieces(PrintAll(xs[1..]));
      LastPieceOfPrint(xs[1..], if TimedSync(xs[0]) then Some(xs[0]) else prior);
    }
  }

  lemma {:induction false} LastTimedConcat(xs: seq<Instr>, ys: seq<Instr>, prior: Option<Instr>)
    ensures LastTimed(xs + ys, prior) == LastTimed(ys, LastTimed(xs, prior))
  {
    if xs == [] {
      assert xs + ys == ys;
    } else {
      assert (xs + ys)[1..] == xs[1..] + ys;
      LastTimedConcat(xs[1..], ys, if TimedSync(xs[0]) then Some(xs[0]) else prior);
    }
  }

  /** The instructions the dump leaves: everything but the timed syncs, then
      the last of those. */
  function DumpInstrs(xs: seq<Instr>): seq<Instr> {
    var last := LastTimed(xs, None);
    Select(NotTimedSync, xs) + if last.Some? then [last.value] else []
  }

  lemma {:induction false} StrippedTextOfPrint(frames: seq<seq<Instr>>, prior: Option<Instr>)
    requires AllWhole(Flatten(frames))
    ensures StrippedText(PrintFrames(frames)) == PrintAll(Select(NotTimedSync, Flatten(frames)))
    ensures LastSync(PrintFrames(frames), Printed(prior)) == Printed(LastTimed(Flatten(frames), prior))
  {
    if frames != [] {
      var xs, more := frames[0], Flatten(frames[1..]);
      assert PrintFrames(frames)[1..] == PrintFrames(frames[1..]);
      assert forall i :: i in xs ==> i in Flatten(frames);
      assert forall i :: i in more ==> i in Flatten(frames);
      forall i | i in xs ensures Stripped(Print(i)) == NotTimedSync(i) {
        SyncLikeOfPrint(i);
      }
      KeepCommutes(Stripped, NotTimedSync, xs);
      LastPieceOfPrint(xs, prior);
      StrippedTextOfPrint(frames[1..], LastTimed(xs, prior));
      SelectConcat(NotTimedSync, xs, more);
      PrintAllConcat(Select(NotTimedSync, xs), Select(NotTimedSync, more));
      LastTimedConcat(xs, more, prior);
    }
  }

  /** The dumped text is the printed form of `DumpInstrs`, so a reader recovers
      exactly those instructions from it. */
  lemma DumpReadsBack(frames: seq<seq<Instr>>)
    requires AllWhole(Flatten(frames))
    ensures DumpText(PrintFrames(frames)) == PrintAll(DumpInstrs(Flatten(frames)))
    ensures ReadAll(Bytes, DumpText(PrintFrames(frames))) == Some(DumpInstrs(Flatten(frames)))
  {
    var xs := Flatten(frames);
    StrippedTextOfPrint(frames, None);
    var last := LastTimed(xs, None);
    PrintAllConcat(Select(NotTimedSync, xs), if last.Some? then [last.value] else []);
    if last.Some? {
      assert PrintAll([last.value]) == Print(last.value) + PrintAll([]);
    }
    ReadPrinted(DumpInstrs(xs));
  }

  predicate SyncsTimed(xs: seq<Instr>) {
    forall i :: i in xs && i.opcode == "sync" ==> i.args != []
  }

  predicate HasSync(xs: seq<Instr>) {
    exists i :: i in xs && i.opcode == "sync"
  }

  lemma {:induction false} SelectCongruence(p: Instr -> bool, q: Instr -> bool, xs: seq<Instr>)
    requires forall i :: i in xs ==> p(i) == q(i)
    ensures Select(p, xs) == Select(q, xs)
  {
    if xs != [] {
      SelectCongruence(p, q, xs[1..]);
    }
  }

  lemma {:induction false} LastTimedWhen(xs: seq<Instr>, prior: Option<Instr>)
    requires SyncsTimed(xs)
    ensures LastTimed(xs, prior).Some? <==> prior.Some? || HasSync(xs)
    ensures var r := LastTimed(xs, prior); r.Some? && r != prior ==> TimedSync(r.value) && r.value in xs
    ensures prior.Some? && TimedSync(prior.value) ==>
              LastTimed(xs, prior).Some? && TimedSync(LastTimed(xs, prior).value)
  {
    if xs != [] {
      assert forall i :: i in xs <==> i == xs[0] || i in xs[1..];
      LastTimedWhen(xs[1..], if TimedSync(xs[0]) then Some(xs[0]) else prior);
    }
  }

  lemma DumpInstrsTimed(xs: seq<Instr>)
    requires SyncsTimed(xs)
    ensures HasSync(xs) ==> LastTimed(xs, None).Some? &&
                            LastTimed(xs, None).value.opcode == "sync" &&
                            DumpInstrs(xs) == Select(IsDraw, xs) + [LastTimed(xs, None).value]
    ensures !HasSync(xs) ==> DumpInstrs(xs) == Select(IsDraw, xs)
  {
    SelectCongruence(NotTimedSync, IsDraw, xs);
    LastTimedWhen(xs, None);
  }

  lemma FeedSync<C>(draw: (C, Instr) -> C, c: Client<C>, i: Instr)
    requires i.opcode == "sync"
    ensures Feed(draw, c, [i]) == c.(visible := c.back)
    ensures Shown(draw, c, [i]) == [c.back]
  {
    assert Feed(draw, c, [i]) == Feed(draw, Step(draw, c, i), []);
    assert Shown(draw, c, [i]) == [c.back] + Shown(draw, Step(draw, c, i), []);
  }

  /** The base-state dump preserves meaning: under every drawing semantics the
      back buffer is that of the frames as they were, nothing intermediate is
      shown, and exactly one sync is sent if the frames held any. */
  lemma DumpPreservesMeaning<C>(draw: (C, Instr) -> C, c: Client<C>, xs: seq<Instr>)
    requires SyncsTimed(xs)
    ensures var full, dumped := Feed(draw, c, xs), Feed(draw, c, DumpInstrs(xs));
            && dumped.back == full.back
            && Shown(draw, c, DumpInstrs(xs)) == (if HasSync(xs) then [full.back] else [])
            && dumped.visible == (if HasSync(xs) then full.back else c.visible)
  {
    BackIgnoresSyncs(draw, c, c, xs);
    DumpInstrsTimed(xs);
    if HasSync(xs) {
      var last := LastTimed(xs, None).value;
      FeedConcat(draw, c, Select(IsDraw, xs), [last]);
      FeedSync(draw, Feed(draw, c, Select(IsDraw, xs)), last);
    }
  }

  /** When the frames end in a sync the dump leaves the client exactly as the
      frames would have. */
  lemma DumpOfFlushedFrames<C>(draw: (C, Instr) -> C, c: Client<C>, xs: seq<Instr>, sync: Instr)
    requires SyncsTimed(xs + [sync]) && sync.opcode == "sync"
    ensures Feed(draw, c, DumpInstrs(xs + [sync])) == Feed(draw, c, xs + [sync])
  {
    assert sync in xs + [sync];
    DumpPreservesMeaning(draw, c, xs + [sync]);
    FeedConcat(draw, c, xs, [sync]);
    FeedSync(draw, Feed(draw, c, xs), sync);
  }

  lemma RebuildText(xs: seq<Instr>, sync: Instr)
    ensures PrintAll(xs) + Print(sync) == PrintAll(xs + [sync])
    ensures ReadAll(Bytes, PrintAll(xs) + Print(sync)) == Some(xs + [sync])
  {
    assert PrintAll([sync]) == Print(sync) + PrintAll([]) == Print(sync);
    PrintAllConcat(xs, [sync]);
    ReadPrinted(xs + [sync]);
  }

  /** The frames of a rebuild after a lag, which ends with a sync of its own: the
      client shows their back buffer at once and nothing before it. */
  lemma RebuildFlushes<C>(draw: (C, Instr) -> C, c: Client<C>, frames: seq<seq<Instr>>, sync: Instr)
    requires AllWhole(Flatten(frames)) && SyncsTimed(Flatten(frames)) && sync.opcode == "sync"
    ensures var full := Feed(draw, c, Flatten(frames));
            var sent := Select(NotTimedSync, Flatten(frames)) + [sync];
            && StrippedText(PrintFrames(frames)) + Print(sync) == PrintAll(sent)
            && Feed(draw, c, sent) == Client(full.back, full.back)
            && Shown(draw, c, sent) == [full.back]
  {
    var xs := Flatten(frames);
    var body := Select(NotTimedSync, xs);
    StrippedTextOfPrint(frames, None);
    RebuildText(body, sync);
    SelectCongruence(NotTimedSync, IsDraw, xs);
    BackIgnoresSyncs(draw, c, c, xs);
    FeedConcat(draw, c, body, [sync]);
    FeedSync(draw, Feed(draw, c, body), sync);
  }

  /** A sync without arguments is printed as `4.sync;`, which the text test
      does not recognise: the stripped part of the dump is free of syncs
      exactly when every sync carries an argument. */
  lemma ArgumentlessSyncSurvives(frames: seq<seq<Instr>>)
    requires AllWhole(Flatten(frames))
    ensures exists body ::
              && ReadAll(Bytes, StrippedText(PrintFrames(frames))) == Some(body)
              && (HasSync(body) <==> !SyncsTimed(Flatten(frames)))
  {
    var xs := Flatten(frames);
    StrippedTextOfPrint(frames, None);
    var body := Select(NotTimedSync, xs);
    ReadPrinted(body);
    if !SyncsTimed(xs) {
      var i :| i in xs && i.opcode == "sync" && i.args == [];
      assert i in body;
    }
  }

  // ── Pieces that are not instructions ───────────────────────────────

  lemma {:induction false} KeepLength(p: string -> bool, pieces: seq<string>)
    requires forall q :: q in pieces ==> q != ""
    ensures |Keep(p, pieces)| <= |Concat(pieces)|
    ensures Keep(p, pieces) == Concat(pieces) <==> forall q :: q in pieces ==> p(q)
  {
    if pieces != [] {
      var first, rest := pieces[0], pieces[1..];
      assert forall q :: q in pieces <==> q == first || q in rest;
      assert first in pieces;
      KeepLength(p, rest);
      if p(first) {
        assert Keep(p, pieces) == Concat(pieces) <==> Keep(p, rest) == Concat(rest) by {
          assert Keep(p, pieces)[|first|..] == Keep(p, rest) && Concat(pieces)[|first|..] == Concat(rest);
        }
      } else {
        assert |Keep(p, pieces)| < |Concat(pieces)|;
      }
    }
  }

  lemma ConcatCons(m: string, messages: seq<string>)
    ensures Concat([m] + messages) == m + Concat(messages)
  {
    assert ([m] + messages)[1..] == messages;
  }

  lemma {:induction false} PiecesCover(s: string)
    ensures Concat(Pieces(s)) == s
    ensures forall q :: q in Pieces(s) ==> q != ""
    decreases |s|
  {
    if s != "" {
      var k := Find(s, {';'});
      if k < |s| {
        var first, rest := s[..k + 1], s[k + 1..];
        PiecesCover(rest);
        ConcatCons(first, Pieces(rest));
        assert s == first + rest;
      } else {
        ConcatCons(s, []);
        assert [s] + [] == [s];
      }
    }
  }

  /** For any text at all, stripping leaves it alone exactly when no piece
      between semicolons is blank or looks like a sync. */
  lemma StripIsIdentityIff(s: string)
    ensures Keep(Stripped, Pieces(s)) == s <==> forall q :: q in Pieces(s) ==> Stripped(q)
  {
    PiecesCover(s);
    KeepLength(Stripped, Pieces(s));
  }

  lemma TornPrint(op: string, a: string, b: string, mark: string)
    ensures var arg := a + ";" + mark + b;
            Print(Instr(op, [arg])) ==
              (Element(op) + "," + Digits(Utf8Size(arg)) + "." + a + ";") + (mark + b + ";")
  {
    var arg := a + ";" + mark + b;
    assert [arg][1..] == [];
    assert PrintArgs([arg]) == "," + Element(arg) + PrintArgs([]);
  }

  /** An instruction whose argument holds `;4.sync,` loses the part of it that
      follows, whatever the instruction. */
  lemma SemicolonTearsAnInstruction(op: string, a: string, b: string, mark: string)
    requires mark == "4.sync,"
    requires ';' !in op && ';' !in a && ';' !in b
    ensures var i := Instr(op, [a + ";" + mark + b]);
            Keep(Stripped, Pieces(Print(i))) != Print(i)
  {
    var arg := a + ";" + mark + b;
    var i := Instr(op, [arg]);
    var cut, q := Element(op) + "," + Digits(Utf8Size(arg)) + "." + a + ";", mark + b + ";";
    TornPrint(op, a, b, mark);
    ElementHasNoSemicolon(op);
    PiecesCut(cut, q);
    PiecesCut(q, "");
    assert q + "" == q;
    assert q in Pieces(Print(i));
    TrimIdentity(q);
    assert mark <= q;
    StripIsIdentityIff(Print(i));
  }
}
