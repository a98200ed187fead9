/** What an observer's client ends up showing after joining: the salvaged log,
    the base-state dump and the paced frames, against the session's own stream. */
module Observer {
  import opened Text
  import opened Guacamole
  import opened BaseState
  import opened ReplayBuffer

  // ── The text passes on whole instructions ──────────────────────────

  predicate Lasting(i: Instr) {
    i.opcode !in {"sync", "nop", "key", "mouse"}
  }

  predicate NotCredential(i: Instr) {
    i.opcode !in {"connect", "args"}
  }

  lemma AsciiElement(op: string, text: string)
    requires |op| < 10 && forall c :: c in op ==> IsAscii(c)
    requires text == [DigitChar(|op|)] + "." + op
    ensures Element(op) == text
  {
    Utf8SizeIsLengthIffAscii(op);
  }

  lemma SalvageableOfPrint(i: Instr)
    requires Whole(i)
    ensures Salvageable(Print(i)) <==> Lasting(i)
  {
    PrintShape(i);
    HeadNames(i, "sync", "4.sync");
    HeadNames(i, "nop", "3.nop");
    HeadNames(i, "key", "3.key");
    HeadNames(i, "mouse", "5.mouse");
  }

  lemma HeadNames(i: Instr, op: string, text: string)
    requires Whole(i) && Plain(op)
    requires 0 < |op| < 10 && forall c :: c in op ==> IsAscii(c)
    requires text == [DigitChar(|op|)] + "." + op
    ensures Head(Print(i)) == text <==> i.opcode == op
  {
    AsciiElement(op, text);
    HeadOfPrint(i, op);
  }

  lemma ParseAfterNumeral(n: nat, rest: string)
    requires n < 0x1_0000_0000_0000_0000
    ensures ParseOpcode(Digits(n) + "." + rest) == if Utf8Size(Head(rest)) == n then Some(Head(rest)) else None
  {
    var numeral := Digits(n);
    var s := numeral + "." + rest;
    assert s[..|numeral|] == numeral && s[|numeral|] == '.' && s[|numeral| + 1..] == rest;
    assert forall j :: 0 <= j < |numeral| ==> s[j] == numeral[j];
    FindUnique(s, {'.'}, |numeral|);
    DigitsValueOfDigits(n);
    assert numeral[0] != '+';
    assert ParseUsize(numeral) == Some(n);
  }

  /** The filter reads the opcode back out of a printed instruction, unless a
      comma in it hides its length. */
  lemma ParseOpcodeOfPrint(i: Instr)
    requires Whole(i)
    ensures ParseOpcode(Print(i)) == if ',' in i.opcode then None else Some(i.opcode)
  {
    var a, b, rest := OpcodeCut(i);
    ParseAfterNumeral(Utf8Size(i.opcode), a + rest);
    HeadCut(a, rest);
    assert b == "" ==> a == i.opcode;
  }

  lemma KeptByFilterOfPrint(i: Instr)
    requires Whole(i)
    ensures KeptByFilter(Print(i)) <==> NotCredential(i)
  {
    PrintShape(i);
    ParseOpcodeOfPrint(i);
    if ',' in i.opcode {
      assert i.opcode != "connect" && i.opcode != "args";
    }
  }

  /** Redaction on text is redaction on instructions. */
  lemma FilterOfPrint(xs: seq<Instr>)
    requires AllWhole(xs)
    ensures FilterSensitive(PrintAll(xs)) == PrintAll(Select(NotCredential, xs))
  {
    forall i | i in xs ensures KeptByFilter(Print(i)) == NotCredential(i) {
      KeptByFilterOfPrint(i);
    }
    KeepCommutes(KeptByFilter, NotCredential, xs);
  }

  lemma {:induction false} ConcatChosen(p: string -> bool, pieces: seq<string>)
    ensures Concat(Chosen(p, pieces)) == Keep(p, pieces)
  {
    if pieces != [] {
      ConcatChosen(p, pieces[1..]);
      if p(pieces[0]) {
        assert Chosen(p, pieces)[1..] == Chosen(p, pieces[1..]);
      }
    }
  }

  lemma {:induction false} ConcatConcat(a: seq<string>, b: seq<string>)
    ensures Concat(a + b) == Concat(a) + Concat(b)
  {
    if a == [] {
      assert a + b == b;
    } else {
      assert (a + b)[1..] == a[1..] + b;
      ConcatConcat(a[1..], b);
    }
  }

  /** Salvage on text is the choice of lasting instructions. */
  lemma {:induction false} SalvageOfPrint(chunks: seq<seq<Instr>>)
    requires AllWhole(Flatten(chunks))
    ensures Concat(FlatMap(Salvage, PrintFrames(chunks))) == PrintAll(Select(Lasting, Flatten(chunks)))
  {
    if chunks != [] {
      var xs, more := chunks[0], Flatten(chunks[1..]);
      assert PrintFrames(chunks)[1..] == PrintFrames(chunks[1..]);
      assert forall i :: i in xs ==> i in Flatten(chunks);
      assert forall i :: i in more ==> i in Flatten(chunks);
      forall i | i in xs ensures Salvageable(Print(i)) == Lasting(i) {
        SalvageableOfPrint(i);
      }
      KeepCommutes(Salvageable, Lasting, xs);
      ConcatChosen(Salvageable, Pieces(PrintAll(xs)));
      SalvageOfPrint(chunks[1..]);
      ConcatConcat(Salvage(PrintAll(xs)), FlatMap(Salvage, PrintFrames(chunks[1..])));
      SelectConcat(Lasting, xs, more);
      PrintAllConcat(Select(Lasting, xs), Select(Lasting, more));
    }
  }

  // ── The stream a joining observer is sent ──────────────────────────

  lemma {:induction false} PrintFramesText(chunks: seq<seq<Instr>>)
    ensures Concat(PrintFrames(chunks)) == PrintAll(Flatten(chunks))
  {
    if chunks != [] {
      assert PrintFrames(chunks)[1..] == PrintFrames(chunks[1..]);
      PrintFramesText(chunks[1..]);
      PrintAllConcat(chunks[0], Flatten(chunks[1..]));
    }
  }

  lemma {:induction false} FlattenConcat(a: seq<seq<Instr>>, b: seq<seq<Instr>>)
    ensures Flatten(a + b) == Flatten(a) + Flatten(b)
  {
    if a == [] {
      assert a + b == b;
    } else {
      assert (a + b)[1..] == a[1..] + b;
      FlattenConcat(a[1..], b);
    }
  }

  /** The instructions sent for chunks evicted, dumped and paced. */
  function JoinInstrs(evicted: seq<seq<Instr>>, dumped: seq<seq<Instr>>, paced: seq<seq<Instr>>): seq<Instr> {
    Select(Lasting, Flatten(evicted)) + DumpInstrs(Flatten(dumped)) + Flatten(paced)
  }

  /** Log, dump and paced frames read back as exactly `JoinInstrs`. */
  lemma JoinReadsBack(evicted: seq<seq<Instr>>, dumped: seq<seq<Instr>>, paced: seq<seq<Instr>>)
    requires AllWhole(Flatten(evicted)) && AllWhole(Flatten(dumped)) && AllWhole(Flatten(paced))
    ensures var text := Concat(FlatMap(Salvage, PrintFrames(evicted)))
                      + DumpText(PrintFrames(dumped)) + Concat(PrintFrames(paced));
            && text == PrintAll(JoinInstrs(evicted, dumped, paced))
            && ReadAll(Bytes, text) == Some(JoinInstrs(evicted, dumped, paced))
  {
    SalvageOfPrint(evicted);
    DumpReadsBack(dumped);
    PrintFramesText(paced);
    var a, b, c := Select(Lasting, Flatten(evicted)), DumpInstrs(Flatten(dumped)), Flatten(paced);
    PrintAllConcat(a, b);
    PrintAllConcat(a + b, c);
    ReadPrinted(a + b + c);
  }

  // ── Meaning ────────────────────────────────────────────────────────

  /** Keep-alives and echoed input draw nothing. */
  ghost predicate InputDrawsNothing<C(!new)>(draw: (C, Instr) -> C) {
    forall c: C, i: Instr :: i.opcode in {"nop", "key", "mouse"} ==> draw(c, i) == c
  }

  lemma {:induction false} BackOfLasting<C(!new)>(draw: (C, Instr) -> C, c: Client<C>, d: Client<C>, xs: seq<Instr>)
    requires InputDrawsNothing(draw) && c.back == d.back
    ensures Feed(draw, c, xs).back == Feed(draw, d, Select(Lasting, xs)).back
    decreases |xs|
  {
    if xs != [] {
      var c' := Step(draw, c, xs[0]);
      if Lasting(xs[0]) {
        BackOfLasting(draw, c', Step(draw, d, xs[0]), xs[1..]);
        assert Select(Lasting, xs)[0] == xs[0];
        assert Select(Lasting, xs)[1..] == Select(Lasting, xs[1..]);
      } else {
        assert c'.back == c.back;
        BackOfLasting(draw, c', d, xs[1..]);
      }
    }
  }

  lemma {:induction false} FeedForgetsVisible<C>(draw: (C, Instr) -> C, c: Client<C>, d: Client<C>, xs: seq<Instr>)
    requires c.back == d.back
    ensures Feed(draw, c, xs).back == Feed(draw, d, xs).back
    ensures HasSync(xs) ==> Feed(draw, c, xs) == Feed(draw, d, xs)
    decreases |xs|
  {
    if xs != [] {
      FeedForgetsVisible(draw, Step(draw, c, xs[0]), Step(draw, d, xs[0]), xs[1..]);
      assert forall i :: i in xs <==> i == xs[0] || i in xs[1..];
    }
  }

  /** A joining observer's canvas is the session's: whatever part of the stream
      was evicted, dumped or paced, the back buffer is that of the whole
      stream, and once a paced frame flushes the clients are identical. */
  lemma JoinShowsTheSession<C(!new)>(draw: (C, Instr) -> C, c: Client<C>,
                                     evicted: seq<seq<Instr>>, dumped: seq<seq<Instr>>, paced: seq<seq<Instr>>)
    requires InputDrawsNothing(draw) && SyncsTimed(Flatten(dumped))
    ensures var whole := Feed(draw, c, Flatten(evicted + dumped + paced));
            var seen := Feed(draw, c, JoinInstrs(evicted, dumped, paced));
            && seen.back == whole.back
            && (HasSync(Flatten(paced)) ==> seen == whole)
            && (Flatten(paced) == [] && HasSync(Flatten(dumped)) ==> seen.visible == whole.back)
  {
    var e, d, p := Flatten(evicted), Flatten(dumped), Flatten(paced);
    FlattenConcat(evicted, dumped);
    FlattenConcat(evicted + dumped, paced);
    FeedConcat(draw, c, e + d, p);
    FeedConcat(draw, c, e, d);
    FeedConcat(draw, c, Select(Lasting, e) + DumpInstrs(d), p);
    FeedConcat(draw, c, Select(Lasting, e), DumpInstrs(d));
    BackOfLasting(draw, c, c, e);
    var full, part := Feed(draw, c, e), Feed(draw, c, Select(Lasting, e));
    DumpPreservesMeaning(draw, part, d);
    FeedForgetsVisible(draw, full, part, d);
    FeedForgetsVisible(draw, Feed(draw, full, d), Feed(draw, part, DumpInstrs(d)), p);
  }

  lemma {:induction false} LastingShowsNothing<C>(draw: (C, Instr) -> C, c: Client<C>, xs: seq<Instr>)
    requires forall i :: i in xs ==> Lasting(i)
    ensures Shown(draw, c, xs) == []
    decreases |xs|
  {
    if xs != [] {
      assert Lasting(xs[0]);
      LastingShowsNothing(draw, Step(draw, c, xs[0]), xs[1..]);
    }
  }

  /** The instructions a rebuild sends: what was salvaged from the chunks that
      left the ring, the ring's without their syncs, and one sync. */
  function RebuildInstrs(evicted: seq<seq<Instr>>, ring: seq<seq<Instr>>, sync: Instr): seq<Instr> {
    Select(Lasting, Flatten(evicted)) + (Select(NotTimedSync, Flatten(ring)) + [sync])
  }

  /** The rebuild after a lag: log, stripped frames and sync read back as
      instructions that show, at once and with nothing before it, the back
      buffer of everything pushed, drawn over what the client had. */
  lemma RebuildShowsTheSession<C(!new)>(draw: (C, Instr) -> C, c: Client<C>,
                                        evicted: seq<seq<Instr>>, ring: seq<seq<Instr>>, sync: Instr)
    requires InputDrawsNothing(draw) && AllWhole(Flatten(evicted)) && AllWhole(Flatten(ring))
    requires SyncsTimed(Flatten(ring)) && sync.opcode == "sync"
    ensures var full := Feed(draw, c, Flatten(evicted + ring));
            var sent := RebuildInstrs(evicted, ring, sync);
            var text := Concat(FlatMap(Salvage, PrintFrames(evicted)))
                      + (StrippedText(PrintFrames(ring)) + Print(sync));
            && text == PrintAll(sent) && ReadAll(Bytes, text) == Some(sent)
            && Feed(draw, c, sent) == Client(full.back, full.back)
            && Shown(draw, c, sent) == [full.back]
  {
    var e, r := Flatten(evicted), Flatten(ring);
    var salvaged, rest := Select(Lasting, e), Select(NotTimedSync, r) + [sync];
    var part := Feed(draw, c, salvaged);
    SalvageOfPrint(evicted);
    RebuildFlushes(draw, part, ring, sync);
    PrintAllConcat(salvaged, rest);
    ReadPrinted(salvaged + rest);
    FeedConcat(draw, c, salvaged, rest);
    LastingShowsNothing(draw, c, salvaged);
    FlattenConcat(evicted, ring);
    FeedConcat(draw, c, e, r);
    BackOfLasting(draw, c, c, e);
    FeedForgetsVisible(draw, Feed(draw, c, e), part, r);
  }

  // ── From the buffer to the canvas ──────────────────────────────────

  lemma FlattenSlice(chunks: seq<seq<Instr>>, lo: nat, hi: nat)
    requires lo <= hi <= |chunks|
    ensures forall i :: i in Flatten(chunks[lo..hi]) ==> i in Flatten(chunks)
  {
    assert chunks == chunks[..lo] + (chunks[lo..hi] + chunks[hi..]);
    FlattenConcat(chunks[..lo], chunks[lo..hi] + chunks[hi..]);
    FlattenConcat(chunks[lo..hi], chunks[hi..]);
  }

  /** The text an observer is sent from a snapshot that dumps `frames[..m]` and
      paces the rest. */
  function JoinText(log: seq<string>, frames: seq<Frame>, m: nat): string
    requires m <= |frames|
  {
    Concat(log) + DumpText(Data(frames)[..m]) + Concat(Data(frames)[m..])
  }

  /** The snapshot's parts are the printed chunks it was fed. */
  lemma SnapshotParts(salvage: string -> seq<string>, chunks: seq<seq<Instr>>,
                      frames: seq<Frame>, log: seq<string>, evicted: nat, m: nat)
    requires Consistent(salvage, frames, log, PrintFrames(chunks), evicted, 0) && m <= |frames|
    ensures evicted + m <= |chunks|
    ensures log == FlatMap(salvage, PrintFrames(chunks[..evicted]))
    ensures Data(frames)[..m] == PrintFrames(chunks[evicted..evicted + m])
    ensures Data(frames)[m..] == PrintFrames(chunks[evicted + m..])
  {
    var texts := PrintFrames(chunks);
    assert texts[..evicted] == PrintFrames(chunks[..evicted]);
    assert texts[evicted..][..m] == PrintFrames(chunks[evicted..evicted + m]);
    assert texts[evicted..][m..] == PrintFrames(chunks[evicted + m..]);
  }

  lemma JoinTextParts(salvage: string -> seq<string>, chunks: seq<seq<Instr>>,
                      frames: seq<Frame>, log: seq<string>, evicted: nat, m: nat)
    requires Consistent(salvage, frames, log, PrintFrames(chunks), evicted, 0) && m <= |frames|
    ensures evicted + m <= |chunks|
    ensures JoinText(log, frames, m) == Concat(FlatMap(salvage, PrintFrames(chunks[..evicted])))
                                      + DumpText(PrintFrames(chunks[evicted..evicted + m]))
                                      + Concat(PrintFrames(chunks[evicted + m..]))
  {
    SnapshotParts(salvage, chunks, frames, log, evicted, m);
  }

  lemma SliceIsWhole(chunks: seq<seq<Instr>>, lo: nat, hi: nat)
    requires lo <= hi <= |chunks| && AllWhole(Flatten(chunks)) && SyncsTimed(Flatten(chunks))
    ensures AllWhole(Flatten(chunks[lo..hi])) && SyncsTimed(Flatten(chunks[lo..hi]))
  {
    FlattenSlice(chunks, lo, hi);
  }

  lemma ThreeSlices(chunks: seq<seq<Instr>>, j: nat, k: nat)
    returns (gone: seq<seq<Instr>>, dumped: seq<seq<Instr>>, paced: seq<seq<Instr>>)
    requires j <= k <= |chunks| && AllWhole(Flatten(chunks)) && SyncsTimed(Flatten(chunks))
    ensures gone == chunks[..j] && dumped == chunks[j..k] && paced == chunks[k..] && chunks == gone + dumped + paced
    ensures AllWhole(Flatten(gone)) && AllWhole(Flatten(dumped)) && AllWhole(Flatten(paced))
    ensures SyncsTimed(Flatten(dumped))
  {
    gone, dumped, paced := chunks[..j], chunks[j..k], chunks[k..];
    SliceIsWhole(chunks, 0, j);
    SliceIsWhole(chunks, j, k);
    SliceIsWhole(chunks, k, |chunks|);
    assert chunks[0..j] == gone && chunks[k..|chunks|] == paced;
    assert chunks == gone + dumped + paced;
  }

  /** `text` is printed instructions, which read back from it, and they leave the
      client's back buffer as `chunks` would. */
  ghost predicate ShowsTheSession<C(!new)>(draw: (C, Instr) -> C, c: Client<C>, chunks: seq<seq<Instr>>, text: string) {
    exists xs ::
      && text == PrintAll(xs) && ReadAll(Bytes, text) == Some(xs)
      && Feed(draw, c, xs).back == Feed(draw, c, Flatten(chunks)).back
  }

  lemma PartsShowTheSession<C(!new)>(draw: (C, Instr) -> C, c: Client<C>, gone: seq<seq<Instr>>,
                                     dumped: seq<seq<Instr>>, paced: seq<seq<Instr>>, text: string)
    requires InputDrawsNothing(draw) && SyncsTimed(Flatten(dumped))
    requires AllWhole(Flatten(gone)) && AllWhole(Flatten(dumped)) && AllWhole(Flatten(paced))
    requires text == Concat(FlatMap(Salvage, PrintFrames(gone)))
                   + DumpText(PrintFrames(dumped)) + Concat(PrintFrames(paced))
    ensures ShowsTheSession(draw, c, gone + dumped + paced, text)
  {
    JoinReadsBack(gone, dumped, paced);
    JoinShowsTheSession(draw, c, gone, dumped, paced);
  }

  lemma SlicesShowTheSession<C(!new)>(draw: (C, Instr) -> C, c: Client<C>, chunks: seq<seq<Instr>>,
                                      j: nat, k: nat, text: string)
    requires InputDrawsNothing(draw) && AllWhole(Flatten(chunks)) && SyncsTimed(Flatten(chunks)) && j <= k <= |chunks|
    requires text == Concat(FlatMap(Salvage, PrintFrames(chunks[..j])))
                   + DumpText(PrintFrames(chunks[j..k])) + Concat(PrintFrames(chunks[k..]))
    ensures ShowsTheSession(draw, c, chunks, text)
  {
    var gone, dumped, paced := ThreeSlices(chunks, j, k);
    PartsShowTheSession(draw, c, gone, dumped, paced, text);
  }

  /** End to end: a buffer fed the chunks of a session, with nothing stale and
      nothing trimmed from its log, sends a joining observer a text whose
      instructions leave the client's back buffer as the whole session would. */
  lemma SnapshotShowsTheSession<C(!new)>(draw: (C, Instr) -> C, c: Client<C>, chunks: seq<seq<Instr>>,
                                         frames: seq<Frame>, log: seq<string>, evicted: nat, now: int, m: nat)
    requires InputDrawsNothing(draw) && AllWhole(Flatten(chunks)) && SyncsTimed(Flatten(chunks))
    requires Consistent(Salvage, frames, log, PrintFrames(chunks), evicted, 0)
    requires Stale(frames, now) == 0 && m <= |frames|
    ensures Fresh(frames, now) == frames
    ensures ShowsTheSession(draw, c, chunks, JoinText(log, frames, m))
  {
    FreshIsSuffix(frames, now);
    JoinTextParts(Salvage, chunks, frames, log, evicted, m);
    SlicesShowTheSession(draw, c, chunks, evicted, evicted + m, JoinText(log, frames, m));
  }
}
