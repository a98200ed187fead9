/** An observer from a snapshot to watching live: the text of its latest join or
    rebuild, from a buffer that holds the session without its credentials,
    followed by the frames the broadcast gives it, in any run of the protocol. */
module Live {
  import opened Text
  import opened Guacamole
  import opened BaseState
  import opened ReplayBuffer
  import opened Observer
  import Broadcast

  // ── What the buffer holds of a session ─────────────────────────────

  /** What pushes leave in the buffer's history: each text redacted, and those of
      which nothing is left not stored at all. */
  function Stored(texts: seq<string>): seq<string> {
    if texts == [] then []
    else
      var text := FilterSensitive(texts[0]);
      if text == "" then Stored(texts[1..]) else [text] + Stored(texts[1..])
  }

  function Redacted(chunks: seq<seq<Instr>>): seq<seq<Instr>> {
    if chunks == [] then []
    else
      var chunk := Select(NotCredential, chunks[0]);
      if chunk == [] then Redacted(chunks[1..]) else [chunk] + Redacted(chunks[1..])
  }

  lemma PrintAllEmpty(xs: seq<Instr>)
    ensures PrintAll(xs) == "" <==> xs == []
  {
    if xs != [] {
      assert |Print(xs[0])| > 0;
    }
  }

  lemma PrintFramesCons(chunk: seq<Instr>, chunks: seq<seq<Instr>>)
    ensures PrintFrames([chunk] + chunks) == [PrintAll(chunk)] + PrintFrames(chunks)
  {
  }

  /** What is stored of printed chunks is the printed form of the redacted ones. */
  lemma {:induction false} StoredIsRedacted(chunks: seq<seq<Instr>>)
    requires AllWhole(Flatten(chunks))
    ensures Stored(PrintFrames(chunks)) == PrintFrames(Redacted(chunks))
  {
    if chunks != [] {
      var chunk, rest := Select(NotCredential, chunks[0]), chunks[1..];
      assert forall i :: i in chunks[0] || i in Flatten(rest) ==> i in Flatten(chunks);
      assert PrintFrames(chunks)[1..] == PrintFrames(rest);
      FilterOfPrint(chunks[0]);
      PrintAllEmpty(chunk);
      StoredIsRedacted(rest);
      PrintFramesCons(chunk, Redacted(rest));
    }
  }

  lemma {:induction false} FlattenRedacted(chunks: seq<seq<Instr>>)
    ensures Flatten(Redacted(chunks)) == Select(NotCredential, Flatten(chunks))
  {
    if chunks != [] {
      FlattenRedacted(chunks[1..]);
      SelectConcat(NotCredential, chunks[0], Flatten(chunks[1..]));
      var chunk, rest := Select(NotCredential, chunks[0]), Redacted(chunks[1..]);
      assert chunk != [] ==> ([chunk] + rest)[1..] == rest;
    }
  }

  /** Keep-alives, echoed input and the handshake draw nothing. */
  ghost predicate OnlyDrawingDraws<C(!new)>(draw: (C, Instr) -> C) {
    InputDrawsNothing(draw) && forall c: C, i: Instr :: i.opcode in {"connect", "args"} ==> draw(c, i) == c
  }

  lemma {:induction false} BackOfRedacted<C(!new)>(draw: (C, Instr) -> C, c: Client<C>, d: Client<C>, xs: seq<Instr>)
    requires OnlyDrawingDraws(draw) && c.back == d.back
    ensures Feed(draw, c, xs).back == Feed(draw, d, Select(NotCredential, xs)).back
    decreases |xs|
  {
    if xs != [] {
      var c' := Step(draw, c, xs[0]);
      if NotCredential(xs[0]) {
        BackOfRedacted(draw, c', Step(draw, d, xs[0]), xs[1..]);
        assert Select(NotCredential, xs)[1..] == Select(NotCredential, xs[1..]);
      } else {
        assert c'.back == c.back;
        BackOfRedacted(draw, c', d, xs[1..]);
      }
    }
  }

  /** What shows the redacted chunks shows the chunks. */
  lemma RedactedShows<C(!new)>(draw: (C, Instr) -> C, c: Client<C>, chunks: seq<seq<Instr>>, text: string)
    requires OnlyDrawingDraws(draw) && ShowsTheSession(draw, c, Redacted(chunks), text)
    ensures ShowsTheSession(draw, c, chunks, text)
  {
    FlattenRedacted(chunks);
    BackOfRedacted(draw, c, c, Flatten(chunks));
  }

  // ── The text of a snapshot ─────────────────────────────────────────

  /** A join that dumps `m` frames and paces the rest, or a rebuild with its sync. */
  datatype Opening = Joined(m: nat) | Rebuilt(sync: Instr)

  predicate Fits(opening: Opening, frames: seq<Frame>) {
    match opening
    case Joined(m) => m <= |frames|
    case Rebuilt(sync) => sync.opcode == "sync"
  }

  function OpeningText(log: seq<string>, frames: seq<Frame>, opening: Opening): string
    requires Fits(opening, frames)
  {
    match opening
    case Joined(m) => JoinText(log, frames, m)
    case Rebuilt(sync) => Concat(log) + (StrippedText(Data(frames)) + Print(sync))
  }

  /** The buffer was fed the printed chunks `fed`, keeps all of their log, and has
      none over age at `now`. */
  ghost predicate Holds(fed: seq<seq<Instr>>, frames: seq<Frame>, log: seq<string>, now: int) {
    && AllWhole(Flatten(fed)) && SyncsTimed(Flatten(fed)) && Stale(frames, now) == 0
    && exists evicted: nat :: Consistent(Salvage, frames, log, Stored(PrintFrames(fed)), evicted, 0)
  }

  lemma RebuildTextShows<C(!new)>(draw: (C, Instr) -> C, c: Client<C>, kept: seq<seq<Instr>>, j: nat, sync: Instr)
    requires InputDrawsNothing(draw) && AllWhole(Flatten(kept)) && SyncsTimed(Flatten(kept))
    requires sync.opcode == "sync" && j <= |kept|
    ensures ShowsTheSession(draw, c, kept, Concat(FlatMap(Salvage, PrintFrames(kept[..j])))
                                         + (StrippedText(PrintFrames(kept[j..])) + Print(sync)))
  {
    var gone, ring := TwoSlices(kept, j);
    RebuiltPartsShow(draw, c, gone, ring, sync);
  }

  lemma TwoSlices(kept: seq<seq<Instr>>, j: nat) returns (gone: seq<seq<Instr>>, ring: seq<seq<Instr>>)
    requires j <= |kept| && AllWhole(Flatten(kept)) && SyncsTimed(Flatten(kept))
    ensures gone == kept[..j] && ring == kept[j..] && kept == gone + ring
    ensures AllWhole(Flatten(gone)) && AllWhole(Flatten(ring)) && SyncsTimed(Flatten(ring))
  {
    var none;
    gone, ring, none := ThreeSlices(kept, j, |kept|);
    assert kept[j..|kept|] == kept[j..];
  }

  lemma RebuiltPartsShow<C(!new)>(draw: (C, Instr) -> C, c: Client<C>, gone: seq<seq<Instr>>, ring: seq<seq<Instr>>,
                                  sync: Instr)
    requires InputDrawsNothing(draw) && AllWhole(Flatten(gone)) && AllWhole(Flatten(ring))
    requires SyncsTimed(Flatten(ring)) && sync.opcode == "sync"
    ensures ShowsTheSession(draw, c, gone + ring, Concat(FlatMap(Salvage, PrintFrames(gone)))
                                                + (StrippedText(PrintFrames(ring)) + Print(sync)))
  {
    RebuildShowsTheSession(draw, c, gone, ring, sync);
  }

  lemma RebuildShows<C(!new)>(draw: (C, Instr) -> C, c: Client<C>, kept: seq<seq<Instr>>, frames: seq<Frame>,
                              log: seq<string>, evicted: nat, sync: Instr)
    requires InputDrawsNothing(draw) && AllWhole(Flatten(kept)) && SyncsTimed(Flatten(kept)) && sync.opcode == "sync"
    requires Consistent(Salvage, frames, log, PrintFrames(kept), evicted, 0)
    ensures ShowsTheSession(draw, c, kept, OpeningText(log, frames, Rebuilt(sync)))
  {
    SnapshotParts(Salvage, kept, frames, log, evicted, 0);
    assert Data(frames)[0..] == Data(frames) && kept[evicted + 0..] == kept[evicted..];
    RebuildTextShows(draw, c, kept, evicted, sync);
  }

  lemma KeptShows<C(!new)>(draw: (C, Instr) -> C, c: Client<C>, kept: seq<seq<Instr>>, frames: seq<Frame>,
                           log: seq<string>, evicted: nat, now: int, opening: Opening)
    requires InputDrawsNothing(draw) && AllWhole(Flatten(kept)) && SyncsTimed(Flatten(kept)) && Fits(opening, frames)
    requires Consistent(Salvage, frames, log, PrintFrames(kept), evicted, 0) && Stale(frames, now) == 0
    ensures ShowsTheSession(draw, c, kept, OpeningText(log, frames, opening))
  {
    match opening
    case Joined(m) => SnapshotShowsTheSession(draw, c, kept, frames, log, evicted, now, m);
    case Rebuilt(sync) => RebuildShows(draw, c, kept, frames, log, evicted, sync);
  }

  /** A snapshot of either kind shows the chunks pushed, credentials and all. */
  lemma OpeningShows<C(!new)>(draw: (C, Instr) -> C, c: Client<C>, fed: seq<seq<Instr>>, frames: seq<Frame>,
                              log: seq<string>, now: int, opening: Opening)
    requires OnlyDrawingDraws(draw) && Holds(fed, frames, log, now) && Fits(opening, frames)
    ensures ShowsTheSession(draw, c, fed, OpeningText(log, frames, opening))
  {
    var evicted: nat :| Consistent(Salvage, frames, log, Stored(PrintFrames(fed)), evicted, 0);
    StoredIsRedacted(fed);
    FlattenRedacted(fed);
    KeptShows(draw, c, Redacted(fed), frames, log, evicted, now, opening);
    RedactedShows(draw, c, fed, OpeningText(log, frames, opening));
  }

  // ── Then live ──────────────────────────────────────────────────────

  /** Frames sent as they are, after what has been sent. */
  lemma ThenShows<C(!new)>(draw: (C, Instr) -> C, c: Client<C>, before: seq<seq<Instr>>, text: string,
                           live: seq<seq<Instr>>)
    requires ShowsTheSession(draw, c, before, text)
    ensures ShowsTheSession(draw, c, before + live, text + Concat(PrintFrames(live)))
  {
    var xs :| text == PrintAll(xs) && ReadAll(Bytes, text) == Some(xs)
           && Feed(draw, c, xs).back == Feed(draw, c, Flatten(before)).back;
    var ys := Flatten(live);
    PrintFramesText(live);
    PrintAllConcat(xs, ys);
    ReadPrinted(xs + ys);
    FlattenConcat(before, live);
    FeedConcat(draw, c, xs, ys);
    FeedConcat(draw, c, Flatten(before), ys);
    FeedForgetsVisible(draw, Feed(draw, c, xs), Feed(draw, c, Flatten(before)), ys);
  }

  /** What an observer has been sent since its latest snapshot: that, and then the
      chunks from `from` up to `reached` as they were. */
  function SentText(chunks: seq<seq<Instr>>, frames: seq<Frame>, log: seq<string>, opening: Opening,
                    from: nat, reached: nat): string
    requires Fits(opening, frames) && from <= reached <= |chunks|
  {
    OpeningText(log, frames, opening) + Concat(PrintFrames(chunks[from..reached]))
  }

  /** The text sent shows the first `base` chunks and then those from `from`, which
      is the session when nothing is repeated. */
  ghost predicate Watched<C(!new)>(draw: (C, Instr) -> C, c: Client<C>, chunks: seq<seq<Instr>>, text: string,
                                   base: nat, from: nat, reached: nat)
  {
    && from <= base <= |chunks| && from <= reached <= |chunks|
    && ShowsTheSession(draw, c, chunks[..base] + chunks[from..reached], text)
    && (from == base ==> ShowsTheSession(draw, c, chunks[..reached], text))
  }

  lemma Rejoin(chunks: seq<seq<Instr>>, base: nat, reached: nat)
    requires base <= reached <= |chunks|
    ensures chunks[..base] + chunks[base..reached] == chunks[..reached]
  {
  }

  lemma ThenWatched<C(!new)>(draw: (C, Instr) -> C, c: Client<C>, chunks: seq<seq<Instr>>, text: string,
                             base: nat, from: nat, reached: nat)
    requires from <= base <= |chunks| && from <= reached <= |chunks|
    requires ShowsTheSession(draw, c, chunks[..base], text)
    ensures Watched(draw, c, chunks, text + Concat(PrintFrames(chunks[from..reached])), base, from, reached)
  {
    ThenShows(draw, c, chunks[..base], text, chunks[from..reached]);
    if from == base {
      Rejoin(chunks, base, reached);
    }
  }

  /** End to end, in every run: what an observer has been sent since its latest
      snapshot, a join or a rebuild, until its latest receive leaves the client
      with the back buffer of the session's chunks up to the snapshot and then
      those broadcast since, drawn over what the client had at the snapshot.
      After a join at most one chunk is among both. */
  lemma LiveObserverShows<C(!new)>(draw: (C, Instr) -> C, c: Client<C>, chunks: seq<seq<Instr>>,
                                   frames: seq<Frame>, log: seq<string>, now: int, opening: Opening,
                                   states: seq<Broadcast.State>, actions: seq<Broadcast.Action>, k: nat, id: nat)
    returns (o: Broadcast.Observer)
    requires Broadcast.Watching(states, actions, id, k) && OnlyDrawingDraws(draw) && Fits(opening, frames)
    requires states[k].observers[id].rebuilt == opening.Rebuilt?
    requires states[k].observers[id].base <= |chunks| && states[k].observers[id].reached <= |chunks|
    requires Holds(chunks[..states[k].observers[id].base], frames, log, now)
    ensures o == states[k].observers[id] && o.from <= o.reached <= |chunks|
    ensures Watched(draw, c, chunks, SentText(chunks, frames, log, opening, o.from, o.reached),
                    o.base, o.from, o.reached)
    ensures opening.Joined? ==> o.base <= o.from + 1
  {
    o := states[k].observers[id];
    Broadcast.NothingIsLost(states, actions, k, id);
    OpeningShows(draw, c, chunks[..o.base], frames, log, now, opening);
    ThenWatched(draw, c, chunks, OpeningText(log, frames, opening), o.base, o.from, o.reached);
  }
}
