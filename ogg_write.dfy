/** What one Write(path) of the Ogg encoder does, stated over the answers
    the Vorbis/Ogg library gives: the outcome predicate, the invariant of the
    data loop, and the lemmas that carry the invariant from one turn to the
    next. */
module OggWrite {
  import opened Seqs
  import opened Sound
  import opened OggPages
  import opened Trace
  import opened ChunkedReads

  /** The answers the Vorbis/Ogg library gives one Write: the result of
      vorbis_encode_init_vbr (0 is success), the pages ogg_stream_flush
      returns after the three header packets, and, per turn of the data loop,
      the blocks, packets and pages it hands back. */
  datatype Engine = Engine(initResult: int, headerPages: seq<Page>, rounds: seq<Round>)

  /** The library eventually flags an end-of-stream page; without it the
      data loop of Write never ends. */
  predicate Ends(engine: Engine)
  {
    HasEos(StreamPages(engine.rounds))
  }

  const ENCODER_TAG: Tag := ("ENCODER", "Rhythmus-Encoder")

  /** The comment tags: ENCODER always, then TITLE and ARTIST when the
      metadata has them. */
  function CommentTags(metadata: map<string, string>): (tags: seq<Tag>)
    ensures |tags| >= 1 && tags[0] == ENCODER_TAG
    ensures forall v :: ("TITLE", v) in tags <==> "TITLE" in metadata && metadata["TITLE"] == v
    ensures forall v :: ("ARTIST", v) in tags <==> "ARTIST" in metadata && metadata["ARTIST"] == v
    ensures |tags| == 1 + (if "TITLE" in metadata then 1 else 0) + (if "ARTIST" in metadata then 1 else 0)
    ensures "TITLE" in metadata && "ARTIST" in metadata ==> tags[1].0 == "TITLE"
  {
    [ENCODER_TAG]
    + (if "TITLE" in metadata then [("TITLE", metadata["TITLE"])] else [])
    + (if "ARTIST" in metadata then [("ARTIST", metadata["ARTIST"])] else [])
  }

  /** chunks are what successive reads of `request` bytes deliver from
      position p0 of stream: each read starts where the ones before it
      stopped and delivers min(request, bytes left) bytes. */
  ghost predicate FollowsCursor(stream: seq<bv8>, p0: nat, request: nat, chunks: seq<seq<bv8>>)
  {
    if chunks == [] then p0 <= |stream|
    else
      var last := chunks[|chunks| - 1];
      var p := p0 + |Concat(chunks[..|chunks| - 1])|;
      FollowsCursor(stream, p0, request, chunks[..|chunks| - 1]) &&
      |last| == Min(request, |stream| - p) && p + |last| <= |stream| && last == stream[p..p + |last|]
  }

  /** Reads that follow the cursor return the byte counts ChunkedReads.Returns
      gives for as many requests of `request` bytes, and together move the
      cursor by the sum of those counts. */
  lemma {:induction false} CursorReturns(stream: seq<bv8>, p0: nat, request: nat, chunks: seq<seq<bv8>>)
    requires FollowsCursor(stream, p0, request, chunks)
    ensures p0 <= |stream|
    ensures var rs := Returns(|stream|, p0, seq(|chunks|, _ => request));
      |Concat(chunks)| == Sum(rs) && forall k :: 0 <= k < |chunks| ==> |chunks[k]| == rs[k]
  {
    if chunks != [] {
      var n, total := |chunks| - 1, |stream|;
      var sizes := seq(n, _ => request);
      CursorReturns(stream, p0, request, chunks[..n]);
      var rs := Returns(total, p0, sizes);
      assert seq(|chunks|, _ => request) == sizes + [request];
      ReturnsSnoc(total, p0, sizes, request);
      var last := Min(request, total - p0 - Sum(rs));
      SumAppend(rs, [last]);
      assert Sum([last]) == last by { assert [last][1..] == []; }
      forall k | 0 <= k < |chunks| ensures |chunks[k]| == (rs + [last])[k] {
        if k < n {
          assert chunks[..n][k] == chunks[k];
        }
      }
    }
  }

  /** Reads that follow the cursor deliver the stream bytes from p0 on, in order. */
  lemma {:induction false} CursorSlice(stream: seq<bv8>, p0: nat, request: nat, chunks: seq<seq<bv8>>)
    requires FollowsCursor(stream, p0, request, chunks)
    ensures p0 + |Concat(chunks)| <= |stream|
    ensures Concat(chunks) == stream[p0..p0 + |Concat(chunks)|]
  {
    if chunks != [] {
      var n := |chunks| - 1;
      CursorSlice(stream, p0, request, chunks[..n]);
      var p := p0 + |Concat(chunks[..n])|;
      SliceJoin(stream, p0, p, p + |chunks[n]|);
    }
  }

  /** What one Write(path) does, given whether the file opened, the
      library's answers and the cursor position p0 it starts from (p1 is
      where it leaves the cursor, ts the turns its data loop took):
      - no file: fails, nothing logged, no turn;
      - rejected configuration: fails after configuring, nothing written,
        no turn;
      - otherwise: succeeds as Encoded states. */
  ghost predicate WriteOutcome(info: SoundInfo, stream: seq<bv8>, p0: nat, p1: nat, qualityLevel: int,
                               metadata: map<string, string>, engine: Engine, fileOpened: bool,
                               ok: bool, ts: seq<TurnRec>, file: seq<bv8>, log: seq<Event>)
  {
    if !fileOpened then !ok && file == [] && log == [] && p1 == p0 && ts == []
    else if engine.initResult != 0 then
      !ok && file == [] && log == [Configured(info.channels, info.rate, qualityLevel as real / 10.0)] &&
      p1 == p0 && ts == []
    else ok && Encoded(info, stream, p0, p1, qualityLevel, metadata, engine, ts, file, log)
  }

  /** What one turn of the data loop reads and submits. */
  datatype TurnRec = TurnRec(chunk: seq<bv8>, sub: Submission)

  /** One turn's read and submission: the read starts at cursor position q
      and delivers min(request, bytes left) bytes of the stream, and sub is
      the submission made for them. */
  ghost predicate Turned(info: SoundInfo, stream: seq<bv8>, q: nat, chunk: seq<bv8>, sub: Submission)
  {
    q + |chunk| <= |stream| && |chunk| == Min(ReadRequest(info), |stream| - q) &&
    chunk == stream[q..q + |chunk|] && Submits(sub, chunk, info)
  }

  /** The events of turns ts, in order: turn t reads ts[t].chunk, submits
      ts[t].sub, then writes the pages of rounds[t] the `!eos` guard lets
      through. */
  function TurnsLog(ts: seq<TurnRec>, rounds: seq<Round>): seq<Event>
    requires |ts| <= |rounds|
  {
    if ts == [] then []
    else
      var n := |ts| - 1;
      TurnsLog(ts[..n], rounds) + [Read(ts[n].chunk), Submitted(ts[n].sub)] +
      Writes(Written(false, RoundPages(rounds[n])))
  }

  /** The bytes turns ts read. */
  function Consumed(ts: seq<TurnRec>): nat
  {
    if ts == [] then 0 else Consumed(ts[..|ts| - 1]) + |ts[|ts| - 1].chunk|
  }

  /** Each of the turns ts reads at the cursor where the turns before it
      left it, starting from p0. */
  ghost predicate TurnsFollow(info: SoundInfo, stream: seq<bv8>, p0: nat, ts: seq<TurnRec>)
  {
    if ts == [] then p0 <= |stream|
    else
      var n := |ts| - 1;
      TurnsFollow(info, stream, p0, ts[..n]) &&
      Turned(info, stream, p0 + Consumed(ts[..n]), ts[n].chunk, ts[n].sub)
  }

  /** The successful outcome of Write. The data loop takes turns ts, one
      read each, as many as it takes for the library's pages to hold an
      end-of-stream page: the first |ts| rounds hold one and the first
      |ts| - 1 do not. The log is the configuration, the header packets and
      the header page writes, then the events of those turns; the cursor
      moves by the bytes they read; and the file holds header then body of
      every header page and every data page up to and including the first
      end-of-stream page. */
  ghost predicate Encoded(info: SoundInfo, stream: seq<bv8>, p0: nat, p1: nat, qualityLevel: int,
                          metadata: map<string, string>, engine: Engine, ts: seq<TurnRec>,
                          file: seq<bv8>, log: seq<Event>)
  {
    var rounds := engine.rounds;
    0 < |ts| <= |rounds| &&
    HasEos(StreamPages(rounds[..|ts|])) && !HasEos(StreamPages(rounds[..|ts| - 1])) &&
    TurnsFollow(info, stream, p0, ts) && p1 == p0 + Consumed(ts) &&
    log == Headers(info, qualityLevel, metadata, engine.headerPages) + TurnsLog(ts, rounds) &&
    file == PageBytes(engine.headerPages + ThroughEos(StreamPages(rounds)))
  }

  /** The log of Write up to the data loop: vorbis_encode_init_vbr's
      arguments, the header packets with their comments, the header pages. */
  function Headers(info: SoundInfo, qualityLevel: int, metadata: map<string, string>, hp: seq<Page>): (log: seq<Event>)
    ensures |log| == 2 + |hp| && log[2..] == Writes(hp)
    ensures log[0] == Configured(info.channels, info.rate, qualityLevel as real / 10.0)
    ensures log[1] == HeadersOut(CommentTags(metadata))
  {
    [Configured(info.channels, info.rate, qualityLevel as real / 10.0), HeadersOut(CommentTags(metadata))] + Writes(hp)
  }

  /** Reads are paired with their submissions and follow the cursor from
      p0 to p. */
  ghost predicate ReadsSoFar(info: SoundInfo, stream: seq<bv8>, p0: nat, p: nat, log: seq<Event>)
  {
    ReadsPaired(log, info) &&
    FollowsCursor(stream, p0, ReadRequest(info), Chunks(log)) &&
    p == p0 + |Concat(Chunks(log))|
  }

  /** The log after the header flush: the written header pages, no chunk,
      no read without its submission, and no read at its end. */
  lemma HeaderLog(info: SoundInfo, qualityLevel: int, metadata: map<string, string>, hp: seq<Page>)
    ensures var log := Headers(info, qualityLevel, metadata, hp);
      Pages(log) == hp && Chunks(log) == [] && ReadsPaired(log, info) && !log[|log| - 1].Read?
  {
    var headers0 := [Configured(info.channels, info.rate, qualityLevel as real / 10.0),
                     HeadersOut(CommentTags(metadata))];
    HeaderLogContents(headers0, hp);
    assert ReadsPaired(headers0, info);
    WritesKeepPairing(headers0, hp, info);
  }

  lemma HeaderLogContents(headers0: seq<Event>, hp: seq<Page>)
    requires |headers0| == 2
    requires !headers0[0].Wrote? && !headers0[0].Read? && !headers0[0].Submitted?
    requires !headers0[1].Wrote? && !headers0[1].Read? && !headers0[1].Submitted?
    ensures var log := headers0 + Writes(hp);
      Pages(log) == hp && Chunks(log) == [] && !log[|log| - 1].Read?
  {
    var log := headers0 + Writes(hp);
    assert headers0 == [headers0[0]] + [headers0[1]];
    OneEvent(headers0[0]);
    OneEvent(headers0[1]);
    PagesAppend([headers0[0]], [headers0[1]]);
    ChunksAppend([headers0[0]], [headers0[1]]);
    OfWrites(hp);
    PagesAppend(headers0, Writes(hp));
    ChunksAppend(headers0, Writes(hp));
    if hp != [] {
      assert log[|log| - 1] == Writes(hp)[|hp| - 1];
    }
  }

  /** The log through the last of turns ts is the log through the turns
      before it, then that turn's read, submission and page writes. */
  lemma TurnsLogLast(headers: seq<Event>, ts: seq<TurnRec>, rounds: seq<Round>)
    requires 0 < |ts| <= |rounds|
    ensures var n := |ts| - 1;
      headers + TurnsLog(ts, rounds) ==
      headers + TurnsLog(ts[..n], rounds) + [Read(ts[n].chunk), Submitted(ts[n].sub)] +
      Writes(Written(false, RoundPages(rounds[n])))
  {
    var n := |ts| - 1;
    var a, b := TurnsLog(ts[..n], rounds), [Read(ts[n].chunk), Submitted(ts[n].sub)];
    var c := Writes(Written(false, RoundPages(rounds[n])));
    AppendAssoc(headers, a + b, c);
    AppendAssoc(headers, a, b);
  }

  /** The state of Write after the turns ts of its data loop: the cursor
      has moved from p0 to p by the bytes they read, each read at the
      cursor; eos tells whether an end-of-stream page has come in their
      rounds, and none had come before the last of them; the log is the
      headers, then the events of the turns; and the file holds the header
      pages, then the data pages of those rounds the `!eos` guard lets
      through. */
  ghost predicate TurnsTaken(info: SoundInfo, stream: seq<bv8>, p0: nat, p: nat, hp: seq<Page>, headers: seq<Event>,
                             rounds: seq<Round>, ts: seq<TurnRec>, eos: bool, file: seq<bv8>, log: seq<Event>)
  {
    p == p0 + Consumed(ts) && TurnsFollow(info, stream, p0, ts) &&
    |ts| <= |rounds| && eos == HasEos(StreamPages(rounds[..|ts|])) &&
    (0 < |ts| ==> !HasEos(StreamPages(rounds[..|ts| - 1]))) &&
    log == headers + TurnsLog(ts, rounds) &&
    file == PageBytes(hp) + PageBytes(Written(false, StreamPages(rounds[..|ts|])))
  }

  /** Before the first turn: the header pages are written and nothing is read. */
  lemma TakenStart(info: SoundInfo, stream: seq<bv8>, p0: nat, hp: seq<Page>, headers: seq<Event>, rounds: seq<Round>)
    requires p0 <= |stream|
    ensures TurnsTaken(info, stream, p0, p0, hp, headers, rounds, [], false, [] + PageBytes(hp), headers)
  {
    assert rounds[..0] == [] && StreamPages([]) == [] && Written(false, []) == [] && PageBytes([]) == [];
    assert headers + TurnsLog([], rounds) == headers;
    assert [] + PageBytes(hp) == PageBytes(hp) + PageBytes([]);
  }

  /** One more turn, taken while no end-of-stream page has come: it reads
      chunk at the cursor and submits sub, and its round's pages are
      written. */
  lemma TakenStep(info: SoundInfo, stream: seq<bv8>, p0: nat, p: nat, hp: seq<Page>, headers: seq<Event>,
                  rounds: seq<Round>, ts: seq<TurnRec>, file: seq<bv8>, log: seq<Event>,
                  chunk: seq<bv8>, sub: Submission)
    requires TurnsTaken(info, stream, p0, p, hp, headers, rounds, ts, false, file, log) && |ts| < |rounds|
    requires Turned(info, stream, p, chunk, sub)
    ensures var ps := Written(false, RoundPages(rounds[|ts|]));
      TurnsTaken(info, stream, p0, p + |chunk|, hp, headers, rounds, ts + [TurnRec(chunk, sub)],
                 HasEos(RoundPages(rounds[|ts|])), file + PageBytes(ps),
                 log + [Read(chunk), Submitted(sub)] + Writes(ps))
  {
    TurnStep(info, stream, p0, headers, hp, rounds, ts, chunk, sub);
  }

  /** Once an end-of-stream page has come, the state the turns reached is
      the successful outcome of Write. */
  lemma TakenDone(info: SoundInfo, stream: seq<bv8>, p0: nat, p: nat, qualityLevel: int,
                  metadata: map<string, string>, engine: Engine, ts: seq<TurnRec>, file: seq<bv8>, log: seq<Event>)
    requires TurnsTaken(info, stream, p0, p, engine.headerPages, Headers(info, qualityLevel, metadata, engine.headerPages),
                        engine.rounds, ts, true, file, log)
    ensures Encoded(info, stream, p0, p, qualityLevel, metadata, engine, ts, file, log)
  {
    PagesDone(engine.headerPages, engine.rounds, |ts|);
  }

  /** One more turn of the data loop, taken while no end-of-stream page has
      come: the log grows by the turn's read, submission and page writes,
      the cursor by the bytes read, the turns still follow the cursor, an
      end-of-stream page has now come exactly when this round brought one,
      and the file grows by the pages written. */
  lemma TurnStep(info: SoundInfo, stream: seq<bv8>, p0: nat, headers: seq<Event>, hp: seq<Page>, rounds: seq<Round>,
                 ts: seq<TurnRec>, chunk: seq<bv8>, sub: Submission)
    requires |ts| < |rounds| && !HasEos(StreamPages(rounds[..|ts|]))
    requires TurnsFollow(info, stream, p0, ts)
    requires Turned(info, stream, p0 + Consumed(ts), chunk, sub)
    ensures var ts', ps := ts + [TurnRec(chunk, sub)], Written(false, RoundPages(rounds[|ts|]));
      headers + TurnsLog(ts', rounds) == headers + TurnsLog(ts, rounds) + [Read(chunk), Submitted(sub)] + Writes(ps) &&
      Consumed(ts') == Consumed(ts) + |chunk| && TurnsFollow(info, stream, p0, ts') &&
      HasEos(StreamPages(rounds[..|ts'|])) == HasEos(RoundPages(rounds[|ts|])) &&
      !HasEos(StreamPages(rounds[..|ts'| - 1])) &&
      PageBytes(hp) + PageBytes(Written(false, StreamPages(rounds[..|ts'|]))) ==
      PageBytes(hp) + PageBytes(Written(false, StreamPages(rounds[..|ts|]))) + PageBytes(ps)
  {
    var ts', ps := ts + [TurnRec(chunk, sub)], Written(false, RoundPages(rounds[|ts|]));
    assert ts'[..|ts|] == ts;
    TurnsLogLast(headers, ts', rounds);
    PagesStep(rounds, |ts|);
    PageBytesAppend(Written(false, StreamPages(rounds[..|ts|])), ps);
    AppendAssoc(PageBytes(hp), PageBytes(Written(false, StreamPages(rounds[..|ts|]))), PageBytes(ps));
  }

  /** What turns ts write to the log: the header pages, then the data
      pages of the first |ts| rounds the `!eos` guard lets through. */
  lemma {:induction false} TurnsPages(headers: seq<Event>, hp: seq<Page>, rounds: seq<Round>, ts: seq<TurnRec>)
    requires |ts| <= |rounds| && Pages(headers) == hp
    requires 0 < |ts| ==> !HasEos(StreamPages(rounds[..|ts| - 1]))
    ensures Pages(headers + TurnsLog(ts, rounds)) == hp + Written(false, StreamPages(rounds[..|ts|]))
    decreases |ts|
  {
    if ts == [] {
      assert rounds[..0] == [] && StreamPages([]) == [] && Written(false, []) == [];
      assert headers + TurnsLog(ts, rounds) == headers;
    } else {
      var n := |ts| - 1;
      if 0 < n {
        NoEosBefore(rounds, n - 1);
      }
      assert |ts[..n]| == n;
      TurnsPages(headers, hp, rounds, ts[..n]);
      TurnsLogLast(headers, ts, rounds);
      PagesStep(rounds, n);
      var ps := Written(false, RoundPages(rounds[n]));
      RoundRecords(headers + TurnsLog(ts[..n], rounds), ts[n].chunk, ts[n].sub, ps);
      AppendAssoc(hp, Written(false, StreamPages(rounds[..n])), ps);
    }
  }

  /** No end-of-stream page in the first r + 1 rounds means none in the
      first r either. */
  lemma NoEosBefore(rounds: seq<Round>, r: nat)
    requires r < |rounds| && !HasEos(StreamPages(rounds[..r + 1]))
    ensures !HasEos(StreamPages(rounds[..r]))
  {
    assert rounds[..r + 1][..r] == rounds[..r];
    HasEosAppend(StreamPages(rounds[..r]), RoundPages(rounds[r]));
  }

  /** What turns ts read: one chunk per turn, each read followed by the
      submission made for it, following the cursor from p0 by the bytes
      the turns consumed; and the log does not end in a read. */
  lemma {:induction false} TurnsReads(info: SoundInfo, stream: seq<bv8>, p0: nat, headers: seq<Event>,
                                      rounds: seq<Round>, ts: seq<TurnRec>)
    requires |ts| <= |rounds| && TurnsFollow(info, stream, p0, ts)
    requires Chunks(headers) == [] && ReadsPaired(headers, info)
    requires headers != [] && !headers[|headers| - 1].Read?
    ensures var log := headers + TurnsLog(ts, rounds);
      |Chunks(log)| == |ts| && !log[|log| - 1].Read? &&
      ReadsSoFar(info, stream, p0, p0 + Consumed(ts), log)
    decreases |ts|
  {
    if ts == [] {
      assert headers + TurnsLog(ts, rounds) == headers;
      assert Concat<bv8>([]) == [];
    } else {
      TurnsReads(info, stream, p0, headers, rounds, ts[..|ts| - 1]);
      LastTurnReads(info, stream, p0, headers, rounds, ts);
    }
  }

  lemma LastTurnReads(info: SoundInfo, stream: seq<bv8>, p0: nat, headers: seq<Event>,
                      rounds: seq<Round>, ts: seq<TurnRec>)
    requires 0 < |ts| <= |rounds| && TurnsFollow(info, stream, p0, ts) && headers != []
    requires var n, log := |ts| - 1, headers + TurnsLog(ts[..|ts| - 1], rounds);
      |Chunks(log)| == n && !log[|log| - 1].Read? && ReadsSoFar(info, stream, p0, p0 + Consumed(ts[..n]), log)
    ensures var log := headers + TurnsLog(ts, rounds);
      |Chunks(log)| == |ts| && !log[|log| - 1].Read? &&
      ReadsSoFar(info, stream, p0, p0 + Consumed(ts), log)
  {
    var n := |ts| - 1;
    var t := ts[n];
    var p := p0 + Consumed(ts[..n]);
    var log := headers + TurnsLog(ts[..n], rounds);
    var ps := Written(false, RoundPages(rounds[n]));
    assert Turned(info, stream, p, t.chunk, t.sub);
    assert Consumed(ts) == Consumed(ts[..n]) + |t.chunk|;
    TurnsLogLast(headers, ts, rounds);
    RoundReads(info, stream, p0, p, log, t.chunk, t.sub, ps);
    assert headers + TurnsLog(ts, rounds) == log + [Read(t.chunk), Submitted(t.sub)] + Writes(ps);
  }

  /** A turn's read, submission and page writes add one chunk, read at the
      cursor, to a log that follows the cursor, and leave it ending in
      something other than a read. */
  lemma RoundReads(info: SoundInfo, stream: seq<bv8>, p0: nat, p: nat, log: seq<Event>,
                   chunk: seq<bv8>, sub: Submission, ps: seq<Page>)
    requires ReadsSoFar(info, stream, p0, p, log) && log != [] && !log[|log| - 1].Read?
    requires Turned(info, stream, p, chunk, sub)
    ensures var log' := log + [Read(chunk), Submitted(sub)] + Writes(ps);
      |Chunks(log')| == |Chunks(log)| + 1 && log' != [] && !log'[|log'| - 1].Read? &&
      ReadsSoFar(info, stream, p0, p + |chunk|, log')
  {
    StepReads(info, stream, p0, p, log, chunk, sub, ps);
    TurnEnd(log, chunk, sub, ps);
    RoundRecords(log, chunk, sub, ps);
  }

  /** A turn leaves a log that does not end in a read. */
  lemma TurnEnd(log: seq<Event>, chunk: seq<bv8>, sub: Submission, ps: seq<Page>)
    ensures var log' := log + [Read(chunk), Submitted(sub)] + Writes(ps);
      log' != [] && !log'[|log'| - 1].Read?
  {
    var log' := log + [Read(chunk), Submitted(sub)] + Writes(ps);
    if ps != [] {
      assert log'[|log'| - 1] == Writes(ps)[|ps| - 1];
    }
  }

  lemma StepReads(info: SoundInfo, stream: seq<bv8>, p0: nat, p: nat, log: seq<Event>,
                  chunk: seq<bv8>, sub: Submission, ps: seq<Page>)
    requires ReadsSoFar(info, stream, p0, p, log) && log != [] && !log[|log| - 1].Read?
    requires Turned(info, stream, p, chunk, sub)
    ensures ReadsSoFar(info, stream, p0, p + |chunk|, log + [Read(chunk), Submitted(sub)] + Writes(ps))
  {
    RoundKeepsPairing(log, chunk, sub, ps, info);
    RoundRecords(log, chunk, sub, ps);
    ExtendCursor(stream, p0, ReadRequest(info), Chunks(log), chunk);
  }

  /** Before the end-of-stream page has come there is another round. */
  lemma NotYetEnded(rounds: seq<Round>, r: nat)
    requires r <= |rounds| && HasEos(StreamPages(rounds)) && !HasEos(StreamPages(rounds[..r]))
    ensures r < |rounds|
  {
    assert rounds[..|rounds|] == rounds;
  }

  /** The data pages after one more round, while no end-of-stream page has come. */
  lemma PagesStep(rounds: seq<Round>, r: nat)
    requires r < |rounds| && !HasEos(StreamPages(rounds[..r]))
    ensures HasEos(StreamPages(rounds[..r + 1])) == HasEos(RoundPages(rounds[r]))
    ensures Written(false, StreamPages(rounds[..r + 1])) ==
      Written(false, StreamPages(rounds[..r])) + Written(false, RoundPages(rounds[r]))
  {
    assert rounds[..r + 1][..r] == rounds[..r];
    assert StreamPages(rounds[..r + 1]) == StreamPages(rounds[..r]) + RoundPages(rounds[r]);
    WrittenAppend(false, StreamPages(rounds[..r]), RoundPages(rounds[r]));
    HasEosAppend(StreamPages(rounds[..r]), RoundPages(rounds[r]));
  }

  /** Once the first r rounds hold an end-of-stream page, the header pages
      and the data pages of those rounds the `!eos` guard lets through are
      the header pages and the data pages through the first end-of-stream
      page. */
  lemma PagesDone(hp: seq<Page>, rounds: seq<Round>, r: nat)
    requires r <= |rounds| && HasEos(StreamPages(rounds[..r]))
    ensures PageBytes(hp) + PageBytes(Written(false, StreamPages(rounds[..r]))) ==
      PageBytes(hp + ThroughEos(StreamPages(rounds)))
    ensures hp + Written(false, StreamPages(rounds[..r])) == hp + ThroughEos(StreamPages(rounds))
  {
    EosPrefix(rounds, r);
    PageBytesAppend(hp, Written(false, StreamPages(rounds[..r])));
  }

  /** Once the first r rounds hold an end-of-stream page, the pages a loop
      guarded by `!eos` writes from them are those it writes from all rounds. */
  lemma EosPrefix(rounds: seq<Round>, r: nat)
    requires r <= |rounds| && HasEos(StreamPages(rounds[..r]))
    ensures Written(false, StreamPages(rounds[..r])) == ThroughEos(StreamPages(rounds))
  {
    StreamPagesSplit(rounds, r);
    ThroughEosAppend(StreamPages(rounds[..r]), StreamPages(rounds[r..]));
  }

  lemma StreamPagesSplit(rounds: seq<Round>, r: nat)
    requires r <= |rounds|
    ensures StreamPages(rounds) == StreamPages(rounds[..r]) + StreamPages(rounds[r..])
  {
    assert rounds == rounds[..r] + rounds[r..];
    StreamPagesAppend(rounds[..r], rounds[r..]);
  }

  /** The pages of a successful Write: the page writes in the log are the
      header pages, then the data pages through the first end-of-stream
      page, and the file holds exactly those pages. */
  lemma EncodedPages(info: SoundInfo, stream: seq<bv8>, p0: nat, p1: nat, qualityLevel: int,
                     metadata: map<string, string>, engine: Engine, ts: seq<TurnRec>, file: seq<bv8>, log: seq<Event>)
    requires Encoded(info, stream, p0, p1, qualityLevel, metadata, engine, ts, file, log)
    ensures Pages(log) == engine.headerPages + ThroughEos(StreamPages(engine.rounds))
    ensures file == PageBytes(Pages(log))
  {
    var headers := Headers(info, qualityLevel, metadata, engine.headerPages);
    HeaderLog(info, qualityLevel, metadata, engine.headerPages);
    TurnsPages(headers, engine.headerPages, engine.rounds, ts);
    PagesDone(engine.headerPages, engine.rounds, |ts|);
  }

  /** The reads of a successful Write: one per turn, each followed by the
      submission made for it, following the cursor from p0 to p1. */
  lemma EncodedReads(info: SoundInfo, stream: seq<bv8>, p0: nat, p1: nat, qualityLevel: int,
                     metadata: map<string, string>, engine: Engine, ts: seq<TurnRec>, file: seq<bv8>, log: seq<Event>)
    requires Encoded(info, stream, p0, p1, qualityLevel, metadata, engine, ts, file, log)
    ensures |Chunks(log)| == |ts|
    ensures ReadsSoFar(info, stream, p0, p1, log)
  {
    var headers := Headers(info, qualityLevel, metadata, engine.headerPages);
    HeaderLog(info, qualityLevel, metadata, engine.headerPages);
    TurnsReads(info, stream, p0, headers, engine.rounds, ts);
  }

  /** The pages a successful Write puts in the file: every header page,
      then data pages in the order the library returned them, the last of
      them the first end-of-stream page and no flagged page before it. */
  lemma WrittenPagesEndAtFirstEos(info: SoundInfo, stream: seq<bv8>, p0: nat, p1: nat, qualityLevel: int,
                                  metadata: map<string, string>, engine: Engine, ts: seq<TurnRec>,
                                  file: seq<bv8>, log: seq<Event>)
    requires Encoded(info, stream, p0, p1, qualityLevel, metadata, engine, ts, file, log) && Ends(engine)
    ensures engine.headerPages <= Pages(log)
    ensures var data := Pages(log)[|engine.headerPages|..];
      data <= StreamPages(engine.rounds) && data != [] &&
      data[|data| - 1].eos && !HasEos(data[..|data| - 1])
    ensures file == PageBytes(Pages(log))
  {
    EncodedPages(info, stream, p0, p1, qualityLevel, metadata, engine, ts, file, log);
    var data := ThroughEos(StreamPages(engine.rounds));
    ThroughEosShape(StreamPages(engine.rounds));
    assert Pages(log)[|engine.headerPages|..] == data;
  }

  /** The shape of the log of a successful Write: the configuration, the
      header packets and the header pages come first, a read comes next,
      every later event is a read, a submission or a page write, and the
      last event is the write of an end-of-stream page. */
  lemma EncodedLog(info: SoundInfo, stream: seq<bv8>, p0: nat, p1: nat, qualityLevel: int,
                   metadata: map<string, string>, engine: Engine, ts: seq<TurnRec>, file: seq<bv8>, log: seq<Event>)
    requires Encoded(info, stream, p0, p1, qualityLevel, metadata, engine, ts, file, log)
    ensures var headers := Headers(info, qualityLevel, metadata, engine.headerPages);
      |headers| < |log| && log[..|headers|] == headers && log[|headers|].Read? &&
      (forall i :: |headers| <= i < |log| ==> log[i].Read? || log[i].Submitted? || log[i].Wrote?) &&
      log[|log| - 1].Wrote? && log[|log| - 1].page.eos
  {
    var headers := Headers(info, qualityLevel, metadata, engine.headerPages);
    var body := TurnsLog(ts, engine.rounds);
    TurnsShape(ts, engine.rounds);
    LastTurnEnds(ts, engine.rounds);
    assert log[..|headers|] == headers;
    forall i | |headers| <= i < |log| ensures log[i].Read? || log[i].Submitted? || log[i].Wrote? {
      assert log[i] == body[i - |headers|];
    }
    assert log[|log| - 1] == body[|body| - 1];
  }

  /** Turns log reads, submissions and page writes only, and the first
      of them starts with its read. */
  lemma {:induction false} TurnsShape(ts: seq<TurnRec>, rounds: seq<Round>)
    requires |ts| <= |rounds|
    ensures var body := TurnsLog(ts, rounds);
      (forall i :: 0 <= i < |body| ==> body[i].Read? || body[i].Submitted? || body[i].Wrote?) &&
      (ts != [] ==> body != [] && body[0] == Read(ts[0].chunk))
    decreases |ts|
  {
    if ts != [] {
      var n := |ts| - 1;
      var prev, ps := TurnsLog(ts[..n], rounds), Written(false, RoundPages(rounds[n]));
      TurnsShape(ts[..n], rounds);
      var body := TurnsLog(ts, rounds);
      assert body == prev + [Read(ts[n].chunk), Submitted(ts[n].sub)] + Writes(ps);
      forall i | 0 <= i < |body| ensures body[i].Read? || body[i].Submitted? || body[i].Wrote? {
        if i < |prev| {
          assert body[i] == prev[i];
        } else if i >= |prev| + 2 {
          assert body[i] == Writes(ps)[i - |prev| - 2];
        }
      }
      if n > 0 {
        assert ts[..n][0] == ts[0] && body[0] == prev[0];
      }
    }
  }

  /** The last of the turns a successful Write takes ends with the
      end-of-stream page. */
  lemma LastTurnEnds(ts: seq<TurnRec>, rounds: seq<Round>)
    requires 0 < |ts| <= |rounds|
    requires HasEos(StreamPages(rounds[..|ts|])) && !HasEos(StreamPages(rounds[..|ts| - 1]))
    ensures var body := TurnsLog(ts, rounds);
      body != [] && body[|body| - 1].Wrote? && body[|body| - 1].page.eos
  {
    var n := |ts| - 1;
    PagesStep(rounds, n);
    assert n + 1 == |ts|;
    RoundEnd(false, RoundPages(rounds[n]), TurnsLog(ts[..n], rounds) + [Read(ts[n].chunk), Submitted(ts[n].sub)]);
  }

  /** One more read that follows the cursor. */
  lemma ExtendCursor(stream: seq<bv8>, p0: nat, request: nat, chunks: seq<seq<bv8>>, chunk: seq<bv8>)
    requires FollowsCursor(stream, p0, request, chunks)
    requires var p := p0 + |Concat(chunks)|;
      |chunk| == Min(request, |stream| - p) && p + |chunk| <= |stream| && chunk == stream[p..p + |chunk|]
    ensures FollowsCursor(stream, p0, request, chunks + [chunk])
    ensures |Concat(chunks + [chunk])| == |Concat(chunks)| + |chunk|
  {
    assert (chunks + [chunk])[..|chunks|] == chunks;
    ConcatSnoc(chunks, chunk);
  }

  /** After the drain of a round the last event is the end-of-stream page
      when the round brought one. */
  lemma RoundEnd(eos0: bool, ps: seq<Page>, log: seq<Event>)
    requires !eos0 && log != []
    ensures HasEos(ps) ==> var log' := log + Writes(Written(eos0, ps));
      log'[|log'| - 1].Wrote? && log'[|log'| - 1].page.eos
  {
    ThroughEosShape(ps);
  }

  /** A read that delivers less than it asked for reached the end of the
      stream: every later read delivers nothing and the cursor ends at the
      end of the stream. */
  lemma {:induction false} ShortReadIsFinal(stream: seq<bv8>, p0: nat, request: nat, chunks: seq<seq<bv8>>, k: nat)
    requires FollowsCursor(stream, p0, request, chunks)
    requires k < |chunks| && |chunks[k]| < request
    ensures p0 + |Concat(chunks)| == |stream|
    ensures forall j :: k < j < |chunks| ==> chunks[j] == []
  {
    var n := |chunks| - 1;
    var p := p0 + |Concat(chunks[..n])|;
    assert |Concat(chunks)| == |Concat(chunks[..n])| + |chunks[n]|;
    assert |chunks[n]| == Min(request, |stream| - p);
    if k < n {
      assert chunks[..n][k] == chunks[k];
      ShortReadIsFinal(stream, p0, request, chunks[..n], k);
      assert p == |stream| && chunks[n] == [];
      forall j | k < j < n ensures chunks[j] == [] {
        assert chunks[..n][j] == chunks[j];
      }
    } else {
      assert |chunks[n]| == |stream| - p;
    }
  }

  /** From the end of the stream every read delivers nothing. */
  lemma ExhaustedReadsNothing(stream: seq<bv8>, request: nat, chunks: seq<seq<bv8>>)
    requires FollowsCursor(stream, |stream|, request, chunks)
    ensures forall k :: 0 <= k < |chunks| ==> chunks[k] == []
    ensures Concat(chunks) == []
  {
    CursorSlice(stream, |stream|, request, chunks);
    ConcatEmpty(chunks);
  }

  /** A Write that told the library 0 frames (an empty read, or a read
      shorter than one frame; the read size is positive) leaves the cursor at
      the end of the stream. Stated for any log whose reads follow the cursor
      from p0 to p1, as those of a successful Write do. */
  lemma EndOfInputExhausts(info: SoundInfo, stream: seq<bv8>, p0: nat, p1: nat, log: seq<Event>, i: nat)
    requires ReadsSoFar(info, stream, p0, p1, log)
    requires ReadRequest(info) > 0
    requires i < |log| && log[i].Submitted? && WroteCount(log[i].sub) == 0
    ensures p1 == |stream|
  {
    var chunk := log[i - 1].chunk;
    assert log[i - 1].Read? && Submits(log[i].sub, chunk, info);
    SubmittedCount(log[i].sub, chunk, info);
    assert |chunk| < ReadRequest(info);
    ReadIsChunk(log, i - 1);
    var chunks := Chunks(log);
    var k :| 0 <= k < |chunks| && chunks[k] == chunk;
    ShortReadIsFinal(stream, p0, ReadRequest(info), chunks, k);
  }

  /** A Write that starts from an exhausted cursor reads nothing: each of
      its reads is empty, each of its submissions is end of input, and the
      cursor stays at the end. Stated, like EndOfInputExhausts, for any log
      whose reads follow the cursor. */
  lemma WriteFromEndReadsNothing(info: SoundInfo, stream: seq<bv8>, p1: nat, log: seq<Event>)
    requires ReadsSoFar(info, stream, |stream|, p1, log)
    ensures p1 == |stream|
    ensures forall i :: 0 <= i < |log| && log[i].Read? ==> log[i].chunk == []
    ensures forall i :: 0 <= i < |log| && log[i].Submitted? ==> log[i].sub == EndOfInput
  {
    var chunks := Chunks(log);
    ExhaustedReadsNothing(stream, ReadRequest(info), chunks);
    forall i | 0 <= i < |log| && log[i].Read? ensures log[i].chunk == [] {
      ReadIsChunk(log, i);
    }
    forall i | 0 <= i < |log| && log[i].Submitted? ensures log[i].sub == EndOfInput {
      ReadIsChunk(log, i - 1);
    }
  }

  /** The cursor is never reset: once a Write has told the library 0
      frames, any later Write (which starts where the first one left the
      cursor) submits no samples at all. */
  lemma SecondWriteIsSilent(info: SoundInfo, stream: seq<bv8>, p0: nat, p1: nat, p2: nat, qualityLevel: int,
                            metadata: map<string, string>, engine1: Engine, ts1: seq<TurnRec>, file1: seq<bv8>,
                            log1: seq<Event>, engine2: Engine, ts2: seq<TurnRec>, file2: seq<bv8>, log2: seq<Event>, i: nat)
    requires Encoded(info, stream, p0, p1, qualityLevel, metadata, engine1, ts1, file1, log1)
    requires ReadRequest(info) > 0 && i < |log1| && log1[i].Submitted? && WroteCount(log1[i].sub) == 0
    requires Encoded(info, stream, p1, p2, qualityLevel, metadata, engine2, ts2, file2, log2)
    ensures p2 == |stream|
    ensures forall j :: 0 <= j < |log2| && log2[j].Submitted? ==> log2[j].sub == EndOfInput
  {
    EncodedReads(info, stream, p0, p1, qualityLevel, metadata, engine1, ts1, file1, log1);
    EncodedReads(info, stream, p1, p2, qualityLevel, metadata, engine2, ts2, file2, log2);
    EndOfInputExhausts(info, stream, p0, p1, log1, i);
    WriteFromEndReadsNothing(info, stream, p2, log2);
  }
}
