/** The observable history of one encoder Write: what was handed to the
    library, what was read from the cursor, and what was written to the file. */
module Trace {
  import opened Sound
  import opened SampleConvert
  import opened Deinterleave
  import opened OggPages

  /** A vorbis_comment tag: name and value. */
  type Tag = (string, string)

  /** One submission to the analysis engine. EndOfInput is an empty read:
      vorbis_analysis_wrote(0) with no analysis buffer. Frames is a non-empty
      read: vorbis_analysis_buffer, the samples of every channel, then
      vorbis_analysis_wrote(count). A read shorter than one frame gives
      Frames(0, ...), so the library is told 0 there too. */
  datatype Submission = Frames(count: nat, samples: seq<seq<Sample>>) | EndOfInput

  /** The frame count handed to vorbis_analysis_wrote; 0 tells the library
      that the input has ended. */
  function WroteCount(sub: Submission): nat
  {
    match sub
    case EndOfInput => 0
    case Frames(count, _) => count
  }

  datatype Event =
    | Configured(channels: nat, rate: nat, quality: real)  // vorbis_encode_init_vbr's arguments
    | HeadersOut(tags: seq<Tag>)                           // the three header packets, built with these comments, welded in
    | Wrote(page: Page)                                    // fwrite of the page header, then of its body
    | Read(chunk: seq<bv8>)                                // the bytes one bufferread delivered
    | Submitted(sub: Submission)                           // one vorbis_analysis_wrote

  function Writes(ps: seq<Page>): (es: seq<Event>)
    ensures |es| == |ps| && forall i {:trigger es[i]} :: 0 <= i < |ps| ==> es[i] == Wrote(ps[i])
  {
    if ps == [] then [] else Writes(ps[..|ps| - 1]) + [Wrote(ps[|ps| - 1])]
  }

  /** The pages written, in order. */
  function Pages(log: seq<Event>): seq<Page>
  {
    if log == [] then []
    else Pages(log[..|log| - 1]) + (if log[|log| - 1].Wrote? then [log[|log| - 1].page] else [])
  }

  /** The chunks read from the cursor, in order. */
  function Chunks(log: seq<Event>): seq<seq<bv8>>
  {
    if log == [] then []
    else Chunks(log[..|log| - 1]) + (if log[|log| - 1].Read? then [log[|log| - 1].chunk] else [])
  }

  /** sub is what the data loop submits for a read that delivered chunk:
      end of input for an empty read, otherwise every whole frame, each
      channel's samples taken from its offset in the frame. */
  predicate Submits(sub: Submission, chunk: seq<bv8>, info: SoundInfo)
  {
    if chunk == [] then sub == EndOfInput
    else
      FrameBytes(info) > 0 && sub.Frames? && sub.count == FrameCount(|chunk|, info) &&
      |sub.samples| == info.channels &&
      (forall ch :: 0 <= ch < info.channels ==> |sub.samples[ch]| == sub.count) &&
      forall ch, i :: 0 <= ch < info.channels && 0 <= i < sub.count ==>
        sub.samples[ch][i] == SampleAt(chunk, info, i, ch)
  }

  /** What a submission made for a read means: end of input for an empty
      read and only for one, and otherwise the library is told the number of
      whole frames the read holds. */
  lemma SubmittedCount(sub: Submission, chunk: seq<bv8>, info: SoundInfo)
    requires Submits(sub, chunk, info)
    ensures sub.EndOfInput? <==> chunk == []
    ensures WroteCount(sub) * FrameBytes(info) <= |chunk|
    ensures chunk != [] ==> |chunk| < (WroteCount(sub) + 1) * FrameBytes(info)
  {
    if chunk != [] {
      var f := FrameBytes(info);
      var q, m := |chunk| / f, |chunk| % f;
      assert |chunk| == q * f + m && m < f;
      assert (q + 1) * f == q * f + f;
    }
  }

  /** A read of 3 bytes of 16-bit stereo holds no whole frame: the
      analysis buffer is requested, but the library is told 0 frames, the
      same count as for an empty read. */
  lemma PartialFrameTellsZero(sub: Submission)
    requires Submits(sub, [1, 2, 3], SoundInfo(2, 44100, 16, 1))
    ensures sub.Frames? && WroteCount(sub) == 0
  {
    assert FrameBytes(SoundInfo(2, 44100, 16, 1)) == 4;
  }

  /** Every read is followed at once by the submission made for it, and
      every submission comes right after a read. */
  ghost predicate ReadsPaired(log: seq<Event>, info: SoundInfo)
  {
    (forall i :: 0 <= i < |log| && log[i].Read? ==>
       i + 1 < |log| && log[i + 1].Submitted? && Submits(log[i + 1].sub, log[i].chunk, info)) &&
    (forall i :: 0 <= i < |log| && log[i].Submitted? ==> 0 < i && log[i - 1].Read?)
  }

  lemma WritesAppend(a: seq<Page>, b: seq<Page>)
    ensures Writes(a + b) == Writes(a) + Writes(b)
  {
    assert |Writes(a + b)| == |Writes(a) + Writes(b)|;
    forall i | 0 <= i < |a + b| ensures Writes(a + b)[i] == (Writes(a) + Writes(b))[i] {
      if i >= |a| {
        assert (a + b)[i] == b[i - |a|];
      }
    }
  }

  lemma {:induction false} PagesAppend(a: seq<Event>, b: seq<Event>)
    ensures Pages(a + b) == Pages(a) + Pages(b)
  {
    if b == [] {
      assert a + b == a;
    } else {
      var n := |b| - 1;
      assert (a + b)[..|a + b| - 1] == a + b[..n];
      PagesAppend(a, b[..n]);
    }
  }

  lemma {:induction false} ChunksAppend(a: seq<Event>, b: seq<Event>)
    ensures Chunks(a + b) == Chunks(a) + Chunks(b)
  {
    if b == [] {
      assert a + b == a;
    } else {
      var n := |b| - 1;
      assert (a + b)[..|a + b| - 1] == a + b[..n];
      ChunksAppend(a, b[..n]);
    }
  }

  /** A single event contributes its page or its chunk, if any. */
  lemma OneEvent(e: Event)
    ensures Pages([e]) == if e.Wrote? then [e.page] else []
    ensures Chunks([e]) == if e.Read? then [e.chunk] else []
  {
    assert [e][..0] == [];
  }

  /** A read and its submission record one chunk and no page. */
  lemma TwoEvents(chunk: seq<bv8>, sub: Submission)
    ensures Pages([Read(chunk), Submitted(sub)]) == []
    ensures Chunks([Read(chunk), Submitted(sub)]) == [chunk]
  {
    assert [Read(chunk), Submitted(sub)] == [Read(chunk)] + [Submitted(sub)];
    PagesAppend([Read(chunk)], [Submitted(sub)]);
    ChunksAppend([Read(chunk)], [Submitted(sub)]);
    OneEvent(Read(chunk));
    OneEvent(Submitted(sub));
  }

  /** Writing pages adds exactly those pages and reads nothing. */
  lemma {:induction false} OfWrites(ps: seq<Page>)
    ensures Pages(Writes(ps)) == ps && Chunks(Writes(ps)) == []
  {
    if ps != [] {
      var n := |ps| - 1;
      assert Writes(ps)[..n] == Writes(ps[..n]);
      OfWrites(ps[..n]);
    }
  }

  /** A read is one of the chunks the log records. */
  lemma {:induction false} ReadIsChunk(log: seq<Event>, i: nat)
    requires i < |log| && log[i].Read?
    ensures log[i].chunk in Chunks(log)
  {
    var n := |log| - 1;
    if i < n {
      assert log[..n][i] == log[i];
      ReadIsChunk(log[..n], i);
    }
  }

  /** Appending one round (a read, its submission, then page writes) to a
      log that does not end in a read keeps reads and submissions paired. */
  lemma RoundKeepsPairing(log: seq<Event>, chunk: seq<bv8>, sub: Submission, ps: seq<Page>, info: SoundInfo)
    requires ReadsPaired(log, info) && (log == [] || !log[|log| - 1].Read?)
    requires Submits(sub, chunk, info)
    ensures ReadsPaired(log + [Read(chunk), Submitted(sub)] + Writes(ps), info)
  {
    var log' := log + [Read(chunk), Submitted(sub)] + Writes(ps);
    var n := |log|;
    forall i | 0 <= i < |log'| && log'[i].Read?
      ensures i + 1 < |log'| && log'[i + 1].Submitted? && Submits(log'[i + 1].sub, log'[i].chunk, info)
    {
      if i < n {
        assert log'[i] == log[i] && i + 1 < n && log'[i + 1] == log[i + 1];
      } else {
        assert i == n;
      }
    }
    forall i | 0 <= i < |log'| && log'[i].Submitted? ensures 0 < i && log'[i - 1].Read? {
      if i < n {
        assert log'[i] == log[i] && log'[i - 1] == log[i - 1];
      } else {
        assert i == n + 1;
      }
    }
  }

  /** Page writes appended to a log that does not end in a read keep
      reads and submissions paired. */
  lemma WritesKeepPairing(log: seq<Event>, ps: seq<Page>, info: SoundInfo)
    requires ReadsPaired(log, info) && (log == [] || !log[|log| - 1].Read?)
    ensures ReadsPaired(log + Writes(ps), info)
  {
    var log' := log + Writes(ps);
    forall i | 0 <= i < |log'| && log'[i].Read?
      ensures i + 1 < |log'| && log'[i + 1].Submitted? && Submits(log'[i + 1].sub, log'[i].chunk, info)
    {
      assert i < |log| && log'[i] == log[i] && log'[i + 1] == log[i + 1];
    }
    forall i | 0 <= i < |log'| && log'[i].Submitted? ensures 0 < i && log'[i - 1].Read? {
      assert i < |log| && log'[i] == log[i] && log'[i - 1] == log[i - 1];
    }
  }

  /** One turn of the data loop (a read, its submission, then page writes)
      records exactly one more chunk and the pages it wrote. */
  lemma RoundRecords(log: seq<Event>, chunk: seq<bv8>, sub: Submission, ps: seq<Page>)
    ensures Pages(log + [Read(chunk), Submitted(sub)] + Writes(ps)) == Pages(log) + ps
    ensures Chunks(log + [Read(chunk), Submitted(sub)] + Writes(ps)) == Chunks(log) + [chunk]
  {
    RoundPagesRecorded(log, chunk, sub);
    RoundPagesWritten(log + [Read(chunk), Submitted(sub)], ps);
  }

  lemma RoundPagesRecorded(log: seq<Event>, chunk: seq<bv8>, sub: Submission)
    ensures Pages(log + [Read(chunk), Submitted(sub)]) == Pages(log)
    ensures Chunks(log + [Read(chunk), Submitted(sub)]) == Chunks(log) + [chunk]
  {
    TwoEvents(chunk, sub);
    PagesAppend(log, [Read(chunk), Submitted(sub)]);
    ChunksAppend(log, [Read(chunk), Submitted(sub)]);
  }

  lemma RoundPagesWritten(a: seq<Event>, ps: seq<Page>)
    ensures Pages(a + Writes(ps)) == Pages(a) + ps
    ensures Chunks(a + Writes(ps)) == Chunks(a)
  {
    PagesAppend(a, Writes(ps));
    ChunksAppend(a, Writes(ps));
    OfWrites(ps);
  }
}
