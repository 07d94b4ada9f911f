/** Encoder_OGG: the span cursor (initbufferread / bufferread), the streaming
    Write(path) that drives the Vorbis/Ogg library, and the format-mismatch
    Write(path, soundinfo). */
module EncoderOgg {
  import opened Seqs
  import opened Sound
  import opened SampleConvert
  import opened Deinterleave
  import opened OggPages
  import opened Trace
  import opened Framing
  import opened OggWrite
  import opened ChunkedReads

  /** memcpy(dst + at, src, |src|). */
  method CopyInto(src: seq<bv8>, dst: array<bv8>, at: nat)
    requires at + |src| <= dst.Length
    modifies dst
    ensures dst[..] == old(dst[..])[..at] + src + old(dst[..])[at + |src|..]
  {
    ghost var before := dst[..];
    for k := 0 to |src|
      invariant dst[..] == before[..at] + src[..k] + before[at + k..]
    {
      dst[at + k] := src[k];
      assert src[..k + 1] == src[..k] + [src[k]];
    }
  }

  /** Position k inside span i is position |Concat(spans[..i])| + k of the stream. */
  lemma SpanSlice(spans: seq<seq<bv8>>, i: nat, off: nat, k: nat)
    requires i < |spans| && off + k <= |spans[i]|
    ensures |Concat(spans[..i])| + |spans[i]| <= |Concat(spans)|
    ensures Concat(spans)[|Concat(spans[..i])| + off..|Concat(spans[..i])| + off + k] == spans[i][off..off + k]
  {
    ConcatSplit(spans, i);
    ConcatFrom(spans, i);
  }

  /** One step of bufferread: k bytes from offset off of span i are the k
      stream bytes at the cursor, and finishing span i lands on the start
      of span i + 1. */
  lemma CursorStep(spans: seq<seq<bv8>>, i: nat, off: nat, k: nat)
    requires i < |spans| && off + k <= |spans[i]|
    ensures |Concat(spans[..i])| + off + k <= |Concat(spans)|
    ensures Concat(spans)[|Concat(spans[..i])| + off..|Concat(spans[..i])| + off + k] == spans[i][off..off + k]
    ensures |Concat(spans[..i + 1])| == |Concat(spans[..i])| + |spans[i]|
  {
    SpanSlice(spans, i, off, k);
    assert spans[..i + 1][..i] == spans[..i];
  }

  /** a holds the r stream bytes from p0 on, then what orig held past them. */
  ghost predicate Filled(a: seq<bv8>, stream: seq<bv8>, p0: nat, r: nat, orig: seq<bv8>)
  {
    p0 + r <= |stream| && r <= |orig| && a == stream[p0..p0 + r] + orig[r..]
  }

  lemma FilledParts(a: seq<bv8>, stream: seq<bv8>, p0: nat, r: nat, orig: seq<bv8>)
    requires Filled(a, stream, p0, r, orig)
    ensures a[..r] == stream[p0..p0 + r] && a[r..] == orig[r..]
  {
  }

  /** Copying the next piece of the stream over the untouched part of the
      destination extends the copied prefix by that piece. */
  lemma Spliced(stream: seq<bv8>, p0: nat, r: nat, orig: seq<bv8>, n: nat, cur: seq<bv8>, next: seq<bv8>)
    requires p0 + r + n <= |stream| && r + n <= |orig|
    requires Filled(cur, stream, p0, r, orig)
    requires next == cur[..r] + stream[p0 + r..p0 + r + n] + cur[r + n..]
    ensures Filled(next, stream, p0, r + n, orig)
  {
    var want := stream[p0..p0 + r + n] + orig[r + n..];
    assert |next| == |want|;
    forall k | 0 <= k < |next| ensures next[k] == want[k] {
      if k < r {
      } else if k < r + n {
      } else {
      }
    }
  }

  class OggEncoder {
    const info: SoundInfo                // info_
    const spans: seq<seq<bv8>>           // buffers_: the sound's PCM data, span after span
    const qualityLevel: int              // quality_level
    var metadata: map<string, string>    // the text values GetMetadata finds
    var destInfo: SoundInfo              // dest_info_
    var index: nat                       // current_buffer_index
    var offset: nat                      // current_buffer_offset

    /** The cursor is inside the span list: at most the length of its span,
        and at offset 0 once every span is consumed. */
    ghost predicate Valid()
      reads this`index, this`offset
    {
      index <= |spans| &&
      (index < |spans| ==> offset <= |spans[index]|) &&
      (index == |spans| ==> offset == 0)
    }

    /** The spans read as one byte stream. */
    ghost function Stream(): seq<bv8>
    {
      Concat(spans)
    }

    /** The cursor's logical position in Stream(). */
    ghost function Pos(): nat
      reads this`index, this`offset
      requires Valid()
    {
      |Concat(spans[..index])| + offset
    }

    lemma PosInStream()
      requires Valid()
      ensures Pos() <= |Stream()|
      ensures index == |spans| ==> Pos() == |Stream()|
    {
      if index < |spans| {
        SpanSlice(spans, index, 0, 0);
      } else {
        assert spans[..index] == spans;
      }
    }

    /** Encoder_OGG(sound): the base constructor fills buffers_, info_ and
        the metadata; quality_level is static_cast<int>(quality_ * 10), taken
        here as given; initbufferread() puts the cursor at the start. */
    constructor (info: SoundInfo, spans: seq<seq<bv8>>, qualityLevel: int,
                 metadata: map<string, string>, destInfo: SoundInfo)
      ensures this.info == info && this.spans == spans && this.qualityLevel == qualityLevel
      ensures this.metadata == metadata && this.destInfo == destInfo
      ensures Valid() && index == 0 && offset == 0 && Pos() == 0
    {
      this.info := info;
      this.spans := spans;
      this.qualityLevel := qualityLevel;
      this.metadata := metadata;
      this.destInfo := destInfo;
      new;
      InitBufferRead();
    }

    /** initbufferread: back to the first byte of the first span. */
    method InitBufferRead()
      modifies this`index, this`offset
      ensures Valid() && index == 0 && offset == 0 && Pos() == 0
    {
      index := 0;
      offset := 0;
    }

    /** bufferread(pOut, size): copies min(size, bytes left) bytes of the
        stream from the cursor into out[..r], crossing span boundaries and
        skipping empty spans, and advances the cursor by r. */
    method BufferRead(out: array<bv8>, size: nat) returns (r: nat)
      requires Valid() && size <= out.Length
      modifies this`index, this`offset, out
      ensures Valid()
      ensures r == Min(size, |Stream()| - old(Pos()))
      ensures Pos() == old(Pos()) + r
      ensures out[..r] == Stream()[old(Pos())..Pos()]
      ensures out[r..] == old(out[r..])
      ensures r == size || index == |spans|
      ensures old(index) == |spans| ==> index == |spans| && r == 0
    {
      PosInStream();
      if index == |spans| {
        return 0;
      }
      ghost var p0 := Pos();
      ghost var stream := Stream();
      ghost var orig := out[..];
      r := CopyLoop(out, size, stream, p0, orig);
      PosInStream();
      FilledParts(out[..], stream, p0, r, orig);
      assert out[..r] == out[..][..r] && out[r..] == out[..][r..];
    }

    /** The loop of bufferread: whole passes of CopyStep until size bytes
        are copied or the spans run out. */
    method CopyLoop(out: array<bv8>, size: nat, ghost stream: seq<bv8>, ghost p0: nat, ghost orig: seq<bv8>)
      returns (r: nat)
      requires Valid() && size <= out.Length
      requires stream == Stream() && Pos() == p0 <= |stream| && orig == out[..]
      modifies this`index, this`offset, out
      ensures Valid()
      ensures r <= size && Pos() == p0 + r <= |stream|
      ensures Filled(out[..], stream, p0, r, orig)
      ensures r == size || index == |spans|
    {
      r := 0;
      var rest: nat := size;
      assert out[..] == stream[p0..p0] + orig[0..];
      while rest > 0 && index < |spans|
        invariant Valid()
        invariant r + rest == size && |orig| == out.Length
        invariant Pos() == p0 + r <= |stream|
        invariant Filled(out[..], stream, p0, r, orig)
        decreases rest + (|spans| - index)
      {
        var cpy := CopyStep(out, r, rest, stream, p0, orig);
        rest := rest - cpy;
        r := r + cpy;
      }
    }

    /** One pass of the bufferread loop: copy what is left of the current
        span, at most rest bytes, to out[at..], so that out holds the stream
        from p0 up to the new cursor, followed by what it held before. */
    method CopyStep(out: array<bv8>, at: nat, rest: nat, ghost stream: seq<bv8>, ghost p0: nat, ghost orig: seq<bv8>)
      returns (cpy: nat)
      requires Valid() && index < |spans| && 0 < rest && at + rest <= out.Length
      requires stream == Stream() && Pos() == p0 + at <= |stream| && |orig| == out.Length
      requires Filled(out[..], stream, p0, at, orig)
      modifies this`index, this`offset, out
      ensures Valid()
      ensures cpy == Min(rest, |spans[old(index)]| - old(offset))
      ensures Pos() == p0 + at + cpy <= |stream|
      ensures Filled(out[..], stream, p0, at + cpy, orig)
      ensures cpy == rest || index == old(index) + 1
      ensures old(index) <= index
    {
      cpy := |spans[index]| - offset;
      if cpy > rest {
        cpy := rest;
      }
      CursorStep(spans, index, offset, cpy);
      ghost var cur := out[..];
      CopyInto(spans[index][offset..offset + cpy], out, at);
      Spliced(stream, p0, at, orig, cpy, cur, out[..]);
      Advance(cpy);
    }

    /** The cursor moves cpy bytes into its span, and on to the start of the
        next span once this one is used up. */
    method Advance(cpy: nat)
      requires Valid() && index < |spans| && offset + cpy <= |spans[index]|
      modifies this`index, this`offset
      ensures Valid()
      ensures Pos() == old(Pos()) + cpy <= |Stream()|
      ensures old(offset) + cpy < |spans[old(index)]| ==> index == old(index) && offset == old(offset) + cpy
      ensures old(offset) + cpy == |spans[old(index)]| ==> index == old(index) + 1 && offset == 0
    {
      CursorStep(spans, index, offset, cpy);
      offset := offset + cpy;
      if offset >= |spans[index]| {
        index := index + 1;
        offset := 0;
      }
      PosInStream();
    }

    /** bufferread(out, sizes[k]) for each k in turn: the counts returned are
        those of the pure read model ChunkedReads.Returns, from the position
        the cursor had before the first read, and the cursor moves on by their
        sum. */
    method ReadChunks(out: array<bv8>, sizes: seq<nat>) returns (rs: seq<nat>)
      requires Valid() && forall k :: 0 <= k < |sizes| ==> sizes[k] <= out.Length
      modifies this`index, this`offset, out
      ensures Valid()
      ensures old(Pos()) <= |Stream()|
      ensures rs == Returns(|Stream()|, old(Pos()), sizes)
      ensures Pos() == old(Pos()) + Sum(rs)
    {
      PosInStream();
      ghost var total, p0 := |Stream()|, Pos();
      ghost var pos := p0;
      rs := [];
      var k := 0;
      while k < |sizes|
        invariant Valid() && k <= |sizes|
        invariant Pos() == pos <= total
        invariant rs == Returns(total, p0, sizes[..k]) && pos == p0 + Sum(rs)
      {
        var r := BufferRead(out, sizes[k]);
        ReturnsSnoc(total, p0, sizes[..k], sizes[k]);
        SumAppend(rs, [r]);
        assert Sum([r]) == r by { assert [r][1..] == []; }
        assert sizes[..k + 1] == sizes[..k] + [sizes[k]];
        rs := rs + [r];
        pos := pos + r;
        k := k + 1;
      }
      assert sizes[..k] == sizes;
    }

    /** One turn of the data loop before the pages: bufferread of
        kOggStreamBufferSize frames' worth of bytes, then vorbis_analysis_wrote
        with 0 when nothing was read, otherwise with the deinterleaved whole
        frames in a fresh analysis buffer. */
    method ReadAndAnalyse(readBuffer: array<bv8>) returns (chunk: seq<bv8>, sub: Submission)
      requires Valid() && readBuffer.Length == ReadRequest(info)
      modifies this`index, this`offset, readBuffer
      ensures Valid()
      ensures |chunk| == Min(ReadRequest(info), |Stream()| - old(Pos()))
      ensures Pos() == old(Pos()) + |chunk|
      ensures chunk == Stream()[old(Pos())..Pos()]
      ensures Submits(sub, chunk, info)
    {
      var bytes := BufferRead(readBuffer, ReadRequest(info));
      chunk := readBuffer[..bytes];
      if bytes == 0 {
        sub := EndOfInput;
      } else {
        // vorbis_analysis_buffer: channels x kOggStreamBufferSize floats
        var buffer := new Sample[info.channels, OGG_STREAM_BUFFER_SIZE];
        FrameCountBounds(bytes, info);
        var frames := Deinterleave.Deinterleave(readBuffer, bytes, info, buffer);
        var samples := seq(info.channels, ch requires 0 <= ch < info.channels reads buffer =>
                           seq(frames, i requires 0 <= i < frames reads buffer => buffer[ch, i]));
        sub := Frames(frames, samples);
      }
    }

    /** Write(path): the encoder's export. fileOpened is whether the file could
        be opened; engine is the library's answers; ts is the turns the data
        loop took. The cursor is NOT reset: the reads continue from wherever
        an earlier Write left it. */
    method Write(engine: Engine, fileOpened: bool) returns (ok: bool, ghost ts: seq<TurnRec>, file: seq<bv8>, log: seq<Event>)
      requires Valid()
      requires engine.initResult == 0 ==> Ends(engine)
      modifies this`index, this`offset
      ensures Valid()
      ensures WriteOutcome(info, Stream(), old(Pos()), Pos(), qualityLevel, metadata, engine, fileOpened, ok, ts, file, log)
    {
      if !fileOpened {
        return false, [], [], [];
      }
      var configured := Configured(info.channels, info.rate, qualityLevel as real / 10.0);
      if engine.initResult != 0 {
        return false, [], [], [configured];
      }
      ts, file, log := Encode(engine);
      ok := true;
    }

    /** Write(path) once the file is open and vorbis_encode_init_vbr has
        accepted the configuration: comments and header packets, the header
        flush, then the data loop. */
    method Encode(engine: Engine) returns (ghost ts: seq<TurnRec>, file: seq<bv8>, log: seq<Event>)
      requires Valid() && engine.initResult == 0 && Ends(engine)
      modifies this`index, this`offset
      ensures Valid()
      ensures Encoded(info, Stream(), old(Pos()), Pos(), qualityLevel, metadata, engine, ts, file, log)
    {
      var configured := Configured(info.channels, info.rate, qualityLevel as real / 10.0);
      var hp := engine.headerPages;
      var headers0 := [configured, HeadersOut(CommentTags(metadata))];
      file, log := FlushHeaders(hp, [], headers0);
      var readBuffer := new bv8[ReadRequest(info)];
      ghost var p0 := Pos();
      ts, file, log := DataLoop(readBuffer, engine, file, log);
      TakenDone(info, Stream(), p0, Pos(), qualityLevel, metadata, engine, ts, file, log);
    }

    /** The data loop `while (!eos)`: one turn after another, each reading
        one chunk at the cursor, until a turn has written an end-of-stream
        page; it starts after the configuration, the header packets and the
        header flush. */
    method DataLoop(readBuffer: array<bv8>, engine: Engine, file0: seq<bv8>, log0: seq<Event>)
      returns (ghost ts: seq<TurnRec>, file: seq<bv8>, log: seq<Event>)
      requires Valid() && readBuffer.Length == ReadRequest(info) && engine.initResult == 0 && Ends(engine)
      requires file0 == [] + PageBytes(engine.headerPages)
      requires log0 == Headers(info, qualityLevel, metadata, engine.headerPages)
      modifies this`index, this`offset, readBuffer
      ensures Valid()
      ensures TurnsTaken(info, Stream(), old(Pos()), Pos(), engine.headerPages, log0, engine.rounds, ts, true, file, log)
    {
      var rounds, hp := engine.rounds, engine.headerPages;
      ghost var stream, p0 := Stream(), Pos();
      PosInStream();
      TakenStart(info, stream, p0, hp, log0, rounds);
      file, log := file0, log0;
      var eos := false;
      ts := [];
      var r := 0;  // the turn, which selects the library's answers
      while !eos
        invariant Valid() && readBuffer.Length == ReadRequest(info) && Stream() == stream && r == |ts|
        invariant TurnsTaken(info, stream, p0, Pos(), hp, log0, rounds, ts, eos, file, log)
        decreases |rounds| - r
      {
        NotYetEnded(rounds, r);
        ghost var p := Pos();
        var eos', file', log', chunk, sub := Turn(readBuffer, rounds[r], file, log);
        TakenStep(info, stream, p0, p, hp, log0, rounds, ts, file, log, chunk, sub);
        eos, file, log := eos', file', log';
        ts := ts + [TurnRec(chunk, sub)];
        r := r + 1;
      }
    }

    /** One turn of the data loop: read and submit a chunk, then drain the
        library's blocks, packets and pages of this turn's round; the pages
        go to the file and the log until one of them flags end of stream. */
    method Turn(readBuffer: array<bv8>, round: Round, file0: seq<bv8>, log0: seq<Event>)
      returns (eos: bool, file: seq<bv8>, log: seq<Event>, chunk: seq<bv8>, sub: Submission)
      requires Valid() && readBuffer.Length == ReadRequest(info)
      modifies this`index, this`offset, readBuffer
      ensures Valid()
      ensures Pos() == old(Pos()) + |chunk| && Turned(info, Stream(), old(Pos()), chunk, sub)
      ensures eos == HasEos(RoundPages(round))
      ensures file == file0 + PageBytes(Written(false, RoundPages(round)))
      ensures log == log0 + [Read(chunk), Submitted(sub)] + Writes(Written(false, RoundPages(round)))
    {
      chunk, sub := ReadAndAnalyse(readBuffer);
      log := log0 + [Read(chunk), Submitted(sub)];
      eos, file, log := DrainBlocks(round, false, file0, log);
    }

    /** Write(path, soundinfo): a different rate or channel count goes to the
        base writer (Encoder::Write, which resamples; its result is baseOk
        here); otherwise dest_info_ is set to soundinfo for the duration of
        Write(path) and restored afterwards. */
    method WriteAs(soundinfo: SoundInfo, engine: Engine, fileOpened: bool, baseOk: bool)
      returns (ok: bool, delegated: bool, ghost ts: seq<TurnRec>, file: seq<bv8>, log: seq<Event>)
      requires Valid()
      requires engine.initResult == 0 ==> Ends(engine)
      modifies this`index, this`offset, this`destInfo
      ensures Valid() && destInfo == old(destInfo)
      ensures delegated == (soundinfo.rate != info.rate || soundinfo.channels != info.channels)
      ensures delegated ==> ok == baseOk && ts == [] && file == [] && log == [] && index == old(index) && offset == old(offset)
      ensures !delegated ==>
        WriteOutcome(info, Stream(), old(Pos()), Pos(), qualityLevel, metadata, engine, fileOpened, ok, ts, file, log)
    {
      if soundinfo.rate != info.rate || soundinfo.channels != info.channels {
        return baseOk, true, [], [], [];
      }
      var saved := destInfo;
      destInfo := soundinfo;
      ok, ts, file, log := Write(engine, fileOpened);
      destInfo := saved;
      delegated := false;
    }
  }

}
