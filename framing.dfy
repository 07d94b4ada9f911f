/** The page-framing loops of the encoder's Write: the header flush and the
    three nested drains that follow each submission. Each call to the library
    (ogg_stream_flush, vorbis_analysis_blockout, vorbis_bitrate_flushpacket,
    ogg_stream_pageout) takes the next answer from the scripted pages; file
    and log are what fwrite has produced so far and what happened so far. */
module Framing {
  import opened Seqs
  import opened OggPages
  import opened Trace

  /** `while (!eos) { if (ogg_stream_flush(...) == 0) break; fwrite header; fwrite body; }`
      with eos still 0: every header page is written, in order. */
  method FlushHeaders(pages: seq<Page>, file0: seq<bv8>, log0: seq<Event>)
    returns (file: seq<bv8>, log: seq<Event>)
    ensures file == file0 + PageBytes(pages)
    ensures log == log0 + Writes(pages)
  {
    file, log := file0, log0;
    var j := 0;
    while j < |pages|
      invariant j <= |pages|
      invariant file == file0 + PageBytes(pages[..j])
      invariant log == log0 + Writes(pages[..j])
    {
      var page := pages[j];
      assert pages[..j + 1][..j] == pages[..j];
      assert PageBytes(pages[..j + 1]) == PageBytes(pages[..j]) + page.header + page.body;
      WritesAppend(pages[..j], [page]);
      assert pages[..j] + [page] == pages[..j + 1];
      AppendAssoc(file0, PageBytes(pages[..j]), page.header);
      AppendAssoc(file0, PageBytes(pages[..j]) + page.header, page.body);
      AppendAssoc(log0, Writes(pages[..j]), [Wrote(page)]);
      file := file + page.header;
      file := file + page.body;
      log := log + [Wrote(page)];
      j := j + 1;
    }
    assert pages[..j] == pages;
  }

  /** The innermost `while (!eos)` loop around ogg_stream_pageout: pages are
      written until the stream runs out of pages or a written page carries
      the end-of-stream flag. */
  method DrainPageouts(pages: PacketPages, eos0: bool, file0: seq<bv8>, log0: seq<Event>)
    returns (eos: bool, file: seq<bv8>, log: seq<Event>)
    ensures eos == (eos0 || HasEos(pages))
    ensures file == file0 + PageBytes(Written(eos0, pages))
    ensures log == log0 + Writes(Written(eos0, pages))
  {
    eos, file, log := eos0, file0, log0;
    var j := 0;
    while !eos && j < |pages|
      invariant j <= |pages|
      invariant eos == (eos0 || HasEos(pages[..j]))
      invariant file == file0 + PageBytes(Written(eos0, pages[..j]))
      invariant log == log0 + Writes(Written(eos0, pages[..j]))
    {
      var page := pages[j];
      ghost var w := Written(eos0, pages[..j]);
      StepWritten(eos0, pages, j);
      AppendAssoc(file0, PageBytes(w), page.header);
      AppendAssoc(file0, PageBytes(w) + page.header, page.body);
      AppendAssoc(log0, Writes(w), [Wrote(page)]);
      file := file + page.header;
      file := file + page.body;
      log := log + [Wrote(page)];
      if page.eos {
        eos := true;
      }
      j := j + 1;
    }
    if j < |pages| {
      // stopped at the end-of-stream page: the rest of the pages is never asked for
      StopEarly(eos0, pages, j);
    } else {
      assert pages[..j] == pages;
    }
  }

  /** Once the flag is set after j pages, the pages from j on are never
      written. */
  lemma StopEarly(eos0: bool, pages: seq<Page>, j: nat)
    requires j <= |pages| && (eos0 || HasEos(pages[..j]))
    ensures eos0 || HasEos(pages)
    ensures Written(eos0, pages) == Written(eos0, pages[..j])
  {
    assert pages == pages[..j] + pages[j..];
    WrittenAppend(eos0, pages[..j], pages[j..]);
    HasEosAppend(pages[..j], pages[j..]);
  }

  /** One more page written by the `!eos` loop. */
  lemma StepWritten(eos0: bool, pages: seq<Page>, j: nat)
    requires j < |pages| && !eos0 && !HasEos(pages[..j])
    ensures Written(eos0, pages[..j + 1]) == Written(eos0, pages[..j]) + [pages[j]]
    ensures HasEos(pages[..j + 1]) == pages[j].eos
    ensures PageBytes(Written(eos0, pages[..j]) + [pages[j]]) ==
      PageBytes(Written(eos0, pages[..j])) + pages[j].header + pages[j].body
    ensures Writes(Written(eos0, pages[..j]) + [pages[j]]) == Writes(Written(eos0, pages[..j])) + [Wrote(pages[j])]
  {
    assert pages[..j + 1] == pages[..j] + [pages[j]];
    WrittenAppend(eos0, pages[..j], [pages[j]]);
    HasEosAppend(pages[..j], [pages[j]]);
    ThroughEosShape(pages[..j]);
    assert [pages[j]][1..] == [];
    assert ThroughEos([pages[j]]) == [pages[j]];
    var w := Written(eos0, pages[..j]);
    assert (w + [pages[j]])[..|w|] == w;
    WritesAppend(w, [pages[j]]);
  }

  /** A scripted part (a packet's pages, a block, a round) appended to what
      a `!eos`-guarded drain has already seen. */
  lemma ExtendDrain(eos0: bool, done: seq<Page>, part: seq<Page>, file0: seq<bv8>, log0: seq<Event>)
    ensures file0 + PageBytes(Written(eos0, done)) + PageBytes(Written(eos0 || HasEos(done), part)) ==
      file0 + PageBytes(Written(eos0, done + part))
    ensures log0 + Writes(Written(eos0, done)) + Writes(Written(eos0 || HasEos(done), part)) ==
      log0 + Writes(Written(eos0, done + part))
    ensures (eos0 || HasEos(done) || HasEos(part)) == (eos0 || HasEos(done + part))
  {
    var a, b := Written(eos0, done), Written(eos0 || HasEos(done), part);
    WrittenAppend(eos0, done, part);
    PageBytesAppend(a, b);
    AppendAssoc(file0, PageBytes(a), PageBytes(b));
    WritesAppend(a, b);
    AppendAssoc(log0, Writes(a), Writes(b));
    HasEosAppend(done, part);
  }

  /** `while (vorbis_bitrate_flushpacket(...)) { ogg_stream_packetin; pageout loop }`:
      every packet of the block is welded in, even after the end-of-stream
      page, but pages are written only while eos is unset. */
  method DrainPackets(block: Block, eos0: bool, file0: seq<bv8>, log0: seq<Event>)
    returns (eos: bool, file: seq<bv8>, log: seq<Event>)
    ensures eos == (eos0 || HasEos(Concat(block)))
    ensures file == file0 + PageBytes(Written(eos0, Concat(block)))
    ensures log == log0 + Writes(Written(eos0, Concat(block)))
  {
    eos, file, log := eos0, file0, log0;
    var k := 0;
    while k < |block|
      invariant k <= |block|
      invariant eos == (eos0 || HasEos(Concat(block[..k])))
      invariant file == file0 + PageBytes(Written(eos0, Concat(block[..k])))
      invariant log == log0 + Writes(Written(eos0, Concat(block[..k])))
    {
      ExtendDrain(eos0, Concat(block[..k]), block[k], file0, log0);
      eos, file, log := DrainPageouts(block[k], eos, file, log);
      assert block[..k + 1][..k] == block[..k];
      k := k + 1;
    }
    assert block[..k] == block;
  }

  /** `while (vorbis_analysis_blockout(...) == 1) { vorbis_analysis; vorbis_bitrate_addblock; packet loop }`. */
  method DrainBlocks(round: Round, eos0: bool, file0: seq<bv8>, log0: seq<Event>)
    returns (eos: bool, file: seq<bv8>, log: seq<Event>)
    ensures eos == (eos0 || HasEos(RoundPages(round)))
    ensures file == file0 + PageBytes(Written(eos0, RoundPages(round)))
    ensures log == log0 + Writes(Written(eos0, RoundPages(round)))
  {
    eos, file, log := eos0, file0, log0;
    var b := 0;
    while b < |round|
      invariant b <= |round|
      invariant eos == (eos0 || HasEos(RoundPages(round[..b])))
      invariant file == file0 + PageBytes(Written(eos0, RoundPages(round[..b])))
      invariant log == log0 + Writes(Written(eos0, RoundPages(round[..b])))
    {
      ExtendDrain(eos0, RoundPages(round[..b]), Concat(round[b]), file0, log0);
      eos, file, log := DrainPackets(round[b], eos, file, log);
      assert round[..b + 1][..b] == round[..b];
      b := b + 1;
    }
    assert round[..b] == round;
  }
}
