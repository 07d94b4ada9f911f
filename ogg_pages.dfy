/** Ogg pages as the encoder's driver sees them, and the page sequences the
    Vorbis/Ogg library hands back. */
module OggPages {
  import opened Seqs

  /** An ogg_page: header bytes, body bytes and the end-of-stream flag
      that ogg_page_eos reports. */
  datatype Page = Page(header: seq<bv8>, body: seq<bv8>, eos: bool)

  /** The pages ogg_stream_pageout returns, one call after another, after
      one packet has been welded into the stream. */
  type PacketPages = seq<Page>
  /** The packets vorbis_bitrate_flushpacket yields for one analysed block. */
  type Block = seq<PacketPages>
  /** The blocks vorbis_analysis_blockout yields after one submission. */
  type Round = seq<Block>

  predicate HasEos(ps: seq<Page>)
  {
    exists i :: 0 <= i < |ps| && ps[i].eos
  }

  /** The pages up to and including the first end-of-stream page (all of
      them when none is flagged). */
  function ThroughEos(ps: seq<Page>): (t: seq<Page>)
    ensures t <= ps
    ensures forall i :: 0 <= i < |t| - 1 ==> !t[i].eos
    ensures |t| < |ps| ==> t != [] && t[|t| - 1].eos
  {
    if ps == [] then []
    else if ps[0].eos then [ps[0]]
    else [ps[0]] + ThroughEos(ps[1..])
  }

  /** The pages a loop guarded by `!eos` writes from ps, given the eos flag
      it starts with. */
  function Written(eos: bool, ps: seq<Page>): (w: seq<Page>)
    ensures w <= ps
    ensures eos ==> w == []
  {
    if eos then [] else ThroughEos(ps)
  }

  /** The bytes written for a list of pages: each page's header, then its body. */
  function PageBytes(ps: seq<Page>): seq<bv8>
  {
    if ps == [] then [] else PageBytes(ps[..|ps| - 1]) + ps[|ps| - 1].header + ps[|ps| - 1].body
  }

  /** All pages of one round, block after block. */
  function RoundPages(rd: Round): seq<Page>
  {
    if rd == [] then [] else RoundPages(rd[..|rd| - 1]) + Concat(rd[|rd| - 1])
  }

  /** All pages of a list of rounds, round after round. */
  function StreamPages(rs: seq<Round>): seq<Page>
  {
    if rs == [] then [] else StreamPages(rs[..|rs| - 1]) + RoundPages(rs[|rs| - 1])
  }

  /** ThroughEos is the shortest prefix that ends with the first
      end-of-stream page: it is a prefix, its last page and only that one is
      flagged, and without a flagged page it is everything. */
  lemma {:induction false} ThroughEosShape(ps: seq<Page>)
    ensures var t := ThroughEos(ps);
      t <= ps &&
      (HasEos(ps) ==> t != [] && t[|t| - 1].eos && !HasEos(t[..|t| - 1])) &&
      (!HasEos(ps) ==> t == ps)
  {
    if ps != [] && !ps[0].eos {
      ThroughEosShape(ps[1..]);
      var t := ThroughEos(ps[1..]);
      if HasEos(ps) {
        var i :| 0 <= i < |ps| && ps[i].eos;
        assert ps[1..][i - 1].eos;
        assert ([ps[0]] + t)[..|t|] == [ps[0]] + t[..|t| - 1];
      }
      if HasEos(ps[1..]) {
        var i :| 0 <= i < |ps[1..]| && ps[1..][i].eos;
        assert ps[i + 1].eos;
      }
    }
  }

  lemma {:induction false} HasEosAppend(a: seq<Page>, b: seq<Page>)
    ensures HasEos(a + b) == (HasEos(a) || HasEos(b))
  {
    if HasEos(a + b) {
      var i :| 0 <= i < |a + b| && (a + b)[i].eos;
      if i >= |a| {
        assert b[i - |a|].eos;
      }
    }
    if HasEos(a) {
      var i :| 0 <= i < |a| && a[i].eos;
      assert (a + b)[i].eos;
    }
    if HasEos(b) {
      var i :| 0 <= i < |b| && b[i].eos;
      assert (a + b)[|a| + i].eos;
    }
  }

  /** Cutting at the first end-of-stream page commutes with appending. */
  lemma {:induction false} ThroughEosAppend(a: seq<Page>, b: seq<Page>)
    ensures ThroughEos(a + b) == if HasEos(a) then ThroughEos(a) else a + ThroughEos(b)
  {
    if a == [] {
      assert a + b == b;
    } else {
      assert (a + b)[0] == a[0] && (a + b)[1..] == a[1..] + b;
      if !a[0].eos {
        ThroughEosAppend(a[1..], b);
        HasEosOfTail(a);
      }
    }
  }

  lemma HasEosOfTail(a: seq<Page>)
    requires a != [] && !a[0].eos
    ensures HasEos(a) == HasEos(a[1..])
  {
    if HasEos(a) {
      var i :| 0 <= i < |a| && a[i].eos;
      assert a[1..][i - 1].eos;
    }
    if HasEos(a[1..]) {
      var i :| 0 <= i < |a[1..]| && a[1..][i].eos;
      assert a[i + 1].eos;
    }
  }

  /** What a `!eos`-guarded loop writes from a + b is what it writes from a,
      then what it writes from b with the flag a leaves behind. */
  lemma WrittenAppend(eos: bool, a: seq<Page>, b: seq<Page>)
    ensures Written(eos, a + b) == Written(eos, a) + Written(eos || HasEos(a), b)
  {
    ThroughEosAppend(a, b);
    ThroughEosShape(a);
  }

  lemma {:induction false} PageBytesAppend(a: seq<Page>, b: seq<Page>)
    ensures PageBytes(a + b) == PageBytes(a) + PageBytes(b)
  {
    if b != [] {
      var n := |b| - 1;
      assert (a + b)[..|a + b| - 1] == a + b[..n];
      PageBytesAppend(a, b[..n]);
    } else {
      assert a + b == a;
    }
  }

  lemma {:induction false} StreamPagesAppend(a: seq<Round>, b: seq<Round>)
    ensures StreamPages(a + b) == StreamPages(a) + StreamPages(b)
  {
    if b != [] {
      var n := |b| - 1;
      assert (a + b)[..|a + b| - 1] == a + b[..n];
      StreamPagesAppend(a, b[..n]);
    } else {
      assert a + b == a;
    }
  }
}
