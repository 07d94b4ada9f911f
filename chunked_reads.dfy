/** The byte counts successive bufferread calls return, as a function of the
    request sizes alone. OggEncoder.ReadChunks shows that the cursor's reads
    return exactly these counts. */
module ChunkedReads {
  import opened Seqs

  /** What reads of the given sizes return, one after another, starting at
      position p of a stream of total bytes. */
  function Returns(total: nat, p: nat, sizes: seq<nat>): (rs: seq<nat>)
    requires p <= total
    ensures |rs| == |sizes|
    decreases sizes
  {
    if sizes == [] then []
    else
      var r := Min(sizes[0], total - p);
      [r] + Returns(total, p + r, sizes[1..])
  }

  function Sum(xs: seq<nat>): nat
  {
    if xs == [] then 0 else xs[0] + Sum(xs[1..])
  }

  lemma {:induction false} SumAppend(xs: seq<nat>, ys: seq<nat>)
    ensures Sum(xs + ys) == Sum(xs) + Sum(ys)
  {
    if xs != [] {
      assert (xs + ys)[1..] == xs[1..] + ys;
      SumAppend(xs[1..], ys);
    } else {
      assert xs + ys == ys;
    }
  }

  /** One more read after reads of the given sizes returns the smaller of
      its size and the bytes those reads left. */
  lemma {:induction false} ReturnsSnoc(total: nat, p: nat, sizes: seq<nat>, s: nat)
    requires p <= total
    ensures p + Sum(Returns(total, p, sizes)) <= total
    ensures Returns(total, p, sizes + [s]) ==
      Returns(total, p, sizes) + [Min(s, total - p - Sum(Returns(total, p, sizes)))]
    decreases sizes
  {
    if sizes == [] {
      assert [s][1..] == [];
    } else {
      var r := Min(sizes[0], total - p);
      assert (sizes + [s])[0] == sizes[0] && (sizes + [s])[1..] == sizes[1..] + [s];
      ReturnsSnoc(total, p + r, sizes[1..], s);
      assert ([r] + Returns(total, p + r, sizes[1..]))[1..] == Returns(total, p + r, sizes[1..]);
    }
  }

  /** Reads of any sizes together deliver the bytes left, or all they asked
      for when that is less: never more than the stream holds, and all of it
      once the requests add up to the bytes left. */
  lemma {:induction false} ReadsSumToTotal(total: nat, p: nat, sizes: seq<nat>)
    requires p <= total
    ensures Sum(Returns(total, p, sizes)) == Min(Sum(sizes), total - p)
    decreases sizes
  {
    if sizes != [] {
      var r := Min(sizes[0], total - p);
      ReadsSumToTotal(total, p + r, sizes[1..]);
      assert ([r] + Returns(total, p + r, sizes[1..]))[1..] == Returns(total, p + r, sizes[1..]);
    }
  }

  /** From the end of the stream every read returns 0. */
  lemma {:induction false} ExhaustedReturnsZero(total: nat, sizes: seq<nat>)
    ensures forall k :: 0 <= k < |sizes| ==> Returns(total, total, sizes)[k] == 0
  {
    if sizes != [] {
      ExhaustedReturnsZero(total, sizes[1..]);
      forall k | 0 <= k < |sizes| ensures Returns(total, total, sizes)[k] == 0 {
        if k > 0 {
          assert Returns(total, total, sizes)[k] == Returns(total, total, sizes[1..])[k - 1];
        }
      }
    }
  }

  /** Exhaustion is permanent: once a read returns less than it asked for,
      every later read returns 0. */
  lemma {:induction false} ShortReadThenZero(total: nat, p: nat, sizes: seq<nat>, k: nat)
    requires p <= total && k < |sizes|
    requires Returns(total, p, sizes)[k] < sizes[k]
    ensures forall j :: k < j < |sizes| ==> Returns(total, p, sizes)[j] == 0
    decreases sizes
  {
    var r := Min(sizes[0], total - p);
    var rest := Returns(total, p + r, sizes[1..]);
    if k == 0 {
      assert p + r == total;
      ExhaustedReturnsZero(total, sizes[1..]);
    } else {
      assert rest[k - 1] == Returns(total, p, sizes)[k];
      ShortReadThenZero(total, p + r, sizes[1..], k - 1);
    }
    forall j | k < j < |sizes| ensures Returns(total, p, sizes)[j] == 0 {
      assert Returns(total, p, sizes)[j] == rest[j - 1];
    }
  }
}
