/** Sequence helpers shared by the cursor, the page framing and the trace. */
module Seqs {

  function Min(a: int, b: int): (m: int)
    ensures m <= a && m <= b && (m == a || m == b)
  {
    if a <= b then a else b
  }

  /** The concatenation of a list of sequences. It is built from the back, so
      that extending the list by one element extends the result by that element. */
  function Concat<T>(ss: seq<seq<T>>): seq<T>
  {
    if ss == [] then [] else Concat(ss[..|ss| - 1]) + ss[|ss| - 1]
  }

  /** Regrouping an append, stated once so that proofs can name the grouping they need. */
  lemma AppendAssoc<T>(a: seq<T>, b: seq<T>, c: seq<T>)
    ensures (a + b) + c == a + (b + c)
  {
  }

  /** Concatenation distributes over appending lists. */
  lemma {:induction false} ConcatAppend<T>(a: seq<seq<T>>, b: seq<seq<T>>)
    ensures Concat(a + b) == Concat(a) + Concat(b)
  {
    if b == [] {
      assert a + b == a;
    } else {
      var n := |b| - 1;
      assert (a + b)[..|a + b| - 1] == a + b[..n];
      assert (a + b)[|a + b| - 1] == b[n];
      ConcatAppend(a, b[..n]);
      AppendAssoc(Concat(a), Concat(b[..n]), b[n]);
    }
  }

  /** Appending one more part appends it to the concatenation. */
  lemma ConcatSnoc<T>(ss: seq<seq<T>>, s: seq<T>)
    ensures Concat(ss + [s]) == Concat(ss) + s
  {
    assert (ss + [s])[..|ss|] == ss;
  }

  /** Adjacent slices join. */
  lemma SliceJoin<T>(s: seq<T>, i: nat, j: nat, k: nat)
    requires i <= j <= k <= |s|
    ensures s[i..j] + s[j..k] == s[i..k]
  {
  }

  /** Splitting the list at any point splits the concatenation there. */
  lemma ConcatSplit<T>(ss: seq<seq<T>>, i: nat)
    requires i <= |ss|
    ensures Concat(ss) == Concat(ss[..i]) + Concat(ss[i..])
  {
    assert ss == ss[..i] + ss[i..];
    ConcatAppend(ss[..i], ss[i..]);
  }

  /** The concatenation starting at element i begins with element i. */
  lemma ConcatFrom<T>(ss: seq<seq<T>>, i: nat)
    requires i < |ss|
    ensures Concat(ss[i..]) == ss[i] + Concat(ss[i + 1..])
  {
    assert ss[i..] == [ss[i]] + ss[i + 1..];
    ConcatAppend([ss[i]], ss[i + 1..]);
    assert [ss[i]][..0] == [];
  }

  /** An empty concatenation has only empty parts. */
  lemma {:induction false} ConcatEmpty<T>(ss: seq<seq<T>>)
    requires Concat(ss) == []
    ensures forall k :: 0 <= k < |ss| ==> ss[k] == []
  {
    if ss != [] {
      ConcatEmpty(ss[..|ss| - 1]);
      forall k | 0 <= k < |ss| ensures ss[k] == [] {
        if k < |ss| - 1 {
          assert ss[..|ss| - 1][k] == ss[k];
        }
      }
    }
  }
}
