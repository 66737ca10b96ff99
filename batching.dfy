/** How `main` cuts the input lines into batches of at most `max_concurrent`. */
module Batching {
  import opened Counting

  /** `CONFIG["max_concurrent"]`, the batch size `main` uses. */
  const MaxConcurrent: nat := 200

  /** All the batches, one after the other. */
  function Concat<T>(ss: seq<seq<T>>): seq<T> {
    if ss == [] then [] else ss[0] + Concat(ss[1..])
  }

  /** Adding a batch at the end adds its elements at the end. */
  lemma {:induction false} ConcatSnoc<T>(ss: seq<seq<T>>, s: seq<T>)
    ensures Concat(ss + [s]) == Concat(ss) + s
  {
    if ss != [] {
      assert (ss + [s])[1..] == ss[1..] + [s];
      ConcatSnoc(ss[1..], s);
    } else {
      assert [s][1..] == [];
    }
  }

  /** `[s[i:i + size] for i in range(0, len(s), size)]`. */
  function Batches<T>(s: seq<T>, size: nat): seq<seq<T>>
    requires size > 0
    decreases |s|
  {
    if s == [] then []
    else
      var n := Min(size, |s|);
      [s[..n]] + Batches(s[n..], size)
  }

  /**
   * Every element lands in exactly one batch and the batches keep the input
   * order; no batch is empty or larger than `size`, and all but the last
   * are full.
   */
  lemma {:induction false} BatchesSpec<T>(s: seq<T>, size: nat)
    requires size > 0
    ensures var bs := Batches(s, size);
      && Concat(bs) == s
      && (forall k :: 0 <= k < |bs| ==> 0 < |bs[k]| <= size)
      && (forall k :: 0 <= k < |bs| - 1 ==> |bs[k]| == size)
    decreases |s|
  {
    if s != [] {
      var n := Min(size, |s|);
      var rest := Batches(s[n..], size);
      BatchesSpec(s[n..], size);
      var bs := [s[..n]] + rest;
      assert Batches(s, size) == bs;
      assert bs[1..] == rest;
      assert s == s[..n] + s[n..];
      assert forall k :: 1 <= k < |bs| ==> bs[k] == rest[k - 1];
    }
  }

  /** Number of batches: `len(range(0, len(s), size))`, the ceiling of `|s| / size`. */
  lemma {:induction false} BatchCount<T>(s: seq<T>, size: nat)
    requires size > 0
    ensures (|Batches(s, size)| - 1) * size < |s| <= |Batches(s, size)| * size
    decreases |s|
  {
    if s != [] {
      var n := Min(size, |s|);
      BatchCount(s[n..], size);
      var m := |Batches(s[n..], size)|;
      assert |Batches(s, size)| == m + 1;
      MulSucc(m, size);
      MulSucc(m - 1, size);
    }
  }

  lemma MulSucc(m: int, size: int)
    ensures (m + 1) * size == m * size + size
  {
  }

  /** The first batch is the first `size` elements (or all of them); the rest are the batches of what follows. */
  lemma NextBatch<T>(s: seq<T>, size: nat)
    requires size > 0 && s != []
    ensures Batches(s, size) == [s[..Min(size, |s|)]] + Batches(s[Min(size, |s|)..], size)
  {
  }

  /** Cutting off the next batch of the rest of the input keeps the batches seen so far a prefix of all batches. */
  lemma BatchesStep<T>(seen: seq<seq<T>>, s: seq<T>, i: nat, size: nat)
    requires size > 0 && i < |s|
    requires seen + Batches(s[i..], size) == Batches(s, size)
    ensures (seen + [s[i..Min(i + size, |s|)]]) + Batches(s[Min(i + size, |s|)..], size) == Batches(s, size)
  {
    var t, n, hi := s[i..], Min(size, |s| - i), Min(i + size, |s|);
    calc {
      Batches(s, size);
      seen + Batches(t, size);
      { NextBatch(t, size); }
      seen + ([t[..n]] + Batches(t[n..], size));
      { assert t[..n] == s[i..hi] && t[n..] == s[hi..]; }
      seen + ([s[i..hi]] + Batches(s[hi..], size));
      { Associate3(seen, [s[i..hi]], Batches(s[hi..], size)); }
      (seen + [s[i..hi]]) + Batches(s[hi..], size);
    }
  }

  lemma Associate3<T>(a: seq<T>, b: seq<T>, c: seq<T>)
    ensures a + (b + c) == (a + b) + c
  {
  }
}
