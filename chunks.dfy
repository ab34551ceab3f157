/**
 * Batching of work items: `more_itertools.chunked(items, n)`, which both
 * synchronisers use to split a listing into batches that run one after the
 * other.
 */
module Chunks {

  /**
   * Consecutive batches of `n` items, the last one possibly shorter. With
   * `n == 0` the iterator stops at once (`take(0, ...)` is its empty sentinel),
   * so there are no batches at all.
   */
  function Chunked<T>(s: seq<T>, n: nat): (cs: seq<seq<T>>)
    ensures n == 0 || s == [] ==> cs == []
    ensures forall i :: 0 <= i < |cs| ==> 0 < |cs[i]| <= n
    ensures forall i :: 0 <= i < |cs| - 1 ==> |cs[i]| == n
    decreases |s|
  {
    if n == 0 || |s| == 0 then []
    else if |s| <= n then [s]
    else [s[..n]] + Chunked(s[n..], n)
  }

  /** The batches put back together, in order. */
  function Flatten<T>(cs: seq<seq<T>>): seq<T>
  {
    if cs == [] then [] else cs[0] + Flatten(cs[1..])
  }

  lemma {:induction false} FlattenAppend<T>(a: seq<seq<T>>, b: seq<seq<T>>)
    ensures Flatten(a + b) == Flatten(a) + Flatten(b)
  {
    if a != [] {
      assert (a + b)[1..] == a[1..] + b;
      FlattenAppend(a[1..], b);
    } else {
      assert a + b == b;
    }
  }

  /** Every item is in exactly one batch, and the batches keep the items' order. */
  lemma {:induction false} FlattenChunked<T>(s: seq<T>, n: nat)
    requires n > 0
    ensures Flatten(Chunked(s, n)) == s
    decreases |s|
  {
    if |s| > n {
      FlattenChunked(s[n..], n);
      assert Chunked(s, n)[1..] == Chunked(s[n..], n);
      assert s[..n] + s[n..] == s;
    } else if |s| > 0 {
      assert Chunked(s, n)[1..] == [];
    }
  }

  /** The first `c + 1` batches are the first `c` followed by batch `c`. */
  lemma FlattenSnoc<T>(cs: seq<seq<T>>, c: nat)
    requires c < |cs|
    ensures Flatten(cs[..c + 1]) == Flatten(cs[..c]) + cs[c]
  {
    assert cs[..c + 1] == cs[..c] + [cs[c]];
    FlattenAppend(cs[..c], [cs[c]]);
    assert Flatten([cs[c]]) == cs[c] + Flatten<T>([]);
  }

  /** An item of a batch is an item of the flattened batches. */
  lemma {:induction false} FlattenMember<T>(cs: seq<seq<T>>, c: nat, j: nat)
    requires c < |cs| && j < |cs[c]|
    ensures cs[c][j] in Flatten(cs)
    decreases c
  {
    if c > 0 {
      FlattenMember(cs[1..], c - 1, j);
      assert cs[1..][c - 1] == cs[c];
    }
  }

  /** Every item of a batch comes from the batched list. */
  lemma ChunkedMember<T>(s: seq<T>, n: nat, c: nat, j: nat)
    requires n > 0 && c < |Chunked(s, n)| && j < |Chunked(s, n)[c]|
    ensures Chunked(s, n)[c][j] in s
  {
    FlattenChunked(s, n);
    FlattenMember(Chunked(s, n), c, j);
  }
}
