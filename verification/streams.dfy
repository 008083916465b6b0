/** Sequence combinators shared by the three stages: a stable filter over
    per-line decisions, counting, and the fixed-size batching a sequential
    DataLoader performs. */
module Streams {
  import opened Wrappers

  /** A per-element function applied along a sequence: one result per
      element, in order. */
  function Map<A, B>(s: seq<A>, f: A -> B): (r: seq<B>)
    ensures |r| == |s|
    ensures forall i :: 0 <= i < |s| ==> r[i] == f(s[i])
  {
    seq(|s|, i requires 0 <= i < |s| => f(s[i]))
  }

  /** The values of the Some entries, in order: what a single pass that writes
      at most one output per input leaves in the output file. */
  function Somes<U>(s: seq<Option<U>>): (r: seq<U>)
    ensures |r| <= |s|
  {
    if |s| == 0 then []
    else Somes(s[..|s| - 1]) + (if s[|s| - 1].Some? then [s[|s| - 1].value] else [])
  }

  /** The positions of the Some entries, in order. */
  function SomeIndices<U>(s: seq<Option<U>>): (r: seq<nat>)
    ensures |r| == |Somes(s)|
    ensures forall k :: 0 <= k < |r| ==> r[k] < |s|
  {
    if |s| == 0 then []
    else SomeIndices(s[..|s| - 1]) + (if s[|s| - 1].Some? then [|s| - 1] else [])
  }

  lemma {:induction false} SomesAppend<U>(a: seq<Option<U>>, b: seq<Option<U>>)
    ensures Somes(a + b) == Somes(a) + Somes(b)
    decreases |b|
  {
    if |b| == 0 {
      assert a + b == a;
    } else {
      assert (a + b)[..|a + b| - 1] == a + b[..|b| - 1];
      SomesAppend(a, b[..|b| - 1]);
    }
  }

  /** The stable-filter property: output k is the value of input
      SomeIndices(s)[k]; those positions strictly increase (outputs keep input
      order, and no input yields two outputs); and every Some input appears. */
  lemma {:induction false} StableSelection<U>(s: seq<Option<U>>)
    ensures forall k :: 0 <= k < |Somes(s)| ==> s[SomeIndices(s)[k]] == Some(Somes(s)[k])
    ensures forall k, l :: 0 <= k < l < |SomeIndices(s)| ==> SomeIndices(s)[k] < SomeIndices(s)[l]
    ensures forall i :: 0 <= i < |s| && s[i].Some? ==> i in SomeIndices(s)
  {
    if |s| > 0 {
      var p := s[..|s| - 1];
      StableSelection(p);
      assert forall i :: 0 <= i < |p| ==> p[i] == s[i];
    }
  }

  /** Number of true entries. */
  function CountTrue(b: seq<bool>): (n: nat)
    ensures n <= |b|
  {
    if |b| == 0 then 0
    else CountTrue(b[..|b| - 1]) + (if b[|b| - 1] then 1 else 0)
  }

  /** If every Some entry sits at a true position, there are no more outputs
      than counted positions. */
  lemma {:induction false} SomesWithinCount<U>(s: seq<Option<U>>, b: seq<bool>)
    requires |s| == |b|
    requires forall i :: 0 <= i < |s| && s[i].Some? ==> b[i]
    ensures |Somes(s)| <= CountTrue(b)
  {
    if |s| > 0 {
      SomesWithinCount(s[..|s| - 1], b[..|b| - 1]);
    }
  }

  /** Concatenation of a sequence of batches (see FlattenAppend). */
  function Flatten<T>(bs: seq<seq<T>>): (r: seq<T>)
  {
    if |bs| == 0 then [] else Flatten(bs[..|bs| - 1]) + bs[|bs| - 1]
  }

  lemma {:induction false} FlattenAppend<T>(a: seq<seq<T>>, b: seq<seq<T>>)
    ensures Flatten(a + b) == Flatten(a) + Flatten(b)
    decreases |b|
  {
    if |b| == 0 {
      assert a + b == a;
    } else {
      assert (a + b)[..|a + b| - 1] == a + b[..|b| - 1];
      FlattenAppend(a, b[..|b| - 1]);
    }
  }

  /** Consecutive batches of `size` elements, the last one possibly shorter:
      the batches a DataLoader with a sequential sampler and drop_last=False
      yields. */
  function Chunk<T>(s: seq<T>, size: nat): (bs: seq<seq<T>>)
    requires size > 0
    ensures |s| == 0 <==> |bs| == 0
    decreases |s|
  {
    if |s| == 0 then []
    else if |s| <= size then [s]
    else [s[..size]] + Chunk(s[size..], size)
  }

  /** Together the batches are the input, in order. */
  lemma {:induction false} ChunkFlattens<T>(s: seq<T>, size: nat)
    requires size > 0
    ensures Flatten(Chunk(s, size)) == s
    decreases |s|
  {
    if |s| == 0 {
    } else if |s| <= size {
      assert Flatten([s]) == Flatten([s][..0]) + s;
    } else {
      var rest := Chunk(s[size..], size);
      ChunkFlattens(s[size..], size);
      FlattenAppend([s[..size]], rest);
      assert Flatten([s[..size]]) == Flatten([s[..size]][..0]) + s[..size];
      assert s == s[..size] + s[size..];
    }
  }

  /** No batch is empty and none exceeds `size`; all but the last are full. */
  predicate FullBatches<T>(bs: seq<seq<T>>, size: nat) {
    forall i :: 0 <= i < |bs| ==> 0 < |bs[i]| <= size && (i < |bs| - 1 ==> |bs[i]| == size)
  }

  lemma {:induction false} ChunkSizes<T>(s: seq<T>, size: nat)
    requires size > 0
    ensures FullBatches(Chunk(s, size), size)
    decreases |s|
  {
    if |s| > size {
      var rest := Chunk(s[size..], size);
      ChunkSizes(s[size..], size);
      var bs := Chunk(s, size);
      assert bs == [s[..size]] + rest;
      forall i | 0 <= i < |bs|
        ensures 0 < |bs[i]| <= size && (i < |bs| - 1 ==> |bs[i]| == size)
      {
        if i > 0 {
          assert bs[i] == rest[i - 1];
        } else {
          assert bs[0] == s[..size];
        }
      }
    }
  }

  /** The batches up to and including `b` flatten to those before it
      followed by batch `b`. */
  lemma FlattenStep<T>(bs: seq<seq<T>>, b: nat)
    requires b < |bs|
    ensures Flatten(bs[..b + 1]) == Flatten(bs[..b]) + bs[b]
  {
    assert bs[..b + 1][..b] == bs[..b];
  }

  /** Selecting from one more element appends its value, if any. */
  lemma SomesStep<U>(ds: seq<Option<U>>, n: nat)
    requires n < |ds|
    ensures Somes(ds[..n + 1]) == Somes(ds[..n]) + (if ds[n].Some? then [ds[n].value] else [])
  {
    assert ds[..n + 1][..n] == ds[..n];
  }

  lemma {:induction false} CountTrueAppend(a: seq<bool>, b: seq<bool>)
    ensures CountTrue(a + b) == CountTrue(a) + CountTrue(b)
    decreases |b|
  {
    if |b| == 0 {
      assert a + b == a;
    } else {
      assert (a + b)[..|a + b| - 1] == a + b[..|b| - 1];
      CountTrueAppend(a, b[..|b| - 1]);
    }
  }

  lemma SplitAt<T>(s: seq<T>, n: nat)
    requires n <= |s|
    ensures s[..n] + s[n..] == s
  {
  }
}
