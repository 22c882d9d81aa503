/** Chunked and batched processing of a list. Every variant must give what the plain loop gives:
    the non-null results in order, without the items whose processing throws. */
module ParallelProcessor {
  import opened Basics

  datatype Outcome<+R> = Value(value: R) | Null | Throws

  datatype Result<+R> = Success(results: seq<R>) | WorkerFailed

  function FilterMap<T, R>(items: seq<T>, processor: T -> Outcome<R>): seq<R> {
    if items == [] then []
    else
      FilterMap(items[..|items| - 1], processor)
      + match processor(items[|items| - 1])
        case Value(r) => [r]
        case Null => []
        case Throws => []
  }

  lemma {:induction false} FilterMapConcat<T, R>(a: seq<T>, b: seq<T>, processor: T -> Outcome<R>)
    ensures FilterMap(a + b, processor) == FilterMap(a, processor) + FilterMap(b, processor)
  {
    if b == [] {
      assert a + b == a;
    } else {
      var init := b[..|b| - 1];
      FilterMapConcat(a, init, processor);
      assert (a + b)[..|a + b| - 1] == a + init;
    }
  }

  /** The items of a list whose processing yields a value. */
  function Kept<T, R>(items: seq<T>, processor: T -> Outcome<R>): nat {
    |set i | 0 <= i < |items| && processor(items[i]).Value?|
  }

  lemma KeptLast<T, R>(init: seq<T>, last: T, processor: T -> Outcome<R>)
    ensures Kept(init + [last], processor) == Kept(init, processor) + if processor(last).Value? then 1 else 0
  {
    var all := init + [last];
    var a := set i | 0 <= i < |init| && processor(init[i]).Value?;
    var b := set i | 0 <= i < |all| && processor(all[i]).Value?;
    assert b == a + if processor(last).Value? then {|init|} else {};
  }

  /** The result has one entry for each item that yields a value, null and a throw yielding none, and the
      entry of an item stands behind those of the items before it. */
  lemma {:induction false} FilterMapExactly<T, R>(items: seq<T>, processor: T -> Outcome<R>)
    ensures |FilterMap(items, processor)| == Kept(items, processor)
    ensures forall i :: 0 <= i < |items| && processor(items[i]).Value? ==>
              var place := Kept(items[..i], processor);
              place < |FilterMap(items, processor)| && FilterMap(items, processor)[place] == processor(items[i]).value
  {
    if items != [] {
      hide Kept;
      var init, last := items[..|items| - 1], items[|items| - 1];
      FilterMapExactly(init, processor);
      KeptLast(init, last, processor);
      assert items == init + [last];
      forall i | 0 <= i < |items| && processor(items[i]).Value?
        ensures
          var place := Kept(items[..i], processor);
          place < |FilterMap(items, processor)| && FilterMap(items, processor)[place] == processor(items[i]).value
      {
        if i < |init| {
          assert init[i] == items[i] && init[..i] == items[..i];
        } else {
          assert items[..i] == init;
        }
      }
    } else {
      assert Kept(items, processor) == 0;
    }
  }

  /** `items.slice(i, j)` for 0 <= i. */
  function Slice<T>(items: seq<T>, i: nat, j: nat): seq<T>
    requires i <= j
  {
    if i >= |items| then [] else if j >= |items| then items[i..] else items[i..j]
  }

  function CeilDiv(n: nat, k: nat): nat
    requires k > 0
  {
    (n + k - 1) / k
  }

  lemma CeilDivCovers(n: nat, k: nat)
    requires k > 0
    ensures CeilDiv(n, k) * k >= n
    ensures n > 0 ==> CeilDiv(n, k) > 0 && (CeilDiv(n, k) - 1) * k < n
  {
    var q := CeilDiv(n, k);
    assert n + k - 1 == k * q + (n + k - 1) % k;
    assert q == 0 ==> k * q == 0;
  }

  /** Chunks are non-empty and at most `size` long, all but the last exactly so, and they concatenate to the items. */
  ghost predicate Cuts<T>(items: seq<T>, chunks: seq<seq<T>>, size: nat) {
    && Concat(chunks) == items
    && (forall c :: 0 <= c < |chunks| ==> 0 < |chunks[c]| <= size)
    && (forall c :: 0 <= c < |chunks| - 1 ==> |chunks[c]| == size)
  }

  lemma {:induction false} FullChunks<T>(chunks: seq<seq<T>>, size: nat)
    requires forall c :: 0 <= c < |chunks| ==> |chunks[c]| == size
    ensures |Concat(chunks)| == |chunks| * size
  {
    if chunks != [] {
      FullChunks(chunks[..|chunks| - 1], size);
      assert |chunks| * size == (|chunks| - 1) * size + size;
    }
  }

  /** A cut into chunks of ceil(n / k) has at most k chunks. */
  lemma ChunkCount<T>(items: seq<T>, chunks: seq<seq<T>>, k: nat)
    requires k > 0 && Cuts(items, chunks, CeilDiv(|items|, k))
    ensures |chunks| <= k
  {
    hide CeilDiv;
    if chunks != [] {
      var size, init := CeilDiv(|items|, k), chunks[..|chunks| - 1];
      FullChunks(init, size);
      assert |Concat(init)| < |items|;
      CeilDivCovers(|items|, k);
      FewerChunks(|init|, k, size);
    }
  }

  lemma FewerChunks(n: nat, k: nat, size: nat)
    requires n * size < size * k
    ensures n < k
  {
    assert n * size == k * size + (n - k) * size;
    assert n >= k ==> (n - k) * size >= 0;
  }

  lemma SliceGrows<T>(items: seq<T>, i: nat, size: nat)
    ensures Slice(items, 0, i) + Slice(items, i, i + size) == Slice(items, 0, i + size)
  {
  }

  lemma NoChunks<T>()
    ensures Concat<T>([]) == []
  {
  }

  lemma ConcatLast<T>(chunks: seq<seq<T>>, chunk: seq<T>)
    ensures Concat(chunks + [chunk]) == Concat(chunks) + chunk
  {
    assert (chunks + [chunk])[..|chunks|] == chunks;
  }

  method SplitIntoChunks<T>(items: seq<T>, numChunks: nat) returns (chunks: seq<seq<T>>)
    requires numChunks > 0
    ensures Cuts(items, chunks, CeilDiv(|items|, numChunks))
    ensures |chunks| <= numChunks
  {
    hide CeilDiv, Concat;
    chunks := [];
    NoChunks<T>();
    var chunkSize := CeilDiv(|items|, numChunks);
    CeilDivCovers(|items|, numChunks);
    var i := 0;
    while i < |items|
      invariant |items| > 0 ==> chunkSize > 0
      invariant 0 <= i
      invariant Concat(chunks) == Slice(items, 0, i)
      invariant forall c :: 0 <= c < |chunks| ==> 0 < |chunks[c]| <= chunkSize
      invariant i < |items| ==> forall c :: 0 <= c < |chunks| ==> |chunks[c]| == chunkSize
      invariant forall c :: 0 <= c < |chunks| - 1 ==> |chunks[c]| == chunkSize
      decreases |items| - i
    {
      var chunk := Slice(items, i, i + chunkSize);
      ConcatLast(chunks, chunk);
      SliceGrows(items, i, chunkSize);
      chunks := chunks + [chunk];
      i := i + chunkSize;
    }
    assert Slice(items, 0, i) == items;
    ChunkCount(items, chunks, numChunks);
  }

  method ProcessSequentially<T, R>(items: seq<T>, processor: T -> Outcome<R>) returns (results: seq<R>)
    ensures results == FilterMap(items, processor)
  {
    results := [];
    for n := 0 to |items|
      invariant results == FilterMap(items[..n], processor)
    {
      assert items[..n + 1][..n] == items[..n];
      match processor(items[n]) {
        case Value(result) => results := results + [result];
        case Null =>
        case Throws =>
      }
    }
    assert items[..|items|] == items;
  }

  /** Below the minimum size the list is processed in the calling thread; otherwise one worker takes
      each chunk. `crashes` says whether the worker of a chunk dies instead of answering, which rejects
      the whole call. */
  method ProcessWithWorkers<T, R>(
    items: seq<T>, processor: T -> Outcome<R>, workerCount: nat, minItems: nat, crashes: nat -> bool)
    returns (r: Result<R>)
    requires workerCount > 0
    ensures r.Success? ==> r.results == FilterMap(items, processor)
    ensures r == WorkerFailed ==> |items| >= minItems && exists c :: 0 <= c < workerCount && crashes(c)
    ensures |items| < minItems || (forall c :: 0 <= c < workerCount ==> !crashes(c)) ==> r.Success?
  {
    if |items| < minItems {
      var results := ProcessSequentially(items, processor);
      return Success(results);
    }
    var chunks := SplitIntoChunks(items, workerCount);
    var results: seq<R> := [];
    for c := 0 to |chunks|
      invariant results == FilterMap(Concat(chunks[..c]), processor)
      invariant forall k :: 0 <= k < c ==> !crashes(k)
    {
      if crashes(c) {
        return WorkerFailed;
      }
      var answer := ProcessSequentially(chunks[c], processor);
      assert chunks[..c + 1][..c] == chunks[..c];
      FilterMapConcat(Concat(chunks[..c]), chunks[c], processor);
      results := results + answer;
    }
    assert chunks[..|chunks|] == chunks;
    r := Success(results);
  }

  method ProcessInBatches<T, R>(items: seq<T>, processor: T -> Outcome<R>, batchSize: nat) returns (results: seq<R>)
    requires batchSize > 0
    ensures results == FilterMap(items, processor)
  {
    results := [];
    var i := 0;
    while i < |items|
      invariant 0 <= i
      invariant results == FilterMap(Slice(items, 0, i), processor)
      decreases |items| - i
    {
      var batch := Slice(items, i, i + batchSize);
      var batchResults := ProcessBatch(batch, processor);
      FilterMapConcat(Slice(items, 0, i), batch, processor);
      SliceGrows(items, i, batchSize);
      results := results + batchResults;
      i := i + batchSize;
    }
    assert Slice(items, 0, i) == items;
  }

  /** One batch: all items are processed first, then the nulls are filtered out. */
  method ProcessBatch<T, R>(batch: seq<T>, processor: T -> Outcome<R>) returns (results: seq<R>)
    ensures results == FilterMap(batch, processor)
  {
    var batchResults := seq(|batch|, k requires 0 <= k < |batch| => processor(batch[k]));
    results := [];
    for k := 0 to |batchResults|
      invariant results == FilterMap(batch[..k], processor)
    {
      assert batch[..k + 1][..k] == batch[..k];
      match batchResults[k] {
        case Value(result) => results := results + [result];
        case Null =>
        case Throws =>
      }
    }
    assert batch[..|batch|] == batch;
  }
}
