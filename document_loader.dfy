/**
  The stream-splitting adapter of the document loaders: every upstream item
  of a document stream is turned into one block of downstream items, by
  sending each successfully loaded document through a text splitter.

  Documents (D), text-splitter errors (S) and the other loader errors (E) are
  opaque. The asynchronous stream is modelled as the finite sequence of the
  items it yields, in order; the splitter as a total function on batches.
*/
module DocumentLoader {
  import opened Sequences

  datatype Result<T, Err> = Ok(value: T) | Err(error: Err)

  /** The loader error taxonomy: a failure of the text splitter, wrapped so
      that its origin stays visible, or any other loader failure. */
  datatype LoaderError<S, E> = TextSplitterError(splitError: S) | OtherError(cause: E)

  /** One item of a document stream. */
  type Item<D, S, E> = Result<D, LoaderError<S, E>>

  /** A text splitter: a batch of documents to a batch of fragments, or a failure. */
  type Splitter<!D, S> = seq<D> -> Result<seq<D>, S>

  // ---------------------------------------------------------------------------
  // Specification
  // ---------------------------------------------------------------------------

  /** Every fragment of a successful split, each as its own successful item. */
  function OkAll<D, S, E>(docs: seq<D>): (r: seq<Item<D, S, E>>)
    ensures |r| == |docs|
    ensures forall k :: 0 <= k < |docs| ==> r[k] == Ok(docs[k])
  {
    if |docs| == 0 then [] else [Ok(docs[0])] + OkAll(docs[1..])
  }

  /** The downstream items produced for one upstream item: the fragments of a
      successful split, each as Ok; the wrapped error of a failed split; or the
      upstream error itself. */
  function Block<D, S, E>(split: Splitter<D, S>, item: Item<D, S, E>): (r: seq<Item<D, S, E>>)
    ensures |r| == BlockSize(split, item)
    ensures item.Ok? && split([item.value]).Ok? ==>
              forall k :: 0 <= k < |r| ==> r[k] == Ok(split([item.value]).value[k])
    ensures item.Ok? && split([item.value]).Err? ==>
              r == [Err(TextSplitterError(split([item.value]).error))]
    ensures item.Err? ==> r == [item]
  {
    match item
    case Ok(doc) =>
      (match split([doc])
       case Ok(docs) => OkAll(docs)
       case Err(e) => [Err(TextSplitterError(e))])
    case Err(e) => [Err(e)]
  }

  function BlockFn<D, S, E>(split: Splitter<D, S>): Item<D, S, E> -> seq<Item<D, S, E>>
  {
    item => Block(split, item)
  }

  /** The whole downstream stream: one block per upstream item, in upstream
      order. The adapter never invents a loader error: every error in the
      output that did not come from the splitter was forwarded from upstream. */
  function Process<D, S, E>(split: Splitter<D, S>, input: seq<Item<D, S, E>>): (r: seq<Item<D, S, E>>)
    ensures forall x :: x in r && x.Err? && x.error.OtherError? ==> x in input
  {
    OtherErrorsForwarded(split, input);
    FlatMap(BlockFn(split), input)
  }

  lemma {:induction false} OtherErrorsForwarded<D, S, E>(split: Splitter<D, S>, input: seq<Item<D, S, E>>)
    ensures forall x :: x in FlatMap(BlockFn(split), input) && x.Err? && x.error.OtherError? ==> x in input
    decreases |input|
  {
    if |input| > 0 {
      OtherErrorsForwarded(split, input[1..]);
      var head := Block(split, input[0]);
      assert FlatMap(BlockFn(split), input) == head + FlatMap(BlockFn(split), input[1..]);
      forall x | x in head && x.Err? && x.error.OtherError?
        ensures x == input[0]
      {
        var k :| 0 <= k < |head| && head[k] == x;
      }
    }
  }

  /** The batches the splitter is invoked on while one upstream item is handled:
      one call, on the one-document batch of a loaded document, and none for an
      upstream error. */
  function CallsOf<D, S, E>(item: Item<D, S, E>): (r: seq<seq<D>>)
    ensures |r| == if item.Ok? then 1 else 0
    ensures forall k :: 0 <= k < |r| ==> r[k] == [item.value]
  {
    match item
    case Ok(doc) => [[doc]]
    case Err(_) => []
  }

  /** The log of splitter invocations, in order, while the whole upstream is
      handled. Every invocation is on a one-document batch holding a document
      that was loaded upstream. */
  function SplitCalls<D, S, E>(input: seq<Item<D, S, E>>): (r: seq<seq<D>>)
    ensures forall k :: 0 <= k < |r| ==> |r[k]| == 1 && Ok(r[k][0]) in input
  {
    CallsFromLoaded(input);
    FlatMap(CallsOf, input)
  }

  lemma {:induction false} CallsFromLoaded<D, S, E>(input: seq<Item<D, S, E>>)
    ensures forall k :: 0 <= k < |FlatMap(CallsOf, input)| ==> |FlatMap(CallsOf, input)[k]| == 1
    ensures forall k :: 0 <= k < |FlatMap(CallsOf, input)| ==> Ok(FlatMap(CallsOf, input)[k][0]) in input
    decreases |input|
  {
    if |input| > 0 {
      CallsFromLoaded(input[1..]);
      var head := CallsOf(input[0]);
      var rest := FlatMap(CallsOf, input[1..]);
      var calls := FlatMap(CallsOf, input);
      assert calls == head + rest;
      forall k | 0 <= k < |calls|
        ensures |calls[k]| == 1 && Ok(calls[k][0]) in input
      {
        if k < |head| {
          assert calls[k] == [input[0].value];
        } else {
          var k' := k - |head|;
          assert calls[k] == rest[k'];
          assert |rest[k']| == 1 && Ok(rest[k'][0]) in input[1..];
        }
      }
    }
  }

  /** Reference count of downstream items for one upstream item. */
  function BlockSize<D, S, E>(split: Splitter<D, S>, item: Item<D, S, E>): nat
  {
    if item.Err? then 1
    else if split([item.value]).Err? then 1
    else |split([item.value]).value|
  }

  /** Reference count of downstream items: the sum of the block sizes. */
  function OutputCount<D, S, E>(split: Splitter<D, S>, input: seq<Item<D, S, E>>): nat
    decreases |input|
  {
    if |input| == 0 then 0 else BlockSize(split, input[0]) + OutputCount(split, input[1..])
  }

  /** Number of successfully loaded upstream documents. */
  function CountOk<D, S, E>(input: seq<Item<D, S, E>>): nat
    decreases |input|
  {
    if |input| == 0 then 0 else (if input[0].Ok? then 1 else 0) + CountOk(input[1..])
  }

  /** Number of upstream items the adapter has pulled when its consumer has
      received n downstream items (or the stream ended first). */
  function Pulls<D, S, E>(split: Splitter<D, S>, input: seq<Item<D, S, E>>, n: nat): (m: nat)
    ensures m <= |input|
    ensures n > 0 && |input| > 0 ==> m > 0
    decreases |input|
  {
    if n == 0 || |input| == 0 then 0
    else
      var b := |Block(split, input[0])|;
      if n <= b then 1 else 1 + Pulls(split, input[1..], n - b)
  }

  // ---------------------------------------------------------------------------
  // The adapter
  // ---------------------------------------------------------------------------

  /** Drains the upstream items one at a time; for a loaded document, asks the
      splitter for the batch [doc] and yields the fragments one by one, or one
      wrapped splitter error; an upstream error is yielded unchanged. Returns
      the items yielded and the batches the splitter was invoked on. */
  method ProcessDocStream<D, S, E>(split: Splitter<D, S>, input: seq<Item<D, S, E>>)
    returns (out: seq<Item<D, S, E>>, calls: seq<seq<D>>)
    ensures out == Process(split, input)
    ensures calls == SplitCalls(input)
  {
    out, calls := [], [];
    var i := 0;
    while i < |input|
      invariant 0 <= i <= |input|
      invariant out == Process(split, input[..i])
      invariant calls == SplitCalls(input[..i])
    {
      ghost var before := out;
      match input[i] {
        case Ok(doc) =>
          var batch := [doc];
          calls := calls + [batch];
          match split(batch) {
            case Ok(docs) =>
              for j := 0 to |docs|
                invariant out == before + OkAll(docs[..j])
              {
                assert docs[..j + 1] == docs[..j] + [docs[j]];
                out := out + [Ok(docs[j])];
              }
              assert docs[..|docs|] == docs;
            case Err(e) =>
              out := out + [Err(TextSplitterError(e))];
          }
        case Err(e) =>
          out := out + [Err(e)];
      }
      ProcessStep(split, input, i);
      i := i + 1;
    }
    assert input[..|input|] == input;
  }

  // ---------------------------------------------------------------------------
  // Properties
  // ---------------------------------------------------------------------------

  /** Handling one more upstream item appends its block to the output and its
      splitter invocations to the call log. */
  lemma {:induction false} ProcessStep<D, S, E>(split: Splitter<D, S>, input: seq<Item<D, S, E>>, i: nat)
    requires i < |input|
    ensures Process(split, input[..i + 1]) == Process(split, input[..i]) + Block(split, input[i])
    ensures SplitCalls(input[..i + 1]) == SplitCalls(input[..i]) + CallsOf(input[i])
  {
    FlatMapSnoc(BlockFn(split), input, i);
    FlatMapSnoc(CallsOf, input, i);
  }

  /** An empty upstream yields an empty stream, and the splitter is never invoked. */
  lemma EmptyStream<D, S, E>(split: Splitter<D, S>)
    ensures Process<D, S, E>(split, []) == []
    ensures SplitCalls<D, S, E>([]) == []
  {
  }

  /** A single upstream item yields exactly its own block. */
  lemma ProcessSingleton<D, S, E>(split: Splitter<D, S>, item: Item<D, S, E>)
    ensures Process(split, [item]) == Block(split, item)
    ensures SplitCalls([item]) == CallsOf(item)
  {
    FlatMapSingleton(BlockFn(split), item);
    FlatMapSingleton(CallsOf, item);
  }

  /** The adapter distributes over concatenation of the upstream. */
  lemma {:induction false} ProcessAppend<D, S, E>(split: Splitter<D, S>, a: seq<Item<D, S, E>>, b: seq<Item<D, S, E>>)
    ensures Process(split, a + b) == Process(split, a) + Process(split, b)
    ensures SplitCalls(a + b) == SplitCalls(a) + SplitCalls(b)
  {
    FlatMapAppend(BlockFn(split), a, b);
    FlatMapAppend(CallsOf, a, b);
  }

  /** The output for the first j upstream items is a prefix of the output, and
      the rest is exactly the output for the remaining items; likewise for the
      log of splitter invocations. */
  lemma {:induction false} ProcessPrefix<D, S, E>(split: Splitter<D, S>, input: seq<Item<D, S, E>>, j: nat)
    requires j <= |input|
    ensures Process(split, input[..j]) <= Process(split, input)
    ensures Process(split, input)[|Process(split, input[..j])|..] == Process(split, input[j..])
    ensures SplitCalls(input[..j]) <= SplitCalls(input)
    ensures SplitCalls(input)[|SplitCalls(input[..j])|..] == SplitCalls(input[j..])
  {
    FlatMapPrefix(BlockFn(split), input, j);
    FlatMapPrefix(CallsOf, input, j);
  }

  /** The block of upstream item i sits contiguously in the output, right after
      the output of the items before it; what follows it is exactly the output
      of the items after it, whatever happened to item i. */
  lemma {:induction false} BlockAt<D, S, E>(split: Splitter<D, S>, input: seq<Item<D, S, E>>, i: nat)
    requires i < |input|
    ensures var out := Process(split, input);
            var off := |Process(split, input[..i])|;
            var blk := Block(split, input[i]);
            off + |blk| <= |out|
            && out[..off] == Process(split, input[..i])
            && out[off..off + |blk|] == blk
            && out[off + |blk|..] == Process(split, input[i + 1..])
  {
    FlatMapAt(BlockFn(split), input, i);
  }

  /** A loaded document whose split yields docs occupies exactly |docs|
      consecutive output positions, holding Ok(docs[k]) in splitter order. */
  lemma {:induction false} FragmentsInPlace<D, S, E>(split: Splitter<D, S>, input: seq<Item<D, S, E>>, i: nat, docs: seq<D>)
    requires i < |input| && input[i].Ok?
    requires split([input[i].value]) == Ok(docs)
    ensures var off := |Process(split, input[..i])|;
            |Process(split, input[..i + 1])| == off + |docs| <= |Process(split, input)|
            && forall k :: 0 <= k < |docs| ==> Process(split, input)[off + k] == Ok(docs[k])
  {
    BlockAt(split, input, i);
    ProcessStep(split, input, i);
    var out := Process(split, input);
    var off := |Process(split, input[..i])|;
    forall k | 0 <= k < |docs|
      ensures out[off + k] == Ok(docs[k])
    {
      assert out[off + k] == out[off..off + |docs|][k];
    }
  }

  /** A loaded document whose split fails occupies exactly one output position,
      holding the wrapped splitter error. */
  lemma {:induction false} SplitErrorInPlace<D, S, E>(split: Splitter<D, S>, input: seq<Item<D, S, E>>, i: nat, e: S)
    requires i < |input| && input[i].Ok?
    requires split([input[i].value]) == Err(e)
    ensures var off := |Process(split, input[..i])|;
            |Process(split, input[..i + 1])| == off + 1 <= |Process(split, input)|
            && Process(split, input)[off] == Err(TextSplitterError(e))
  {
    BlockAt(split, input, i);
    ProcessStep(split, input, i);
    var off := |Process(split, input[..i])|;
    assert Process(split, input)[off] == Process(split, input)[off..off + 1][0];
  }

  /** An upstream error occupies exactly one output position, holding that
      same error. */
  lemma {:induction false} UpstreamErrorInPlace<D, S, E>(split: Splitter<D, S>, input: seq<Item<D, S, E>>, i: nat)
    requires i < |input| && input[i].Err?
    ensures var off := |Process(split, input[..i])|;
            |Process(split, input[..i + 1])| == off + 1 <= |Process(split, input)|
            && Process(split, input)[off] == input[i]
  {
    BlockAt(split, input, i);
    ProcessStep(split, input, i);
    var off := |Process(split, input[..i])|;
    assert Process(split, input)[off] == Process(split, input)[off..off + 1][0];
  }

  /** The output length is the sum over upstream items of the fragment count
      of a successful split, or 1 for a failed split or an upstream error. */
  lemma {:induction false} ProcessLength<D, S, E>(split: Splitter<D, S>, input: seq<Item<D, S, E>>)
    ensures |Process(split, input)| == OutputCount(split, input)
    decreases |input|
  {
    if |input| > 0 {
      ProcessLength(split, input[1..]);
    }
  }

  /** The splitter is invoked once per loaded document, always on a batch of
      exactly one document. */
  lemma {:induction false} SplitCallsShape<D, S, E>(input: seq<Item<D, S, E>>)
    ensures |SplitCalls(input)| == CountOk(input)
    ensures forall k :: 0 <= k < |SplitCalls(input)| ==> |SplitCalls(input)[k]| == 1
    decreases |input|
  {
    if |input| > 0 {
      SplitCallsShape(input[1..]);
      var calls := SplitCalls(input);
      var rest := SplitCalls(input[1..]);
      assert calls == CallsOf(input[0]) + rest;
      forall k | 0 <= k < |calls|
        ensures |calls[k]| == 1
      {
        if k >= |CallsOf(input[0])| {
          assert calls[k] == rest[k - |CallsOf(input[0])|];
        }
      }
    }
  }

  /** The invocation made for loaded upstream item i comes after those for the
      items before it: it is on the batch holding exactly its document, at
      position CountOk(input[..i]) of the call log. */
  lemma {:induction false} SplitCallAt<D, S, E>(input: seq<Item<D, S, E>>, i: nat)
    requires i < |input| && input[i].Ok?
    ensures var k := CountOk(input[..i]);
            k < |SplitCalls(input)| && SplitCalls(input)[k] == [input[i].value]
  {
    FlatMapAt(CallsOf, input, i);
    SplitCallsShape(input[..i]);
  }

  /** Two splitters that agree on every loaded document give the same output. */
  lemma {:induction false} ProcessCongruent<D, S, E>(split: Splitter<D, S>, split': Splitter<D, S>, input: seq<Item<D, S, E>>)
    requires forall j :: 0 <= j < |input| && input[j].Ok? ==> split([input[j].value]) == split'([input[j].value])
    ensures Process(split, input) == Process(split', input)
    decreases |input|
  {
    if |input| > 0 {
      assert Block(split, input[0]) == Block(split', input[0]);
      forall j | 0 <= j < |input[1..]| && input[1..][j].Ok?
        ensures split([input[1..][j].value]) == split'([input[1..][j].value])
      {
        assert input[1..][j] == input[j + 1];
      }
      ProcessCongruent(split, split', input[1..]);
    }
  }

  /** Fault isolation: whatever the splitter does with upstream item i (succeed
      differently or fail), only the block of item i changes; the outputs of
      all earlier and all later items stay the same. */
  lemma {:induction false} SplitOutcomeIsolated<D, S, E>(split: Splitter<D, S>, split': Splitter<D, S>, input: seq<Item<D, S, E>>, i: nat)
    requires i < |input|
    requires forall j :: 0 <= j < |input| && j != i && input[j].Ok? ==> split([input[j].value]) == split'([input[j].value])
    ensures Process(split', input) == Process(split, input[..i]) + Block(split', input[i]) + Process(split, input[i + 1..])
  {
    FlatMapAt(BlockFn(split'), input, i);
    forall j | 0 <= j < |input[..i]| && input[..i][j].Ok?
      ensures split([input[..i][j].value]) == split'([input[..i][j].value])
    {
      assert input[..i][j] == input[j];
    }
    ProcessCongruent(split, split', input[..i]);
    var rest := input[i + 1..];
    forall j | 0 <= j < |rest| && rest[j].Ok?
      ensures split([rest[j].value]) == split'([rest[j].value])
    {
      assert rest[j] == input[i + 1 + j];
    }
    ProcessCongruent(split, split', rest);
  }

  /** Dropping the stream after receiving n items: the m = Pulls(split, input, n)
      upstream items pulled so far are enough to deliver those n items (or the
      whole stream when it is shorter), one pull fewer would not be, their
      output is a prefix of the full output, and the splitter has been invoked
      only on their documents, as a prefix of the full call log. */
  lemma {:induction false} DroppedAfter<D, S, E>(split: Splitter<D, S>, input: seq<Item<D, S, E>>, n: nat)
    ensures var m := Pulls(split, input, n);
            var done := Process(split, input[..m]);
            done <= Process(split, input)
            && (m == |input| || n <= |done|)
            && (m == 0 || |Process(split, input[..m - 1])| < n)
            && SplitCalls(input[..m]) <= SplitCalls(input)
    decreases |input|
  {
    var m := Pulls(split, input, n);
    ProcessPrefix(split, input, m);
    if n > 0 && |input| > 0 {
      var b := |Block(split, input[0])|;
      var pre := input[..m];
      assert pre[0] == input[0];
      if n <= b {
        assert Process(split, pre) == Block(split, input[0]);
      } else {
        var m' := Pulls(split, input[1..], n - b);
        DroppedAfter(split, input[1..], n - b);
        assert pre[1..] == input[1..][..m'];
        assert Process(split, pre) == Block(split, input[0]) + Process(split, input[1..][..m']);
        if m' > 0 {
          var short := input[..m - 1];
          assert short[0] == input[0];
          assert short[1..] == input[1..][..m' - 1];
          assert Process(split, short) == Block(split, input[0]) + Process(split, input[1..][..m' - 1]);
        }
      }
    }
  }
}
