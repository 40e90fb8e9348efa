# Stream-splitting adapter of the document loaders

This project models `process_doc_stream`, the adapter that `load_and_split` uses
in the document loaders of langchain-rust. It takes a stream of fallible
documents (`Result<Document, LoaderError>`) and a text splitter, and yields a
new stream of fallible documents. The upstream items are handled one at a time,
in arrival order:

- `Ok(doc)`: the splitter is called on the one-document batch `[doc]`.
  - If the split succeeds, every fragment is yielded as its own `Ok`, in
    splitter order.
  - If the split fails with `e`, exactly one `Err(LoaderError::TextSplitterError(e))`
    is yielded.
- `Err(e)`: the error is yielded unchanged.

The output ends when the upstream ends.

Files:

- `sequences.dfy` (module `Sequences`): `FlatMap`, the in-order concatenation of
  one block of output per input element, with its append, split and prefix lemmas.
- `document_loader.dfy` (module `DocumentLoader`): the data model, the
  specification functions, the imperative adapter `ProcessDocStream`, and the
  properties.
- `scenarios.dfy` (module `LoaderScenarios`): two worked scenarios.

Data model:

- `Document`, the text-splitter error and the other loader errors are opaque
  type parameters `D`, `S` and `E`.
- `LoaderError<S, E>` is `TextSplitterError(S) | OtherError(E)`.
- The splitter is a total function `seq<D> -> Result<seq<D>, S>`.
- An asynchronous stream is the finite sequence of the items it yields.

Specification functions:

- `Block` is the output for one upstream item.
- `Process` is the concatenation of the blocks.
- `SplitCalls` is the log of the batches the splitter is called on.
- `BlockSize`, `OutputCount` and `CountOk` are independent reference counts.
- `Pulls(split, input, n)` is the number of upstream items pulled when a
  consumer has received `n` output items.

`ProcessDocStream` follows the source's loops. An outer `while` pulls the
upstream items. An inner `for` yields the fragments of a successful split. The
method returns what it yields and the batches it passed to the splitter, and it
is proved equal to `Process` and `SplitCalls`.

## Model

| member | source | states |
|---|---|---|
| `DocumentLoader.ProcessDocStream` | src/document_loaders/document_loader.rs:34-56 | The items the loop yields are exactly `Process(split, input)`: one block per upstream item, in order. The splitter invocations it makes are exactly `SplitCalls(input)`. |
| `DocumentLoader.Block` | src/document_loaders/document_loader.rs:41-53 | The output for one upstream item has `BlockSize` items. For `Ok(doc)` with a successful split of `[doc]`, item `k` is `Ok` of fragment `k`. For a failed split with `e`, it is exactly `[Err(TextSplitterError(e))]`. For an upstream `Err`, it is exactly that item. |
| `DocumentLoader.Process` | src/document_loaders/document_loader.rs:38-55 | The whole output stream is the concatenation of the blocks, in upstream order. It never invents a loader error: every non-splitter error in the output occurs in the upstream. |
| `DocumentLoader.CallsOf` | src/document_loaders/document_loader.rs:41-52 | While one upstream item is handled, the splitter is called once if the item is `Ok(doc)`, and not at all for an `Err`. That one call is on the batch `[doc]`. |
| `DocumentLoader.SplitCalls` | src/document_loaders/document_loader.rs:40-43 | The log of splitter calls over the whole upstream, in order. Every call is on a batch of exactly one document, and that document was loaded upstream (`Ok(doc)` occurs in the input). |
| `DocumentLoader.OkAll` | src/document_loaders/document_loader.rs:44-47 | A successful split's fragments become the same number of items, `Ok(docs[k])` at position `k`. None are dropped, added or reordered. |
| `DocumentLoader.ProcessStep` | src/document_loaders/document_loader.rs:40-53 | Handling one more upstream item appends exactly that item's block to the output and that item's invocations to the call log. Nothing already yielded changes. |
| `DocumentLoader.ProcessSingleton` | src/document_loaders/document_loader.rs:41-53 | A one-item upstream yields exactly that item's block and makes exactly that item's splitter invocations. |
| `DocumentLoader.EmptyStream` | src/document_loaders/document_loader.rs:40 | An empty upstream yields an empty stream, and the splitter is never invoked. |
| `DocumentLoader.ProcessAppend` | src/document_loaders/document_loader.rs:40-54 | The adapter distributes over concatenation of the upstream, for both the output and the splitter invocations. |
| `DocumentLoader.ProcessPrefix` | src/document_loaders/document_loader.rs:40-54 | The output for the first `j` upstream items is a prefix of the whole output, and the rest is exactly the output for the remaining items. The same holds for the call log. |
| `DocumentLoader.BlockAt` | src/document_loaders/document_loader.rs:40-53 | The block of item `i` is contiguous. It starts right after the output of items `0..i` and is followed by exactly the output of the later items. |
| `DocumentLoader.FragmentsInPlace` | src/document_loaders/document_loader.rs:43-47 | If item `i` is `Ok(doc)` and splitting `[doc]` gives `docs`, the output holds `Ok(docs[k])` at offset+`k` for every `k`, and the next item's block starts `|docs|` positions later. |
| `DocumentLoader.SplitErrorInPlace` | src/document_loaders/document_loader.rs:43-49 | If item `i` is `Ok(doc)` and splitting `[doc]` fails with `e`, the output holds exactly one item there, `Err(TextSplitterError(e))`, and the next item's block starts one position later. |
| `DocumentLoader.UpstreamErrorInPlace` | src/document_loaders/document_loader.rs:52 | An upstream `Err` yields exactly one item at its position, the identical error, and the next item's block starts one position later. |
| `DocumentLoader.ProcessLength` | src/document_loaders/document_loader.rs:40-53 | The output length is the sum over upstream items of the fragment count of a successful split, or 1 for a failed split or an upstream error. |
| `DocumentLoader.SplitCallsShape` | src/document_loaders/document_loader.rs:43 | The splitter is invoked once per loaded upstream document, and always on a batch of exactly one document. |
| `DocumentLoader.SplitCallAt` | src/document_loaders/document_loader.rs:40-43 | For loaded item `i`, invocation number `CountOk(input[..i])` is on `[doc]` for that item's document. So the invocations follow upstream order. |
| `DocumentLoader.ProcessCongruent` | src/document_loaders/document_loader.rs:43-50 | The output depends on the splitter only through its results on the loaded documents' one-document batches. |
| `DocumentLoader.SplitOutcomeIsolated` | src/document_loaders/document_loader.rs:40-53 | Changing what the splitter does with item `i` (a different split or a failure) changes only item `i`'s block. The outputs before and after it stay the same, so later items are still processed. |
| `DocumentLoader.Pulls` | src/document_loaders/document_loader.rs:38-55 | The number of upstream items pulled before `n` items are delivered is at most the upstream length. It is positive when `n > 0` and the upstream is not empty. |
| `DocumentLoader.DroppedAfter` | src/document_loaders/document_loader.rs:38-55 | When the stream is dropped after `n` items, the `Pulls(split, input, n)` upstream items pulled are enough to deliver those `n` items (or the whole stream), and one pull fewer would not be. Their output is a prefix of the full output. The splitter has been invoked only on their documents, as a prefix of the full call log. |
| `LoaderScenarios.WordsAroundUpstreamError` | src/document_loaders/document_loader.rs:34-56 | Upstream `[Ok("hello world"), Err(source unavailable), Ok("foo bar baz")]` with a one-word splitter yields `[Ok("hello"), Ok("world"), Err(source unavailable), Ok("foo"), Ok("bar"), Ok("baz")]`. The splitter is called on `["hello world"]`, then on `["foo bar baz"]`. |
| `LoaderScenarios.MiddleSplitFails` | src/document_loaders/document_loader.rs:43-49 | For `[Ok(a), Ok(b), Ok(c)]` with a split failure only on `b`, the output is the fragments of `a`, then one wrapped splitter error, then the fragments of `c`. |

## Left out

- The `Loader` trait (src/document_loaders/document_loader.rs:12-32) declares `load` and `load_and_split` without bodies. Concrete loaders implement it and do I/O. The trait, its filter/map type parameters `F`, `M`, `T`, and the construction failure of a `load*` call are not part of this model.
- The asynchronous machinery is not modelled: `stream!`, `pin_mut!`, `.await`, the pinned boxed stream type and the `Send`/`'static` bounds. A stream is the finite sequence of the items it yields. Laziness is captured by `Pulls` and `DroppedAfter`. Unbounded upstream streams are not represented.
- Concrete text splitters and the internal structure of `Document` and `LoaderError` are foreign code. They are represented by an arbitrary total function and opaque type parameters.
- The consume-once ownership of the loader and the splitter is a compile-time move rule, so it is not modelled.
- The splitter is modelled as a pure function of its batch. A splitter with hidden state, which could answer two calls on equal batches differently, is not represented. The call log `SplitCalls` records which batches it receives and in which order.
- The scenario with sample documents uses a splitter that is a lookup table for the two sample documents, not a general word splitter.
