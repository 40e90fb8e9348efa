/** Worked scenarios of the stream-splitting adapter. */
module LoaderScenarios {
  import opened DocumentLoader

  type Doc = string

  /** A splitter that cuts the two sample documents into one-word documents and
      leaves any other batch as it is. */
  function WordSplitter(batch: seq<Doc>): Result<seq<Doc>, string>
  {
    if batch == ["hello world"] then Ok(["hello", "world"])
    else if batch == ["foo bar baz"] then Ok(["foo", "bar", "baz"])
    else Ok(batch)
  }

  /** Two split documents around an upstream error: the fragments of each
      document appear in order, and the error is forwarded in between. */
  lemma WordsAroundUpstreamError()
    ensures var input: seq<Item<Doc, string, string>> :=
              [Ok("hello world"), Err(OtherError("source unavailable")), Ok("foo bar baz")];
            Process(WordSplitter, input)
              == [Ok("hello"), Ok("world"), Err(OtherError("source unavailable")),
                  Ok("foo"), Ok("bar"), Ok("baz")]
            && SplitCalls(input) == [["hello world"], ["foo bar baz"]]
  {
  }

  /** The splitter fails only on the middle document: its block is the single
      wrapped error, and the documents on either side are still split. */
  lemma {:induction false} MiddleSplitFails<D, S, E>(split: Splitter<D, S>, a: D, b: D, c: D,
                                                    fa: seq<D>, e: S, fc: seq<D>)
    requires split([a]) == Ok(fa) && split([b]) == Err(e) && split([c]) == Ok(fc)
    ensures Process<D, S, E>(split, [Ok(a), Ok(b), Ok(c)])
              == OkAll(fa) + [Err(TextSplitterError(e))] + OkAll(fc)
  {
    var input: seq<Item<D, S, E>> := [Ok(a), Ok(b), Ok(c)];
    assert input == [input[0]] + ([input[1]] + [input[2]]);
    ProcessAppend(split, [input[0]], [input[1]] + [input[2]]);
    ProcessAppend(split, [input[1]], [input[2]]);
    ProcessSingleton(split, input[0]);
    ProcessSingleton(split, input[1]);
    ProcessSingleton(split, input[2]);
  }
}
