/** Generic facts about concatenating one block of output per input element. */
module Sequences {

  /** The in-order concatenation of the blocks f(s[0]), f(s[1]), ... */
  function FlatMap<A, B>(f: A -> seq<B>, s: seq<A>): seq<B>
    decreases |s|
  {
    if |s| == 0 then [] else f(s[0]) + FlatMap(f, s[1..])
  }

  /** A single element contributes exactly its own block. */
  lemma FlatMapSingleton<A, B>(f: A -> seq<B>, x: A)
    ensures FlatMap(f, [x]) == f(x)
  {
    assert [x][1..] == [];
  }

  /** FlatMap distributes over concatenation of its input. */
  lemma {:induction false} FlatMapAppend<A, B>(f: A -> seq<B>, s: seq<A>, t: seq<A>)
    ensures FlatMap(f, s + t) == FlatMap(f, s) + FlatMap(f, t)
    decreases |s|
  {
    if |s| == 0 {
      assert s + t == t;
    } else {
      assert (s + t)[0] == s[0];
      assert (s + t)[1..] == s[1..] + t;
      FlatMapAppend(f, s[1..], t);
    }
  }

  /** The output splits into the blocks of the elements before i, the block of s[i], and the blocks after i. */
  lemma {:induction false} FlatMapAt<A, B>(f: A -> seq<B>, s: seq<A>, i: nat)
    requires i < |s|
    ensures FlatMap(f, s) == FlatMap(f, s[..i]) + f(s[i]) + FlatMap(f, s[i + 1..])
  {
    assert s == s[..i] + ([s[i]] + s[i + 1..]);
    FlatMapAppend(f, s[..i], [s[i]] + s[i + 1..]);
    FlatMapAppend(f, [s[i]], s[i + 1..]);
    FlatMapSingleton(f, s[i]);
  }

  /** Extending the input by one element appends that element's block. */
  lemma {:induction false} FlatMapSnoc<A, B>(f: A -> seq<B>, s: seq<A>, i: nat)
    requires i < |s|
    ensures FlatMap(f, s[..i + 1]) == FlatMap(f, s[..i]) + f(s[i])
  {
    assert s[..i + 1] == s[..i] + [s[i]];
    FlatMapAppend(f, s[..i], [s[i]]);
    FlatMapSingleton(f, s[i]);
  }

  /** The output for a prefix of the input is a prefix of the output. */
  lemma {:induction false} FlatMapPrefix<A, B>(f: A -> seq<B>, s: seq<A>, j: nat)
    requires j <= |s|
    ensures FlatMap(f, s) == FlatMap(f, s[..j]) + FlatMap(f, s[j..])
  {
    assert s == s[..j] + s[j..];
    FlatMapAppend(f, s[..j], s[j..]);
  }
}
