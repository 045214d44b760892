/** The line buffering every streaming decoder repeats: append the chunk to the kept
    remainder, split at newlines, process the complete lines, keep the last piece. */
module LineBuffer {
  import opened Prelude
  import opened Text

  datatype Split = Split(complete: seq<string>, rest: string)

  /** The pieces of a split at newlines: all but the last, and the last. */
  function SplitLines(s: string): (r: Split)
    ensures '\n' !in r.rest
    ensures '\n' !in s ==> r == Split([], s)
  {
    if s == "" then Split([], "")
    else
      var before := SplitLines(s[..|s| - 1]);
      var c := s[|s| - 1];
      if c == '\n' then Split(before.complete + [before.rest], "")
      else
        assert '\n' !in s ==> '\n' !in s[..|s| - 1] && s[..|s| - 1] + [c] == s;
        Split(before.complete, before.rest + [c])
  }

  lemma SplitOne(s: string, c: char)
    ensures SplitLines(s + [c]) ==
            if c == '\n' then Split(SplitLines(s).complete + [SplitLines(s).rest], "")
            else Split(SplitLines(s).complete, SplitLines(s).rest + [c])
  {
    assert (s + [c])[..|s|] == s;
  }

  /** Splitting a text is splitting its first part, then the kept remainder with the second part. */
  lemma {:induction false} SplitConcat(a: string, b: string)
    ensures var before := SplitLines(a);
            var after := SplitLines(before.rest + b);
            SplitLines(a + b) == Split(before.complete + after.complete, after.rest)
  {
    hide SplitLines;
    var before := SplitLines(a);
    if b == "" {
      NothingAdded(a);
      NothingAdded(before.rest);
      NothingAdded(before.complete);
      RestSplits(a);
    } else {
      var (front, c) := (b[..|b| - 1], b[|b| - 1]);
      SplitConcat(a, front);
      assert b == front + [c];
      Associative(a, front, [c]);
      Associative(before.rest, front, [c]);
      SplitOne(a + front, c);
      SplitOne(before.rest + front, c);
      var after := SplitLines(before.rest + front);
      Associative(before.complete, after.complete, [after.rest]);
    }
  }

  /** What is kept over is a single unfinished line. */
  lemma RestSplits(s: string)
    ensures SplitLines(SplitLines(s).rest) == Split([], SplitLines(s).rest)
  {}

  /** The lines a text was written as come back, and nothing is left over. */
  lemma SplitLine(line: string)
    requires '\n' !in line
    ensures SplitLines(line + "\n") == Split([line], "")
  {
    assert (line + "\n")[..|line|] == line;
  }

  /** Feeding chunks one at a time: `group` processes the complete lines a chunk yields. */
  function Feed<S>(group: (S, seq<string>) -> S, s: S, chunks: seq<string>): (S, string) {
    if chunks == [] then (s, "")
    else
      var (t, kept) := Feed(group, s, chunks[..|chunks| - 1]);
      var split := SplitLines(kept + chunks[|chunks| - 1]);
      (group(t, split.complete), split.rest)
  }

  lemma FeedNone<S>(group: (S, seq<string>) -> S, s: S)
    ensures Feed(group, s, []) == (s, "")
  {}

  lemma FeedOne<S>(group: (S, seq<string>) -> S, s: S, chunks: seq<string>, chunk: string)
    ensures var (t, kept) := Feed(group, s, chunks);
            var split := SplitLines(kept + chunk);
            Feed(group, s, chunks + [chunk]) == (group(t, split.complete), split.rest)
  {
    assert (chunks + [chunk])[..|chunks|] == chunks;
  }

  /** What is kept does not depend on the cutting into chunks. */
  lemma {:induction false} FeedKeepsRest<S>(group: (S, seq<string>) -> S, s: S, chunks: seq<string>)
    ensures Feed(group, s, chunks).1 == SplitLines(Concat(chunks)).rest
  {
    if chunks != [] {
      var (front, last) := (chunks[..|chunks| - 1], chunks[|chunks| - 1]);
      FeedKeepsRest(group, s, front);
      SplitConcat(Concat(front), last);
      ConcatAppend(front, [last]);
      assert chunks == front + [last] && Concat([last]) == last;
    }
  }

  /** One more chunk: the lines it completes, and what processing them does. */
  lemma FeedMore<S>(group: (S, seq<string>) -> S, s: S, front: seq<string>, last: string) returns (more: seq<string>)
    ensures SplitLines(Concat(front + [last])).complete == SplitLines(Concat(front)).complete + more
    ensures Feed(group, s, front + [last]).0 == group(Feed(group, s, front).0, more)
    ensures more == SplitLines(SplitLines(Concat(front)).rest + last).complete
  {
    FeedKeepsRest(group, s, front);
    FeedOne(group, s, front, last);
    SplitConcat(Concat(front), last);
    ConcatAppend(front, [last]);
    assert Concat([last]) == last;
    more := SplitLines(SplitLines(Concat(front)).rest + last).complete;
  }

  /** Processing lines in two groups is processing them in one. */
  ghost predicate Compositional<S(!new)>(group: (S, seq<string>) -> S) {
    (forall s :: group(s, []) == s) &&
    (forall s, a, b :: group(s, a + b) == group(group(s, a), b))
  }

  /** However a text is cut into chunks, a decoder whose processing is compositional ends in the
      state it reaches when the whole text comes at once. */
  lemma {:induction false} ChunkIndependence<S(!new)>(group: (S, seq<string>) -> S, s: S, chunks: seq<string>)
    requires Compositional(group)
    ensures var split := SplitLines(Concat(chunks));
            Feed(group, s, chunks) == (group(s, split.complete), split.rest)
  {
    if chunks != [] {
      var (front, last) := (chunks[..|chunks| - 1], chunks[|chunks| - 1]);
      ChunkIndependence(group, s, front);
      SplitConcat(Concat(front), last);
      ConcatAppend(front, [last]);
      assert chunks == front + [last] && Concat([last]) == last;
    }
  }

  /** Processing one line at a time. */
  function FoldLines<S>(step: (S, string) -> S, s: S, lines: seq<string>): S {
    if lines == [] then s else step(FoldLines(step, s, lines[..|lines| - 1]), lines[|lines| - 1])
  }

  lemma FoldNone<S>(step: (S, string) -> S, s: S)
    ensures FoldLines(step, s, []) == s
  {}

  lemma FoldOne<S>(step: (S, string) -> S, s: S, lines: seq<string>, line: string)
    ensures FoldLines(step, s, lines + [line]) == step(FoldLines(step, s, lines), line)
  {
    assert (lines + [line])[..|lines|] == lines;
  }

  lemma {:induction false} FoldConcat<S>(step: (S, string) -> S, s: S, a: seq<string>, b: seq<string>)
    ensures FoldLines(step, s, a + b) == FoldLines(step, FoldLines(step, s, a), b)
  {
    if b == [] {
      assert a + b == a;
    } else {
      assert (a + b)[..|a + b| - 1] == a + b[..|b| - 1];
      FoldConcat(step, s, a, b[..|b| - 1]);
    }
  }

  /** A decoder that takes its lines one by one is compositional. */
  function LineByLine<S>(step: (S, string) -> S): (S, seq<string>) -> S {
    (s, lines) => FoldLines(step, s, lines)
  }

  lemma LineByLineIsCompositional<S(!new)>(step: (S, string) -> S)
    ensures Compositional(LineByLine(step))
  {
    forall s, a, b ensures FoldLines(step, s, a + b) == FoldLines(step, FoldLines(step, s, a), b) {
      FoldConcat(step, s, a, b);
    }
  }
}
