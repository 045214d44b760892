/** Splitting a message into chunks a chat channel accepts.

    Lengths and cut positions are in bytes of UTF-8, and slicing a text inside a character
    panics: `None` stands for that panic. */
module SplitChunks {
  import opened Prelude
  import opened Text

  const CHUNK_MAX: nat := 1950

  /** The character index at byte position `b`; `None` inside a character or past the end. */
  function CutAt(s: string, b: nat): (r: Option<nat>)
    ensures r.Some? ==> r.value <= |s| && Bytes(s[..r.value]) == b
    ensures r.Some? && b > 0 ==> r.value > 0
  {
    if b == 0 then Some(0)
    else if s == "" || CharBytes(s[0]) > b then None
    else
      match CutAt(s[1..], b - CharBytes(s[0]))
      case None => None
      case Some(n) => assert s[..n + 1][1..] == s[1..][..n]; Some(n + 1)
  }

  /** Last position of a character. */
  function RFind(s: string, c: char): (r: Option<nat>)
    ensures r.Some? ==> r.value < |s| && s[r.value] == c && c !in s[r.value + 1..]
    ensures r.None? ==> c !in s
  {
    if s == "" then None
    else if s[|s| - 1] == c then Some(|s| - 1)
    else
      var r := RFind(s[..|s| - 1], c);
      assert s == s[..|s| - 1] + [s[|s| - 1]];
      assert r.Some? ==> s[r.value + 1..] == s[..|s| - 1][r.value + 1..] + [s[|s| - 1]];
      r
  }

  /** Where to cut a window: at its last newline, else at its last space, else at its end. */
  function SplitAt(window: string): (k: nat)
    ensures k <= |window|
    ensures k < |window| ==> window[k] == '\n' || window[k] == ' '
    ensures k == |window| ==> '\n' !in window && ' ' !in window
    ensures '\n' in window ==> k < |window| && window[k] == '\n' && '\n' !in window[k + 1..]
    ensures '\n' !in window && ' ' in window ==> k < |window| && ' ' !in window[k + 1..]
  {
    match RFind(window, '\n')
    case Some(k) => k
    case None => match RFind(window, ' ') case Some(k) => k case None => |window|
  }

  /** One pass of the loop: the chunk it pushes and what remains after trimming. */
  function Cut(s: string): Option<(string, string)> {
    match CutAt(s, CHUNK_MAX)
    case None => None
    case Some(n) => var k := SplitAt(s[..n]); Some((s[..k], TrimStart(s[k..])))
  }

  /** Every pass shortens what remains, even when the cut is at the very start. */
  lemma CutShortens(s: string)
    requires Cut(s).Some?
    ensures |Cut(s).value.1| < |s|
  {
    var n := CutAt(s, CHUNK_MAX).value;
    var k := SplitAt(s[..n]);
    if k == 0 { assert s[0..] == s && s[..n][0] == s[0]; }
  }

  function ChunksOf(s: string): Option<seq<string>>
    decreases |s|
  {
    if Bytes(s) <= CHUNK_MAX then Some(if s == "" then [] else [s])
    else
      match Cut(s)
      case None => None
      case Some((chunk, rest)) =>
        CutShortens(s);
        match ChunksOf(rest)
        case None => None
        case Some(chunks) => Some([chunk] + chunks)
  }

  /** Splits a text; a text short enough is its own only chunk, even when empty. */
  method SplitChunks(text: string) returns (r: Option<seq<string>>)
    ensures r == if Bytes(text) <= CHUNK_MAX then Some([text]) else ChunksOf(text)
  {
    if Bytes(text) <= CHUNK_MAX { return Some([text]); }
    var chunks: seq<string> := [];
    var remaining := text;
    assert forall rest: seq<string> :: chunks + rest == rest;
    while Bytes(remaining) > CHUNK_MAX
      invariant ChunksOf(text) ==
                (match ChunksOf(remaining) case None => None case Some(rest) => Some(chunks + rest))
      decreases |remaining|
    {
      var cut := CutAt(remaining, CHUNK_MAX);
      if cut.None? { return None; }
      var window := remaining[..cut.value];
      var splitAt := SplitAt(window);
      CutShortens(remaining);
      ghost var rest := ChunksOf(TrimStart(remaining[splitAt..]));
      if rest.Some? { Associative(chunks, [remaining[..splitAt]], rest.value); }
      chunks := chunks + [remaining[..splitAt]];
      remaining := TrimStart(remaining[splitAt..]);
    }
    assert chunks + [] == chunks;
    if remaining != "" { chunks := chunks + [remaining]; }
    r := Some(chunks);
  }

  // ---------------------------------------------------------------------
  // What the chunks are
  // ---------------------------------------------------------------------

  predicate Blank(s: string) { forall i :: 0 <= i < |s| ==> IsWhitespace(s[i]) }

  /** Chunks and gaps put together in turn. */
  function Weave(chunks: seq<string>, gaps: seq<string>): string
    requires |chunks| == |gaps|
  {
    if chunks == [] then "" else chunks[0] + gaps[0] + Weave(chunks[1..], gaps[1..])
  }

  /** A chunk cut with nothing trimmed after it filled its window, and the window held no newline
      and no space. */
  predicate CutFairly(chunk: string, gap: string) {
    gap == "" ==> Bytes(chunk) == CHUNK_MAX && '\n' !in chunk && ' ' !in chunk
  }

  ghost predicate GoodChunks(text: string, chunks: seq<string>, gaps: seq<string>) {
    |gaps| == |chunks| && Weave(chunks, gaps) == text &&
    (forall i :: 0 <= i < |gaps| ==> Blank(gaps[i])) &&
    (forall i :: 0 <= i < |chunks| ==> Bytes(chunks[i]) <= CHUNK_MAX) &&
    (forall i :: 0 < i < |chunks| ==> chunks[i] != "") &&
    (forall i :: 0 <= i < |chunks| - 1 ==> CutFairly(chunks[i], gaps[i]))
  }

  lemma {:induction false} BytesPrefix(s: string, n: nat)
    requires n <= |s|
    ensures Bytes(s[..n]) <= Bytes(s)
  {
    BytesConcat(s[..n], s[n..]);
    assert s[..n] + s[n..] == s;
  }

  /** One pass: the chunk fits, the gap is blank, and the cut is fair. */
  lemma CutIsGood(s: string) returns (gap: string)
    requires Cut(s).Some?
    ensures var (chunk, rest) := Cut(s).value;
            s == chunk + gap + rest && Blank(gap) && Bytes(chunk) <= CHUNK_MAX && CutFairly(chunk, gap) &&
            (rest == "" || !IsWhitespace(rest[0])) && (s != "" && !IsWhitespace(s[0]) ==> chunk != "")
  {
    hide Bytes;
    var n := CutAt(s, CHUNK_MAX).value;
    var k := SplitAt(s[..n]);
    assert s[..n][..k] == s[..k];
    BytesPrefix(s[..n], k);
    gap := TrimmedPieces(s, k);
    if k < n { assert s[..n][k] == s[k]; }
  }

  /** What trimming takes from a text after position `k`. */
  lemma TrimmedPieces(s: string, k: nat) returns (gap: string)
    requires k <= |s|
    ensures s == s[..k] + gap + TrimStart(s[k..]) && Blank(gap)
    ensures gap == "" && k < |s| ==> !IsWhitespace(s[k])
  {
    hide TrimStart, IsWhitespace;
    var tail := s[k..];
    var rest := TrimStart(tail);
    gap := Trimmed(tail, rest);
    assert s == s[..k] + tail;
    Associative(s[..k], gap, rest);
  }

  lemma Trimmed(tail: string, rest: string) returns (gap: string)
    requires |rest| <= |tail| && rest == tail[|tail| - |rest|..]
    requires forall i :: 0 <= i < |tail| - |rest| ==> IsWhitespace(tail[i])
    requires rest != "" ==> !IsWhitespace(rest[0])
    ensures tail == gap + rest && Blank(gap) && (gap == "" && tail != "" ==> !IsWhitespace(tail[0]))
  {
    hide IsWhitespace;
    gap := tail[..|tail| - |rest|];
  }

  predicate NoneEmpty(chunks: seq<string>) { forall i :: 0 <= i < |chunks| ==> chunks[i] != "" }

  lemma GoodCons(chunk: string, gap: string, rest: string, chunks: seq<string>, gaps: seq<string>)
    requires GoodChunks(rest, chunks, gaps) && NoneEmpty(chunks)
    requires Blank(gap) && Bytes(chunk) <= CHUNK_MAX && CutFairly(chunk, gap)
    ensures GoodChunks(chunk + gap + rest, [chunk] + chunks, [gap] + gaps)
    ensures chunk != "" ==> NoneEmpty([chunk] + chunks)
  {
    hide Bytes, Blank, CutFairly, IsWhitespace;
    var (c, g) := ([chunk] + chunks, [gap] + gaps);
    assert c[1..] == chunks && g[1..] == gaps;
    forall i | 0 <= i < |g| ensures Blank(g[i]) { if i > 0 { assert g[i] == gaps[i - 1]; } }
    forall i | 0 <= i < |c| ensures Bytes(c[i]) <= CHUNK_MAX { if i > 0 { assert c[i] == chunks[i - 1]; } }
    forall i | 0 < i < |c| ensures c[i] != "" { assert c[i] == chunks[i - 1]; }
    forall i | 0 <= i < |c| - 1 ensures CutFairly(c[i], g[i]) {
      if i > 0 { assert c[i] == chunks[i - 1] && g[i] == gaps[i - 1] && CutFairly(chunks[i - 1], gaps[i - 1]); }
    }
  }

  lemma {:induction false} ChunksAreGood(s: string) returns (gaps: seq<string>)
    requires ChunksOf(s).Some?
    ensures GoodChunks(s, ChunksOf(s).value, gaps)
    ensures s == "" || !IsWhitespace(s[0]) ==> NoneEmpty(ChunksOf(s).value)
    decreases |s|
  {
    if Bytes(s) <= CHUNK_MAX {
      gaps := if s == "" then [] else [""];
      assert s != "" ==> [s][1..] == [] && [""][1..] == [] && s + "" + "" == s;
    } else {
      var gap := CutIsGood(s);
      var (chunk, rest) := Cut(s).value;
      CutShortens(s);
      var more := ChunksAreGood(rest);
      gaps := [gap] + more;
      GoodCons(chunk, gap, rest, ChunksOf(rest).value, more);
    }
  }

  /** The chunks of any text that splits: each fits, the text is the chunks with blank gaps between
      them, only the first can be empty, and a word is broken only when its window has no newline
      and no space. */
  lemma SplitIsGood(text: string, r: seq<string>) returns (gaps: seq<string>)
    requires Some(r) == if Bytes(text) <= CHUNK_MAX then Some([text]) else ChunksOf(text)
    ensures GoodChunks(text, r, gaps)
  {
    if Bytes(text) <= CHUNK_MAX {
      gaps := [""];
      assert [text][1..] == [] && [""][1..] == [] && text + "" + "" == text;
    } else {
      gaps := ChunksAreGood(text);
    }
  }

  // ---------------------------------------------------------------------
  // When splitting panics
  // ---------------------------------------------------------------------

  /** A byte position between two characters, or at an end. */
  ghost predicate Boundary(s: string, b: nat) { exists n :: 0 <= n <= |s| && Bytes(s[..n]) == b }

  /** The text needs splitting, and its first window ends inside a character. */
  ghost predicate BreaksInside(s: string) { Bytes(s) > CHUNK_MAX && !Boundary(s, CHUNK_MAX) }

  lemma {:induction false} MoreBytes(s: string, m: nat, n: nat)
    requires m < n <= |s|
    ensures Bytes(s[..m]) < Bytes(s[..n])
  {
    BytesConcat(s[..m], s[m..n]);
    assert s[..m] + s[m..n] == s[..n];
  }

  lemma {:induction false} CutAtPrefix(s: string, n: nat)
    requires n <= |s|
    ensures CutAt(s, Bytes(s[..n])) == Some(n)
  {
    if n > 0 {
      assert s[..n][1..] == s[1..][..n - 1];
      CutAtPrefix(s[1..], n - 1);
    }
  }

  /** The cut position is found exactly at a boundary. */
  lemma CutAtBoundary(s: string, b: nat)
    ensures CutAt(s, b).Some? <==> Boundary(s, b)
  {
    hide Bytes;
    if n :| 0 <= n <= |s| && Bytes(s[..n]) == b { CutAtPrefix(s, n); }
  }

  /** Where a window is cut: before its last newline, else before its last space, else at its end. */
  predicate CutsAt(window: string, k: nat) {
    if '\n' in window then k < |window| && window[k] == '\n' && '\n' !in window[k + 1..]
    else if ' ' in window then k < |window| && window[k] == ' ' && ' ' !in window[k + 1..]
    else k == |window|
  }

  /** `rest` is what follows position `k`, without its leading whitespace. */
  predicate Remains(s: string, k: nat, rest: string) {
    k + |rest| <= |s| && rest == s[|s| - |rest|..] && Blank(s[k..|s| - |rest|]) &&
    (rest != "" ==> !IsWhitespace(rest[0]))
  }

  /** One pass over a text too long for one chunk leaves `rest`: a window of exactly 1950 bytes, cut as
      described, and the whitespace after the cut dropped. */
  ghost predicate PassLeaves(s: string, rest: string) {
    Bytes(s) > CHUNK_MAX && exists n, k :: PassesAt(s, n, k, rest)
  }

  predicate PassesAt(s: string, n: int, k: int, rest: string) {
    0 <= k <= n <= |s| && Bytes(s[..n]) == CHUNK_MAX && CutsAt(s[..n], k) && Remains(s, k, rest)
  }

  lemma NoneAfter(window: string, k: nat)
    ensures forall j :: k < j < |window| && window[k] !in window[k + 1..] ==> window[j] != window[k]
  {
    forall j | k < j < |window| ensures window[j] in window[k + 1..] { assert window[j] == window[k + 1..][j - k - 1]; }
  }

  lemma SameCut(window: string, k: nat, j: nat)
    requires CutsAt(window, k) && CutsAt(window, j)
    ensures k == j
  {
    NoneAfter(window, k);
    NoneAfter(window, j);
  }

  lemma SameRest(s: string, k: nat, rest: string, other: string)
    requires Remains(s, k, rest) && Remains(s, k, other)
    ensures rest == other
  {
    if |rest| < |other| { NotBlankYet(s, k, other, rest); }
    if |other| < |rest| { NotBlankYet(s, k, rest, other); }
  }

  lemma NotBlankYet(s: string, k: nat, longer: string, shorter: string)
    requires k + |longer| <= |s| && longer == s[|s| - |longer|..] && |shorter| < |longer|
    requires Blank(s[k..|s| - |shorter|])
    ensures IsWhitespace(longer[0])
  {
    var p := |s| - |longer|;
    assert s[k..|s| - |shorter|][p - k] == longer[0];
  }

  /** The description of a pass is what the loop does. */
  lemma PassIs(s: string, rest: string)
    requires Bytes(s) > CHUNK_MAX
    ensures PassLeaves(s, rest) <==> Cut(s).Some? && Cut(s).value.1 == rest
  {
    hide Bytes, TrimStart, CutsAt, Remains;
    CutAtBoundary(s, CHUNK_MAX);
    if Cut(s).Some? {
      var n := CutAt(s, CHUNK_MAX).value;
      var k := SplitAt(s[..n]);
      SplitCuts(s[..n]);
      TrimRemains(s, k);
      hide SplitAt;
      assert PassesAt(s, n, k, Cut(s).value.1);
      if m, j :| PassesAt(s, m, j, rest) {
        CutAtPrefix(s, m);
        SameCut(s[..n], k, j);
        SameRest(s, k, rest, Cut(s).value.1);
      }
    }
  }

  lemma SplitCuts(window: string)
    ensures CutsAt(window, SplitAt(window))
  {
  }

  lemma TrimRemains(s: string, k: nat)
    requires k <= |s|
    ensures Remains(s, k, TrimStart(s[k..]))
  {
    hide TrimStart, IsWhitespace;
    var (tail, rest) := (s[k..], TrimStart(s[k..]));
    var gap := |tail| - |rest|;
    assert tail[gap..] == s[k + gap..];
    assert s[k..k + gap] == tail[..gap];
  }

  /** Splitting panics exactly when some number of passes leads to a text that still needs splitting and
      whose byte 1950 is inside a character. */
  lemma {:induction false} PanicsExactly(s: string)
    ensures ChunksOf(s).None? <==> exists rests :: PassesToBreak(s, rests)
    decreases |s|
  {
    hide Bytes, Boundary, PassLeaves;
    if Bytes(s) > CHUNK_MAX {
      CutAtBoundary(s, CHUNK_MAX);
      if Cut(s).None? {
        assert PassesToBreak(s, [s]);
      } else {
        CutShortens(s);
        var rest := Cut(s).value.1;
        PanicsExactly(rest);
        PassIs(s, rest);
        if more :| PassesToBreak(rest, more) { PassesOneMore(s, rest, more); }
        if rests :| PassesToBreak(s, rests) { PassesOneLess(s, rest, rests); }
      }
    } else {
      forall rests ensures !PassesToBreak(s, rests) { ShortEnough(s, rests); }
    }
  }

  /** The texts remaining after each pass, up to one that breaks. */
  ghost predicate PassesToBreak(s: string, rests: seq<string>) {
    rests != [] && rests[0] == s && (forall i :: 0 <= i < |rests| - 1 ==> PassLeaves(rests[i], rests[i + 1])) &&
    BreaksInside(rests[|rests| - 1])
  }

  lemma ShortEnough(s: string, rests: seq<string>)
    requires Bytes(s) <= CHUNK_MAX
    ensures !PassesToBreak(s, rests)
  {
    if |rests| > 1 { assert PassLeaves(rests[0], rests[1]) ==> Bytes(rests[0]) > CHUNK_MAX; }
  }

  lemma PassesOneMore(s: string, rest: string, rests: seq<string>)
    requires PassLeaves(s, rest) && PassesToBreak(rest, rests)
    ensures PassesToBreak(s, [s] + rests)
  {
    hide PassLeaves, BreaksInside;
    var all := [s] + rests;
    forall i | 0 <= i < |all| - 1 ensures PassLeaves(all[i], all[i + 1]) {
      if i > 0 { assert PassLeaves(rests[i - 1], rests[i]); }
    }
  }

  lemma PassesOneLess(s: string, rest: string, rests: seq<string>)
    requires Bytes(s) > CHUNK_MAX && Cut(s).Some? && Cut(s).value.1 == rest && PassesToBreak(s, rests)
    ensures PassesToBreak(rest, rests[1..])
  {
    hide Cut, PassLeaves, Boundary, Bytes;
    BreakIsPanic(s);
    assert PassLeaves(rests[0], rests[1]);
    PassIs(s, rests[1]);
    var fewer := rests[1..];
    forall i | 0 <= i < |fewer| - 1 ensures PassLeaves(fewer[i], fewer[i + 1]) {
      assert PassLeaves(rests[i + 1], rests[i + 2]);
    }
  }

  lemma BreakIsPanic(s: string)
    ensures BreaksInside(s) ==> Cut(s).None?
  {
    hide Bytes, Boundary;
    CutAtBoundary(s, CHUNK_MAX);
  }

  /** Any text longer than a chunk whose byte 1950 falls inside a character panics. */
  lemma BreakPanics(s: string)
    requires BreaksInside(s)
    ensures ChunksOf(s).None?
  {
    BreakIsPanic(s);
  }

  // --- text without whitespace ---------------------------------------------

  predicate Unbroken(s: string) { forall i :: 0 <= i < |s| ==> !IsWhitespace(s[i]) }

  /** Without whitespace every pass takes a whole window and drops nothing. */
  lemma UnbrokenCut(s: string)
    requires Unbroken(s) && CutAt(s, CHUNK_MAX).Some?
    ensures var n := CutAt(s, CHUNK_MAX).value;
            Cut(s) == Some((s[..n], s[n..])) && Unbroken(s[n..]) && Bytes(s) == CHUNK_MAX + Bytes(s[n..])
  {
    hide Bytes;
    var n := CutAt(s, CHUNK_MAX).value;
    var window := s[..n];
    forall i | 0 <= i < |window| ensures window[i] != '\n' && window[i] != ' ' {
      assert window[i] == s[i] && IsWhitespace('\n') && IsWhitespace(' ');
    }
    assert s == window + s[n..];
    BytesConcat(window, s[n..]);
  }

  /** Boundaries after the first window are boundaries of what follows it. */
  lemma BoundaryShifts(s: string, n: nat, b: nat)
    requires n <= |s|
    ensures Boundary(s, Bytes(s[..n]) + b) <==> Boundary(s[n..], b)
  {
    hide Bytes;
    var first := Bytes(s[..n]);
    if m :| 0 <= m <= |s[n..]| && Bytes(s[n..][..m]) == b {
      PrefixBytes(s, n, n + m);
    }
    if m :| 0 <= m <= |s| && Bytes(s[..m]) == first + b {
      if m < n { MoreBytes(s, m, n); }
      PrefixBytes(s, n, m);
      assert Bytes(s[n..][..m - n]) == b;
    }
  }

  lemma PrefixBytes(s: string, n: nat, m: nat)
    requires n <= m <= |s|
    ensures Bytes(s[..m]) == Bytes(s[..n]) + Bytes(s[n..][..m - n])
  {
    hide Bytes;
    BytesConcat(s[..n], s[n..m]);
    assert s[..n] + s[n..m] == s[..m] && s[n..][..m - n] == s[n..m];
  }

  /** A multiple of the chunk length, inside the text, that is inside a character. */
  ghost predicate BrokenMultiple(s: string, m: nat) {
    m >= 1 && CHUNK_MAX * m < Bytes(s) && !Boundary(s, CHUNK_MAX * m)
  }

  /** Text without whitespace panics exactly when some multiple of 1950 below its length is inside a
      character. */
  lemma {:induction false} UnbrokenPanicsExactly(s: string)
    requires Unbroken(s)
    ensures ChunksOf(s).None? <==> exists m :: BrokenMultiple(s, m)
    decreases |s|
  {
    hide Bytes, Boundary, Unbroken;
    CutAtBoundary(s, CHUNK_MAX);
    if Bytes(s) > CHUNK_MAX && Cut(s).None? {
      assert BrokenMultiple(s, 1);
    } else if Bytes(s) > CHUNK_MAX {
      var n := CutAt(s, CHUNK_MAX).value;
      UnbrokenCut(s);
      CutShortens(s);
      hide Cut;
      UnbrokenPanicsExactly(s[n..]);
      if m: nat :| BrokenMultiple(s[n..], m) {
        BoundaryShifts(s, n, CHUNK_MAX * m);
        assert BrokenMultiple(s, m + 1);
      }
      if m: nat :| BrokenMultiple(s, m) {
        assert m > 1;
        BoundaryShifts(s, n, CHUNK_MAX * (m - 1));
        assert BrokenMultiple(s[n..], m - 1);
      }
    }
  }

  // --- text of one kind of character -----------------------------------------

  predicate Ascii(s: string) { forall i :: 0 <= i < |s| ==> (s[i] as int) < 0x80 }

  lemma {:induction false} CutAscii(s: string, b: nat)
    requires Ascii(s) && b <= |s|
    ensures CutAt(s, b) == Some(b)
  {
    if b > 0 { CutAscii(s[1..], b - 1); }
  }

  /** Text of one-byte characters never panics. */
  lemma {:induction false} AsciiSplits(s: string)
    requires Ascii(s)
    ensures ChunksOf(s).Some?
    decreases |s|
  {
    BytesOfAscii(s);
    if Bytes(s) > CHUNK_MAX {
      CutAscii(s, CHUNK_MAX);
      CutShortens(s);
      var rest := Cut(s).value.1;
      assert forall i :: 0 <= i < |rest| ==> rest[i] == s[|s| - |rest| + i];
      AsciiSplits(rest);
    }
  }

  function Repeat(c: char, n: nat): (s: string)
    ensures |s| == n && forall i :: 0 <= i < n ==> s[i] == c
  {
    seq(n, i => c)
  }

  lemma {:induction false} BytesOfRepeat(c: char, n: nat)
    ensures Bytes(Repeat(c, n)) == n * CharBytes(c)
  {
    if n > 0 {
      assert Repeat(c, n)[1..] == Repeat(c, n - 1);
      BytesOfRepeat(c, n - 1);
    }
  }

  lemma {:induction false} CutRepeat(c: char, n: nat, b: nat)
    requires b <= n * CharBytes(c)
    ensures CutAt(Repeat(c, n), b).Some? <==> b % CharBytes(c) == 0
  {
    var w := CharBytes(c);
    if b > 0 {
      assert n > 0;
      assert Repeat(c, n)[1..] == Repeat(c, n - 1);
      if w <= b {
        assert b - w <= (n - 1) * w;
        CutRepeat(c, n - 1, b - w);
        SameRemainder(b, w);
      } else {
        SmallRemainder(b, w);
      }
    }
  }

  lemma SameRemainder(b: nat, w: nat)
    requires 1 <= w <= 4 && w <= b
    ensures (b - w) % w == b % w
  {
    if w == 2 { LessTwo(b); } else if w == 3 { LessThree(b); } else if w == 4 { LessFour(b); }
  }

  lemma LessTwo(b: nat)
    requires b >= 2
    ensures (b - 2) % 2 == b % 2
  {
  }

  lemma LessThree(b: nat)
    requires b >= 3
    ensures (b - 3) % 3 == b % 3
  {
  }

  lemma LessFour(b: nat)
    requires b >= 4
    ensures (b - 4) % 4 == b % 4
  {
  }

  lemma SmallRemainder(b: nat, w: nat)
    requires 0 < b < w
    ensures b % w == b
  {
  }

  lemma SuffixOfRepeat(c: char, n: nat, rest: string)
    requires |rest| <= n && rest == Repeat(c, n)[n - |rest|..]
    ensures rest == Repeat(c, |rest|)
  {
    assert forall i :: 0 <= i < |rest| ==> rest[i] == Repeat(c, n)[n - |rest| + i];
  }

  /** A text of one repeated character panics exactly when the character takes four bytes and the
      text needs splitting: 1950 is not a multiple of four, so the window ends inside a character. */
  lemma {:induction false} RepeatedSplitsExactly(c: char, n: nat)
    ensures ChunksOf(Repeat(c, n)).None? <==> CharBytes(c) == 4 && 4 * n > CHUNK_MAX
    decreases n
  {
    hide Bytes, TrimStart, SplitAt, Repeat;
    var s := Repeat(c, n);
    BytesOfRepeat(c, n);
    if Bytes(s) > CHUNK_MAX {
      CutRepeat(c, n, CHUNK_MAX);
      if CharBytes(c) != 4 {
        CutShortens(s);
        var rest := Cut(s).value.1;
        SuffixOfRepeat(c, n, rest);
        RepeatedSplitsExactly(c, |rest|);
      }
    }
  }
}
