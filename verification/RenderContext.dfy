/** Rendering a user's memories into the block of text that goes into the prompt, within a byte budget. */
module RenderContext {
  import opened Prelude
  import opened Text

  datatype Category = Instruction | Preference | Fact | Context

  datatype Memory = Memory(category: Category, key: string, value: string)

  const MAX_CONTEXT_CHARS: nat := 6000

  function Rank(c: Category): nat {
    match c
    case Instruction => 0
    case Preference => 1
    case Fact => 2
    case Context => 3
  }

  function Capitalized(c: Category): string {
    match c
    case Instruction => "Instruction"
    case Preference => "Preference"
    case Fact => "Fact"
    case Context => "Context"
  }

  function HeaderOf(c: Category): string { "## " + Capitalized(c) + "\n" }

  function Line(m: Memory): string { "- " + m.key + ": " + m.value + "\n" }

  /** The headers, from the most to the least important category, and what a line says. */
  lemma Layout(m: Memory)
    ensures HeaderOf(Instruction) == "## Instruction\n" && HeaderOf(Preference) == "## Preference\n"
    ensures HeaderOf(Fact) == "## Fact\n" && HeaderOf(Context) == "## Context\n"
    ensures Rank(Instruction) < Rank(Preference) < Rank(Fact) < Rank(Context)
    ensures Line(m) == "- " + (m.key + (": " + (m.value + "\n")))
  {
    Associative("- " + m.key + ": ", m.value, "\n");
    Associative("- " + m.key, ": ", m.value + "\n");
    Associative("- ", m.key, ": " + (m.value + "\n"));
  }

  /** The category of the memory before the `n`-th, if any: the loop's `current_cat`. */
  function CategoryBefore(memories: seq<Memory>, n: nat): Option<Category>
    requires n <= |memories|
  {
    if n == 0 then None else Some(memories[n - 1].category)
  }

  /** What precedes a line of category `c`: nothing inside a category, else the category's header,
      set off from earlier text by a newline. */
  function Lead(current: Option<Category>, c: Category): string {
    if current == None then HeaderOf(c) else if current == Some(c) then "" else "\n" + HeaderOf(c)
  }

  /** What precedes the line of the `n`-th memory. */
  function LeadAt(memories: seq<Memory>, n: nat): string
    requires n < |memories|
  {
    Lead(CategoryBefore(memories, n), memories[n].category)
  }

  /** The first `n` memories written out, with no budget. */
  function Full(memories: seq<Memory>, n: nat): string
    requires n <= |memories|
  {
    if n == 0 then "" else Full(memories, n - 1) + LeadAt(memories, n - 1) + Line(memories[n - 1])
  }

  /** How many of the first `n` memories fit the budget together. */
  function Fitting(memories: seq<Memory>, n: nat): (k: nat)
    requires n <= |memories|
    ensures k <= n
  {
    if n == 0 || Bytes(Full(memories, n)) <= MAX_CONTEXT_CHARS then n else Fitting(memories, n - 1)
  }

  /** The longest prefix that fits, and when something was cut the lead of the first memory cut. */
  function Rendered(memories: seq<Memory>): string {
    var n := Fitting(memories, |memories|);
    if n < |memories| then Full(memories, n) + LeadAt(memories, n) else Full(memories, n)
  }

  // ---------------------------------------------------------------------
  // Prefixes and the budget
  // ---------------------------------------------------------------------

  lemma BytesOfThree(a: string, b: string, c: string)
    ensures Bytes(a + b + c) == Bytes(a) + Bytes(b) + Bytes(c) && Bytes(a + b) == Bytes(a) + Bytes(b)
  {
    BytesConcat(a + b, c);
    BytesConcat(a, b);
  }

  lemma FullBytes(memories: seq<Memory>, n: nat)
    requires n < |memories|
    ensures Bytes(Full(memories, n + 1)) ==
            Bytes(Full(memories, n)) + Bytes(LeadAt(memories, n)) + Bytes(Line(memories[n]))
  {
    hide LeadAt, Line, Bytes;
    BytesOfThree(Full(memories, n), LeadAt(memories, n), Line(memories[n]));
  }

  lemma {:induction false} PrefixesAreShorter(memories: seq<Memory>, k: nat, n: nat)
    requires k <= n <= |memories|
    ensures Bytes(Full(memories, k)) <= Bytes(Full(memories, n))
    decreases n
  {
    hide LeadAt, Line, Bytes;
    if k < n {
      PrefixesAreShorter(memories, k, n - 1);
      FullBytes(memories, n - 1);
    }
  }

  /** `Fitting` is the cut: exactly the prefixes up to it fit the budget. */
  lemma {:induction false} FittingIsTheCut(memories: seq<Memory>, k: nat, n: nat)
    requires k <= n <= |memories|
    ensures k <= Fitting(memories, n) <==> Bytes(Full(memories, k)) <= MAX_CONTEXT_CHARS
    decreases n
  {
    hide LeadAt, Line;
    assert Bytes(Full(memories, 0)) == 0;
    if Bytes(Full(memories, n)) <= MAX_CONTEXT_CHARS {
      PrefixesAreShorter(memories, k, n);
    } else if k < n {
      FittingIsTheCut(memories, k, n - 1);
    } else {
      PrefixesAreShorter(memories, 0, n);
    }
  }

  lemma LineNotEmpty(before: string, m: Memory)
    ensures before + Line(m) != ""
  {}

  /** The lead as the loop writes it, after the text so far. */
  lemma LeadIs(full: string, current: Option<Category>, c: Category)
    ensures full + Lead(current, c) ==
            if current == None then full + HeaderOf(c) else if current == Some(c) then full
            else full + "\n" + HeaderOf(c)
  {
    Associative(full, "\n", HeaderOf(c));
    NothingAdded(full);
  }

  lemma CutAt(memories: seq<Memory>, i: nat)
    requires i < |memories| && Bytes(Full(memories, i)) <= MAX_CONTEXT_CHARS < Bytes(Full(memories, i + 1))
    ensures Rendered(memories) == Full(memories, i) + LeadAt(memories, i)
  {
    hide LeadAt, Fitting;
    FittingIsTheCut(memories, i, |memories|);
    FittingIsTheCut(memories, i + 1, |memories|);
  }

  /** One pass of the loop: the text with the next lead, and whether the line still fits. */
  lemma NextText(full: string, memories: seq<Memory>, i: nat)
    requires i < |memories| && full == Full(memories, i) && Bytes(full) <= MAX_CONTEXT_CHARS
    ensures i > 0 <==> full != ""
    ensures var (c, line) := (memories[i].category, Line(memories[i]));
            var led := if CategoryBefore(memories, i) == Some(c) then full
                       else if i > 0 then full + "\n" + HeaderOf(c) else full + HeaderOf(c);
            Full(memories, i + 1) == led + line &&
            Bytes(Full(memories, i + 1)) == Bytes(led) + Bytes(line) &&
            (Bytes(led) + Bytes(line) > MAX_CONTEXT_CHARS ==> led == Rendered(memories))
  {
    hide HeaderOf, Line;
    LeadIs(full, CategoryBefore(memories, i), memories[i].category);
    BytesOfThree(full, LeadAt(memories, i), Line(memories[i]));
    if i > 0 { LineNotEmpty(Full(memories, i - 1) + LeadAt(memories, i - 1), memories[i - 1]); }
    if Bytes(Full(memories, i + 1)) > MAX_CONTEXT_CHARS { CutAt(memories, i); }
  }

  /** The loop that builds the text: the header goes out before the budget is checked. */
  method RenderMemories(memories: seq<Memory>) returns (out: string)
    ensures out == Rendered(memories)
  {
    hide HeaderOf, Line, LeadAt, Rendered;
    out := "";
    var currentCat: Option<Category> := None;
    var i := 0;
    while i < |memories|
      invariant i <= |memories| && out == Full(memories, i) && Bytes(out) <= MAX_CONTEXT_CHARS
      invariant currentCat == CategoryBefore(memories, i)
    {
      var mem := memories[i];
      NextText(out, memories, i);
      if currentCat != Some(mem.category) {
        if out != "" { out := out + "\n"; }
        out := out + HeaderOf(mem.category);
        currentCat := Some(mem.category);
      }
      var line := Line(mem);
      if Bytes(out) + Bytes(line) > MAX_CONTEXT_CHARS { return; }
      out := out + line;
      i := i + 1;
    }
    AllFit(memories);
  }

  lemma AllFit(memories: seq<Memory>)
    ensures Bytes(Full(memories, |memories|)) <= MAX_CONTEXT_CHARS ==> Rendered(memories) == Full(memories, |memories|)
  {
    hide Full, LeadAt;
  }

  // ---------------------------------------------------------------------
  // The size of the result
  // ---------------------------------------------------------------------

  ghost predicate Sorted(memories: seq<Memory>) {
    forall i, j :: 0 <= i < j < |memories| ==> Rank(memories[i].category) <= Rank(memories[j].category)
  }

  lemma LeadBytes(current: Option<Category>, c: Category)
    ensures Bytes(Lead(current, c)) <= if c == Instruction && current.Some? then 16 else 15
    ensures c == Preference && current == Some(Instruction) ==> Bytes(Lead(current, c)) == 15
    ensures current == Some(c) ==> Bytes(Lead(current, c)) == 0
  {
    HeaderBytes(c);
    BytesOfAscii("\n");
    BytesConcat("\n", HeaderOf(c));
    hide HeaderOf;
  }

  lemma HeaderBytes(c: Category)
    ensures Bytes(HeaderOf(c)) ==
            match c
            case Instruction => 15
            case Preference => 14
            case Fact => 8
            case Context => 11
  {
    BytesOfAscii(HeaderOf(c));
  }

  /** The text exceeds the budget by at most one header: 16 bytes, and 15 when the memories come in
      category order, as the query delivers them. */
  lemma SizeIsBounded(memories: seq<Memory>)
    ensures Bytes(Rendered(memories)) <= 6016
    ensures Sorted(memories) ==> Bytes(Rendered(memories)) <= 6015
  {
    hide HeaderOf, Line, Fitting, Lead;
    var n := Fitting(memories, |memories|);
    PrefixesAreShorter(memories, 0, n);
    FittingIsTheCut(memories, n, |memories|);
    if n < |memories| {
      LeadBytes(CategoryBefore(memories, n), memories[n].category);
      BytesConcat(Full(memories, n), LeadAt(memories, n));
    }
  }

  /** The header written before the `i`-th memory keeps within the budget if the text before it does. */
  predicate HeaderFits(memories: seq<Memory>, i: nat)
    requires i < |memories|
  {
    Bytes(Full(memories, i)) <= MAX_CONTEXT_CHARS ==>
      Bytes(Full(memories, i)) + Bytes(LeadAt(memories, i)) <= MAX_CONTEXT_CHARS
  }

  /** A header whose line fits, fits. */
  lemma HeaderFitsBeforeLine(memories: seq<Memory>, i: nat)
    requires i < |memories| && Bytes(Full(memories, i + 1)) <= MAX_CONTEXT_CHARS
    ensures HeaderFits(memories, i)
  {
    hide LeadAt, Line, Bytes, Full;
    FullBytes(memories, i);
  }

  /** The text keeps to the budget exactly when no header straddles its end. */
  lemma BudgetKeptExactly(memories: seq<Memory>)
    ensures Bytes(Rendered(memories)) <= MAX_CONTEXT_CHARS <==>
            forall i :: 0 <= i < |memories| ==> HeaderFits(memories, i)
  {
    hide LeadAt, Line, Bytes, Full, Fitting;
    var n := Fitting(memories, |memories|);
    FittingIsTheCut(memories, n, |memories|);
    forall i | 0 <= i < |memories| && i != n ensures HeaderFits(memories, i) {
      FittingIsTheCut(memories, i, |memories|);
      FittingIsTheCut(memories, i + 1, |memories|);
      if i < n { HeaderFitsBeforeLine(memories, i); }
    }
    if n < |memories| {
      BytesConcat(Full(memories, n), LeadAt(memories, n));
      assert Bytes(Rendered(memories)) <= MAX_CONTEXT_CHARS <==> HeaderFits(memories, n);
    }
  }

  lemma {:induction false} BytesOfRepeated(n: nat)
    ensures Bytes(seq(n, _ => 'x')) == n
  {
    BytesOfAscii(seq(n, _ => 'x'));
  }

  lemma LineBytes(m: Memory)
    ensures Bytes(Line(m)) == 5 + Bytes(m.key) + Bytes(m.value)
  {
    BytesOfThree("- " + m.key + ": ", m.value, "\n");
    BytesOfThree("- ", m.key, ": ");
    BytesOfAscii("- ");
    BytesOfAscii(": ");
    BytesOfAscii("\n");
  }

  lemma TwoTexts(memories: seq<Memory>)
    requires |memories| == 2 && memories[0].category == Instruction && memories[1].category == Preference
    requires Bytes(memories[0].key) == 0 && Bytes(memories[0].value) == 5980
    ensures Bytes(Full(memories, 1)) == 6000 < Bytes(Full(memories, 2)) && Bytes(LeadAt(memories, 1)) == 15
  {
    LineBytes(memories[0]);
    LineBytes(memories[1]);
    BytesOfAscii(HeaderOf(Instruction));
    LeadBytes(Some(Instruction), Preference);
    BytesOfThree(Full(memories, 0), LeadAt(memories, 0), Line(memories[0]));
    BytesOfThree(Full(memories, 1), LeadAt(memories, 1), Line(memories[1]));
  }

  /** 6015 bytes are reached by memories in category order: their second header straddles the budget. */
  lemma BoundIsReached()
    ensures exists memories :: Sorted(memories) && Bytes(Rendered(memories)) == 6015
  {
    var memories := [Memory(Instruction, "", seq(5980, _ => 'x')), Memory(Preference, "", "")];
    BytesOfRepeated(5980);
    TwoTexts(memories);
    CutAt(memories, 1);
    BytesConcat(Full(memories, 1), LeadAt(memories, 1));
    assert Sorted(memories);
  }

  // ---------------------------------------------------------------------
  // What the text of memories in category order looks like
  // ---------------------------------------------------------------------

  function CategoryOf(rank: nat): Category {
    if rank == 0 then Instruction else if rank == 1 then Preference else if rank == 2 then Fact else Context
  }

  /** The lines of one category among the first `n` memories, in order. */
  function Lines(memories: seq<Memory>, n: nat, c: Category): string
    requires n <= |memories|
  {
    if n == 0 then ""
    else if memories[n - 1].category == c then Lines(memories, n - 1, c) + Line(memories[n - 1])
    else Lines(memories, n - 1, c)
  }

  /** A category's section: its header once, then its lines; nothing when there are no lines. */
  function Section(lines: string, c: Category): string {
    if lines == "" then "" else HeaderOf(c) + lines
  }

  function Join(before: string, section: string): string {
    if section == "" then before else if before == "" then section else before + "\n" + section
  }

  /** The sections of the first `ranks` categories by priority, separated by blank lines. */
  function Sections(memories: seq<Memory>, n: nat, ranks: nat): string
    requires n <= |memories|
  {
    if ranks == 0 then ""
    else Join(Sections(memories, n, ranks - 1),
              Section(Lines(memories, n, CategoryOf(ranks - 1)), CategoryOf(ranks - 1)))
  }

  lemma {:induction false} NoLines(memories: seq<Memory>, n: nat, c: Category)
    requires n <= |memories| && forall i :: 0 <= i < n ==> memories[i].category != c
    ensures Lines(memories, n, c) == ""
  {
    if n > 0 { NoLines(memories, n - 1, c); }
  }

  /** A memory changes no section of a higher priority than its own. */
  lemma {:induction false} SectionsWithout(memories: seq<Memory>, n: nat, ranks: nat)
    requires n < |memories| && ranks <= Rank(memories[n].category)
    ensures Sections(memories, n + 1, ranks) == Sections(memories, n, ranks)
  {
    hide HeaderOf, Line;
    if ranks > 0 { SectionsWithout(memories, n, ranks - 1); }
  }

  /** Past the last memory's category there is nothing. */
  lemma {:induction false} SectionsBeyond(memories: seq<Memory>, n: nat, rank: nat, ranks: nat)
    requires n <= |memories| && rank < ranks <= 4
    requires forall i :: 0 <= i < n ==> Rank(memories[i].category) <= rank
    ensures Sections(memories, n, ranks) == Sections(memories, n, rank + 1)
  {
    hide HeaderOf, Line, Lines;
    if ranks > rank + 1 {
      SectionsBeyond(memories, n, rank, ranks - 1);
      NoLines(memories, n, CategoryOf(ranks - 1));
    }
  }

  lemma {:induction false} NothingYet(memories: seq<Memory>, ranks: nat)
    ensures Sections(memories, 0, ranks) == ""
  {
    if ranks > 0 { NothingYet(memories, ranks - 1); }
  }

  /** One more line in a section already begun. */
  lemma ExtendSection(before: string, lines: string, c: Category, m: Memory)
    requires lines != ""
    ensures Join(before, Section(lines + Line(m), c)) == Join(before, Section(lines, c)) + Line(m)
  {
    Associative(HeaderOf(c), lines, Line(m));
    Associative(before + "\n", HeaderOf(c) + lines, Line(m));
  }

  /** The first line of a section. */
  lemma StartSection(before: string, c: Category, m: Memory)
    ensures Join(before, Section("", c)) == before
    ensures Join(before, Section("" + Line(m), c)) ==
            if before == "" then before + HeaderOf(c) + Line(m) else before + "\n" + HeaderOf(c) + Line(m)
  {
    NothingAdded(Line(m));
    NothingAdded(HeaderOf(c));
    LineNotEmpty("", m);
    LineNotEmpty(HeaderOf(c), m);
    Associative(before + "\n", HeaderOf(c), Line(m));
  }

  /** Writing one more memory in category order. */
  lemma AppendToSection(memories: seq<Memory>, n: nat)
    requires n < |memories| && Sorted(memories)
    requires var rank := Rank(memories[n].category);
             Full(memories, n) == Join(Sections(memories, n, rank),
                                       Section(Lines(memories, n, memories[n].category), memories[n].category))
    ensures var rank := Rank(memories[n].category);
            Full(memories, n + 1) == Join(Sections(memories, n, rank),
                                          Section(Lines(memories, n + 1, memories[n].category), memories[n].category))
  {
    hide HeaderOf, Line, Join, Section, Sections, Lead;
    var c := memories[n].category;
    var before := Sections(memories, n, Rank(c));
    LeadIs(Full(memories, n), CategoryBefore(memories, n), c);
    if CategoryBefore(memories, n) == Some(c) {
      LineNotEmpty(Lines(memories, n - 1, c), memories[n - 1]);
      ExtendSection(before, Lines(memories, n, c), c, memories[n]);
    } else {
      NoLines(memories, n, c);
      StartSection(before, c, memories[n]);
      if n == 0 { NothingYet(memories, Rank(c)); }
      else { LineNotEmpty(Full(memories, n - 1) + LeadAt(memories, n - 1), memories[n - 1]); }
    }
  }

  /** Without a budget, memories in category order are written as one section per category that has
      any, in priority order, each with its header exactly once. */
  lemma {:induction false} FullIsSections(memories: seq<Memory>, n: nat)
    requires Sorted(memories) && n <= |memories|
    ensures Full(memories, n) == Sections(memories, n, 4)
  {
    hide HeaderOf, Line, LeadAt, Lines, Section, Join;
    if n == 0 {
      NothingYet(memories, 4);
    } else {
      var rank := Rank(memories[n - 1].category);
      FullIsSections(memories, n - 1);
      SectionsBeyond(memories, n, rank, 4);
      SectionsBeyond(memories, n - 1, rank, 4);
      SectionsWithout(memories, n - 1, rank);
      assert CategoryOf(rank) == memories[n - 1].category;
      AppendToSection(memories, n - 1);
    }
  }

  /** What is written of memories in category order: the sections of the prefix that fits, each category's
      header once, before its lines; and when memories were left out, at most one more header, that of
      the first left out if its category is new. */
  lemma SortedTextIsSections(memories: seq<Memory>) returns (n: nat)
    requires Sorted(memories)
    ensures n <= |memories| && Bytes(Sections(memories, n, 4)) <= MAX_CONTEXT_CHARS
    ensures n == |memories| ==> Rendered(memories) == Sections(memories, n, 4)
    ensures n < |memories| ==>
              Bytes(Sections(memories, n + 1, 4)) > MAX_CONTEXT_CHARS &&
              var (c, written) := (memories[n].category, Sections(memories, n, 4));
              Rendered(memories) ==
                if Lines(memories, n, c) != "" then written
                else if n == 0 then HeaderOf(c) else written + "\n" + HeaderOf(c)
  {
    hide HeaderOf, Line, Bytes, Full, Fitting, Lines, Sections;
    n := Fitting(memories, |memories|);
    FittingIsTheCut(memories, n, |memories|);
    FullIsSections(memories, n);
    if n < |memories| {
      FittingIsTheCut(memories, n + 1, |memories|);
      FullIsSections(memories, n + 1);
      NewCategory(memories, n);
      LeadIs(Full(memories, n), CategoryBefore(memories, n), memories[n].category);
      assert n == 0 ==> Full(memories, n) == "" by { NothingYet(memories, 4); }
      NothingAdded(HeaderOf(memories[n].category));
    }
  }

  /** In category order, a category other than the last one written is new. */
  lemma NewCategory(memories: seq<Memory>, n: nat)
    requires n < |memories| && Sorted(memories)
    ensures CategoryBefore(memories, n) == Some(memories[n].category) <==>
            Lines(memories, n, memories[n].category) != ""
  {
    hide Lines, Line;
    var c := memories[n].category;
    if CategoryBefore(memories, n) == Some(c) {
      HasLines(memories, n);
    } else {
      NoneOfCategory(memories, n);
      NoLines(memories, n, c);
    }
  }

  lemma HasLines(memories: seq<Memory>, n: nat)
    requires 0 < n <= |memories|
    ensures Lines(memories, n, memories[n - 1].category) != ""
  {
    hide Line;
    LineNotEmpty(Lines(memories, n - 1, memories[n - 1].category), memories[n - 1]);
  }

  lemma NoneOfCategory(memories: seq<Memory>, n: nat)
    requires n < |memories| && Sorted(memories) && CategoryBefore(memories, n) != Some(memories[n].category)
    ensures forall i :: 0 <= i < n ==> memories[i].category != memories[n].category
  {}
}
