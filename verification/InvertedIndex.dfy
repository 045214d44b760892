/** A full-text index kept by hand beside its content table: a row is indexed by adding the postings of
    its columns, and un-indexed by taking away the postings of the text the caller passes. */
module InvertedIndex {
  import opened Prelude

  type Tokenizer = string -> seq<string>

  datatype Posting = Posting(row: nat, column: nat, term: string)

  /** A row of the content table as the index sees it. */
  datatype Doc = Doc(id: nat, columns: seq<string>)

  type Index = multiset<Posting>

  function Tagged(terms: seq<string>, row: nat, column: nat): seq<Posting> {
    seq(|terms|, i requires 0 <= i < |terms| => Posting(row, column, terms[i]))
  }

  /** The postings of a row's first `n` columns. */
  function PostingsUpTo(tok: Tokenizer, d: Doc, n: nat): Index
    requires n <= |d.columns|
  {
    if n == 0 then multiset{}
    else PostingsUpTo(tok, d, n - 1) + multiset(Tagged(tok(d.columns[n - 1]), d.id, n - 1))
  }

  function Postings(tok: Tokenizer, d: Doc): Index { PostingsUpTo(tok, d, |d.columns|) }

  /** The index built afresh from the table. */
  function Rebuilt(tok: Tokenizer, docs: seq<Doc>): Index {
    if |docs| == 0 then multiset{} else Rebuilt(tok, docs[..|docs| - 1]) + Postings(tok, docs[|docs| - 1])
  }

  /** The rows a one-term search finds. */
  function Matches(index: Index, term: string): set<nat> {
    set p | p in index && p.term == term :: p.row
  }

  /** The rows of a table as the index sees them. */
  function Docs<E>(docOf: E -> Doc, rows: seq<E>): (docs: seq<Doc>)
    ensures |docs| == |rows| && forall i :: 0 <= i < |rows| ==> docs[i] == docOf(rows[i])
  {
    seq(|rows|, i requires 0 <= i < |rows| => docOf(rows[i]))
  }

  /** Where the row with a key is. */
  function RowOf<E, K(==)>(keyOf: E -> K, rows: seq<E>, key: K): (r: Option<nat>)
    ensures r.Some? ==> r.value < |rows| && keyOf(rows[r.value]) == key
    ensures r.None? ==> forall i :: 0 <= i < |rows| ==> keyOf(rows[i]) != key
  {
    if |rows| == 0 then None
    else if keyOf(rows[|rows| - 1]) == key then Some(|rows| - 1)
    else RowOf(keyOf, rows[..|rows| - 1], key)
  }

  predicate DistinctIds(docs: seq<Doc>) {
    forall i, j :: 0 <= i < j < |docs| ==> docs[i].id != docs[j].id
  }

  // ---------------------------------------------------------------------
  // Changing one row
  // ---------------------------------------------------------------------

  lemma RebuiltOne(tok: Tokenizer, docs: seq<Doc>, d: Doc)
    ensures Rebuilt(tok, docs + [d]) == Rebuilt(tok, docs) + Postings(tok, d)
  {
    assert (docs + [d])[..|docs|] == docs;
  }

  lemma ConcatOne(tok: Tokenizer, a: seq<Doc>, b: seq<Doc>, d: Doc)
    requires Rebuilt(tok, a + b) == Rebuilt(tok, a) + Rebuilt(tok, b)
    ensures Rebuilt(tok, a + (b + [d])) == Rebuilt(tok, a) + Rebuilt(tok, b + [d])
  {
    hide Rebuilt, Postings;
    RebuiltOne(tok, a + b, d);
    RebuiltOne(tok, b, d);
    assert a + (b + [d]) == a + b + [d];
  }

  lemma {:induction false} RebuiltConcat(tok: Tokenizer, a: seq<Doc>, b: seq<Doc>)
    ensures Rebuilt(tok, a + b) == Rebuilt(tok, a) + Rebuilt(tok, b)
  {
    hide Postings;
    if |b| == 0 {
      assert a + b == a;
    } else {
      var (front, last) := (b[..|b| - 1], b[|b| - 1]);
      RebuiltConcat(tok, a, front);
      ConcatOne(tok, a, front, last);
      assert b == front + [last];
    }
  }

  /** A row's postings stand apart from those of the rows before and after it. */
  lemma RebuiltAround(tok: Tokenizer, before: seq<Doc>, d: Doc, after: seq<Doc>)
    ensures Rebuilt(tok, before + [d] + after) == Rebuilt(tok, before + after) + Postings(tok, d)
  {
    RebuiltConcat(tok, before + [d], after);
    RebuiltOne(tok, before, d);
    RebuiltConcat(tok, before, after);
  }

  lemma Exchange(rest: Index, a: Index, b: Index)
    ensures rest + a - a + b == rest + b
  {}

  /** Replacing a row exchanges its postings. */
  lemma RebuiltUpdate(tok: Tokenizer, docs: seq<Doc>, i: nat, d: Doc)
    requires i < |docs|
    ensures Rebuilt(tok, docs[i := d]) == Rebuilt(tok, docs) - Postings(tok, docs[i]) + Postings(tok, d)
  {
    hide Rebuilt, Postings;
    var (before, after) := (docs[..i], docs[i + 1..]);
    assert docs == before + [docs[i]] + after && docs[i := d] == before + [d] + after;
    RebuiltAround(tok, before, docs[i], after);
    RebuiltAround(tok, before, d, after);
    Exchange(Rebuilt(tok, before + after), Postings(tok, docs[i]), Postings(tok, d));
  }

  lemma RebuiltRemove(tok: Tokenizer, docs: seq<Doc>, i: nat)
    requires i < |docs|
    ensures Rebuilt(tok, docs) == Rebuilt(tok, docs[..i] + docs[i + 1..]) + Postings(tok, docs[i])
  {
    hide Rebuilt, Postings;
    RebuiltAround(tok, docs[..i], docs[i], docs[i + 1..]);
    assert docs == docs[..i] + [docs[i]] + docs[i + 1..];
  }

  // ---------------------------------------------------------------------
  // Which postings belong to which row
  // ---------------------------------------------------------------------

  predicate HasTerm(tok: Tokenizer, d: Doc, term: string) {
    exists c :: 0 <= c < |d.columns| && term in tok(d.columns[c])
  }

  lemma {:induction false} PostingsUpToAre(tok: Tokenizer, d: Doc, n: nat, p: Posting)
    requires n <= |d.columns|
    ensures p in PostingsUpTo(tok, d, n) <==>
            p.row == d.id && p.column < n && p.term in tok(d.columns[p.column])
  {
    if n > 0 {
      PostingsUpToAre(tok, d, n - 1, p);
      var terms := tok(d.columns[n - 1]);
      var tagged := Tagged(terms, d.id, n - 1);
      assert p in multiset(tagged) <==> p in tagged;
      if p.row == d.id && p.column == n - 1 && p.term in terms {
        var i :| 0 <= i < |terms| && terms[i] == p.term;
        assert tagged[i] == p;
      }
    }
  }

  lemma {:induction false} RebuiltHas(tok: Tokenizer, docs: seq<Doc>, p: Posting)
    ensures p in Rebuilt(tok, docs) <==> exists d :: d in docs && p in Postings(tok, d)
  {
    if |docs| > 0 {
      var (front, last) := (docs[..|docs| - 1], docs[|docs| - 1]);
      RebuiltHas(tok, front, p);
      assert docs == front + [last];
    }
  }

  /** An index in agreement with its table finds, for every term, exactly the rows that now have it
      in some column. */
  lemma SearchFindsExactly(tok: Tokenizer, docs: seq<Doc>, term: string)
    ensures Matches(Rebuilt(tok, docs), term) == set d | d in docs && HasTerm(tok, d, term) :: d.id
  {
    var index := Rebuilt(tok, docs);
    forall p | p in index && p.term == term ensures exists d :: d in docs && HasTerm(tok, d, term) && d.id == p.row {
      RebuiltHas(tok, docs, p);
      var d :| d in docs && p in Postings(tok, d);
      PostingsUpToAre(tok, d, |d.columns|, p);
    }
    forall d | d in docs && HasTerm(tok, d, term) ensures d.id in Matches(index, term) {
      var c :| 0 <= c < |d.columns| && term in tok(d.columns[c]);
      var p := Posting(d.id, c, term);
      PostingsUpToAre(tok, d, |d.columns|, p);
      RebuiltHas(tok, docs, p);
    }
  }

  /** No row's postings are another row's. */
  lemma RebuiltOfRow(tok: Tokenizer, docs: seq<Doc>, i: nat, p: Posting)
    requires DistinctIds(docs) && i < |docs| && p.row == docs[i].id
    ensures Rebuilt(tok, docs)[p] == Postings(tok, docs[i])[p]
  {
    RebuiltRemove(tok, docs, i);
    var rest := docs[..i] + docs[i + 1..];
    RebuiltHas(tok, rest, p);
    forall d | d in rest ensures p !in Postings(tok, d) {
      PostingsUpToAre(tok, d, |d.columns|, p);
      var j :| 0 <= j < |rest| && rest[j] == d;
      assert d == docs[if j < i then j else j + 1];
    }
  }
}
