/** The full-text index over user memories, where overwriting a memory un-indexes the new text instead
    of the old. */
module MemoryIndex {
  import opened Prelude
  import opened InvertedIndex
  import M = ContextCache

  /** A row of the memory table with its row id, by which the index knows it. */
  datatype Entry = Entry(id: nat, k: M.RowKey, value: string, confidence: real, expires: Option<int>)

  datatype Store = Store(rows: seq<Entry>, nextId: nat, index: Index)

  function DocOf(e: Entry): Doc { Doc(e.id, [e.k.key, e.value]) }

  function KeyOf(e: Entry): M.RowKey { e.k }

  /** `learn`: the postings taken away are those of the new value. */
  function Learned(tok: Tokenizer, s: Store, k: M.RowKey, value: string, confidence: real): Store {
    match RowOf(KeyOf, s.rows, k)
    case Some(i) =>
      if confidence < s.rows[i].confidence then s
      else
        var updated := s.rows[i].(value := value, confidence := confidence);
        var doc := DocOf(updated);
        Store(s.rows[i := updated], s.nextId, s.index - Postings(tok, doc) + Postings(tok, doc))
    case None =>
      var added := Entry(s.nextId, k, value, confidence, None);
      Store(s.rows + [added], s.nextId + 1, s.index + Postings(tok, DocOf(added)))
  }

  function Forgotten(tok: Tokenizer, s: Store, k: M.RowKey): Store {
    match RowOf(KeyOf, s.rows, k)
    case Some(i) =>
      Store(s.rows[..i] + s.rows[i + 1..], s.nextId, s.index - Postings(tok, DocOf(s.rows[i])))
    case None => s
  }

  ghost predicate TableOk(s: Store) {
    (forall i, j :: 0 <= i < j < |s.rows| ==> s.rows[i].k != s.rows[j].k && s.rows[i].id != s.rows[j].id) &&
    (forall i :: 0 <= i < |s.rows| ==> s.rows[i].id < s.nextId)
  }

  ghost predicate Agrees(tok: Tokenizer, s: Store) { TableOk(s) && s.index == Rebuilt(tok, Docs(DocOf, s.rows)) }

  // ---------------------------------------------------------------------
  // The table beside the index
  // ---------------------------------------------------------------------

  /** The rows are those of a memory table. */
  ghost predicate Shows(rows: seq<Entry>, t: M.Table) {
    (forall i :: 0 <= i < |rows| ==> ShowsRow(rows[i], t)) &&
    forall k :: k in t ==> HasKey(rows, k)
  }

  ghost predicate HasKey(rows: seq<Entry>, k: M.RowKey) { exists i :: 0 <= i < |rows| && rows[i].k == k }

  lemma KeyAt(rows: seq<Entry>, i: nat)
    requires i < |rows|
    ensures HasKey(rows, rows[i].k)
  {}

  lemma WhereKey(rows: seq<Entry>, k: M.RowKey) returns (i: nat)
    requires HasKey(rows, k)
    ensures i < |rows| && rows[i].k == k
  {
    i :| 0 <= i < |rows| && rows[i].k == k;
  }

  predicate ShowsRow(e: Entry, t: M.Table) { e.k in t && t[e.k] == M.Row(e.value, e.confidence, e.expires) }

  /** To the table alone, `learn` and `forget` do here what they do in the memory manager. */
  lemma TableIsManagers(tok: Tokenizer, s: Store, t: M.Table, k: M.RowKey, value: string, confidence: real)
    requires TableOk(s) && Shows(s.rows, t)
    ensures Shows(Learned(tok, s, k, value, confidence).rows,
                  if M.Refuses(t, k, confidence) then t else M.Learned(t, k, value, confidence))
    ensures Shows(Forgotten(tok, s, k).rows, t - {k})
  {
    hide Postings, RowOf;
    match RowOf(KeyOf, s.rows, k) {
      case Some(i) =>
        assert ShowsRow(s.rows[i], t);
        UpdateShows(s, t, i, value, confidence);
        RemovalShows(s, t, i);
      case None =>
        var added := Entry(s.nextId, k, value, confidence, None);
        assert k !in t;
        forall j | j in t.Keys ensures HasKey(s.rows + [added], j) {
          var i := WhereKey(s.rows, j);
          KeyAt(s.rows + [added], i);
        }
        KeyAt(s.rows + [added], |s.rows|);
        assert t - {k} == t;
    }
  }

  lemma UpdateShows(s: Store, t: M.Table, i: nat, value: string, confidence: real)
    requires TableOk(s) && Shows(s.rows, t) && i < |s.rows|
    ensures Shows(s.rows[i := s.rows[i].(value := value, confidence := confidence)],
                  M.Learned(t, s.rows[i].k, value, confidence))
  {
    hide HasKey;
    var rows := s.rows[i := s.rows[i].(value := value, confidence := confidence)];
    var r := M.Learned(t, s.rows[i].k, value, confidence);
    assert ShowsRow(s.rows[i], t);
    forall j | 0 <= j < |rows| ensures ShowsRow(rows[j], r) { assert ShowsRow(s.rows[j], t); }
    KeyAt(s.rows, i);
    forall k | k in r ensures HasKey(rows, k) {
      var j := WhereKey(s.rows, k);
      KeyAt(rows, j);
    }
  }

  lemma RemovalShows(s: Store, t: M.Table, i: nat)
    requires TableOk(s) && Shows(s.rows, t) && i < |s.rows|
    ensures Shows(s.rows[..i] + s.rows[i + 1..], t - {s.rows[i].k})
  {
    hide HasKey;
    var (rows, left) := (s.rows[..i] + s.rows[i + 1..], t - {s.rows[i].k});
    forall j | 0 <= j < |rows| ensures ShowsRow(rows[j], left) {
      var was := if j < i then j else j + 1;
      assert rows[j] == s.rows[was] && ShowsRow(s.rows[was], t);
    }
    forall k | k in left ensures HasKey(rows, k) {
      var j := WhereKey(s.rows, k);
      KeyAt(rows, if j < i then j else j - 1);
    }
  }

  // ---------------------------------------------------------------------
  // Counting the postings of one row
  // ---------------------------------------------------------------------

  lemma {:induction false} TaggedCount(terms: seq<string>, row: nat, column: nat, p: Posting)
    ensures multiset(Tagged(terms, row, column))[p] ==
            if p.row == row && p.column == column then multiset(terms)[p.term] else 0
  {
    if |terms| > 0 {
      var (front, last) := (terms[..|terms| - 1], terms[|terms| - 1]);
      TaggedCount(front, row, column, p);
      assert terms == front + [last];
      assert Tagged(terms, row, column) == Tagged(front, row, column) + [Posting(row, column, last)];
    }
  }

  /** How often a posting occurs for a row: its key is column 0, its value column 1. */
  lemma PostingCount(tok: Tokenizer, e: Entry, p: Posting)
    ensures Postings(tok, DocOf(e))[p] ==
            if p.row != e.id then 0
            else if p.column == 0 then multiset(tok(e.k.key))[p.term]
            else if p.column == 1 then multiset(tok(e.value))[p.term]
            else 0
  {
    var d := DocOf(e);
    assert PostingsUpTo(tok, d, 1) == PostingsUpTo(tok, d, 0) + multiset(Tagged(tok(e.k.key), e.id, 0));
    TaggedCount(tok(e.k.key), e.id, 0, p);
    TaggedCount(tok(e.value), e.id, 1, p);
  }

  // ---------------------------------------------------------------------
  // When learning keeps the index right
  // ---------------------------------------------------------------------

  /** The index after overwriting row `i`, against the index it should be. */
  lemma OverwriteCount(tok: Tokenizer, s: Store, i: nat, e: Entry, p: Posting)
    requires Agrees(tok, s) && i < |s.rows| && e.id == s.rows[i].id && e.k == s.rows[i].k
    ensures var (old_, new_) := (Postings(tok, DocOf(s.rows[i]))[p], Postings(tok, DocOf(e))[p]);
            (s.index - Postings(tok, DocOf(e)) + Postings(tok, DocOf(e)))[p] ==
              (if p.row == e.id then (if old_ > new_ then old_ else new_) else s.index[p]) &&
            Rebuilt(tok, Docs(DocOf, s.rows[i := e]))[p] == (if p.row == e.id then new_ else s.index[p])
  {
    hide Rebuilt, Postings;
    var docs := Docs(DocOf, s.rows);
    assert Docs(DocOf, s.rows[i := e]) == docs[i := DocOf(e)];
    RebuiltUpdate(tok, docs, i, DocOf(e));
    PostingCount(tok, e, p);
    PostingCount(tok, s.rows[i], p);
    if p.row == e.id { RebuiltOfRow(tok, docs, i, p); }
  }

  /** Overwriting a memory leaves the index right exactly when every term of the old value occurs at
      least as often in the new one. */
  lemma OverwriteAgreesExactly(tok: Tokenizer, s: Store, i: nat, e: Entry)
    requires Agrees(tok, s) && i < |s.rows| && e.id == s.rows[i].id && e.k == s.rows[i].k
    ensures s.index - Postings(tok, DocOf(e)) + Postings(tok, DocOf(e)) ==
            Rebuilt(tok, Docs(DocOf, s.rows[i := e])) <==>
            multiset(tok(s.rows[i].value)) <= multiset(tok(e.value))
  {
    hide Rebuilt, Postings, Agrees;
    var (was, now) := (multiset(tok(s.rows[i].value)), multiset(tok(e.value)));
    var kept := s.index - Postings(tok, DocOf(e)) + Postings(tok, DocOf(e));
    var right := Rebuilt(tok, Docs(DocOf, s.rows[i := e]));
    forall p ensures PostingCounts(tok, s, i, e, p, kept, right) {
      OverwriteCount(tok, s, i, e, p);
      PostingCount(tok, e, p);
      PostingCount(tok, s.rows[i], p);
    }
    if was <= now {
      forall p ensures kept[p] == right[p] { assert PostingCounts(tok, s, i, e, p, kept, right); }
    } else {
      var term :| was[term] > now[term];
      assert PostingCounts(tok, s, i, e, Posting(e.id, 1, term), kept, right);
    }
  }

  ghost predicate PostingCounts(tok: Tokenizer, s: Store, i: nat, e: Entry, p: Posting, kept: Index, right: Index)
    requires i < |s.rows|
  {
    var (was, now) := (multiset(tok(s.rows[i].value))[p.term], multiset(tok(e.value))[p.term]);
    if p.row == e.id && p.column == 1 then kept[p] == (if was > now then was else now) && right[p] == now
    else kept[p] == right[p]
  }

  /** `learn` keeps the index in agreement with the table exactly when it inserts, is refused for its
      lower confidence, or replaces a value none of whose terms the new value has fewer of. */
  lemma LearnAgreesExactly(tok: Tokenizer, s: Store, k: M.RowKey, value: string, confidence: real)
    requires Agrees(tok, s)
    ensures Agrees(tok, Learned(tok, s, k, value, confidence)) <==>
            match RowOf(KeyOf, s.rows, k)
            case None => true
            case Some(i) =>
              confidence < s.rows[i].confidence || multiset(tok(s.rows[i].value)) <= multiset(tok(value))
  {
    hide Rebuilt, Postings;
    var r := Learned(tok, s, k, value, confidence);
    match RowOf(KeyOf, s.rows, k) {
      case Some(i) =>
        OverwriteAgreesExactly(tok, s, i, s.rows[i].(value := value, confidence := confidence));
      case None =>
        assert Docs(DocOf, r.rows) == Docs(DocOf, s.rows) + [DocOf(r.rows[|s.rows|])];
        RebuiltOne(tok, Docs(DocOf, s.rows), DocOf(r.rows[|s.rows|]));
    }
  }

  /** What the mistake costs: after an overwrite, a search finds exactly what it should, and besides the
      overwritten row for every term of its old value. */
  lemma StaleTermsStay(tok: Tokenizer, s: Store, k: M.RowKey, value: string, confidence: real, term: string)
    requires Agrees(tok, s) && RowOf(KeyOf, s.rows, k).Some? &&
             !(confidence < s.rows[RowOf(KeyOf, s.rows, k).value].confidence)
    ensures var (r, was) := (Learned(tok, s, k, value, confidence), s.rows[RowOf(KeyOf, s.rows, k).value]);
            Matches(r.index, term) ==
            Matches(Rebuilt(tok, Docs(DocOf, r.rows)), term) + (if term in tok(was.value) then {was.id} else {})
  {
    hide Rebuilt, Postings, Agrees;
    var i := RowOf(KeyOf, s.rows, k).value;
    var e := s.rows[i].(value := value, confidence := confidence);
    var r := Learned(tok, s, k, value, confidence);
    var right := Rebuilt(tok, Docs(DocOf, r.rows));
    forall p: Posting | p.term == term
      ensures p in r.index <==> p in right || (p.row == e.id && p.column == 1 && term in tok(s.rows[i].value))
    {
      OverwriteCount(tok, s, i, e, p);
      PostingCount(tok, e, p);
      PostingCount(tok, s.rows[i], p);
    }
    if term in tok(s.rows[i].value) { assert Posting(e.id, 1, term) in r.index; }
  }

  lemma OwnTerms(tok: Tokenizer, s: Store, i: nat, term: string)
    requires TableOk(s) && i < |s.rows|
    ensures s.rows[i].id in Matches(Rebuilt(tok, Docs(DocOf, s.rows)), term) <==>
            term in tok(s.rows[i].k.key) || term in tok(s.rows[i].value)
  {
    hide Rebuilt, Matches;
    var docs := Docs(DocOf, s.rows);
    SearchFindsExactly(tok, docs, term);
    assert HasTerm(tok, docs[i], term) <==> term in tok(s.rows[i].k.key) || term in tok(s.rows[i].value) by {
      assert docs[i].columns[0] == s.rows[i].k.key && docs[i].columns[1] == s.rows[i].value;
    }
    assert docs[i] in docs;
    forall d | d in docs && d.id == s.rows[i].id ensures d == docs[i] {
      var j :| 0 <= j < |docs| && docs[j] == d;
      assert docs[j].id == s.rows[j].id;
    }
  }

  /** Every search after `learn` finds what it should exactly when the memory is new, is refused, or has
      every term of its old value in its new value or in its key. */
  lemma SearchesAgreeExactly(tok: Tokenizer, s: Store, k: M.RowKey, value: string, confidence: real)
    requires Agrees(tok, s)
    ensures var r := Learned(tok, s, k, value, confidence);
            (forall term :: Matches(r.index, term) == Matches(Rebuilt(tok, Docs(DocOf, r.rows)), term)) <==>
            match RowOf(KeyOf, s.rows, k)
            case None => true
            case Some(i) =>
              confidence < s.rows[i].confidence ||
              forall term :: term in tok(s.rows[i].value) ==> term in tok(value) || term in tok(k.key)
  {
    hide Rebuilt, Postings, Matches;
    var r := Learned(tok, s, k, value, confidence);
    var row := RowOf(KeyOf, s.rows, k);
    if row.None? || confidence < s.rows[row.value].confidence {
      LearnAgreesExactly(tok, s, k, value, confidence);
    } else {
      var i := row.value;
      forall term
        ensures Matches(r.index, term) == Matches(Rebuilt(tok, Docs(DocOf, r.rows)), term) <==>
                (term in tok(s.rows[i].value) ==> term in tok(value) || term in tok(k.key))
      {
        StaleTermsStay(tok, s, k, value, confidence, term);
        OwnTerms(tok, r, i, term);
      }
    }
  }

  /** `forget` un-indexes the value the row has, so it keeps agreement. */
  lemma ForgetKeepsAgreement(tok: Tokenizer, s: Store, k: M.RowKey)
    requires Agrees(tok, s)
    ensures Agrees(tok, Forgotten(tok, s, k))
    ensures RowOf(KeyOf, Forgotten(tok, s, k).rows, k).None?
  {
    hide Rebuilt, Postings;
    if RowOf(KeyOf, s.rows, k).Some? {
      var i := RowOf(KeyOf, s.rows, k).value;
      var left := s.rows[..i] + s.rows[i + 1..];
      RestOk(s, i);
      RestIndex(tok, s, i);
      hide RowOf, TableOk, Docs;
      assert Forgotten(tok, s, k).rows == left;
    }
  }

  lemma RestIndex(tok: Tokenizer, s: Store, i: nat)
    requires i < |s.rows| && s.index == Rebuilt(tok, Docs(DocOf, s.rows))
    ensures Rebuilt(tok, Docs(DocOf, s.rows[..i] + s.rows[i + 1..])) == s.index - Postings(tok, DocOf(s.rows[i]))
  {
    hide Rebuilt, Postings;
    assert Docs(DocOf, s.rows[..i] + s.rows[i + 1..]) == Docs(DocOf, s.rows)[..i] + Docs(DocOf, s.rows)[i + 1..];
    RebuiltRemove(tok, Docs(DocOf, s.rows), i);
  }

  /** The table without one of its rows. */
  lemma RestOk(s: Store, i: nat)
    requires TableOk(s) && i < |s.rows|
    ensures TableOk(s.(rows := s.rows[..i] + s.rows[i + 1..]))
    ensures RowOf(KeyOf, s.rows[..i] + s.rows[i + 1..], s.rows[i].k).None?
  {
    hide RowOf;
    var left := s.rows[..i] + s.rows[i + 1..];
    assert forall j :: 0 <= j < |left| ==> left[j] == s.rows[if j < i then j else j + 1];
  }

  /** The table and its index as the manager updates them. */
  class IndexedMemories {
    const tok: Tokenizer
    var rows: seq<Entry>
    var nextId: nat
    var index: Index

    ghost function View(): Store
      reads this
    {
      Store(rows, nextId, index)
    }

    constructor (tokenizer: Tokenizer)
      ensures tok == tokenizer && View() == Store([], 0, multiset{}) && Agrees(tok, View())
    {
      tok, rows, nextId, index := tokenizer, [], 0, multiset{};
    }

    method Learn(k: M.RowKey, value: string, confidence: real)
      modifies this
      ensures View() == Learned(tok, old(View()), k, value, confidence)
    {
      hide Postings, RowOf;
      var existing := RowOf(KeyOf, rows, k);
      if existing.Some? {
        var i := existing.value;
        var was := rows[i];
        if confidence < was.confidence { return; }
        rows := rows[i := was.(value := value, confidence := confidence)];
        index := index - Postings(tok, Doc(was.id, [k.key, value]));
        index := index + Postings(tok, Doc(was.id, [k.key, value]));
      } else {
        var id := nextId;
        rows := rows + [Entry(id, k, value, confidence, None)];
        nextId := nextId + 1;
        index := index + Postings(tok, Doc(id, [k.key, value]));
      }
    }

    method Forget(k: M.RowKey) returns (found: bool)
      modifies this
      ensures View() == Forgotten(tok, old(View()), k) && found == RowOf(KeyOf, old(rows), k).Some?
    {
      hide Postings, RowOf;
      var row := RowOf(KeyOf, rows, k);
      found := row.Some?;
      if found {
        var i := row.value;
        index := index - Postings(tok, Doc(rows[i].id, [k.key, rows[i].value]));
        rows := rows[..i] + rows[i + 1..];
      }
    }
  }
}
