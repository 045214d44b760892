/** The knowledge base: a table with one row per topic, and the full-text index kept beside it. */
module KnowledgeIndex {
  import opened Prelude
  import opened InvertedIndex

  datatype Entry = Entry(id: nat, topic: string, content: string, tags: string)

  /** `nextId` is above every id ever given out. */
  datatype Base = Base(rows: seq<Entry>, nextId: nat, index: Index)

  datatype Write = Write(topic: string, content: string, tags: string)

  function DocOf(e: Entry): Doc { Doc(e.id, [e.topic, e.content, e.tags]) }

  function TopicOf(e: Entry): string { e.topic }

  function Written(tok: Tokenizer, b: Base, w: Write): Base {
    match RowOf(TopicOf, b.rows, w.topic)
    case Some(i) =>
      var updated := b.rows[i].(content := w.content, tags := w.tags);
      Base(b.rows[i := updated], b.nextId,
           b.index - Postings(tok, DocOf(b.rows[i])) + Postings(tok, DocOf(updated)))
    case None =>
      var added := Entry(b.nextId, w.topic, w.content, w.tags);
      Base(b.rows + [added], b.nextId + 1, b.index + Postings(tok, DocOf(added)))
  }

  function WrittenAll(tok: Tokenizer, b: Base, ws: seq<Write>): Base {
    if |ws| == 0 then b else Written(tok, WrittenAll(tok, b, ws[..|ws| - 1]), ws[|ws| - 1])
  }

  // ---------------------------------------------------------------------
  // Agreement of index and table
  // ---------------------------------------------------------------------

  /** One row per topic, ids never reused, and the index is what rebuilding it would give. */
  ghost predicate Agrees(tok: Tokenizer, b: Base) {
    (forall i, j :: 0 <= i < j < |b.rows| ==> b.rows[i].topic != b.rows[j].topic && b.rows[i].id != b.rows[j].id) &&
    (forall i :: 0 <= i < |b.rows| ==> b.rows[i].id < b.nextId) &&
    b.index == Rebuilt(tok, Docs(DocOf, b.rows))
  }

  lemma WriteKeepsAgreement(tok: Tokenizer, b: Base, w: Write)
    requires Agrees(tok, b)
    ensures Agrees(tok, Written(tok, b, w))
  {
    hide Rebuilt, Postings;
    var r := Written(tok, b, w);
    match RowOf(TopicOf, b.rows, w.topic) {
      case Some(i) =>
        assert Docs(DocOf, r.rows) == Docs(DocOf, b.rows)[i := DocOf(r.rows[i])];
        RebuiltUpdate(tok, Docs(DocOf, b.rows), i, DocOf(r.rows[i]));
      case None =>
        assert Docs(DocOf, r.rows) == Docs(DocOf, b.rows) + [DocOf(r.rows[|b.rows|])];
        RebuiltOne(tok, Docs(DocOf, b.rows), DocOf(r.rows[|b.rows|]));
    }
  }

  /** However often topics are written and rewritten, the index kept by hand is the index rebuilt from
      the table, and topics stay unique. */
  lemma {:induction false} WritesKeepAgreement(tok: Tokenizer, b: Base, ws: seq<Write>)
    requires Agrees(tok, b)
    ensures Agrees(tok, WrittenAll(tok, b, ws))
  {
    if |ws| > 0 {
      WritesKeepAgreement(tok, b, ws[..|ws| - 1]);
      WriteKeepsAgreement(tok, WrittenAll(tok, b, ws[..|ws| - 1]), ws[|ws| - 1]);
    }
  }

  lemma TermOf(tok: Tokenizer, e: Entry, term: string)
    ensures HasTerm(tok, DocOf(e), term) <==>
            term in tok(e.topic) || term in tok(e.content) || term in tok(e.tags)
  {
    var columns := DocOf(e).columns;
    assert columns[0] == e.topic && columns[1] == e.content && columns[2] == e.tags;
  }

  lemma SearchOf(tok: Tokenizer, rows: seq<Entry>, term: string)
    ensures Matches(Rebuilt(tok, Docs(DocOf, rows)), term) ==
            set e | e in rows && (term in tok(e.topic) || term in tok(e.content) || term in tok(e.tags)) :: e.id
  {
    hide Rebuilt, HasTerm, Matches;
    var docs := Docs(DocOf, rows);
    SearchFindsExactly(tok, docs, term);
    forall e ensures HasTerm(tok, DocOf(e), term) <==>
              term in tok(e.topic) || term in tok(e.content) || term in tok(e.tags) {
      TermOf(tok, e, term);
    }
    forall e | e in rows ensures DocOf(e) in docs {
      var i :| 0 <= i < |rows| && rows[i] == e;
      assert docs[i] == DocOf(e);
    }
    assert forall d :: d in docs ==> exists e :: e in rows && d == DocOf(e);
  }

  /** So a one-term search after any writes finds exactly the entries whose current topic, content or
      tags contain the term: nothing overwritten, nothing missed. */
  lemma SearchIsCurrent(tok: Tokenizer, ws: seq<Write>, term: string)
    ensures var b := WrittenAll(tok, Base([], 0, multiset{}), ws);
            Matches(b.index, term) ==
            set e | e in b.rows && (term in tok(e.topic) || term in tok(e.content) || term in tok(e.tags)) :: e.id
  {
    WritesKeepAgreement(tok, Base([], 0, multiset{}), ws);
    SearchOf(tok, WrittenAll(tok, Base([], 0, multiset{}), ws).rows, term);
  }

  /** What the table holds for a topic. */
  function Held(rows: seq<Entry>, topic: string): Option<(string, string)> {
    match RowOf(TopicOf, rows, topic)
    case None => None
    case Some(i) => Some((rows[i].content, rows[i].tags))
  }

  /** The last of the writes to a topic. */
  function LastWrite(ws: seq<Write>, topic: string): Option<(string, string)> {
    if |ws| == 0 then None
    else if ws[|ws| - 1].topic == topic then Some((ws[|ws| - 1].content, ws[|ws| - 1].tags))
    else LastWrite(ws[..|ws| - 1], topic)
  }

  lemma HeldIs(tok: Tokenizer, b: Base, i: nat, topic: string)
    requires Agrees(tok, b) && i < |b.rows| && b.rows[i].topic == topic
    ensures Held(b.rows, topic) == Some((b.rows[i].content, b.rows[i].tags))
  {}

  lemma WriteHolds(tok: Tokenizer, b: Base, w: Write, topic: string)
    requires Agrees(tok, b)
    ensures Held(Written(tok, b, w).rows, topic) ==
            if topic == w.topic then Some((w.content, w.tags)) else Held(b.rows, topic)
  {
    hide Rebuilt, Postings, RowOf;
    var r := Written(tok, b, w);
    WriteKeepsAgreement(tok, b, w);
    hide Agrees;
    if topic == w.topic {
      HeldIs(tok, r,
             if RowOf(TopicOf, b.rows, topic).Some? then RowOf(TopicOf, b.rows, topic).value else |b.rows|, topic);
    } else if RowOf(TopicOf, b.rows, topic).Some? {
      HeldIs(tok, r, RowOf(TopicOf, b.rows, topic).value, topic);
    }
  }

  /** Each topic holds what was last written to it, and only written topics are held. */
  lemma {:induction false} LastWriteWins(tok: Tokenizer, ws: seq<Write>, topic: string)
    ensures Held(WrittenAll(tok, Base([], 0, multiset{}), ws).rows, topic) == LastWrite(ws, topic)
  {
    if |ws| > 0 {
      LastWriteWins(tok, ws[..|ws| - 1], topic);
      WritesKeepAgreement(tok, Base([], 0, multiset{}), ws[..|ws| - 1]);
      WriteHolds(tok, WrittenAll(tok, Base([], 0, multiset{}), ws[..|ws| - 1]), ws[|ws| - 1], topic);
    }
  }

  class KnowledgeBase {
    const tok: Tokenizer
    var rows: seq<Entry>
    var nextId: nat
    var index: Index

    ghost function View(): Base
      reads this
    {
      Base(rows, nextId, index)
    }

    ghost predicate Valid()
      reads this
    {
      Agrees(tok, View())
    }

    constructor (tokenizer: Tokenizer)
      ensures Valid() && tok == tokenizer && View() == Base([], 0, multiset{})
    {
      tok, rows, nextId, index := tokenizer, [], 0, multiset{};
    }

    method KnowledgeWrite(topic: string, content: string, tags: string)
      requires Valid()
      modifies this
      ensures Valid() && View() == Written(tok, old(View()), Write(topic, content, tags))
    {
      hide Rebuilt, Postings, Agrees, RowOf;
      WriteKeepsAgreement(tok, View(), Write(topic, content, tags));
      var existing := RowOf(TopicOf, rows, topic);
      if existing.Some? {
        var i := existing.value;
        var was := rows[i];
        rows := rows[i := was.(content := content, tags := tags)];
        index := index - Postings(tok, Doc(was.id, [topic, was.content, was.tags]));
        index := index + Postings(tok, Doc(was.id, [topic, content, tags]));
      } else {
        var id := nextId;
        rows := rows + [Entry(id, topic, content, tags)];
        nextId := nextId + 1;
        index := index + Postings(tok, Doc(id, [topic, content, tags]));
      }
    }
  }
}
