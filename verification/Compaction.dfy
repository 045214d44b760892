/** Compacting one session: the oldest turns are sent to a model, what it extracts is learned, and only
    then are the turns deleted. */
module Compaction {
  import opened Prelude
  import opened Text
  import opened RenderContext
  import opened ContextCache

  datatype Turn = Turn(id: nat, content: string)

  /** An element of the model's reply; a field that is missing or not a string is `None`. */
  datatype Fact = Fact(key: Option<string>, value: Option<string>, category: Option<string>)

  const COMPACT_THRESHOLD: nat := 40
  const COMPACT_BATCH: nat := 20
  const INFERRED_CONFIDENCE: real := 0.7

  function Oldest(turns: seq<Turn>): seq<Turn> {
    if |turns| <= COMPACT_BATCH then turns else turns[..COMPACT_BATCH]
  }

  function Ids(turns: seq<Turn>): set<nat> { set t | t in turns :: t.id }

  /** The turns whose ids are not among `ids`, in order. */
  function Without(turns: seq<Turn>, ids: set<nat>): seq<Turn> {
    if |turns| == 0 then []
    else
      var kept := Without(turns[..|turns| - 1], ids);
      if turns[|turns| - 1].id in ids then kept else kept + [turns[|turns| - 1]]
  }

  ghost predicate DistinctIds(turns: seq<Turn>) {
    forall i, j :: 0 <= i < j < |turns| ==> turns[i].id != turns[j].id
  }

  lemma {:induction false} WithoutConcat(a: seq<Turn>, b: seq<Turn>, ids: set<nat>)
    ensures Without(a + b, ids) == Without(a, ids) + Without(b, ids)
  {
    if |b| == 0 {
      assert a + b == a;
    } else {
      assert (a + b)[..|a + b| - 1] == a + b[..|b| - 1];
      WithoutConcat(a, b[..|b| - 1], ids);
    }
  }

  lemma {:induction false} WithoutNone(turns: seq<Turn>, ids: set<nat>)
    requires forall t :: t in turns ==> t.id !in ids
    ensures Without(turns, ids) == turns
  {
    if |turns| > 0 {
      WithoutNone(turns[..|turns| - 1], ids);
      assert turns == turns[..|turns| - 1] + [turns[|turns| - 1]];
    }
  }

  lemma {:induction false} WithoutAll(turns: seq<Turn>, ids: set<nat>)
    requires forall t :: t in turns ==> t.id in ids
    ensures Without(turns, ids) == []
  {
    if |turns| > 0 { WithoutAll(turns[..|turns| - 1], ids); }
  }

  lemma {:induction false} WithoutTwice(turns: seq<Turn>, a: set<nat>, b: set<nat>)
    ensures Without(Without(turns, a), b) == Without(turns, a + b)
  {
    if |turns| > 0 {
      var (front, last) := (turns[..|turns| - 1], turns[|turns| - 1]);
      WithoutTwice(front, a, b);
      WithoutConcat(Without(front, a), [last], b);
    }
  }

  lemma {:induction false} WithoutHas(turns: seq<Turn>, ids: set<nat>, t: Turn)
    ensures t in Without(turns, ids) <==> t in turns && t.id !in ids
  {
    if |turns| > 0 {
      WithoutHas(turns[..|turns| - 1], ids, t);
      assert turns == turns[..|turns| - 1] + [turns[|turns| - 1]];
    }
  }

  /** Deleting a prefix by its ids leaves the rest. */
  lemma WithoutPrefix(turns: seq<Turn>, n: nat)
    requires n <= |turns| && DistinctIds(turns)
    ensures Without(turns, Ids(turns[..n])) == turns[n..]
  {
    var ids := Ids(turns[..n]);
    assert turns == turns[..n] + turns[n..];
    WithoutConcat(turns[..n], turns[n..], ids);
    WithoutAll(turns[..n], ids);
    WithoutNone(turns[n..], ids);
  }

  // ---------------------------------------------------------------------
  // Reading the reply
  // ---------------------------------------------------------------------

  function LastOf(s: string, c: char): (r: Option<nat>)
    ensures r.Some? ==> r.value < |s| && s[r.value] == c && forall i :: r.value < i < |s| ==> s[i] != c
    ensures r.None? ==> c !in s
  {
    if |s| == 0 then None else if s[|s| - 1] == c then Some(|s| - 1) else LastOf(s[..|s| - 1], c)
  }

  function FirstOf(s: string, c: char, from: nat): (r: Option<nat>)
    requires from <= |s|
    ensures r.Some? ==> from <= r.value < |s| && s[r.value] == c && forall i :: from <= i < r.value ==> s[i] != c
    ensures r.None? ==> forall i :: from <= i < |s| ==> s[i] != c
    decreases |s| - from
  {
    if from == |s| then None else if s[from] == c then Some(from) else FirstOf(s, c, from + 1)
  }

  /** The array within a reply that may be wrapped in other text. */
  function JsonPart(reply: string): string {
    var raw := Trim(reply);
    match (FirstOf(raw, '[', 0), LastOf(raw, ']'))
    case (Some(s), Some(e)) => if e >= s then raw[s..e + 1] else raw
    case _ => raw
  }

  predicate IsSlice(raw: string, s: nat, e: nat, part: string) { s <= e < |raw| && part == raw[s..e + 1] }

  /** When brackets enclose anything in the reply, the part taken is bracketed and holds every bracketed
      part of the reply; otherwise the whole trimmed reply is taken. */
  lemma JsonPartIsOutermost(reply: string, i: nat, j: nat)
    requires var raw := Trim(reply); i <= j < |raw| && raw[i] == '[' && raw[j] == ']'
    ensures var (raw, part) := (Trim(reply), JsonPart(reply));
            part != [] && part[0] == '[' && part[|part| - 1] == ']' &&
            exists s: nat, e: nat :: s <= i && j <= e && IsSlice(raw, s, e, part)
  {
    hide Trim, FirstOf, LastOf;
    var raw := Trim(reply);
    var (s, e) := (FirstOf(raw, '[', 0), LastOf(raw, ']'));
    assert s.Some? && e.Some? && s.value <= i && j <= e.value;
    assert IsSlice(raw, s.value, e.value, JsonPart(reply));
  }

  function CategoryNamed(name: string): Category {
    if name == "instruction" then Instruction
    else if name == "preference" then Preference
    else if name == "fact" then Category.Fact
    else if name == "context" then Context
    else Category.Fact
  }

  function TextOr(o: Option<string>, default_: string): string { if o.Some? then o.value else default_ }

  /** Facts without a key or a value are passed over. */
  predicate Kept(f: Fact) { TextOr(f.key, "") != "" && TextOr(f.value, "") != "" }

  function KeptCount(facts: seq<Fact>, n: nat): nat
    requires n <= |facts|
  {
    if n == 0 then 0 else KeptCount(facts, n - 1) + if Kept(facts[n - 1]) then 1 else 0
  }

  /** The facts counted are those worth keeping. */
  lemma {:induction false} KeptCountIs(facts: seq<Fact>, n: nat)
    requires n <= |facts|
    ensures KeptCount(facts, n) == |set i | 0 <= i < n && Kept(facts[i])|
  {
    hide Kept;
    if n > 0 {
      KeptCountIs(facts, n - 1);
      var before := set i | 0 <= i < n - 1 && Kept(facts[i]);
      assert (set i | 0 <= i < n && Kept(facts[i])) == before + if Kept(facts[n - 1]) then {n - 1} else {};
    }
  }

  function KeyOf(session: UserId, f: Fact): RowKey {
    RowKey(session, CategoryNamed(TextOr(f.category, "fact")), TextOr(f.key, ""))
  }

  /** A fact is worth keeping when it has a key and a value; it is learned for the session under its key, in
      the category it names, and as a fact when it names none of the four. */
  lemma FactIs(session: UserId, f: Fact)
    ensures Kept(f) <==> f.key.Some? && f.key.value != "" && f.value.Some? && f.value.value != ""
    ensures Kept(f) ==> KeyOf(session, f).user == session && KeyOf(session, f).key == f.key.value
    ensures var c := KeyOf(session, f).category;
            (c == Instruction <==> f.category == Some("instruction")) &&
            (c == Preference <==> f.category == Some("preference")) && (c == Context <==> f.category == Some("context"))
  {
  }

  /** One fact handed to `learn`. */
  function LearnFact(t: Table, session: UserId, f: Fact): Table {
    if !Kept(f) || Refuses(t, KeyOf(session, f), INFERRED_CONFIDENCE) then t
    else Learned(t, KeyOf(session, f), TextOr(f.value, ""), INFERRED_CONFIDENCE)
  }

  /** The table after learning the first `n` facts, in order; `stores` says which calls of `learn` do not
      fail. */
  function AfterFacts(t: Table, session: UserId, facts: seq<Fact>, stores: nat -> bool, n: nat): Table
    requires n <= |facts|
  {
    if n == 0 then t
    else
      var before := AfterFacts(t, session, facts, stores, n - 1);
      if stores(n - 1) then LearnFact(before, session, facts[n - 1]) else before
  }

  /** What compaction adds to the table: rows of the session, held with the inferred confidence, and
      nothing known with more confidence is changed. */
  lemma {:induction false} FactsOnlyAdd(
      t: Table, session: UserId, facts: seq<Fact>, stores: nat -> bool, n: nat, k: RowKey)
    requires n <= |facts|
    ensures var r := AfterFacts(t, session, facts, stores, n);
            (k in t ==> k in r) &&
            (k in t && t[k].confidence > INFERRED_CONFIDENCE ==> r[k] == t[k]) &&
            (k in r && (k !in t || r[k] != t[k]) ==>
               k.user == session && r[k].confidence == INFERRED_CONFIDENCE &&
               exists i :: 0 <= i < n && Kept(facts[i]) && KeyOf(session, facts[i]) == k)
  {
    if n > 0 {
      FactsOnlyAdd(t, session, facts, stores, n - 1, k);
    }
  }

  /** Held with at least the confidence of what compaction learns. */
  predicate Known(t: Table, k: RowKey) { k in t && t[k].confidence >= INFERRED_CONFIDENCE }

  /** The `i`-th fact is kept under this key, and learning it succeeds. */
  predicate StoredAs(session: UserId, facts: seq<Fact>, stores: nat -> bool, i: nat, k: RowKey)
    requires i < |facts|
  {
    Kept(facts[i]) && stores(i) && KeyOf(session, facts[i]) == k
  }

  ghost predicate StoresSome(session: UserId, facts: seq<Fact>, stores: nat -> bool, n: nat, k: RowKey)
    requires n <= |facts|
  {
    exists i :: 0 <= i < n && StoredAs(session, facts, stores, i, k)
  }

  lemma StoresOneMore(session: UserId, facts: seq<Fact>, stores: nat -> bool, n: nat, k: RowKey)
    requires n < |facts|
    ensures StoresSome(session, facts, stores, n + 1, k) <==>
            StoresSome(session, facts, stores, n, k) || StoredAs(session, facts, stores, n, k)
  {}

  /** What is known after compaction: exactly what was, and the facts kept whose learning succeeded. */
  lemma {:induction false} FactsAreKnown(
      t: Table, session: UserId, facts: seq<Fact>, stores: nat -> bool, n: nat, k: RowKey)
    requires n <= |facts|
    ensures var r := AfterFacts(t, session, facts, stores, n);
            (Known(r, k) <==> Known(t, k) || StoresSome(session, facts, stores, n, k)) &&
            (k in r <==> k in t || StoresSome(session, facts, stores, n, k))
  {
    if n > 0 {
      FactsAreKnown(t, session, facts, stores, n - 1, k);
      StoresOneMore(session, facts, stores, n - 1, k);
      hide StoresSome, KeyOf, TextOr, CategoryNamed;
    }
  }

  ghost predicate LastStored(session: UserId, facts: seq<Fact>, stores: nat -> bool, n: nat, i: nat, k: RowKey)
    requires n <= |facts|
  {
    i < n && StoredAs(session, facts, stores, i, k) &&
    forall j :: i < j < n ==> !StoredAs(session, facts, stores, j, k)
  }

  lemma LastOneMore(session: UserId, facts: seq<Fact>, stores: nat -> bool, n: nat, k: RowKey)
    requires n < |facts|
    ensures StoredAs(session, facts, stores, n, k) ==> LastStored(session, facts, stores, n + 1, n, k)
    ensures !StoredAs(session, facts, stores, n, k) ==>
              forall i: nat :: LastStored(session, facts, stores, n, i, k) ==>
                LastStored(session, facts, stores, n + 1, i, k)
  {
    hide StoredAs;
  }

  /** What a row says: what it said, or the last fact learned. */
  ghost predicate RowIsLast(
      t: Table, session: UserId, facts: seq<Fact>, stores: nat -> bool, n: nat, k: RowKey, row: Row)
    requires n <= |facts|
  {
    if !StoresSome(session, facts, stores, n, k) || (k in t && t[k].confidence > INFERRED_CONFIDENCE)
    then k in t && row == t[k]
    else exists i: nat :: LastStored(session, facts, stores, n, i, k) && row == RowFrom(t, facts[i], k)
  }

  function RowFrom(t: Table, f: Fact, k: RowKey): Row {
    Row(TextOr(f.value, ""), INFERRED_CONFIDENCE, if k in t then t[k].expires else None)
  }

  /** What a row says after compaction: the last fact kept and learned under its key, or what it said
      before, if there is no such fact or the row was held with more confidence. */
  lemma {:induction false} RowsAreLastFacts(
      t: Table, session: UserId, facts: seq<Fact>, stores: nat -> bool, n: nat, k: RowKey)
    requires n <= |facts| && k in AfterFacts(t, session, facts, stores, n)
    ensures RowIsLast(t, session, facts, stores, n, k, AfterFacts(t, session, facts, stores, n)[k])
  {
    if n > 0 {
      var before := AfterFacts(t, session, facts, stores, n - 1);
      StoresOneMore(session, facts, stores, n - 1, k);
      LastOneMore(session, facts, stores, n - 1, k);
      FactsAreKnown(t, session, facts, stores, n - 1, k);
      FactsOnlyAdd(t, session, facts, stores, n - 1, k);
      hide StoresSome, LastStored, KeyOf, TextOr, Kept;
      if k in before { RowsAreLastFacts(t, session, facts, stores, n - 1, k); }
      OneMoreRow(t, session, facts, stores, n - 1, k);
    }
  }

  lemma OneMoreRow(t: Table, session: UserId, facts: seq<Fact>, stores: nat -> bool, n: nat, k: RowKey)
    requires n < |facts|
    requires var before := AfterFacts(t, session, facts, stores, n);
             var r := AfterFacts(t, session, facts, stores, n + 1);
             k in r && (k in before <==> k in t || StoresSome(session, facts, stores, n, k)) &&
             (k in before ==> RowIsLast(t, session, facts, stores, n, k, before[k]))
    requires StoresSome(session, facts, stores, n + 1, k) <==>
             StoresSome(session, facts, stores, n, k) || StoredAs(session, facts, stores, n, k)
    requires if StoredAs(session, facts, stores, n, k) then LastStored(session, facts, stores, n + 1, n, k)
             else forall i: nat :: LastStored(session, facts, stores, n, i, k) ==>
                    LastStored(session, facts, stores, n + 1, i, k)
    ensures RowIsLast(t, session, facts, stores, n + 1, k, AfterFacts(t, session, facts, stores, n + 1)[k])
  {
    hide StoresSome, LastStored, KeyOf, TextOr, Kept;
    if StoredAs(session, facts, stores, n, k) {
      assert LastStored(session, facts, stores, n + 1, n, k);
    } else {
      assert AfterFacts(t, session, facts, stores, n + 1)[k] == AfterFacts(t, session, facts, stores, n)[k];
    }
  }

  /** What one compaction leaves: the facts counted, the turns and the table. */
  datatype Outcome = Outcome(saved: nat, turns: seq<Turn>, table: Table)

  /** The facts of the model's reply, if the call succeeded and `parse` reads it. */
  function FactsOf(reply: Option<string>, parse: string -> Option<seq<Fact>>): Option<seq<Fact>> {
    if reply.Some? then parse(JsonPart(reply.value)) else None
  }

  /** Nothing happens below the threshold, or when the call or the parse fails; otherwise the facts are
      learned and the oldest 20 turns are gone - also when learning failed, and all facts worth keeping
      are counted as saved. */
  function Compacted(
      session: UserId, turns: seq<Turn>, t: Table, facts: Option<seq<Fact>>, stores: nat -> bool): Outcome
  {
    if |turns| < COMPACT_THRESHOLD || facts.None? then Outcome(0, turns, t)
    else Outcome(KeptCount(facts.value, |facts.value|), turns[COMPACT_BATCH..],
                 AfterFacts(t, session, facts.value, stores, |facts.value|))
  }

  /** A compaction that deletes its batch leaves every fact worth keeping known exactly when each was
      known before or was, perhaps through another fact of its key, learned without failure. */
  lemma DeletedBatchIsKnownExactly(session: UserId, turns: seq<Turn>, t: Table, facts: seq<Fact>, stores: nat -> bool)
    requires |turns| >= COMPACT_THRESHOLD
    ensures var r := Compacted(session, turns, t, Some(facts), stores);
            r.turns == turns[COMPACT_BATCH..] &&
            ((forall f :: f in facts && Kept(f) ==> Known(r.table, KeyOf(session, f))) <==>
             forall f :: f in facts && Kept(f) ==>
               Known(t, KeyOf(session, f)) || StoresSome(session, facts, stores, |facts|, KeyOf(session, f)))
  {
    hide Kept, KeyOf, Known, StoresSome, AfterFacts;
    forall f | f in facts
      ensures Known(AfterFacts(t, session, facts, stores, |facts|), KeyOf(session, f)) <==>
              Known(t, KeyOf(session, f)) || StoresSome(session, facts, stores, |facts|, KeyOf(session, f))
    {
      FactsAreKnown(t, session, facts, stores, |facts|, KeyOf(session, f));
    }
  }

  /** And some compactions do not: whatever new fact the reply consists of, when learning it fails it is
      nowhere in the table, while the turns it was drawn from are gone and it is counted as saved. */
  lemma FactLostWithItsTurns(session: UserId, turns: seq<Turn>, t: Table, f: Fact)
    requires |turns| >= COMPACT_THRESHOLD && Kept(f) && KeyOf(session, f) !in t
    ensures exists reply, parse, stores :: var r := Compacted(session, turns, t, FactsOf(reply, parse), stores);
              r.turns == turns[COMPACT_BATCH..] && r.saved == 1 && KeyOf(session, f) !in r.table
  {
    hide Kept, KeyOf, JsonPart;
    var (parse, stores) := ((_: string) => Some([f]), (_: nat) => false);
    var r := Compacted(session, turns, t, FactsOf(Some(""), parse), stores);
    assert AfterFacts(t, session, [f], stores, 0) == t && KeptCount([f], 0) == 0;
    assert r.turns == turns[COMPACT_BATCH..] && r.saved == 1 && r.table == t;
  }

  /** The conversation table's part for one session, and the memory manager. */
  class Session {
    const key: UserId
    const memory: MemoryManager
    /** In order of creation. */
    var turns: seq<Turn>

    ghost predicate Valid()
      reads this, memory
    {
      DistinctIds(turns) && memory.Valid()
    }

    constructor (session: UserId, manager: MemoryManager, history: seq<Turn>)
      requires DistinctIds(history) && manager.Valid()
      ensures Valid() && key == session && memory == manager && turns == history
    {
      key, memory, turns := session, manager, history;
    }

    method DeleteTurns(ids: set<nat>)
      requires Valid()
      modifies this
      ensures Valid() && turns == Without(old(turns), ids)
    {
      var kept: seq<Turn> := [];
      for i := 0 to |turns|
        invariant turns == old(turns) && kept == Without(turns[..i], ids)
      {
        assert turns[..i + 1][..i] == turns[..i];
        if turns[i].id !in ids { kept := kept + [turns[i]]; }
      }
      assert turns[..|turns|] == turns;
      DistinctWithout(turns, ids);
      turns := kept;
    }

    /** `reply` is the model's answer, if the call succeeds; `parse` reads a list of facts; `stores` says
        which calls of `learn` succeed. */
    method Compact(reply: Option<string>, parse: string -> Option<seq<Fact>>, stores: nat -> bool)
      returns (saved: nat)
      requires Valid()
      modifies this, memory
      ensures Valid()
      ensures Outcome(saved, turns, memory.memories) ==
              Compacted(key, old(turns), old(memory.memories), FactsOf(reply, parse), stores)
      ensures |old(turns)| < COMPACT_THRESHOLD || FactsOf(reply, parse).None? ==> memory.cache == old(memory.cache)
    {
      hide JsonPart, CategoryNamed, Without, TextOr, DistinctIds;
      saved := 0;
      if |turns| < COMPACT_THRESHOLD { return; }
      var oldTurns := Oldest(turns);
      if reply.None? { return; }
      var parsed := parse(JsonPart(reply.value));
      if parsed.None? { return; }
      var facts := parsed.value;
      for i := 0 to |facts|
        invariant Valid() && turns == old(turns) && saved == KeptCount(facts, i)
        invariant memory.memories == AfterFacts(old(memory.memories), key, facts, stores, i)
      {
        var fact := facts[i];
        var (k, value) := (TextOr(fact.key, ""), TextOr(fact.value, ""));
        if k == "" || value == "" { continue; }
        if stores(i) {
          memory.Learn(key, CategoryNamed(TextOr(fact.category, "fact")), k, value, INFERRED_CONFIDENCE);
        }
        saved := saved + 1;
      }
      WithoutPrefix(turns, COMPACT_BATCH);
      DeleteTurns(Ids(oldTurns));
    }
  }

  lemma {:induction false} DistinctWithout(turns: seq<Turn>, ids: set<nat>)
    requires DistinctIds(turns)
    ensures DistinctIds(Without(turns, ids))
  {
    if |turns| > 0 {
      var (front, last) := (turns[..|turns| - 1], turns[|turns| - 1]);
      DistinctWithout(front, ids);
      forall t | t in Without(front, ids) ensures t.id != last.id {
        WithoutHas(front, ids, t);
        var i :| 0 <= i < |front| && front[i] == t;
        assert turns[i] == t && turns[|turns| - 1] == last;
      }
    }
  }
}
