/** A user's stored memories, and the cache of contexts rendered from them. */
module ContextCache {
  import opened Prelude
  import opened RenderContext
  import Text
  import Timestamp
  import Schedule

  type UserId = string

  /** The unique key of the memory table. */
  datatype RowKey = RowKey(user: UserId, category: Category, key: string)

  /** `expires` is an instant, in nanoseconds as every instant here. */
  datatype Row = Row(value: string, confidence: real, expires: Option<int>)

  type Table = map<RowKey, Row>

  datatype UserContext = UserContext(user: UserId, rendered: string, memoryCount: nat, builtAt: int)

  const CACHE_TTL_SECS: int := 300
  const MAX_CACHE_ENTRIES: nat := 256
  const NANOS: int := 1_000_000_000

  // ---------------------------------------------------------------------
  // The table
  // ---------------------------------------------------------------------

  /** Learning keeps the row that was stored with the higher confidence. */
  predicate Refuses(t: Table, k: RowKey, confidence: real) { k in t && confidence < t[k].confidence }

  /** A row learned over another keeps that row's expiry; a new one has none. */
  function Learned(t: Table, k: RowKey, value: string, confidence: real): Table {
    t[k := Row(value, confidence, if k in t then t[k].expires else None)]
  }

  /** The query's test, `expires_at > now`, compares texts. */
  predicate Live(r: Row, now: int) { r.expires.None? || Timestamp.TextBefore(now, r.expires.value) }

  /** With the clock in the years 0 to 9999, a row is live until it expires in time - and never, when
      that is in the year 10000 or later. */
  lemma LiveInTime(r: Row, now: int)
    requires Timestamp.FourDigitYear(now)
    ensures Live(r, now) <==> r.expires.None? || now < r.expires.value < Schedule.YEAR_10000
  {
    if r.expires.Some? { Timestamp.TextOrderExactly(r.expires.value, now); }
  }

  function LiveRows(t: Table, user: UserId, now: int): Table {
    map k | k in t && k.user == user && Live(t[k], now) :: t[k]
  }

  // ---------------------------------------------------------------------
  // Contexts
  // ---------------------------------------------------------------------

  predicate Before(rows: Table, a: RowKey, b: RowKey)
    requires a in rows && b in rows
  {
    Rank(a.category) < Rank(b.category) ||
    (a.category == b.category && rows[a].confidence >= rows[b].confidence)
  }

  /** An order in which the query may deliver its rows: each once, by category, then by falling
      confidence; ties come in any order. */
  ghost predicate IsQueryOrder(rows: Table, order: seq<RowKey>) {
    (forall i, j :: 0 <= i < j < |order| ==> order[i] != order[j]) &&
    (forall k :: k in rows <==> k in order) &&
    (forall i, j :: 0 <= i < j < |order| ==> Before(rows, order[i], order[j]))
  }

  /** Instructions come first, then preferences, then facts, and within a category the more confident. */
  lemma QueryOrderIs(rows: Table, order: seq<RowKey>, i: nat, j: nat)
    requires IsQueryOrder(rows, order) && i < j < |order|
    ensures order[j].category == Instruction ==> order[i].category == Instruction
    ensures order[j].category == Preference ==> order[i].category in {Instruction, Preference}
    ensures order[j].category == Fact ==> order[i].category != Context
    ensures order[i].category == order[j].category ==> rows[order[i]].confidence >= rows[order[j]].confidence
  {
    assert Before(rows, order[i], order[j]);
  }

  function MemoriesOf(rows: Table, order: seq<RowKey>): (ms: seq<Memory>)
    requires forall k :: k in order ==> k in rows
    ensures |ms| == |order|
    ensures forall i :: 0 <= i < |order| ==> ms[i] == Memory(order[i].category, order[i].key, rows[order[i]].value)
  {
    seq(|order|, i requires 0 <= i < |order| => Memory(order[i].category, order[i].key, rows[order[i]].value))
  }

  function ContextOf(t: Table, user: UserId, now: int, order: seq<RowKey>, builtAt: int): UserContext
    requires forall k :: k in order ==> k in LiveRows(t, user, now)
  {
    UserContext(user, Rendered(MemoriesOf(LiveRows(t, user, now), order)), |order|, builtAt)
  }

  /** `c` is a rendering of the user's rows in `t` that are live at `now`. */
  ghost predicate IsContextAt(c: UserContext, t: Table, user: UserId, now: int) {
    exists order ::
      IsQueryOrder(LiveRows(t, user, now), order) && c == ContextOf(t, user, now, order, c.builtAt)
  }

  /** Whole seconds, rounded toward zero. */
  function WholeSeconds(nanos: int): int { if nanos >= 0 then nanos / NANOS else -(-nanos / NANOS) }

  /** Whether a cached context may still be used. */
  predicate Usable(c: UserContext, now: int) { WholeSeconds(now - c.builtAt) < CACHE_TTL_SECS }

  lemma UsableMeans(c: UserContext, now: int)
    ensures Usable(c, now) <==> now - c.builtAt < 300_000_000_000
  {
    var age := now - c.builtAt;
    if age >= 0 { assert age == age / 1_000_000_000 * 1_000_000_000 + age % 1_000_000_000; }
  }

  /** However large the table, a context is at most 6015 bytes: the query's order is category order. */
  lemma ContextsAreSmall(c: UserContext, t: Table, user: UserId, now: int)
    requires IsContextAt(c, t, user, now)
    ensures Text.Bytes(c.rendered) <= 6015
  {
    hide Rendered, Text.Bytes, LiveRows;
    var rows := LiveRows(t, user, now);
    var order :| IsQueryOrder(rows, order) && c == ContextOf(t, user, now, order, c.builtAt);
    var memories := MemoriesOf(rows, order);
    forall i, j | 0 <= i < j < |memories| ensures Rank(memories[i].category) <= Rank(memories[j].category) {
      assert Before(rows, order[i], order[j]);
    }
    SizeIsBounded(memories);
  }

  /** Some row of the user, that expires before the year 10000, expires after one of two instants and
      not after the other. */
  ghost predicate ExpiresBetween(t: Table, user: UserId, a: int, b: int) {
    exists k :: k in t && k.user == user && t[k].expires.Some? && Separates(t[k].expires.value, a, b)
  }

  predicate Separates(expiry: int, a: int, b: int) {
    expiry < Schedule.YEAR_10000 && (a < expiry <= b || b < expiry <= a)
  }

  /** Some row of the user is live at one of two instants and not at the other. */
  ghost predicate LivenessChanges(t: Table, user: UserId, a: int, b: int) {
    exists k :: k in t && k.user == user && Live(t[k], a) != Live(t[k], b)
  }

  lemma LiveRowsDiffer(t: Table, user: UserId, a: int, b: int)
    ensures LiveRows(t, user, a) == LiveRows(t, user, b) <==> !LivenessChanges(t, user, a, b)
  {
    hide Live;
    if k :| k in t && k.user == user && Live(t[k], a) != Live(t[k], b) {
      assert k in LiveRows(t, user, a) <==> k !in LiveRows(t, user, b);
    }
  }

  /** With clocks in the years 0 to 9999, the rows live at two instants are the same exactly when no row
      of the user expires between them. */
  lemma LiveRowsChangeExactly(t: Table, user: UserId, a: int, b: int)
    requires Timestamp.FourDigitYear(a) && Timestamp.FourDigitYear(b)
    ensures LiveRows(t, user, a) == LiveRows(t, user, b) <==> !ExpiresBetween(t, user, a, b)
  {
    Timestamp.FourDigitYears(a);
    Timestamp.FourDigitYears(b);
    forall k | k in t && k.user == user
      ensures Live(t[k], a) != Live(t[k], b) <==> t[k].expires.Some? && Separates(t[k].expires.value, a, b)
    {
      LiveInTime(t[k], a);
      LiveInTime(t[k], b);
    }
    hide Live, LiveRows, Separates;
    LiveRowsDiffer(t, user, a, b);
  }

  // ---------------------------------------------------------------------
  // The cache
  // ---------------------------------------------------------------------

  type Cache = map<UserId, UserContext>

  ghost predicate IsOldest(cache: Cache, user: UserId) {
    user in cache && forall u :: u in cache ==> cache[user].builtAt <= cache[u].builtAt
  }

  /** Storing a context, after evicting `oldest` from a full cache. */
  function Stored(cache: Cache, c: UserContext, oldest: UserId): Cache {
    (if |cache| >= MAX_CACHE_ENTRIES then cache - {oldest} else cache)[c.user := c]
  }

  lemma SizeWithout(cache: Cache, user: UserId)
    requires user in cache
    ensures |cache - {user}| == |cache| - 1
  {
    var rest := cache - {user};
    assert rest.Keys == cache.Keys - {user};
    assert |rest.Keys| == |rest| && |cache.Keys| == |cache|;
  }

  lemma SizeWith(cache: Cache, user: UserId, c: UserContext)
    ensures |cache[user := c]| <= |cache| + 1
    ensures |cache - {user}| <= |cache|
  {
    var more := cache[user := c];
    assert more.Keys == cache.Keys + {user} && |more.Keys| == |more| && |cache.Keys| == |cache|;
    if user in cache { SizeWithout(cache, user); } else { assert cache - {user} == cache; }
  }

  /** The cache never outgrows its bound, and of the other users at most the oldest is dropped. */
  lemma StoredIs(cache: Cache, c: UserContext, oldest: UserId)
    requires |cache| <= MAX_CACHE_ENTRIES && (|cache| == MAX_CACHE_ENTRIES ==> oldest in cache)
    ensures |Stored(cache, c, oldest)| <= MAX_CACHE_ENTRIES
    ensures forall u :: u in Stored(cache, c, oldest) && u != c.user ==>
              u in cache && Stored(cache, c, oldest)[u] == cache[u]
    ensures forall u :: u in cache && u != oldest ==> u in Stored(cache, c, oldest)
    ensures c.user in Stored(cache, c, oldest) && Stored(cache, c, oldest)[c.user] == c
    ensures Stored(cache, c, oldest).Keys ==
            (if |cache| >= MAX_CACHE_ENTRIES then cache.Keys - {oldest} else cache.Keys) + {c.user}
  {
    if |cache| == MAX_CACHE_ENTRIES { SizeWithout(cache, oldest); }
    SizeWith(if |cache| >= MAX_CACHE_ENTRIES then cache - {oldest} else cache, c.user, c);
  }

  /** The manager's state and its operations, each run on its own. */
  class MemoryManager {
    var memories: Table
    var cache: Cache

    ghost predicate Valid()
      reads this
    {
      |cache| <= MAX_CACHE_ENTRIES
    }

    constructor (t: Table)
      ensures Valid() && memories == t && cache == map[]
    {
      memories, cache := t, map[];
    }

    method Learn(user: UserId, category: Category, key: string, value: string, confidence: real)
      requires Valid()
      modifies this
      ensures Valid()
      ensures var k := RowKey(user, category, key);
              if Refuses(old(memories), k, confidence) then memories == old(memories) && cache == old(cache)
              else memories == Learned(old(memories), k, value, confidence) && cache == old(cache) - {user}
      ensures var k := RowKey(user, category, key);
              (k in old(memories) && confidence < old(memories)[k].confidence ==> memories == old(memories)) &&
              (k in old(memories) && confidence >= old(memories)[k].confidence ==>
                 memories == old(memories)[k := Row(value, confidence, old(memories)[k].expires)]) &&
              (k !in old(memories) ==> memories == old(memories)[k := Row(value, confidence, None)])
    {
      var k := RowKey(user, category, key);
      if k in memories {
        if confidence < memories[k].confidence { return; }
        memories := memories[k := memories[k].(value := value, confidence := confidence)];
      } else {
        memories := memories[k := Row(value, confidence, None)];
      }
      InvalidateCache(user);
    }

    /** False when there was nothing to forget. */
    method Forget(user: UserId, category: Category, key: string) returns (found: bool)
      requires Valid()
      modifies this
      ensures Valid() && found == (RowKey(user, category, key) in old(memories))
      ensures memories == old(memories) - {RowKey(user, category, key)}
      ensures cache == if found then old(cache) - {user} else old(cache)
    {
      var k := RowKey(user, category, key);
      found := k in memories;
      if found {
        memories := memories - {k};
        InvalidateCache(user);
      }
    }

    method InvalidateCache(user: UserId)
      requires Valid()
      modifies this`cache
      ensures Valid() && cache == old(cache) - {user}
    {
      if user in cache { SizeWithout(cache, user); }
      cache := cache - {user};
    }

    method GetCached(user: UserId, now: int) returns (c: Option<UserContext>)
      ensures c == if user in cache && Usable(cache[user], now) then Some(cache[user]) else None
    {
      if user !in cache { return None; }
      var age := WholeSeconds(now - cache[user].builtAt);
      if age < CACHE_TTL_SECS { c := Some(cache[user]); } else { c := None; }
    }

    /** A key whose context was built first. */
    method OldestKey() returns (oldest: UserId)
      requires cache != map[]
      ensures IsOldest(cache, oldest)
    {
      var rest := cache.Keys;
      oldest :| oldest in rest;
      rest := rest - {oldest};
      while rest != {}
        invariant rest <= cache.Keys && oldest in cache
        invariant forall u :: u in cache && u !in rest ==> cache[oldest].builtAt <= cache[u].builtAt
        decreases rest
      {
        var u :| u in rest;
        if cache[u].builtAt < cache[oldest].builtAt { oldest := u; }
        rest := rest - {u};
      }
    }

    /** The clock is read three times, and `order` is the order in which the query delivers the rows
        live at the second reading. */
    method BuildUserContext(user: UserId, cachedNow: int, queryNow: int, builtAt: int, order: seq<RowKey>)
      returns (c: UserContext)
      requires Valid() && IsQueryOrder(LiveRows(memories, user, queryNow), order)
      modifies this`cache
      ensures Valid()
      ensures user in old(cache) && Usable(old(cache)[user], cachedNow) ==> c == old(cache)[user] && cache == old(cache)
      ensures !(user in old(cache) && Usable(old(cache)[user], cachedNow)) ==>
                c.user == user && c.memoryCount == |order| && c.builtAt == builtAt &&
                c.rendered == Rendered(MemoriesOf(LiveRows(memories, user, queryNow), order)) &&
                exists oldest :: (|old(cache)| == MAX_CACHE_ENTRIES ==> IsOldest(old(cache), oldest)) &&
                                 cache == Stored(old(cache), c, oldest)
    {
      hide LiveRows, Usable, Rendered;
      var cached := GetCached(user, cachedNow);
      if cached.Some? { return cached.value; }
      var memoriesFound := MemoriesOf(LiveRows(memories, user, queryNow), order);
      var rendered := RenderMemories(memoriesFound);
      c := UserContext(user, rendered, |memoriesFound|, builtAt);
      var oldest: UserId := "";
      if |cache| >= MAX_CACHE_ENTRIES { oldest := OldestKey(); }
      StoredIs(cache, c, oldest);
      assert Stored(old(cache), c, oldest) ==
             (if |cache| >= MAX_CACHE_ENTRIES then cache - {oldest} else cache)[user := c];
      if |cache| >= MAX_CACHE_ENTRIES { cache := cache - {oldest}; }
      cache := cache[user := c];
    }
  }
}
