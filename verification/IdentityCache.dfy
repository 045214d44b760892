/** The resolver's in-process cache of channel identities: a map, and the list of its keys in
    insertion order, from which the oldest half is evicted when the cache is full. */
module IdentityCache {
  import opened Prelude

  type UserId = string

  datatype Key = Key(channel: string, identifier: string)

  const CACHE_MAX: nat := 256

  datatype Cache = Cache(entries: map<Key, UserId>, order: seq<Key>)

  predicate NoDuplicates(order: seq<Key>) {
    forall i, j :: 0 <= i < j < |order| ==> order[i] != order[j]
  }

  /** The order list holds exactly the map's keys, each once, and both are bounded. */
  ghost predicate WellFormed(c: Cache) {
    NoDuplicates(c.order) && (forall k :: k in c.entries <==> k in c.order) && |c.order| <= CACHE_MAX
  }

  lemma NoDuplicatesOne(order: seq<Key>, key: Key)
    ensures NoDuplicates(order + [key]) <==> NoDuplicates(order) && key !in order
  {
    var longer := order + [key];
    assert forall i :: 0 <= i < |order| ==> longer[i] == order[i];
    assert longer[|order|] == key;
  }

  lemma NoDuplicatesParts(a: seq<Key>, b: seq<Key>)
    requires NoDuplicates(a + b)
    ensures NoDuplicates(a) && NoDuplicates(b) && forall k :: k in a ==> k !in b
  {
    var whole := a + b;
    assert forall i :: 0 <= i < |a| ==> whole[i] == a[i];
    assert forall j :: 0 <= j < |b| ==> whole[|a| + j] == b[j];
  }

  function KeySet(order: seq<Key>): set<Key> { set k | k in order }

  lemma {:induction false} SizeOfKeys(order: seq<Key>)
    requires NoDuplicates(order)
    ensures |KeySet(order)| == |order|
  {
    if order != [] {
      var (front, last) := (order[..|order| - 1], order[|order| - 1]);
      SizeOfKeys(front);
      assert order == front + [last];
      assert KeySet(order) == KeySet(front) + {last} && last !in front;
    }
  }

  /** The map and the list have the same size, so the capacity test on the map bounds the list and
      the eviction's drain is in range. */
  lemma MapAndListAgree(c: Cache)
    requires WellFormed(c)
    ensures |c.entries| == |c.order|
  {
    SizeOfKeys(c.order);
    assert c.entries.Keys == KeySet(c.order);
    assert |c.entries| == |c.entries.Keys|;
  }

  function WithoutKey(order: seq<Key>, key: Key): seq<Key> {
    if order == [] then []
    else
      var (front, last) := (WithoutKey(order[..|order| - 1], key), order[|order| - 1]);
      if last != key then front + [last] else front
  }

  function Removed(c: Cache, key: Key): Cache { Cache(c.entries - {key}, WithoutKey(c.order, key)) }

  /** The oldest half dropped. */
  function Evicted(c: Cache): Cache
    requires |c.order| >= CACHE_MAX / 2
  {
    Cache(c.entries - KeySet(c.order[..CACHE_MAX / 2]), c.order[CACHE_MAX / 2..])
  }

  function Inserted(c: Cache, key: Key, user: UserId): Cache
    requires |c.order| >= |c.entries|
  {
    if key in c.entries then c.(entries := c.entries[key := user])
    else
      var room := if |c.entries| >= CACHE_MAX then Evicted(c) else c;
      Cache(room.entries[key := user], room.order + [key])
  }

  function WithoutUser(entries: map<Key, UserId>, order: seq<Key>, user: UserId): seq<Key> {
    if order == [] then []
    else
      var (front, last) := (WithoutUser(entries, order[..|order| - 1], user), order[|order| - 1]);
      if last in entries && entries[last] == user then front else front + [last]
  }

  /** The map without the user's entries whose keys are listed. */
  function WithoutListed(entries: map<Key, UserId>, order: seq<Key>, user: UserId): map<Key, UserId> {
    map k | k in entries && !(entries[k] == user && k in order) :: entries[k]
  }

  function Invalidated(c: Cache, user: UserId): Cache {
    Cache(WithoutListed(c.entries, c.order, user), WithoutUser(c.entries, c.order, user))
  }

  // ---------------------------------------------------------------------
  // What the operations do to a well-formed cache
  // ---------------------------------------------------------------------

  lemma {:induction false} WithoutKeyIs(order: seq<Key>, key: Key)
    ensures var r := WithoutKey(order, key);
            |r| <= |order| && (forall k :: k in r <==> k in order && k != key) &&
            (NoDuplicates(order) ==> NoDuplicates(r))
  {
    if order != [] {
      var (front, last) := (order[..|order| - 1], order[|order| - 1]);
      WithoutKeyIs(front, key);
      assert order == front + [last];
      NoDuplicatesOne(front, last);
      NoDuplicatesOne(WithoutKey(front, key), last);
    }
  }

  lemma {:induction false} WithoutUserIs(entries: map<Key, UserId>, order: seq<Key>, user: UserId)
    ensures var r := WithoutUser(entries, order, user);
            |r| <= |order| && (forall k :: k in r <==> k in order && !(k in entries && entries[k] == user)) &&
            (NoDuplicates(order) ==> NoDuplicates(r))
  {
    if order != [] {
      var (front, last) := (order[..|order| - 1], order[|order| - 1]);
      WithoutUserIs(entries, front, user);
      assert order == front + [last];
      NoDuplicatesOne(front, last);
      NoDuplicatesOne(WithoutUser(entries, front, user), last);
    }
  }

  lemma WithoutUserNone(entries: map<Key, UserId>, user: UserId)
    ensures WithoutUser(entries, [], user) == [] && WithoutListed(entries, [], user) == entries
  {}

  lemma ListedOnce(entries: map<Key, UserId>, order: seq<Key>, i: nat, user: UserId)
    requires NoDuplicates(order) && i < |order|
    ensures var left := WithoutListed(entries, order[..i], user);
            (order[i] in left <==> order[i] in entries) && (order[i] in left ==> left[order[i]] == entries[order[i]])
  {
    assert order[i] !in order[..i];
  }

  lemma WithoutUserOne(entries: map<Key, UserId>, order: seq<Key>, key: Key, user: UserId)
    ensures var drop := key in entries && entries[key] == user;
            WithoutUser(entries, order + [key], user) ==
              WithoutUser(entries, order, user) + (if drop then [] else [key]) &&
            WithoutListed(entries, order + [key], user) ==
              WithoutListed(entries, order, user) - (if drop then {key} else {})
  {
    assert (order + [key])[..|order|] == order;
  }

  lemma RemovedIs(c: Cache, key: Key)
    requires WellFormed(c)
    ensures WellFormed(Removed(c, key)) && Removed(c, key).entries == c.entries - {key}
  {
    WithoutKeyIs(c.order, key);
  }

  /** Invalidating a user drops every entry of that user and no other. */
  lemma InvalidatedIs(c: Cache, user: UserId)
    requires WellFormed(c)
    ensures WellFormed(Invalidated(c, user))
    ensures Invalidated(c, user).entries == map k | k in c.entries && c.entries[k] != user :: c.entries[k]
  {
    WithoutUserIs(c.entries, c.order, user);
  }

  /** Inserting keeps the cache well formed, so never over its bound: the key is mapped, and every
      other entry is kept, except that a full cache loses exactly the 128 keys inserted first. */
  lemma InsertedIs(c: Cache, key: Key, user: UserId)
    requires WellFormed(c)
    ensures |c.order| >= |c.entries| && WellFormed(Inserted(c, key, user))
    ensures var d := Inserted(c, key, user);
            d.entries ==
            (if key !in c.entries && |c.order| == CACHE_MAX
             then c.entries - KeySet(c.order[..CACHE_MAX / 2]) else c.entries)
            [key := user]
  {
    MapAndListAgree(c);
    if key !in c.entries {
      NoDuplicatesOne(c.order, key);
      if |c.entries| >= CACHE_MAX {
        var (oldest, rest) := (c.order[..CACHE_MAX / 2], c.order[CACHE_MAX / 2..]);
        assert c.order == oldest + rest;
        NoDuplicatesParts(oldest, rest);
        NoDuplicatesOne(rest, key);
      }
    }
  }

  // ---------------------------------------------------------------------
  // The order of the list
  // ---------------------------------------------------------------------

  ghost predicate Precedes(order: seq<Key>, a: Key, b: Key) {
    exists i, j :: 0 <= i < j < |order| && order[i] == a && order[j] == b
  }

  /** Every two keys of `kept` stand in `order` as they do in `kept`. */
  ghost predicate SameOrder(order: seq<Key>, kept: seq<Key>) {
    forall i, j :: 0 <= i < j < |kept| ==> Precedes(order, kept[i], kept[j])
  }

  lemma PrecedesOneMore(order: seq<Key>, a: Key, last: Key)
    ensures forall b :: Precedes(order, a, b) ==> Precedes(order + [last], a, b)
    ensures a in order ==> Precedes(order + [last], a, last)
  {
    var longer := order + [last];
    forall b | Precedes(order, a, b) ensures Precedes(longer, a, b) {
      var i, j :| 0 <= i < j < |order| && order[i] == a && order[j] == b;
      assert longer[i] == a && longer[j] == b;
    }
    if a in order {
      var i :| 0 <= i < |order| && order[i] == a;
      assert longer[i] == a && longer[|order|] == last;
    }
  }

  lemma SameOrderOneMore(order: seq<Key>, kept: seq<Key>, last: Key)
    requires SameOrder(order, kept) && forall k :: k in kept ==> k in order
    ensures SameOrder(order + [last], kept) && SameOrder(order + [last], kept + [last])
  {
    hide Precedes;
    var longer := kept + [last];
    forall i, j | 0 <= i < j < |longer| ensures Precedes(order + [last], longer[i], longer[j]) {
      assert longer[i] == kept[i] && kept[i] in kept;
      PrecedesOneMore(order, kept[i], last);
      assert j < |kept| ==> Precedes(order, kept[i], kept[j]);
    }
    assert forall i :: 0 <= i < |kept| ==> longer[i] == kept[i];
  }

  lemma {:induction false} WithoutKeyOrder(order: seq<Key>, key: Key)
    ensures SameOrder(order, WithoutKey(order, key))
  {
    if order != [] {
      var (front, last) := (order[..|order| - 1], order[|order| - 1]);
      WithoutKeyOrder(front, key);
      WithoutKeyIs(front, key);
      SameOrderOneMore(front, WithoutKey(front, key), last);
      assert order == front + [last];
      hide SameOrder;
    }
  }

  lemma {:induction false} WithoutUserOrder(entries: map<Key, UserId>, order: seq<Key>, user: UserId)
    ensures SameOrder(order, WithoutUser(entries, order, user))
  {
    if order != [] {
      var (front, last) := (order[..|order| - 1], order[|order| - 1]);
      WithoutUserOrder(entries, front, user);
      WithoutUserIs(entries, front, user);
      SameOrderOneMore(front, WithoutUser(entries, front, user), last);
      assert order == front + [last];
      hide SameOrder;
    }
  }

  /** The keys that stay keep their order, and a key that comes in goes behind them all. */
  ghost predicate OrderGrows(c: Cache, d: Cache) {
    forall i, j :: 0 <= i < j < |d.order| ==>
      d.order[i] in c.entries && (d.order[j] in c.entries ==> Precedes(c.order, d.order[i], d.order[j]))
  }

  lemma SameOrderGrows(c: Cache, d: Cache)
    requires WellFormed(c) && SameOrder(c.order, d.order) && forall k :: k in d.order ==> k in c.order
    ensures OrderGrows(c, d)
  {}

  lemma OperationsGrow(c: Cache, key: Key, user: UserId)
    requires WellFormed(c)
    ensures |c.order| >= |c.entries| && OrderGrows(c, c) && OrderGrows(c, Inserted(c, key, user))
    ensures OrderGrows(c, Removed(c, key)) && OrderGrows(c, Invalidated(c, user))
  {
    MapAndListAgree(c);
    WithoutKeyIs(c.order, key);
    WithoutKeyOrder(c.order, key);
    SameOrderGrows(c, Removed(c, key));
    WithoutUserIs(c.entries, c.order, user);
    WithoutUserOrder(c.entries, c.order, user);
    SameOrderGrows(c, Invalidated(c, user));
    InsertGrows(c, key, user);
  }

  lemma PlacesPrecede(order: seq<Key>, i: nat, j: nat)
    requires i < j < |order|
    ensures Precedes(order, order[i], order[j])
  {}

  /** A list extended, perhaps after dropping its front, by a key that is not in the map. */
  lemma ExtendedGrows(c: Cache, gone: nat, d: Cache, key: Key)
    requires WellFormed(c) && gone <= |c.order| && key !in c.entries && d.order == c.order[gone..] + [key]
    ensures OrderGrows(c, d)
  {
    forall i | 0 <= i < |c.order| ensures c.order[i] in c.entries {}
    hide Precedes, WellFormed;
    forall i, j | 0 <= i < j < |d.order|
      ensures d.order[i] in c.entries && (d.order[j] in c.entries ==> Precedes(c.order, d.order[i], d.order[j]))
    {
      assert d.order[i] == c.order[gone + i];
      if j < |d.order| - 1 {
        assert d.order[j] == c.order[gone + j];
        PlacesPrecede(c.order, gone + i, gone + j);
      }
    }
  }

  lemma UnchangedGrows(c: Cache, d: Cache)
    requires WellFormed(c) && d.order == c.order
    ensures OrderGrows(c, d)
  {
    forall i | 0 <= i < |c.order| ensures c.order[i] in c.entries {}
    hide Precedes, WellFormed;
    forall i, j | 0 <= i < j < |c.order| ensures Precedes(c.order, c.order[i], c.order[j]) {
      PlacesPrecede(c.order, i, j);
    }
  }

  lemma InsertGrows(c: Cache, key: Key, user: UserId)
    requires WellFormed(c) && |c.order| >= |c.entries|
    ensures OrderGrows(c, c) && OrderGrows(c, Inserted(c, key, user))
  {
    var d := Inserted(c, key, user);
    hide WellFormed, OrderGrows;
    UnchangedGrows(c, c);
    UnchangedGrows(c, d.(order := c.order));
    if key !in c.entries {
      ExtendedGrows(c, if |c.entries| >= CACHE_MAX then CACHE_MAX / 2 else 0, d, key);
    }
  }

  // ---------------------------------------------------------------------
  // The cache as the resolver updates it
  // ---------------------------------------------------------------------

  class IdentityMap {
    var cache: map<Key, UserId>
    /** Keys in insertion order, parallel to the map. */
    var order: seq<Key>

    ghost predicate Valid()
      reads this
    {
      WellFormed(View())
    }

    ghost function View(): Cache
      reads this
    {
      Cache(cache, order)
    }

    constructor ()
      ensures Valid() && View() == Cache(map[], [])
    {
      cache, order := map[], [];
    }

    method Remove(key: Key)
      requires Valid()
      modifies this
      ensures Valid() && View() == Removed(old(View()), key)
    {
      RemovedIs(View(), key);
      cache := cache - {key};
      var kept: seq<Key> := [];
      for i := 0 to |order|
        invariant order == old(order) && cache == old(cache) - {key}
        invariant kept == WithoutKey(order[..i], key)
      {
        assert order[..i + 1][..i] == order[..i];
        if order[i] != key { kept := kept + [order[i]]; }
      }
      assert order[..|order|] == order;
      order := kept;
    }

    method EvictOldest()
      requires |order| >= CACHE_MAX / 2
      modifies this
      ensures View() == Evicted(old(View()))
    {
      var toRemove := order[..CACHE_MAX / 2];
      order := order[CACHE_MAX / 2..];
      for i := 0 to |toRemove|
        invariant order == old(order)[CACHE_MAX / 2..]
        invariant cache == old(cache) - KeySet(toRemove[..i])
      {
        assert KeySet(toRemove[..i + 1]) == KeySet(toRemove[..i]) + {toRemove[i]};
        cache := cache - {toRemove[i]};
      }
      assert toRemove[..|toRemove|] == toRemove;
    }

    method Insert(key: Key, user: UserId)
      requires Valid()
      modifies this
      ensures |old(order)| >= |old(cache)|
      ensures Valid() && View() == Inserted(old(View()), key, user)
    {
      MapAndListAgree(View());
      InsertedIs(View(), key, user);
      if key in cache {
        cache := cache[key := user];
        return;
      }
      if |cache| >= CACHE_MAX { EvictOldest(); }
      order := order + [key];
      cache := cache[key := user];
    }

    /** Drops every entry of a user, walking the order list and removing from the map on the way. */
    method InvalidateUser(user: UserId)
      requires Valid()
      modifies this
      ensures Valid() && View() == Invalidated(old(View()), user)
    {
      InvalidatedIs(View(), user);
      hide WithoutUser, WithoutListed;
      WithoutUserNone(cache, user);
      assert order[..0] == [];
      var kept: seq<Key> := [];
      for i := 0 to |order|
        invariant order == old(order)
        invariant kept == WithoutUser(old(cache), order[..i], user)
        invariant cache == WithoutListed(old(cache), order[..i], user)
      {
        var k := order[i];
        assert order[..i + 1] == order[..i] + [k];
        WithoutUserOne(old(cache), order[..i], k, user);
        ListedOnce(old(cache), order, i, user);
        if k in cache && cache[k] == user {
          cache := cache - {k};
        } else {
          kept := kept + [k];
        }
      }
      assert order[..|order|] == order;
      order := kept;
    }
  }
}
