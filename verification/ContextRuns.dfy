/** The memory manager under all interleavings of its threads.

    `learn` and `forget` hold the database lock over their table update and the cache invalidation
    that follows; building a context reads the cache before taking the lock, and holds it from its
    query until the context is stored.  Clock readings are arbitrary. */
module ContextRuns {
  import opened Prelude
  import opened ContextCache
  import Timestamp

  type Thread = nat

  /** Where a thread is.  The states marked (locked) hold the database lock. */
  datatype Pc =
    | Idle
    | Missed(user: UserId)                                  // the cache had nothing usable
    | Querying(user: UserId)                                // (locked)
    | Storing(c: UserContext, queriedAt: int)               // (locked) context built, not yet cached
    | Learning(k: RowKey, value: string, confidence: real)
    | LearnLocked(k: RowKey, value: string, confidence: real)  // (locked)
    | Forgetting(k: RowKey)
    | ForgetLocked(k: RowKey)                               // (locked)
    | Changed(user: UserId)                                 // (locked) table changed, cache not yet

  predicate Locked(pc: Pc) {
    pc.Querying? || pc.Storing? || pc.LearnLocked? || pc.ForgetLocked? || pc.Changed?
  }

  /** `queriedAt` records, for each cached context, the clock reading of the query behind it. */
  datatype State = State(
    table: Table, cache: Cache, queriedAt: map<UserId, int>, lock: Option<Thread>, pcs: map<Thread, Pc>)

  datatype Action =
    | StartBuild(t: Thread, user: UserId, now: int)
    | StartLearn(t: Thread, k: RowKey, value: string, confidence: real)
    | StartForget(t: Thread, k: RowKey)
    | Acquire(t: Thread)
    | Query(t: Thread, now: int, order: seq<RowKey>, builtAt: int)
    | Store(t: Thread, oldest: UserId)
    | Update(t: Thread)
    | Invalidate(t: Thread)

  function Initial(table: Table): State { State(table, map[], map[], None, map[]) }

  function PcOf(s: State, t: Thread): Pc { if t in s.pcs then s.pcs[t] else Idle }

  function At(s: State, t: Thread, pc: Pc): State { s.(pcs := s.pcs[t := pc]) }

  function Release(s: State, t: Thread): State { At(s, t, Idle).(lock := None) }

  /** What a build answers from the cache, if anything. */
  function HitOf(s: State, user: UserId, now: int): Option<UserContext> {
    if user in s.cache && Usable(s.cache[user], now) then Some(s.cache[user]) else None
  }

  function StoreStep(s: State, t: Thread, c: UserContext, queriedAt: int, oldest: UserId): State {
    var kept := if |s.cache| >= MAX_CACHE_ENTRIES then s.queriedAt - {oldest} else s.queriedAt;
    Release(s.(cache := Stored(s.cache, c, oldest), queriedAt := kept[c.user := queriedAt]), t)
  }

  /** `learn` past its lock: refuse and return, or write the row and go on to the cache. */
  function LearnStep(s: State, t: Thread, k: RowKey, value: string, confidence: real): State {
    if Refuses(s.table, k, confidence) then Release(s, t)
    else At(s.(table := Learned(s.table, k, value, confidence)), t, Changed(k.user))
  }

  function ForgetStep(s: State, t: Thread, k: RowKey): State {
    if k in s.table then At(s.(table := s.table - {k}), t, Changed(k.user)) else Release(s, t)
  }

  function InvalidateStep(s: State, t: Thread, user: UserId): State {
    Release(s.(cache := s.cache - {user}, queriedAt := s.queriedAt - {user}), t)
  }

  ghost predicate Step(s: State, a: Action, r: State) {
    match a
    case StartBuild(t, user, now) =>
      PcOf(s, t) == Idle && r == if HitOf(s, user, now).Some? then s else At(s, t, Missed(user))
    case StartLearn(t, k, value, confidence) => PcOf(s, t) == Idle && r == At(s, t, Learning(k, value, confidence))
    case StartForget(t, k) => PcOf(s, t) == Idle && r == At(s, t, Forgetting(k))
    case Acquire(t) =>
      s.lock.None? &&
      (match PcOf(s, t)
       case Missed(user) => r == At(s, t, Querying(user)).(lock := Some(t))
       case Learning(k, value, confidence) => r == At(s, t, LearnLocked(k, value, confidence)).(lock := Some(t))
       case Forgetting(k) => r == At(s, t, ForgetLocked(k)).(lock := Some(t))
       case _ => false)
    case Query(t, now, order, builtAt) =>
      PcOf(s, t).Querying? &&
      var user := PcOf(s, t).user;
      IsQueryOrder(LiveRows(s.table, user, now), order) &&
      r == At(s, t, Storing(ContextOf(s.table, user, now, order, builtAt), now))
    case Store(t, oldest) =>
      PcOf(s, t).Storing? && (|s.cache| >= MAX_CACHE_ENTRIES ==> IsOldest(s.cache, oldest)) &&
      r == StoreStep(s, t, PcOf(s, t).c, PcOf(s, t).queriedAt, oldest)
    case Update(t) =>
      (match PcOf(s, t)
       case LearnLocked(k, value, confidence) => r == LearnStep(s, t, k, value, confidence)
       case ForgetLocked(k) => r == ForgetStep(s, t, k)
       case _ => false)
    case Invalidate(t) => PcOf(s, t).Changed? && r == InvalidateStep(s, t, PcOf(s, t).user)
  }

  // ---------------------------------------------------------------------
  // What every step keeps
  // ---------------------------------------------------------------------

  /** Some thread has changed this user's rows and not yet dropped the cached context. */
  predicate Changing(s: State, user: UserId) { s.lock.Some? && PcOf(s, s.lock.value) == Changed(user) }

  ghost predicate Coherent(s: State) {
    s.cache.Keys == s.queriedAt.Keys && |s.cache| <= MAX_CACHE_ENTRIES &&
    forall u :: u in s.cache ==> Changing(s, u) || IsContextAt(s.cache[u], s.table, u, s.queriedAt[u])
  }

  ghost predicate LockOk(s: State) {
    (forall t :: t in s.pcs && Locked(s.pcs[t]) ==> s.lock == Some(t)) &&
    (s.lock.Some? ==> Locked(PcOf(s, s.lock.value)))
  }

  ghost predicate PendingOk(s: State, pc: Pc) {
    pc.Storing? ==> IsContextAt(pc.c, s.table, pc.c.user, pc.queriedAt)
  }

  ghost predicate Inv(s: State) {
    LockOk(s) && Coherent(s) && (s.lock.Some? ==> PendingOk(s, PcOf(s, s.lock.value)))
  }

  lemma MoveKeepsLock(s: State, t: Thread, pc: Pc)
    requires LockOk(s) && s.lock == Some(t)
    ensures Locked(pc) ==> LockOk(At(s, t, pc))
    ensures LockOk(Release(s, t))
  {}

  /** The rows of one user do not show in another user's context. */
  lemma OtherUsersRows(c: UserContext, s: Table, r: Table, user: UserId, now: int)
    requires forall k: RowKey :: k.user == user ==> (k in s <==> k in r) && (k in s ==> s[k] == r[k])
    requires IsContextAt(c, s, user, now)
    ensures IsContextAt(c, r, user, now)
  {
    assert LiveRows(s, user, now) == LiveRows(r, user, now);
  }

  lemma ChangeStep(s: State, t: Thread, table: Table, user: UserId)
    requires Inv(s) && s.lock == Some(t) && !PcOf(s, t).Changed?
    requires forall k: RowKey :: k.user != user ==>
               (k in s.table <==> k in table) && (k in table ==> s.table[k] == table[k])
    ensures Inv(At(s.(table := table), t, Changed(user)))
  {
    var r := At(s.(table := table), t, Changed(user));
    MoveKeepsLock(s, t, Changed(user));
    forall u | u in r.cache && u != user ensures IsContextAt(r.cache[u], table, u, r.queriedAt[u]) {
      OtherUsersRows(s.cache[u], s.table, table, u, s.queriedAt[u]);
    }
  }

  lemma InvalidateKeepsInv(s: State, t: Thread)
    requires Inv(s) && s.lock == Some(t) && PcOf(s, t).Changed?
    ensures Inv(InvalidateStep(s, t, PcOf(s, t).user))
  {
    MoveKeepsLock(s, t, Idle);
    SizeAfterRemoval(s.cache, PcOf(s, t).user);
  }

  lemma SizeAfterRemoval(cache: Cache, user: UserId)
    ensures |cache - {user}| <= |cache|
  {
    SizeWith(cache, user, UserContext("", "", 0, 0));
  }

  /** Every cached context renders the rows of the table that were live when it was queried. */
  ghost predicate AllCurrent(cache: Cache, queriedAt: map<UserId, int>, table: Table) {
    cache.Keys == queriedAt.Keys && forall u :: u in cache ==> IsContextAt(cache[u], table, u, queriedAt[u])
  }

  lemma StoreCurrent(cache: Cache, queriedAt: map<UserId, int>, table: Table, c: UserContext, now: int, oldest: UserId)
    requires AllCurrent(cache, queriedAt, table) && IsContextAt(c, table, c.user, now) && |cache| <= MAX_CACHE_ENTRIES
    requires |cache| == MAX_CACHE_ENTRIES ==> oldest in cache
    ensures var kept := if |cache| >= MAX_CACHE_ENTRIES then queriedAt - {oldest} else queriedAt;
            AllCurrent(Stored(cache, c, oldest), kept[c.user := now], table)
  {
    hide IsContextAt;
    StoredIs(cache, c, oldest);
  }

  lemma StoreCoheres(s: State, t: Thread, oldest: UserId)
    requires Inv(s) && s.lock == Some(t) && PcOf(s, t).Storing?
    requires |s.cache| >= MAX_CACHE_ENTRIES ==> IsOldest(s.cache, oldest)
    ensures Coherent(StoreStep(s, t, PcOf(s, t).c, PcOf(s, t).queriedAt, oldest))
  {
    hide IsContextAt, LockOk, Stored, Locked;
    StoredIs(s.cache, PcOf(s, t).c, oldest);
    assert AllCurrent(s.cache, s.queriedAt, s.table);
    StoreCurrent(s.cache, s.queriedAt, s.table, PcOf(s, t).c, PcOf(s, t).queriedAt, oldest);
  }

  lemma StoreKeepsInv(s: State, t: Thread, oldest: UserId)
    requires Inv(s) && s.lock == Some(t) && PcOf(s, t).Storing?
    requires |s.cache| >= MAX_CACHE_ENTRIES ==> IsOldest(s.cache, oldest)
    ensures Inv(StoreStep(s, t, PcOf(s, t).c, PcOf(s, t).queriedAt, oldest))
  {
    hide Coherent, IsContextAt, IsOldest, Stored;
    StoreCoheres(s, t, oldest);
    MoveKeepsLock(s, t, Idle);
  }

  lemma QueryKeepsInv(s: State, t: Thread, now: int, order: seq<RowKey>, builtAt: int)
    requires Inv(s) && s.lock == Some(t) && PcOf(s, t).Querying?
    requires IsQueryOrder(LiveRows(s.table, PcOf(s, t).user, now), order)
    ensures Inv(At(s, t, Storing(ContextOf(s.table, PcOf(s, t).user, now, order, builtAt), now)))
  {
    MoveKeepsLock(s, t, Storing(ContextOf(s.table, PcOf(s, t).user, now, order, builtAt), now));
  }

  lemma UnlockedKeepsInv(s: State, t: Thread, pc: Pc)
    requires Inv(s) && !Locked(PcOf(s, t)) && !Locked(pc)
    ensures Inv(At(s, t, pc))
  {}

  lemma AcquireKeepsInv(s: State, t: Thread, pc: Pc)
    requires Inv(s) && s.lock.None? && Locked(pc) && !pc.Storing? && !pc.Changed?
    ensures Inv(At(s, t, pc).(lock := Some(t)))
  {}

  lemma ReleaseKeepsInv(s: State, t: Thread)
    requires Inv(s) && s.lock == Some(t) && !PcOf(s, t).Changed?
    ensures Inv(Release(s, t))
  {
    MoveKeepsLock(s, t, Idle);
  }

  lemma UpdateKeepsInv(s: State, t: Thread, r: State)
    requires Inv(s) && s.lock == Some(t) && Step(s, Update(t), r)
    ensures Inv(r)
  {
    hide Inv, LiveRows, ContextOf, IsQueryOrder, Stored;
    if r.table == s.table && r == Release(s, t) {
      ReleaseKeepsInv(s, t);
    } else {
      ChangeStep(s, t, r.table, PcOf(s, t).k.user);
    }
  }

  /** Only the thread holding the lock is in a locked state. */
  lemma HoldsLock(s: State, t: Thread)
    requires Inv(s) && Locked(PcOf(s, t))
    ensures s.lock == Some(t)
  {}

  lemma StepKeepsInv(s: State, a: Action, r: State)
    requires Inv(s) && Step(s, a, r)
    ensures Inv(r)
  {
    hide Inv, StoreStep, LearnStep, ForgetStep, InvalidateStep, IsQueryOrder, IsOldest;
    if Locked(PcOf(s, a.t)) { HoldsLock(s, a.t); }
    match a {
      case StartBuild(t, user, _) => UnlockedKeepsInv(s, t, Missed(user));
      case StartLearn(t, k, value, confidence) => UnlockedKeepsInv(s, t, Learning(k, value, confidence));
      case StartForget(t, k) => UnlockedKeepsInv(s, t, Forgetting(k));
      case Acquire(t) => AcquireKeepsInv(s, t, PcOf(r, t));
      case Query(t, now, order, builtAt) => QueryKeepsInv(s, t, now, order, builtAt);
      case Store(t, oldest) => StoreKeepsInv(s, t, oldest);
      case Update(t) =>
        UpdateKeepsInv(s, t, r);
      case Invalidate(t) => InvalidateKeepsInv(s, t);
    }
  }

  // ---------------------------------------------------------------------
  // An operation that nothing disturbs
  // ---------------------------------------------------------------------

  predicate Quiet(s: State, t: Thread) { s.lock.None? && PcOf(s, t) == Idle }

  /** Starting an operation, when nobody holds the lock, and taking it. */
  lemma BuildStarts(s: State, t: Thread, user: UserId, now: int)
    requires Quiet(s, t) && HitOf(s, user, now).None?
    ensures Step(s, StartBuild(t, user, now), At(s, t, Missed(user)))
    ensures Step(At(s, t, Missed(user)), Acquire(t), At(At(s, t, Missed(user)), t, Querying(user)).(lock := Some(t)))
  {
    hide HitOf;
  }

  lemma LearnStarts(s: State, t: Thread, k: RowKey, value: string, confidence: real)
    requires Quiet(s, t)
    ensures var started := At(s, t, Learning(k, value, confidence));
            Step(s, StartLearn(t, k, value, confidence), started) &&
            Step(started, Acquire(t), At(started, t, LearnLocked(k, value, confidence)).(lock := Some(t)))
  {}

  lemma ForgetStarts(s: State, t: Thread, k: RowKey)
    requires Quiet(s, t)
    ensures var started := At(s, t, Forgetting(k));
            Step(s, StartForget(t, k), started) &&
            Step(started, Acquire(t), At(started, t, ForgetLocked(k)).(lock := Some(t)))
  {}

  /** What a learner makes of the table. */
  lemma LearnUpdates(s: State, t: Thread, k: RowKey, value: string, confidence: real)
    requires PcOf(s, t) == LearnLocked(k, value, confidence)
    ensures var r := LearnStep(s, t, k, value, confidence);
            Step(s, Update(t), r) &&
            if Refuses(s.table, k, confidence) then r == Release(s, t)
            else r.table == Learned(s.table, k, value, confidence) && r.cache == s.cache &&
                 PcOf(r, t) == Changed(k.user)
  {
    hide Refuses, Learned;
  }

  /** Ending a change. */
  lemma Invalidates(s: State, t: Thread, user: UserId)
    requires PcOf(s, t) == Changed(user)
    ensures Step(s, Invalidate(t), InvalidateStep(s, t, user))
  {}

  /** A build finds the user's cached context exactly while it is under 300 seconds old, and then answers it and
      changes nothing. */
  lemma UndisturbedHit(s: State, t: Thread, user: UserId, now: int)
    requires PcOf(s, t) == Idle
    ensures HitOf(s, user, now).Some? <==> user in s.cache && now - s.cache[user].builtAt < 300_000_000_000
    ensures HitOf(s, user, now).Some? ==> HitOf(s, user, now).value == s.cache[user]
    ensures Step(s, StartBuild(t, user, now), s) <== HitOf(s, user, now).Some?
  {
    if user in s.cache { UsableMeans(s.cache[user], now); }
    hide Usable;
  }

  /** A build that misses, taken step by step, stores the context the manager stores. */
  lemma UndisturbedBuild(s: State, t: Thread, user: UserId, now: int, queryNow: int, order: seq<RowKey>,
      builtAt: int, oldest: UserId) returns (missed: State, locked: State, built: State, done: State)
    requires Quiet(s, t) && HitOf(s, user, now).None? && IsQueryOrder(LiveRows(s.table, user, queryNow), order)
    requires |s.cache| >= MAX_CACHE_ENTRIES ==> IsOldest(s.cache, oldest)
    ensures Step(s, StartBuild(t, user, now), missed) && Step(missed, Acquire(t), locked)
    ensures Step(locked, Query(t, queryNow, order, builtAt), built) && Step(built, Store(t, oldest), done)
    ensures Quiet(done, t) && done.table == s.table
    ensures done.cache == Stored(s.cache, ContextOf(s.table, user, queryNow, order, builtAt), oldest)
  {
    assert forall k :: k in order ==> k in LiveRows(s.table, user, queryNow);
    BuildStarts(s, t, user, now);
    hide LiveRows, IsQueryOrder, IsOldest, Stored, HitOf, ContextOf;
    missed := At(s, t, Missed(user));
    locked := At(missed, t, Querying(user)).(lock := Some(t));
    built := At(locked, t, Storing(ContextOf(s.table, user, queryNow, order, builtAt), queryNow));
    done := StoreStep(built, t, PcOf(built, t).c, queryNow, oldest);
  }

  /** Learning, taken step by step, does what the manager does: nothing when it is refused, and otherwise
      writes the row and drops the user's context. */
  lemma UndisturbedLearn(s: State, t: Thread, k: RowKey, value: string, confidence: real)
    returns (started: State, locked: State, written: State, done: State)
    requires Quiet(s, t)
    ensures Step(s, StartLearn(t, k, value, confidence), started) && Step(started, Acquire(t), locked)
    ensures Step(locked, Update(t), written)
    ensures if Refuses(s.table, k, confidence) then done == written && done.table == s.table && done.cache == s.cache
            else Step(written, Invalidate(t), done) && done.table == Learned(s.table, k, value, confidence) &&
                 done.cache == s.cache - {k.user}
    ensures Quiet(done, t)
  {
    LearnStarts(s, t, k, value, confidence);
    hide Refuses, Learned, Step;
    started := At(s, t, Learning(k, value, confidence));
    locked := At(started, t, LearnLocked(k, value, confidence)).(lock := Some(t));
    LearnUpdates(locked, t, k, value, confidence);
    hide LearnStep;
    written := LearnStep(locked, t, k, value, confidence);
    if !Refuses(s.table, k, confidence) { Invalidates(written, t, k.user); }
    done := if Refuses(s.table, k, confidence) then written else InvalidateStep(written, t, k.user);
  }

  /** So does forgetting: nothing when there is no row, and otherwise the row and the context go. */
  lemma UndisturbedForget(s: State, t: Thread, k: RowKey)
    returns (started: State, locked: State, written: State, done: State)
    requires Quiet(s, t)
    ensures Step(s, StartForget(t, k), started) && Step(started, Acquire(t), locked) && Step(locked, Update(t), written)
    ensures if k !in s.table then done == written && done.table == s.table && done.cache == s.cache
            else Step(written, Invalidate(t), done) && done.table == s.table - {k} && done.cache == s.cache - {k.user}
    ensures Quiet(done, t)
  {
    ForgetStarts(s, t, k);
    started := At(s, t, Forgetting(k));
    locked := At(started, t, ForgetLocked(k)).(lock := Some(t));
    written := ForgetStep(locked, t, k);
    if k in s.table { Invalidates(written, t, k.user); }
    done := if k !in s.table then written else InvalidateStep(written, t, k.user);
  }

  // ---------------------------------------------------------------------
  // Over whole runs
  // ---------------------------------------------------------------------

  ghost predicate IsRun(states: seq<State>, actions: seq<Action>) {
    |states| == |actions| + 1 && states[0] == Initial(states[0].table) &&
    forall i :: 0 <= i < |actions| ==> Step(states[i], actions[i], states[i + 1])
  }

  lemma {:induction false} RunKeepsInv(states: seq<State>, actions: seq<Action>, n: nat)
    requires IsRun(states, actions) && n < |states|
    ensures Inv(states[n])
  {
    if n > 0 {
      RunKeepsInv(states, actions, n - 1);
      StepKeepsInv(states[n - 1], actions[n - 1], states[n]);
    }
  }

  /** In every interleaving, whenever the database lock is free each cached context is a rendering of
      its user's current rows that were live when it was queried; the cache holds at most 256. */
  lemma CacheIsCurrent(states: seq<State>, actions: seq<Action>, n: nat)
    requires IsRun(states, actions) && n < |states|
    ensures var s := states[n];
            |s.cache| <= MAX_CACHE_ENTRIES && s.cache.Keys == s.queriedAt.Keys &&
            (s.lock.None? ==> forall u :: u in s.cache ==> IsContextAt(s.cache[u], s.table, u, s.queriedAt[u]))
  {
    RunKeepsInv(states, actions, n);
  }

  /** A context answered from the cache is what a rebuild at that moment could give, unless a row of the
      user has expired since the query behind it, or the clock went back over an expiry - provided that
      no thread is between changing this user's rows and dropping the context.  So after `learn` or
      `forget` has returned, no later build answers with what the user's memories were before. */
  lemma HitsAreCurrent(states: seq<State>, actions: seq<Action>, n: nat, user: UserId, now: int)
    requires IsRun(states, actions) && n < |states|
    requires HitOf(states[n], user, now).Some? && !Changing(states[n], user)
    ensures user in states[n].queriedAt
    ensures var (s, c) := (states[n], HitOf(states[n], user, now).value);
            c.user == user && now - c.builtAt < 300_000_000_000 &&
            IsContextAt(c, s.table, user, s.queriedAt[user]) &&
            (IsContextAt(c, s.table, user, now) || LivenessChanges(s.table, user, s.queriedAt[user], now)) &&
            (Timestamp.FourDigitYear(s.queriedAt[user]) && Timestamp.FourDigitYear(now) ==>
               IsContextAt(c, s.table, user, now) || ExpiresBetween(s.table, user, s.queriedAt[user], now))
  {
    hide Live, LivenessChanges, ExpiresBetween, Timestamp.FourDigitYear, Usable;
    RunKeepsInv(states, actions, n);
    UsableMeans(states[n].cache[user], now);
    var s := states[n];
    LiveRowsDiffer(s.table, user, s.queriedAt[user], now);
    if Timestamp.FourDigitYear(s.queriedAt[user]) && Timestamp.FourDigitYear(now) {
      LiveRowsChangeExactly(s.table, user, s.queriedAt[user], now);
    }
  }

  /** A context answered after a miss renders the user's rows that the table holds at that moment, of
      which those live at its query; and it is what the cache then holds for the user. */
  lemma MissesAreCurrent(states: seq<State>, actions: seq<Action>, n: nat)
    requires IsRun(states, actions) && n < |actions| && actions[n].Store?
    ensures PcOf(states[n], actions[n].t).Storing?
    ensures var (pc, r) := (PcOf(states[n], actions[n].t), states[n + 1]);
            IsContextAt(pc.c, r.table, pc.c.user, pc.queriedAt) &&
            pc.c.user in r.cache && r.cache[pc.c.user] == pc.c && r.queriedAt[pc.c.user] == pc.queriedAt
  {
    RunKeepsInv(states, actions, n);
    assert Step(states[n], actions[n], states[n + 1]);
    HoldsLock(states[n], actions[n].t);
  }

  /** What a step does to the table: an update by a learner keeps a row held with more confidence and
      otherwise writes it with its expiry, one by a forgetter removes the row, and nothing else changes it. */
  lemma TableChanges(s: State, a: Action, r: State)
    requires Step(s, a, r)
    ensures if !a.Update? then r.table == s.table
            else
              match PcOf(s, a.t)
              case LearnLocked(k, value, confidence) =>
                r.table == (if k !in s.table then s.table[k := Row(value, confidence, None)]
                            else if confidence < s.table[k].confidence then s.table
                            else s.table[k := Row(value, confidence, s.table[k].expires)])
              case ForgetLocked(k) => r.table == s.table - {k}
              case _ => false
  {
    hide LiveRows, IsQueryOrder, IsOldest, HitOf, Stored, MemoriesOf;
  }

  /** Until it is forgotten a row stays, keeps its expiry, and is held with no less confidence:
      learning never lowers it. */
  lemma {:induction false} ConfidenceNeverFalls(states: seq<State>, actions: seq<Action>, i: nat, j: nat, k: RowKey)
    requires IsRun(states, actions) && i <= j < |states| && k in states[i].table
    requires forall n :: i <= n < j ==>
               !(actions[n].Update? && PcOf(states[n], actions[n].t) == ForgetLocked(k))
    ensures k in states[j].table && states[j].table[k].confidence >= states[i].table[k].confidence
    ensures states[j].table[k].expires == states[i].table[k].expires
    decreases j
  {
    hide Step;
    if i < j {
      ConfidenceNeverFalls(states, actions, i, j - 1, k);
      TableStep(states[j - 1], actions[j - 1], states[j], k);
    }
  }

  lemma TableStep(s: State, a: Action, r: State, k: RowKey)
    requires Step(s, a, r) && k in s.table
    requires !(a.Update? && PcOf(s, a.t) == ForgetLocked(k))
    ensures k in r.table && r.table[k].confidence >= s.table[k].confidence && r.table[k].expires == s.table[k].expires
  {}
}
