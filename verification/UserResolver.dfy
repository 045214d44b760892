/** The resolver under all interleavings of its threads.

    Every thread runs `resolve` or `link_identity` step by step; the database lock is held over
    several steps, the cache lock within one.  `invalidate_user`, and deletions by other processes,
    happen between any two steps. */
module UserResolver {
  import opened Prelude
  import opened IdentityCache

  type Thread = nat

  /** Where a thread is.  The states marked (locked) hold the database lock. */
  datatype Pc =
    | Idle
    | Hit(key: Key, user: UserId)              // the cache had an entry
    | HitLocked(key: Key, user: UserId)        // (locked) about to load that user
    | Forget(key: Key)                         // (locked) the user is gone: about to drop the entry
    | Miss(key: Key)                           // no usable entry
    | MissLocked(key: Key)                     // (locked) about to look the identity up
    | Store(key: Key, user: UserId)            // (locked) found or created: about to cache it
    | Link(key: Key, target: UserId, allowed: bool)
    | LinkLocked(key: Key, target: UserId, allowed: bool)  // (locked) about to check and update
    | Linked(key: Key)                         // (locked) updated: about to drop the entry

  predicate Locked(pc: Pc) {
    pc.HitLocked? || pc.Forget? || pc.MissLocked? || pc.Store? || pc.LinkLocked? || pc.Linked?
  }

  /** `users` are the existing users, `ever` all that ever existed; `ids` is the identities table. */
  datatype State = State(
    users: set<UserId>, ever: set<UserId>, ids: map<Key, UserId>, cache: Cache,
    lock: Option<Thread>, pcs: map<Thread, Pc>)

  datatype Action =
    | StartResolve(t: Thread, key: Key)
    | StartLink(t: Thread, key: Key, target: UserId, allowed: bool)
    | Acquire(t: Thread)
    | Advance(t: Thread, newId: UserId)
    | InvalidateUser(user: UserId)
    | DeleteUser(user: UserId)

  const INITIAL: State := State({}, {}, map[], Cache(map[], []), None, map[])

  function PcOf(s: State, t: Thread): Pc { if t in s.pcs then s.pcs[t] else Idle }

  function At(s: State, t: Thread, pc: Pc): State { s.(pcs := s.pcs[t := pc]) }

  function Release(s: State, t: Thread, pc: Pc): State { At(s, t, pc).(lock := None) }

  /** The next step of the thread holding the lock. */
  function LockedStep(s: State, t: Thread, newId: UserId): State
    requires |s.cache.order| >= |s.cache.entries|
  {
    match PcOf(s, t)
    case HitLocked(key, user) => if user in s.users then Release(s, t, Idle) else At(s, t, Forget(key))
    case Forget(key) => Release(s.(cache := Removed(s.cache, key)), t, Miss(key))
    case MissLocked(key) =>
      if key in s.ids then At(s, t, Store(key, s.ids[key]))
      else At(s.(users := s.users + {newId}, ever := s.ever + {newId}, ids := s.ids[key := newId]),
              t, Store(key, newId))
    case Store(key, user) => Release(s.(cache := Inserted(s.cache, key, user)), t, Idle)
    case LinkLocked(key, target, allowed) =>
      if allowed && target in s.users then At(s.(ids := s.ids[key := target]), t, Linked(key))
      else Release(s, t, Idle)
    case Linked(key) => Release(s.(cache := Removed(s.cache, key)), t, Idle)
    case _ => s
  }

  /** One step.  `None` when the action is not possible in this state. */
  function Step(s: State, a: Action): Option<State>
    requires |s.cache.order| >= |s.cache.entries|
  {
    match a
    case StartResolve(t, key) =>
      if PcOf(s, t) != Idle then None
      else if key in s.cache.entries then Some(At(s, t, Hit(key, s.cache.entries[key])))
      else Some(At(s, t, Miss(key)))
    case StartLink(t, key, target, allowed) =>
      if PcOf(s, t) != Idle then None else Some(At(s, t, Link(key, target, allowed)))
    case Acquire(t) =>
      if s.lock.Some? then None
      else
        (match PcOf(s, t)
         case Hit(key, user) => Some(At(s, t, HitLocked(key, user)).(lock := Some(t)))
         case Miss(key) => Some(At(s, t, MissLocked(key)).(lock := Some(t)))
         case Link(key, target, allowed) => Some(At(s, t, LinkLocked(key, target, allowed)).(lock := Some(t)))
         case _ => None)
    case Advance(t, newId) =>
      // New users get ids never used before.
      if s.lock == Some(t) && newId !in s.ever then Some(LockedStep(s, t, newId)) else None
    case InvalidateUser(user) => Some(s.(cache := Invalidated(s.cache, user)))
    case DeleteUser(user) =>
      // The identities reference users, so they go with the user.
      Some(s.(users := s.users - {user}, ids := map k | k in s.ids && s.ids[k] != user :: s.ids[k]))
  }

  // ---------------------------------------------------------------------
  // What every run keeps
  // ---------------------------------------------------------------------

  /** An entry is good: it is what the table says, or its user was deleted. */
  predicate Good(s: State, key: Key, user: UserId) {
    (key in s.ids && s.ids[key] == user) || user !in s.users
  }

  /** Some thread has re-linked this key in the table and not yet dropped the cached entry. */
  predicate Relinking(s: State, key: Key) { s.lock.Some? && PcOf(s, s.lock.value) == Linked(key) }

  ghost predicate Coherent(s: State) {
    forall key :: key in s.cache.entries ==>
      s.cache.entries[key] in s.ever && (Good(s, key, s.cache.entries[key]) || Relinking(s, key))
  }

  ghost predicate TablesOk(s: State) {
    s.users <= s.ever && forall key :: key in s.ids ==> s.ids[key] in s.users
  }

  /** The lock is held exactly by the one thread in a locked state. */
  ghost predicate LockOk(s: State) {
    (forall t :: t in s.pcs && Locked(s.pcs[t]) ==> s.lock == Some(t)) &&
    (s.lock.Some? ==> Locked(PcOf(s, s.lock.value)))
  }

  predicate StoreOk(s: State, pc: Pc) {
    pc.Store? ==> pc.user in s.ever && Good(s, pc.key, pc.user)
  }

  ghost predicate Inv(s: State) {
    WellFormed(s.cache) && Coherent(s) && TablesOk(s) && LockOk(s) &&
    (s.lock.Some? ==> StoreOk(s, PcOf(s, s.lock.value)))
  }

  /** Moving the lock holder on, with or without releasing, when the cache stays coherent. */
  lemma MoveKeepsLock(s: State, t: Thread, pc: Pc)
    requires LockOk(s) && s.lock == Some(t)
    ensures Locked(pc) ==> LockOk(At(s, t, pc))
    ensures !Locked(pc) ==> LockOk(Release(s, t, pc))
  {}

  lemma LoadStep(s: State, t: Thread, newId: UserId)
    requires Inv(s) && s.lock == Some(t) && PcOf(s, t).HitLocked? && |s.cache.order| >= |s.cache.entries|
    ensures Inv(LockedStep(s, t, newId))
  {
    hide WellFormed;
    MoveKeepsLock(s, t, Idle);
    MoveKeepsLock(s, t, Forget(PcOf(s, t).key));
  }

  /** The tables' own conditions say nothing of the cache. */
  lemma CacheAlone(s: State, r: State)
    requires r.users == s.users && r.ever == s.ever && r.ids == s.ids
    ensures TablesOk(s) ==> TablesOk(r)
    ensures LockOk(s) && r.lock == s.lock && r.pcs == s.pcs ==> LockOk(r)
  {}

  lemma DropStep(s: State, t: Thread, newId: UserId)
    requires Inv(s) && s.lock == Some(t) && |s.cache.order| >= |s.cache.entries|
    requires PcOf(s, t).Forget? || PcOf(s, t).Linked?
    ensures Inv(LockedStep(s, t, newId))
  {
    var (key, pc) := (PcOf(s, t).key, PcOf(s, t));
    RemovedIs(s.cache, key);
    var dropped := s.(cache := Removed(s.cache, key));
    CacheAlone(s, dropped);
    hide WellFormed, Removed, Inserted, Invalidated, StoreOk, Coherent, LockOk, TablesOk;
    MoveKeepsLock(dropped, t, Idle);
    MoveKeepsLock(dropped, t, Miss(key));
    CacheAlone(s, LockedStep(s, t, newId));
    DropCoheres(s, key, LockedStep(s, t, newId));
  }

  /** The only key being re-linked, if any, is the one dropped. */
  lemma DropCoheres(s: State, key: Key, r: State)
    requires Coherent(s) && WellFormed(s.cache) && r.cache == Removed(s.cache, key)
    requires r.ids == s.ids && r.users == s.users && r.ever == s.ever
    requires forall k :: Relinking(s, k) ==> k == key
    ensures Coherent(r)
  {
    RemovedIs(s.cache, key);
    hide WellFormed, Removed, Relinking;
  }

  lemma FindStep(s: State, t: Thread, newId: UserId)
    requires Inv(s) && s.lock == Some(t) && PcOf(s, t).MissLocked? && newId !in s.ever
    requires |s.cache.order| >= |s.cache.entries|
    ensures Inv(LockedStep(s, t, newId))
  {
    hide WellFormed;
    var key := PcOf(s, t).key;
    MoveKeepsLock(s, t, Store(key, if key in s.ids then s.ids[key] else newId));
  }

  lemma StoreStep(s: State, t: Thread, newId: UserId)
    requires Inv(s) && s.lock == Some(t) && PcOf(s, t).Store? && |s.cache.order| >= |s.cache.entries|
    ensures Inv(LockedStep(s, t, newId))
  {
    hide WellFormed, Inserted;
    InsertedIs(s.cache, PcOf(s, t).key, PcOf(s, t).user);
    MoveKeepsLock(s, t, Idle);
  }

  lemma LinkStep(s: State, t: Thread, newId: UserId)
    requires Inv(s) && s.lock == Some(t) && PcOf(s, t).LinkLocked? && |s.cache.order| >= |s.cache.entries|
    ensures Inv(LockedStep(s, t, newId))
  {
    hide WellFormed;
    MoveKeepsLock(s, t, Idle);
    MoveKeepsLock(s, t, Linked(PcOf(s, t).key));
  }

  lemma AdvanceKeepsInv(s: State, t: Thread, newId: UserId)
    requires Inv(s) && s.lock == Some(t) && newId !in s.ever && |s.cache.order| >= |s.cache.entries|
    ensures Inv(LockedStep(s, t, newId))
  {
    match PcOf(s, t) {
      case HitLocked(_, _) => LoadStep(s, t, newId);
      case Forget(_) => DropStep(s, t, newId);
      case MissLocked(_) => FindStep(s, t, newId);
      case Store(_, _) => StoreStep(s, t, newId);
      case LinkLocked(_, _, _) => LinkStep(s, t, newId);
      case Linked(_) => DropStep(s, t, newId);
      case _ =>
    }
  }

  /** A thread that does not hold the lock moves between unlocked states. */
  lemma StartKeepsInv(s: State, t: Thread, pc: Pc)
    requires Inv(s) && !Locked(PcOf(s, t)) && !Locked(pc)
    ensures Inv(At(s, t, pc))
  {}

  lemma AcquireKeepsInv(s: State, t: Thread, pc: Pc)
    requires Inv(s) && s.lock.None? && Locked(pc) && !pc.Store? && !pc.Linked?
    ensures Inv(At(s, t, pc).(lock := Some(t)))
  {}

  lemma InvalidateKeepsInv(s: State, user: UserId)
    requires Inv(s)
    ensures Inv(s.(cache := Invalidated(s.cache, user)))
  {
    InvalidatedIs(s.cache, user);
  }

  lemma DeleteKeepsInv(s: State, user: UserId)
    requires Inv(s) && |s.cache.order| >= |s.cache.entries|
    ensures Inv(Step(s, DeleteUser(user)).value)
  {
    var after := Step(s, DeleteUser(user)).value;
    assert forall key, u :: Good(s, key, u) ==> Good(after, key, u);
  }

  lemma StepKeepsInv(s: State, a: Action)
    requires Inv(s)
    ensures |s.cache.order| >= |s.cache.entries|
    ensures Step(s, a).Some? ==> Inv(Step(s, a).value)
  {
    MapAndListAgree(s.cache);
    if Step(s, a).Some? {
      hide Inv, LockedStep;
      match a {
        case StartResolve(t, key) =>
          StartKeepsInv(s, t, if key in s.cache.entries then Hit(key, s.cache.entries[key]) else Miss(key));
        case StartLink(t, key, target, allowed) => StartKeepsInv(s, t, Link(key, target, allowed));
        case Acquire(t) => AcquireKeepsInv(s, t, PcOf(Step(s, a).value, t));
        case Advance(t, newId) => AdvanceKeepsInv(s, t, newId);
        case InvalidateUser(user) => InvalidateKeepsInv(s, user);
        case DeleteUser(user) => DeleteKeepsInv(s, user);
      }
    }
  }

  /** The states of a run from the start, one action at a time. */
  ghost predicate IsRun(states: seq<State>, actions: seq<Action>) {
    |states| == |actions| + 1 && states[0] == INITIAL &&
    forall i :: 0 <= i < |actions| ==>
      |states[i].cache.order| >= |states[i].cache.entries| && Step(states[i], actions[i]) == Some(states[i + 1])
  }

  lemma {:induction false} RunKeepsInv(states: seq<State>, actions: seq<Action>, n: nat)
    requires IsRun(states, actions) && n < |states|
    ensures Inv(states[n])
  {
    if n > 0 {
      RunKeepsInv(states, actions, n - 1);
      StepKeepsInv(states[n - 1], actions[n - 1]);
    }
  }

  /** In every interleaving: the cache's keys are its order list, duplicate-free and at most 256;
      each entry is what the identities table says, unless its user was deleted by another process
      or a re-link of that very key is under way; and so when the lock is free, only deleted users
      can be out of date. */
  lemma CacheIsCoherent(states: seq<State>, actions: seq<Action>, n: nat)
    requires IsRun(states, actions) && n < |states|
    ensures var s := states[n];
            WellFormed(s.cache) && |s.cache.entries| <= CACHE_MAX &&
            (forall key :: key in s.cache.entries ==> Good(s, key, s.cache.entries[key]) || Relinking(s, key)) &&
            (s.lock.None? ==> forall key :: key in s.cache.entries ==> Good(s, key, s.cache.entries[key]))
  {
    RunKeepsInv(states, actions, n);
    MapAndListAgree(states[n].cache);
  }

  // --- who an identity belongs to --------------------------------------------

  /** An allowed re-link of this key to a user that exists. */
  predicate Relinks(s: State, a: Action, key: Key, target: UserId) {
    a.Advance? && PcOf(s, a.t) == LinkLocked(key, target, true) && target in s.users
  }

  /** A resolve that has found the identity absent from the table. */
  predicate FindsAbsent(s: State, a: Action, key: Key) {
    a.Advance? && PcOf(s, a.t) == MissLocked(key) && key !in s.ids
  }

  /** What a step does to the tables: a re-link moves its identity to its target, a resolve gives an
      identity it found absent to a new user, a deletion takes a user away with its identities, and
      nothing else changes them. */
  lemma TablesChange(s: State, a: Action)
    requires Inv(s) && |s.cache.order| >= |s.cache.entries| && Step(s, a).Some?
    ensures var r := Step(s, a).value;
            if a.DeleteUser? then
              r.users == s.users - {a.user} && r.ids == map k | k in s.ids && s.ids[k] != a.user :: s.ids[k]
            else if exists key, target :: Relinks(s, a, key, target) then
              r.users == s.users && exists key, target :: Relinks(s, a, key, target) && r.ids == s.ids[key := target]
            else if exists key :: FindsAbsent(s, a, key) then
              a.newId !in s.ever && r.users == s.users + {a.newId} &&
              exists key :: FindsAbsent(s, a, key) && r.ids == s.ids[key := a.newId]
            else r.users == s.users && r.ids == s.ids
  {
    hide Inv, Inserted, Removed, Invalidated;
    if a.Advance? {
      match PcOf(s, a.t) {
        case LinkLocked(key, target, allowed) =>
          if allowed && target in s.users { assert Relinks(s, a, key, target); }
        case MissLocked(key) =>
          if key !in s.ids { assert FindsAbsent(s, a, key); }
        case _ =>
      }
    }
  }

  /** What a step does to the cache: storing inserts one entry, perhaps evicting the oldest half; a re-link and
      a hit on a user that is gone drop their key; invalidating a user drops that user's entries; and
      nothing else changes it. */
  lemma CacheChanges(s: State, a: Action)
    requires Inv(s) && |s.cache.order| >= |s.cache.entries| && Step(s, a).Some?
    ensures var (was, now) := (s.cache.entries, Step(s, a).value.cache.entries);
            if a.InvalidateUser? then now == map k | k in was && was[k] != a.user :: was[k]
            else if !a.Advance? then now == was
            else
              match PcOf(s, a.t)
              case Store(key, user) =>
                now == (if key !in was && |s.cache.order| == 256 then was - KeySet(s.cache.order[..128]) else was)
                       [key := user]
              case Forget(key) => now == was - {key}
              case Linked(key) => now == was - {key}
              case _ => now == was
  {
    hide WellFormed, Inserted, Removed, Invalidated, KeySet, Coherent, TablesOk, LockOk, StoreOk;
    if a.InvalidateUser? { InvalidatedIs(s.cache, a.user); }
    if a.Advance? {
      match PcOf(s, a.t) {
        case Store(key, user) => InsertedIs(s.cache, key, user);
        case Forget(key) => RemovedIs(s.cache, key);
        case Linked(key) => RemovedIs(s.cache, key);
        case _ =>
      }
    }
  }

  /** Where a step leaves a thread. */
  lemma StepMoves(s: State, a: Action, t: Thread)
    requires Inv(s) && |s.cache.order| >= |s.cache.entries| && Step(s, a).Some?
    ensures var r := Step(s, a).value;
            (PcOf(r, t).Store? && PcOf(s, t) != PcOf(r, t) ==>
               a.Advance? && a.t == t && s.lock == Some(t) && PcOf(s, t) == MissLocked(PcOf(r, t).key) &&
               PcOf(r, t).user == (if PcOf(s, t).key in s.ids then s.ids[PcOf(s, t).key] else a.newId)) &&
            (PcOf(r, t).MissLocked? && PcOf(s, t) != PcOf(r, t) ==>
               a == Acquire(t) && PcOf(s, t) == Miss(PcOf(r, t).key) && r.ids == s.ids)
  {
    hide Inserted, Removed, Invalidated, WellFormed, Coherent, TablesOk, StoreOk, LockOk;
  }

  /** The step at which a thread about to cache a user looked that user up, and that the thread has only
      waited since. */
  ghost predicate LookedUp(states: seq<State>, actions: seq<Action>, m: nat, n: nat, t: Thread, key: Key, user: UserId)
    requires |states| == |actions| + 1 && m < n < |states|
  {
    actions[m].Advance? && actions[m].t == t && PcOf(states[m], t) == MissLocked(key) &&
    user == (if key in states[m].ids then states[m].ids[key] else actions[m].newId) &&
    forall l :: m < l <= n ==> PcOf(states[l], t) == Store(key, user)
  }

  lemma {:induction false} StoreLookedUp(states: seq<State>, actions: seq<Action>, n: nat, t: Thread,
      key: Key, user: UserId) returns (m: nat)
    requires IsRun(states, actions) && n < |states| && PcOf(states[n], t) == Store(key, user)
    ensures m < n && LookedUp(states, actions, m, n, t, key, user)
  {
    hide Step, Inv;
    RunKeepsInv(states, actions, n - 1);
    RunStep(states, actions, n - 1);
    StepMoves(states[n - 1], actions[n - 1], t);
    if PcOf(states[n - 1], t) == PcOf(states[n], t) {
      m := StoreLookedUp(states, actions, n - 1, t, key, user);
    } else {
      m := n - 1;
    }
  }

  /** When a thread about to look up an identity took the lock, and that it has only waited since. */
  ghost predicate LockedSince(states: seq<State>, actions: seq<Action>, i: nat, n: nat, t: Thread, key: Key)
    requires |states| == |actions| + 1 && i < n < |states|
  {
    actions[i] == Acquire(t) && states[i + 1].ids == states[i].ids &&
    forall l :: i < l <= n ==> PcOf(states[l], t) == MissLocked(key)
  }

  lemma {:induction false} MissTookLock(states: seq<State>, actions: seq<Action>, n: nat, t: Thread, key: Key)
    returns (i: nat)
    requires IsRun(states, actions) && n < |states| && PcOf(states[n], t) == MissLocked(key)
    ensures i < n && LockedSince(states, actions, i, n, t, key)
  {
    hide Step, Inv;
    RunKeepsInv(states, actions, n - 1);
    RunStep(states, actions, n - 1);
    StepMoves(states[n - 1], actions[n - 1], t);
    if PcOf(states[n - 1], t) == PcOf(states[n], t) {
      i := MissTookLock(states, actions, n - 1, t, key);
    } else {
      i := n - 1;
    }
  }

  /** The user an identity has, if any. */
  function OwnerOf(s: State, key: Key): Option<UserId> { if key in s.ids then Some(s.ids[key]) else None }

  /** While a thread waits to look an identity up, only a deletion can change whose it is. */
  lemma OwnerStays(s: State, a: Action, t: Thread, key: Key)
    requires Inv(s) && |s.cache.order| >= |s.cache.entries| && Step(s, a).Some?
    requires PcOf(s, t) == MissLocked(key) && PcOf(Step(s, a).value, t) == MissLocked(key)
    ensures OwnerOf(Step(s, a).value, key) == OwnerOf(s, key) ||
            (a.DeleteUser? && OwnerOf(s, key) == Some(a.user) && OwnerOf(Step(s, a).value, key).None?)
  {
    TablesChange(s, a);
    LockIsHeld(s, t);
    if a.Advance? { LookupEnds(s, a, t); }
    hide Step;
  }

  lemma LockIsHeld(s: State, t: Thread)
    requires LockOk(s) && Locked(PcOf(s, t))
    ensures s.lock == Some(t)
  {}

  /** The lock holder's own step takes it on; nobody else's advances. */
  lemma LookupEnds(s: State, a: Action, t: Thread)
    requires |s.cache.order| >= |s.cache.entries| && Step(s, a).Some? && a.Advance? && PcOf(s, t).MissLocked?
    ensures s.lock == Some(a.t) && (a.t == t ==> !PcOf(Step(s, a).value, t).MissLocked?)
  {}

  /** Some step in between deleted the user. */
  ghost predicate DeletedBetween(actions: seq<Action>, i: nat, m: nat, user: UserId)
    requires m <= |actions|
  {
    exists l :: i < l < m && actions[l] == DeleteUser(user)
  }

  /** From the moment the lock is taken to the look-up, an identity stays with its user, or its user is
      deleted and it is with none. */
  lemma {:induction false} OwnerSince(states: seq<State>, actions: seq<Action>, i: nat, m: nat, t: Thread, key: Key)
    requires IsRun(states, actions) && i < m < |states| && LockedSince(states, actions, i, m, t, key)
    ensures OwnerOf(states[m], key) == OwnerOf(states[i], key) ||
            (OwnerOf(states[m], key).None? && OwnerOf(states[i], key).Some? &&
             DeletedBetween(actions, i, m, OwnerOf(states[i], key).value))
    decreases m
  {
    hide Step, Inv;
    if i + 1 < m {
      OwnerSince(states, actions, i, m - 1, t, key);
      RunKeepsInv(states, actions, m - 1);
      RunStep(states, actions, m - 1);
      OwnerStays(states[m - 1], actions[m - 1], t, key);
    }
  }

  /** What a resolve does after a miss.  It takes the lock at some step, looks its identity up at a later
      one and caches what it found at a later one still, which is its answer.  That is the user the table
      gave the identity when the lock was taken - unless that user was deleted meanwhile, or the identity
      had none: then it is a new user, who owns the identity from then on. */
  lemma MissAnswersFromTable(states: seq<State>, actions: seq<Action>, n: nat, t: Thread, key: Key, user: UserId)
    returns (i: nat, m: nat)
    requires IsRun(states, actions) && n < |actions| && PcOf(states[n], t) == Store(key, user)
    requires actions[n].Advance? && actions[n].t == t
    ensures i < m < n && LockedSince(states, actions, i, m, t, key) && LookedUp(states, actions, m, n, t, key, user)
    ensures key in states[i].ids ==>
              user == states[i].ids[key] || DeletedBetween(actions, i, m, states[i].ids[key])
    ensures key !in states[m].ids ==>
              user !in states[m].ever && states[m + 1].users == states[m].users + {user} &&
              states[m + 1].ids == states[m].ids[key := user]
    ensures key in states[m].ids ==>
              states[m + 1].users == states[m].users && states[m + 1].ids == states[m].ids
    ensures key in states[n + 1].cache.entries && states[n + 1].cache.entries[key] == user
  {
    hide Step, Inv;
    m := StoreLookedUp(states, actions, n, t, key, user);
    i := MissTookLock(states, actions, m, t, key);
    OwnerSince(states, actions, i, m, t, key);
    LookUpIs(states, actions, m, t, key);
    StoreCaches(states, actions, n, t, key, user);
  }

  lemma LookUpIs(states: seq<State>, actions: seq<Action>, m: nat, t: Thread, key: Key)
    requires IsRun(states, actions) && m < |actions| && actions[m].Advance? && actions[m].t == t
    requires PcOf(states[m], t) == MissLocked(key)
    ensures var (s, r, user) := (states[m], states[m + 1], actions[m].newId);
            if key in s.ids then r.users == s.users && r.ids == s.ids
            else user !in s.ever && r.users == s.users + {user} && r.ids == s.ids[key := user]
  {
    hide Inserted, Removed, Invalidated;
    RunStep(states, actions, m);
  }

  lemma StoreCaches(states: seq<State>, actions: seq<Action>, n: nat, t: Thread, key: Key, user: UserId)
    requires IsRun(states, actions) && n < |actions| && actions[n].Advance? && actions[n].t == t
    requires PcOf(states[n], t) == Store(key, user)
    ensures key in states[n + 1].cache.entries && states[n + 1].cache.entries[key] == user
  {
    RunKeepsInv(states, actions, n);
    RunStep(states, actions, n);
    InsertedIs(states[n].cache, key, user);
    hide WellFormed, Inserted;
  }

  /** A hit on a user that is gone drops the entry and goes on as a miss. */
  lemma GoneHitIsMiss(s: State, a: Action, key: Key, user: UserId)
    requires Inv(s) && |s.cache.order| >= |s.cache.entries| && a.Advance? && Step(s, a).Some?
    ensures PcOf(s, a.t) == HitLocked(key, user) ==>
              PcOf(Step(s, a).value, a.t) == if user in s.users then Idle else Forget(key)
    ensures PcOf(s, a.t) == Forget(key) ==>
              PcOf(Step(s, a).value, a.t) == Miss(key) && key !in Step(s, a).value.cache.entries
  {
    RemovedIs(s.cache, key);
    hide WellFormed, Inserted, Removed, Invalidated;
  }

  // --- an operation that nothing disturbs -------------------------------------

  predicate Quiet(s: State, t: Thread) { s.lock.None? && PcOf(s, t) == Idle }

  /** Starting an operation, when nobody holds the lock, and taking it. */
  lemma Starts(s: State, t: Thread, key: Key, target: UserId, allowed: bool)
    requires Quiet(s, t) && |s.cache.order| >= |s.cache.entries|
    ensures key !in s.cache.entries ==>
              Step(s, StartResolve(t, key)) == Some(At(s, t, Miss(key))) &&
              Step(At(s, t, Miss(key)), Acquire(t)) ==
              Some(At(At(s, t, Miss(key)), t, MissLocked(key)).(lock := Some(t)))
    ensures Step(s, StartLink(t, key, target, allowed)) == Some(At(s, t, Link(key, target, allowed))) &&
            Step(At(s, t, Link(key, target, allowed)), Acquire(t)) ==
            Some(At(At(s, t, Link(key, target, allowed)), t, LinkLocked(key, target, allowed)).(lock := Some(t)))
  {
    hide Removed, Inserted, Invalidated;
  }

  /** The lock holder's next step. */
  lemma Advances(s: State, t: Thread, newId: UserId)
    requires s.lock == Some(t) && newId !in s.ever && |s.cache.order| >= |s.cache.entries|
    ensures Step(s, Advance(t, newId)) == Some(LockedStep(s, t, newId))
  {
    hide LockedStep;
  }

  /** A resolve of a cached identity whose user exists, taken step by step: it answers that user, and changes
      neither the tables nor the cache. */
  lemma UndisturbedHit(s: State, t: Thread, key: Key, newId: UserId)
    returns (hit: State, locked: State, done: State)
    requires Inv(s) && Quiet(s, t) && newId !in s.ever && key in s.cache.entries && s.cache.entries[key] in s.users
    ensures |s.cache.order| >= |s.cache.entries|
    ensures Step(s, StartResolve(t, key)) == Some(hit) && PcOf(hit, t) == Hit(key, s.cache.entries[key])
    ensures hit.cache == s.cache && Step(hit, Acquire(t)) == Some(locked)
    ensures locked.cache == s.cache && Step(locked, Advance(t, newId)) == Some(done)
    ensures Quiet(done, t) && done.cache == s.cache && done.ids == s.ids && done.users == s.users
  {
    MapAndListAgree(s.cache);
    hide Inv, Removed, Inserted, Invalidated, WellFormed;
    hit := At(s, t, Hit(key, s.cache.entries[key]));
    locked := At(hit, t, HitLocked(key, s.cache.entries[key])).(lock := Some(t));
    Advances(locked, t, newId);
    done := Release(locked, t, Idle);
  }

  /** A resolve that misses, taken step by step: it answers the identity's user, or a new one that the identity
      is given, and caches it. */
  lemma UndisturbedMiss(s: State, t: Thread, key: Key, newId: UserId, other: UserId)
    returns (missed: State, locked: State, found: State, done: State)
    requires Inv(s) && Quiet(s, t) && key !in s.cache.entries && newId !in s.ever && other !in s.ever + {newId}
    ensures |s.cache.order| >= |s.cache.entries|
    ensures Step(s, StartResolve(t, key)) == Some(missed)
    ensures missed.cache == s.cache && Step(missed, Acquire(t)) == Some(locked)
    ensures locked.cache == s.cache && Step(locked, Advance(t, newId)) == Some(found)
    ensures found.cache == s.cache && Step(found, Advance(t, other)) == Some(done)
    ensures var user := if key in s.ids then s.ids[key] else newId;
            PcOf(found, t) == Store(key, user) && Quiet(done, t) && done.cache == Inserted(s.cache, key, user) &&
            done.ids == s.ids[key := user] && done.users == (if key in s.ids then s.users else s.users + {newId})
  {
    MapAndListAgree(s.cache);
    Starts(s, t, key, "", false);
    hide Inv, Step, Quiet, Removed, Inserted, Invalidated, WellFormed;
    missed := At(s, t, Miss(key));
    locked := At(missed, t, MissLocked(key)).(lock := Some(t));
    var user := if key in s.ids then s.ids[key] else newId;
    found := At(locked, t, Store(key, user));
    if key !in s.ids {
      found := At(locked.(users := s.users + {newId}, ever := s.ever + {newId}, ids := s.ids[key := newId]),
                  t, Store(key, user));
    }
    Advances(locked, t, newId);
    Advances(found, t, other);
    done := Release(found.(cache := Inserted(s.cache, key, user)), t, Idle);
  }

  /** A re-link, taken step by step: when it is allowed and its target exists, the identity is the target's and
      no longer cached; otherwise nothing changes. */
  lemma UndisturbedLink(s: State, t: Thread, key: Key, target: UserId, allowed: bool, newId: UserId)
    returns (started: State, locked: State, linked: State, done: State)
    requires Inv(s) && Quiet(s, t) && newId !in s.ever
    ensures |s.cache.order| >= |s.cache.entries|
    ensures Step(s, StartLink(t, key, target, allowed)) == Some(started)
    ensures started.cache == s.cache && Step(started, Acquire(t)) == Some(locked)
    ensures locked.cache == s.cache && Step(locked, Advance(t, newId)) == Some(linked) && linked.cache == s.cache
    ensures if allowed && target in s.users then
              Step(linked, Advance(t, newId)) == Some(done) && done.ids == s.ids[key := target] &&
              done.cache == Removed(s.cache, key)
            else done == linked && done.ids == s.ids && done.cache == s.cache
    ensures Quiet(done, t) && done.users == s.users
  {
    MapAndListAgree(s.cache);
    Starts(s, t, key, target, allowed);
    hide Inv, Step, Removed, Inserted, Invalidated, WellFormed;
    started := At(s, t, Link(key, target, allowed));
    locked := At(started, t, LinkLocked(key, target, allowed)).(lock := Some(t));
    Advances(locked, t, newId);
    if allowed && target in s.users {
      linked := At(locked.(ids := s.ids[key := target]), t, Linked(key));
      Advances(linked, t, newId);
      done := Release(linked.(cache := Removed(s.cache, key)), t, Idle);
    } else {
      linked := Release(locked, t, Idle);
      done := linked;
    }
  }

  // --- the order of eviction -------------------------------------------------

  /** Since which state of the run a key has been in the cache. */
  function EntryAt(states: seq<State>, n: nat, key: Key): nat
    requires n < |states|
  {
    if n == 0 || key !in states[n - 1].cache.entries then n else EntryAt(states, n - 1, key)
  }

  lemma {:induction false} EntryAtMeans(states: seq<State>, n: nat, key: Key)
    requires n < |states| && key in states[n].cache.entries && key !in states[0].cache.entries
    ensures var m := EntryAt(states, n, key);
            1 <= m <= n && key !in states[m - 1].cache.entries &&
            forall l :: m <= l <= n ==> key in states[l].cache.entries
  {
    if key in states[n - 1].cache.entries { EntryAtMeans(states, n - 1, key); }
  }

  lemma StepOrder(s: State, a: Action)
    requires WellFormed(s.cache) && |s.cache.order| >= |s.cache.entries| && Step(s, a).Some?
    ensures OrderGrows(s.cache, Step(s, a).value.cache)
  {
    hide WellFormed, OrderGrows, Inserted, Removed, Invalidated;
    OperationsGrow(s.cache, Key("", ""), "");
    match a {
      case Advance(t, _) =>
        var pc := PcOf(s, t);
        if pc.Store? { OperationsGrow(s.cache, pc.key, pc.user); }
        if pc.Forget? || pc.Linked? { OperationsGrow(s.cache, pc.key, ""); }
      case InvalidateUser(user) => OperationsGrow(s.cache, Key("", ""), user);
      case _ =>
    }
  }

  /** The order list is in order of entry: of two cached keys, the one listed first has been in the
      cache longer.  So an eviction drops exactly the 128 that have been there longest. */
  lemma {:induction false} OrderIsByEntry(states: seq<State>, actions: seq<Action>, n: nat, i: nat, j: nat)
    requires IsRun(states, actions) && n < |states| && i < j < |states[n].cache.order|
    ensures var order := states[n].cache.order;
            order[i] in states[n].cache.entries && order[j] in states[n].cache.entries &&
            EntryAt(states, n, order[i]) < EntryAt(states, n, order[j]) <= n
  {
    Listed(states, actions, n, i, j);
    if n > 0 {
      GrowsAt(states, actions, n);
      var (was, order) := (states[n - 1].cache, states[n].cache.order);
      assert order[i] in was.entries;
      EntryIsPast(states, n - 1, order[i]);
      hide Step, IsRun;
      if order[j] in was.entries {
        var k, l :| 0 <= k < l < |was.order| && was.order[k] == order[i] && was.order[l] == order[j];
        OrderIsByEntry(states, actions, n - 1, k, l);
      }
    }
  }

  lemma Listed(states: seq<State>, actions: seq<Action>, n: nat, i: nat, j: nat)
    requires IsRun(states, actions) && n < |states| && i < j < |states[n].cache.order|
    ensures var order := states[n].cache.order;
            order[i] in states[n].cache.entries && order[j] in states[n].cache.entries
  {
    RunKeepsInv(states, actions, n);
  }

  lemma GrowsAt(states: seq<State>, actions: seq<Action>, n: nat)
    requires IsRun(states, actions) && 0 < n < |states|
    ensures OrderGrows(states[n - 1].cache, states[n].cache)
  {
    hide OrderGrows, Step;
    RunKeepsInv(states, actions, n - 1);
    RunStep(states, actions, n - 1);
    StepOrder(states[n - 1], actions[n - 1]);
  }

  lemma {:induction false} EntryIsPast(states: seq<State>, n: nat, key: Key)
    requires n < |states|
    ensures EntryAt(states, n, key) <= n
  {
    if n > 0 { EntryIsPast(states, n - 1, key); }
  }

  // --- what the cache answers -------------------------------------------------

  lemma {:induction false} NoDeletionsKeepUsers(states: seq<State>, actions: seq<Action>, n: nat)
    requires IsRun(states, actions) && n < |states| && forall i :: 0 <= i < |actions| ==> !actions[i].DeleteUser?
    ensures states[n].users == states[n].ever
  {
    if n > 0 {
      NoDeletionsKeepUsers(states, actions, n - 1);
      RunStep(states, actions, n - 1);
      hide IsRun;
    }
  }

  /** Without outside deletions, whenever the database lock is free every cached entry is exactly
      what the identities table says. */
  lemma CacheEqualsTable(states: seq<State>, actions: seq<Action>, n: nat)
    requires IsRun(states, actions) && n < |states| && states[n].lock.None?
    requires forall i :: 0 <= i < |actions| ==> !actions[i].DeleteUser?
    ensures var s := states[n];
            forall key :: key in s.cache.entries ==> key in s.ids && s.ids[key] == s.cache.entries[key]
  {
    RunKeepsInv(states, actions, n);
    NoDeletionsKeepUsers(states, actions, n);
  }

  /** A user that existed and does no more. */
  predicate Gone(s: State, user: UserId) { user in s.ever && user !in s.users }

  lemma StepKeepsDeleted(s: State, a: Action, user: UserId)
    requires |s.cache.order| >= |s.cache.entries| && Gone(s, user) && Step(s, a).Some?
    ensures Gone(Step(s, a).value, user)
  {
    hide Removed, Inserted, Invalidated;
  }

  lemma RunStep(states: seq<State>, actions: seq<Action>, n: nat)
    requires IsRun(states, actions) && n < |actions|
    ensures |states| == |actions| + 1 && |states[n].cache.order| >= |states[n].cache.entries| &&
            Step(states[n], actions[n]) == Some(states[n + 1])
  {
    hide Step;
  }

  lemma {:induction false} DeletedStaysDeleted(states: seq<State>, actions: seq<Action>, i: nat, j: nat, user: UserId)
    requires IsRun(states, actions) && i <= j < |states| && Gone(states[i], user)
    ensures Gone(states[j], user)
    decreases j
  {
    hide Step, Gone;
    if i < j {
      assert j - 1 < |actions|;
      hide IsRun;
      RunStep(states, actions, j - 1);
      DeletedStaysDeleted(states, actions, i, j - 1, user);
      StepKeepsDeleted(states[j - 1], actions[j - 1], user);
    }
  }

  /** What a cache hit may answer: the user a resolve returns without consulting the identities table
      was, when that resolve started, the identity's user in the table - unless just then a re-link of
      that identity had updated the table and not yet returned.  So once a re-link has returned, no
      resolve started later answers with the old user. */
  lemma HitsAnswerFromTheTable(states: seq<State>, actions: seq<Action>,
      i: nat, j: nat, t: Thread, key: Key, user: UserId)
    requires IsRun(states, actions) && i < j < |actions|
    requires actions[i] == StartResolve(t, key) && PcOf(states[i + 1], t) == Hit(key, user)
    requires PcOf(states[j], t) == HitLocked(key, user) && user in states[j].users
    ensures key in states[i].cache.entries && user == states[i].cache.entries[key]
    ensures (key in states[i].ids && states[i].ids[key] == user) || Relinking(states[i], key)
  {
    RunKeepsInv(states, actions, i);
    assert Step(states[i], actions[i]) == Some(states[i + 1]);
    if user !in states[i].users { DeletedStaysDeleted(states, actions, i, j, user); }
  }
}
