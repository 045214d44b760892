/** Any number of compactions of one session running at once, while turns are added.

    Counting the turns, fetching the oldest, the model's reply, each fact learned and the deletion are
    separate steps; a task may fail and stop at any of them.  A fact that cannot be learned does not
    stop its task.  The rest of the program learns and forgets in the same table between any two steps. */
module CompactionRuns {
  import opened Prelude
  import opened ContextCache
  import opened Compaction

  type Task = nat

  datatype Pc =
    | Counted                                          // saw enough turns
    | Waiting(batch: seq<Turn>)                        // fetched, reply outstanding
    | Learning(batch: seq<Turn>, facts: seq<Fact>, n: nat)  // the first n facts dealt with
    | Stopped

  datatype Event =
    | Fetched(task: Task, batch: seq<Turn>)
    | Parsed(task: Task, facts: seq<Fact>)
    | LearnedFact(task: Task, fact: Fact, stored: bool)
    | Deleted(task: Task, ids: set<nat>)

  /** `ever` holds every turn there has been and `log` what the tasks did, both in order; `session` is
      the session, under whose key its facts stand in the table. */
  datatype State = State(
    turns: seq<Turn>, nextId: nat, pcs: map<Task, Pc>, ever: seq<Turn>, log: seq<Event>, session: UserId, table: Table)

  datatype Action =
    | Append(content: string)
    | Count(t: Task)
    | Fetch(t: Task)
    | Reply(t: Task, facts: seq<Fact>)
    | LearnNext(t: Task, stored: bool)
    | Delete(t: Task)
    | Fail(t: Task)
    | Elsewhere(k: RowKey, value: string, confidence: real)  // a fact learned by the rest of the program
    | Forget(k: RowKey)

  ghost predicate IsInitial(s: State) {
    s.pcs == map[] && s.log == [] && s.ever == s.turns && DistinctIds(s.turns) &&
    forall t :: t in s.turns ==> t.id < s.nextId
  }

  function At(s: State, t: Task, pc: Pc): State { s.(pcs := s.pcs[t := pc]) }

  function Logged(s: State, e: Event): State { s.(log := s.log + [e]) }

  function Appended(s: State, content: string): State {
    var turn := Turn(s.nextId, content);
    s.(turns := s.turns + [turn], ever := s.ever + [turn], nextId := s.nextId + 1)
  }

  /** A session of no turns has nothing to fetch, and the task ends. */
  function AfterFetch(s: State, t: Task): State {
    if |s.turns| == 0 then At(s, t, Stopped)
    else Logged(At(s, t, Waiting(Oldest(s.turns))), Fetched(t, Oldest(s.turns)))
  }

  function AfterReply(s: State, t: Task, batch: seq<Turn>, facts: seq<Fact>): State {
    Logged(At(s, t, Learning(batch, facts, 0)), Parsed(t, facts))
  }

  /** `stored` says whether `learn` succeeded; its error is ignored.  A fact not worth keeping is not
      handed to it. */
  function AfterFact(s: State, t: Task, pc: Pc, stored: bool): State
    requires pc.Learning? && pc.n < |pc.facts|
  {
    var (fact, r) := (pc.facts[pc.n], At(s, t, pc.(n := pc.n + 1)));
    if !Kept(fact) then r
    else
      var tried := Logged(r, LearnedFact(t, fact, stored));
      if stored then tried.(table := LearnFact(s.table, s.session, fact)) else tried
  }

  function AfterDelete(s: State, t: Task, batch: seq<Turn>): State {
    Logged(At(s, t, Stopped).(turns := Without(s.turns, Ids(batch))), Deleted(t, Ids(batch)))
  }

  function Step(s: State, a: Action): Option<State> {
    match a
    case Append(content) => Some(Appended(s, content))
    case Count(t) =>
      if t in s.pcs then None else Some(At(s, t, if |s.turns| < COMPACT_THRESHOLD then Stopped else Counted))
    case Fetch(t) => if t in s.pcs && s.pcs[t].Counted? then Some(AfterFetch(s, t)) else None
    case Reply(t, facts) =>
      if t in s.pcs && s.pcs[t].Waiting? then Some(AfterReply(s, t, s.pcs[t].batch, facts)) else None
    case LearnNext(t, stored) =>
      if t in s.pcs && s.pcs[t].Learning? && s.pcs[t].n < |s.pcs[t].facts|
      then Some(AfterFact(s, t, s.pcs[t], stored)) else None
    case Delete(t) =>
      if t in s.pcs && s.pcs[t].Learning? && s.pcs[t].n == |s.pcs[t].facts|
      then Some(AfterDelete(s, t, s.pcs[t].batch)) else None
    case Fail(t) => if t in s.pcs then Some(At(s, t, Stopped)) else None
    case Elsewhere(k, value, confidence) =>
      Some(if Refuses(s.table, k, confidence) then s else s.(table := Learned(s.table, k, value, confidence)))
    case Forget(k) => Some(s.(table := s.table - {k}))
  }

  ghost predicate IsRun(states: seq<State>, actions: seq<Action>) {
    |states| == |actions| + 1 && IsInitial(states[0]) &&
    forall i :: 0 <= i < |actions| ==> Step(states[i], actions[i]) == Some(states[i + 1])
  }

  // ---------------------------------------------------------------------
  // What a task does, in order
  // ---------------------------------------------------------------------

  /** One task's own events. */
  function Mine(log: seq<Event>, t: Task): seq<Event> {
    if |log| == 0 then []
    else
      var before := Mine(log[..|log| - 1], t);
      if log[|log| - 1].task == t then before + [log[|log| - 1]] else before
  }

  lemma MineOne(log: seq<Event>, e: Event, t: Task)
    ensures Mine(log + [e], t) == if e.task == t then Mine(log, t) + [e] else Mine(log, t)
  {
    assert (log + [e])[..|log|] == log;
  }

  /** The events are those of learning the first `n` facts: each worth keeping, once, in order. */
  predicate TriedUpTo(t: Task, facts: seq<Fact>, n: nat, events: seq<Event>)
    requires n <= |facts|
  {
    if n == 0 then events == []
    else if !Kept(facts[n - 1]) then TriedUpTo(t, facts, n - 1, events)
    else
      events != [] && (var last := events[|events| - 1];
         last.LearnedFact? && last.task == t && last.fact == facts[n - 1]) &&
      TriedUpTo(t, facts, n - 1, events[..|events| - 1])
  }

  /** A task's events once its batch is gone: one batch fetched, the reply parsed, every fact worth
      keeping handed to `learn` in order, and then the deletion. */
  predicate IsWholeScript(t: Task, events: seq<Event>) {
    |events| >= 3 && events[0].Fetched? && |events[0].batch| <= COMPACT_BATCH && events[1].Parsed? &&
    TriedUpTo(t, events[1].facts, |events[1].facts|, events[2..|events| - 1]) &&
    events[|events| - 1] == Deleted(t, Ids(events[0].batch))
  }

  predicate NoDeletion(events: seq<Event>) { forall i :: 0 <= i < |events| ==> !events[i].Deleted? }

  /** What the task's events are, given where it is. */
  predicate OnScript(t: Task, pc: Pc, events: seq<Event>) {
    match pc
    case Counted => events == []
    case Waiting(batch) => |batch| <= COMPACT_BATCH && events == [Fetched(t, batch)]
    case Learning(batch, facts, n) =>
      |batch| <= COMPACT_BATCH && n <= |facts| && |events| >= 2 &&
      events[0] == Fetched(t, batch) && events[1] == Parsed(t, facts) && TriedUpTo(t, facts, n, events[2..])
    case Stopped => NoDeletion(events) || IsWholeScript(t, events)
  }

  ghost predicate TasksOnScript(s: State) {
    (forall t :: t in s.pcs ==> OnScript(t, s.pcs[t], Mine(s.log, t))) &&
    (forall t :: t !in s.pcs ==> Mine(s.log, t) == [])
  }

  lemma {:induction false} TriedIsNoDeletion(t: Task, facts: seq<Fact>, n: nat, events: seq<Event>)
    requires n <= |facts| && TriedUpTo(t, facts, n, events)
    ensures NoDeletion(events)
  {
    if n > 0 { TriedIsNoDeletion(t, facts, n - 1, if Kept(facts[n - 1]) then events[..|events| - 1] else events); }
  }

  lemma LearningIsNoDeletion(t: Task, pc: Pc, events: seq<Event>)
    requires pc.Learning? && OnScript(t, pc, events)
    ensures NoDeletion(events)
  {
    TriedIsNoDeletion(t, pc.facts, pc.n, events[2..]);
    assert events == events[..2] + events[2..];
  }

  /** A task moves on without an event. */
  lemma SilentMove(s: State, t: Task, pc: Pc)
    requires TasksOnScript(s) && OnScript(t, pc, Mine(s.log, t))
    ensures TasksOnScript(At(s, t, pc))
  {
    hide OnScript;
  }

  /** A task moves on with an event of its own. */
  lemma LoggedMove(s: State, t: Task, pc: Pc, e: Event)
    requires TasksOnScript(s) && e.task == t && OnScript(t, pc, Mine(s.log, t) + [e])
    ensures TasksOnScript(Logged(At(s, t, pc), e))
  {
    hide OnScript;
    forall u { MineOne(s.log, e, u); }
  }

  lemma FactMove(s: State, t: Task, stored: bool)
    requires TasksOnScript(s) && t in s.pcs && s.pcs[t].Learning? && s.pcs[t].n < |s.pcs[t].facts|
    ensures TasksOnScript(AfterFact(s, t, s.pcs[t], stored))
  {
    var pc := s.pcs[t];
    var (mine, fact) := (Mine(s.log, t), pc.facts[pc.n]);
    hide LearnFact, Kept;
    if Kept(fact) {
      var e := LearnedFact(t, fact, stored);
      assert (mine + [e])[2..] == mine[2..] + [e] && (mine[2..] + [e])[..|mine[2..]|] == mine[2..];
      LoggedMove(s.(table := AfterFact(s, t, pc, stored).table), t, pc.(n := pc.n + 1), e);
    } else {
      SilentMove(s, t, pc.(n := pc.n + 1));
    }
  }

  lemma FailMove(s: State, t: Task)
    requires TasksOnScript(s) && t in s.pcs
    ensures TasksOnScript(At(s, t, Stopped))
  {
    if s.pcs[t].Learning? { LearningIsNoDeletion(t, s.pcs[t], Mine(s.log, t)); }
    SilentMove(s, t, Stopped);
  }

  lemma DeleteMove(s: State, t: Task)
    requires TasksOnScript(s) && t in s.pcs && s.pcs[t].Learning? && s.pcs[t].n == |s.pcs[t].facts|
    ensures TasksOnScript(AfterDelete(s, t, s.pcs[t].batch))
  {
    var (pc, mine) := (s.pcs[t], Mine(s.log, t));
    var e := Deleted(t, Ids(pc.batch));
    assert (mine + [e])[2..|mine + [e]| - 1] == mine[2..];
    LoggedMove(s.(turns := Without(s.turns, Ids(pc.batch))), t, Stopped, e);
  }

  lemma StepKeepsScript(s: State, a: Action)
    requires TasksOnScript(s) && Step(s, a).Some?
    ensures TasksOnScript(Step(s, a).value)
  {
    match a {
      case Append(_) =>
      case Count(t) => SilentMove(s, t, if |s.turns| < COMPACT_THRESHOLD then Stopped else Counted);
      case Fetch(t) =>
        SilentMove(s, t, Stopped);
        LoggedMove(s, t, Waiting(Oldest(s.turns)), Fetched(t, Oldest(s.turns)));
      case Reply(t, facts) =>
        LoggedMove(s, t, Learning(s.pcs[t].batch, facts, 0), Parsed(t, facts));
      case LearnNext(t, stored) => FactMove(s, t, stored);
      case Delete(t) => DeleteMove(s, t);
      case Fail(t) => FailMove(s, t);
      case _ =>
    }
  }

  lemma {:induction false} RunKeepsScript(states: seq<State>, actions: seq<Action>, n: nat)
    requires IsRun(states, actions) && n < |states|
    ensures TasksOnScript(states[n])
  {
    if n > 0 {
      RunKeepsScript(states, actions, n - 1);
      assert Step(states[n - 1], actions[n - 1]) == Some(states[n]);
      hide Step, TasksOnScript, IsRun;
      StepKeepsScript(states[n - 1], actions[n - 1]);
    }
  }

  lemma {:induction false} MineHas(log: seq<Event>, t: Task, i: nat)
    requires i < |log| && log[i].task == t
    ensures exists j :: 0 <= j < |Mine(log, t)| && Mine(log, t)[j] == log[i]
  {
    var front := log[..|log| - 1];
    if i < |log| - 1 {
      MineHas(front, t, i);
      var j :| 0 <= j < |Mine(front, t)| && Mine(front, t)[j] == front[i];
      assert Mine(log, t)[j] == log[i];
    } else {
      assert Mine(log, t)[|Mine(front, t)|] == log[i];
    }
  }

  /** Whatever the interleaving, a task deletes only after it has fetched a batch of at most 20 turns,
      had the reply to it parsed, and handed every fact in it worth keeping to `learn`, in order - though
      it goes on when that fails; and it deletes that batch and nothing else, once. */
  lemma DeletedOnlyAfterLearning(states: seq<State>, actions: seq<Action>, n: nat, i: nat)
    requires IsRun(states, actions) && n < |states| && i < |states[n].log| && states[n].log[i].Deleted?
    ensures IsWholeScript(states[n].log[i].task, Mine(states[n].log, states[n].log[i].task))
    ensures var mine := Mine(states[n].log, states[n].log[i].task);
            states[n].log[i] == mine[|mine| - 1]
  {
    RunKeepsScript(states, actions, n);
    var (log, t) := (states[n].log, states[n].log[i].task);
    MineHas(log, t, i);
    var mine := Mine(log, t);
    var j :| 0 <= j < |mine| && mine[j] == log[i];
    if t in states[n].pcs && states[n].pcs[t].Learning? { LearningIsNoDeletion(t, states[n].pcs[t], mine); }
    if IsWholeScript(t, mine) {
      TriedIsNoDeletion(t, mine[1].facts, |mine[1].facts|, mine[2..|mine| - 1]);
      assert mine == mine[..2] + mine[2..|mine| - 1] + [mine[|mine| - 1]];
    }
  }

  lemma FetchLogs(s: State, a: Action, i: nat)
    requires Step(s, a).Some? && i < |Step(s, a).value.log| && Step(s, a).value.log[i].Fetched?
    ensures var e := Step(s, a).value.log[i];
            if i < |s.log| then e == s.log[i] else a == Fetch(e.task) && e.batch == Oldest(s.turns)
  {
    hide Oldest, Without, LearnFact, Kept;
  }

  /** Every batch fetched was the oldest turns of the session at that moment. */
  lemma {:induction false} FetchedWereOldest(states: seq<State>, actions: seq<Action>, n: nat, i: nat)
    requires IsRun(states, actions) && n < |states| && i < |states[n].log| && states[n].log[i].Fetched?
    ensures exists m :: 0 <= m < n && actions[m] == Fetch(states[n].log[i].task) &&
                        states[n].log[i].batch == Oldest(states[m].turns)
  {
    if n > 0 {
      var (s, r) := (states[n - 1], states[n]);
      assert Step(s, actions[n - 1]) == Some(r);
      FetchLogs(s, actions[n - 1], i);
      hide Step, Oldest;
      if i < |s.log| { FetchedWereOldest(states, actions, n - 1, i); }
    }
  }

  // ---------------------------------------------------------------------
  // What is known of the deleted turns
  // ---------------------------------------------------------------------

  /** Some task learned a fact under this key, and that did not fail. */
  ghost predicate StoredIn(log: seq<Event>, session: UserId, k: RowKey) {
    exists i :: 0 <= i < |log| && Stores(log[i], session, k)
  }

  predicate Stores(e: Event, session: UserId, k: RowKey) {
    e.LearnedFact? && e.stored && Kept(e.fact) && KeyOf(session, e.fact) == k
  }

  /** The rest of the program learned this key with enough confidence, among the first `n` actions. */
  ghost predicate Taught(actions: seq<Action>, n: nat, k: RowKey)
    requires n <= |actions|
  {
    exists i :: 0 <= i < n && Teaches(actions[i], k)
  }

  predicate Teaches(a: Action, k: RowKey) { a.Elsewhere? && a.k == k && a.confidence >= INFERRED_CONFIDENCE }

  lemma StoredOneMore(log: seq<Event>, e: Event, session: UserId, k: RowKey)
    ensures StoredIn(log + [e], session, k) <==> StoredIn(log, session, k) || Stores(e, session, k)
  {
    var longer := log + [e];
    assert forall i :: 0 <= i < |log| ==> longer[i] == log[i];
    assert longer[|log|] == e;
  }

  /** The step logged that a fact of this key was learned. */
  predicate StepStores(s: State, r: State, k: RowKey) {
    |r.log| > |s.log| && Stores(r.log[|s.log|], s.session, k)
  }

  lemma StepKnows(s: State, a: Action, k: RowKey)
    requires Step(s, a).Some? && a != Forget(k)
    ensures var r := Step(s, a).value;
            r.session == s.session && (Known(r.table, k) <==> Known(s.table, k) || StepStores(s, r, k) || Teaches(a, k))
  {
    hide KeyOf, Without, TextOr, Kept, Oldest;
    match a {
      case LearnNext(_, _) =>
      case Elsewhere(_, _, _) =>
      case _ =>
    }
  }

  lemma StepLogs(s: State, a: Action, k: RowKey)
    requires Step(s, a).Some?
    ensures var r := Step(s, a).value;
            StoredIn(r.log, s.session, k) <==> StoredIn(s.log, s.session, k) || StepStores(s, r, k)
  {
    hide StoredIn, KeyOf, Without, LearnFact, Stores;
    var r := Step(s, a).value;
    if |r.log| > |s.log| {
      StoredOneMore(s.log, r.log[|s.log|], s.session, k);
      assert r.log == s.log + [r.log[|s.log|]];
    } else {
      assert r.log == s.log;
    }
  }

  /** Over any run in which it is not forgotten, a key is known exactly when it was at the start, or a
      task has learned a fact of that key without failure, or the rest of the program has. */
  lemma {:induction false} KnownExactly(states: seq<State>, actions: seq<Action>, n: nat, k: RowKey)
    requires IsRun(states, actions) && n < |states| && forall i :: 0 <= i < n ==> actions[i] != Forget(k)
    ensures states[n].session == states[0].session
    ensures Known(states[n].table, k) <==>
            Known(states[0].table, k) || StoredIn(states[n].log, states[0].session, k) || Taught(actions, n, k)
  {
    if n > 0 {
      KnownExactly(states, actions, n - 1, k);
      assert Step(states[n - 1], actions[n - 1]) == Some(states[n]);
      StepKnows(states[n - 1], actions[n - 1], k);
      StepLogs(states[n - 1], actions[n - 1], k);
      hide Step, Known, StoredIn, Teaches, StepStores;
      assert Taught(actions, n, k) <==> Taught(actions, n - 1, k) || Teaches(actions[n - 1], k);
    }
  }

  /** Of the facts worth keeping in the reply to a deleted batch all are known exactly when each was known
      from the start, was learned by its task or another without failure, or was learned by the rest of
      the program - given that none was forgotten. */
  lemma DeletedBatchIsKnownExactly(states: seq<State>, actions: seq<Action>, n: nat, i: nat)
    requires IsRun(states, actions) && n < |states| && i < |states[n].log| && states[n].log[i].Deleted?
    requires forall m :: 0 <= m < n ==> !actions[m].Forget?
    ensures var (s, session) := (states[n], states[0].session);
            var mine := Mine(s.log, s.log[i].task);
            |mine| >= 3 && mine[1].Parsed? &&
            ((forall f :: f in mine[1].facts && Kept(f) ==> Known(s.table, KeyOf(session, f))) <==>
             forall f :: f in mine[1].facts && Kept(f) ==>
               var k := KeyOf(session, f);
               Known(states[0].table, k) || StoredIn(s.log, session, k) || Taught(actions, n, k))
  {
    DeletedOnlyAfterLearning(states, actions, n, i);
    hide IsRun, Known, Kept, KeyOf, StoredIn, Taught, TriedUpTo;
    var mine := Mine(states[n].log, states[n].log[i].task);
    forall f | f in mine[1].facts
      ensures var k := KeyOf(states[0].session, f);
              Known(states[n].table, k) <==>
              Known(states[0].table, k) || StoredIn(states[n].log, states[0].session, k) || Taught(actions, n, k)
    {
      KnownExactly(states, actions, n, KeyOf(states[0].session, f));
    }
  }

  // ---------------------------------------------------------------------
  // Where the turns are
  // ---------------------------------------------------------------------

  function DeletedIds(log: seq<Event>): set<nat> {
    if |log| == 0 then {}
    else DeletedIds(log[..|log| - 1]) + if log[|log| - 1].Deleted? then log[|log| - 1].ids else {}
  }

  lemma DeletedOne(log: seq<Event>, e: Event)
    ensures DeletedIds(log + [e]) == if e.Deleted? then DeletedIds(log) + e.ids else DeletedIds(log)
  {
    assert (log + [e])[..|log|] == log;
  }

  ghost predicate TurnsOk(s: State) {
    s.turns == Without(s.ever, DeletedIds(s.log)) && DistinctIds(s.turns) &&
    (forall t :: t in s.turns ==> t.id < s.nextId) &&
    (forall id :: id in DeletedIds(s.log) ==> id < s.nextId) &&
    (forall t :: t in s.pcs && (s.pcs[t].Waiting? || s.pcs[t].Learning?) ==>
       forall turn :: turn in s.pcs[t].batch ==> turn.id < s.nextId)
  }

  lemma AppendKeepsTurns(s: State, content: string)
    requires TurnsOk(s)
    ensures TurnsOk(Appended(s, content))
  {
    hide Without, DeletedIds;
    var turn := Turn(s.nextId, content);
    WithoutConcat(s.ever, [turn], DeletedIds(s.log));
    WithoutNone([turn], DeletedIds(s.log));
    assert forall i :: 0 <= i < |s.turns| ==> s.turns[i] in s.turns;
  }

  lemma DeleteKeepsTurns(s: State, t: Task, batch: seq<Turn>)
    requires TurnsOk(s) && forall turn :: turn in batch ==> turn.id < s.nextId
    ensures TurnsOk(AfterDelete(s, t, batch))
  {
    DeletedOne(s.log, Deleted(t, Ids(batch)));
    WithoutTwice(s.ever, DeletedIds(s.log), Ids(batch));
    DistinctWithout(s.turns, Ids(batch));
    forall turn | turn in Without(s.turns, Ids(batch)) ensures turn in s.turns
      { WithoutHas(s.turns, Ids(batch), turn); }
  }

  lemma FactKeepsTurns(s: State, t: Task, stored: bool)
    requires TurnsOk(s) && t in s.pcs && s.pcs[t].Learning? && s.pcs[t].n < |s.pcs[t].facts|
    ensures TurnsOk(AfterFact(s, t, s.pcs[t], stored))
  {
    hide Without, DeletedIds, Kept;
    var fact := s.pcs[t].facts[s.pcs[t].n];
    DeletedOne(s.log, LearnedFact(t, fact, stored));
    assert DeletedIds(AfterFact(s, t, s.pcs[t], stored).log) == DeletedIds(s.log);
  }

  lemma StepKeepsTurns(s: State, a: Action)
    requires TurnsOk(s) && Step(s, a).Some?
    ensures TurnsOk(Step(s, a).value)
  {
    hide Without, DeletedIds;
    match a {
      case Append(content) => AppendKeepsTurns(s, content);
      case Fetch(t) => DeletedOne(s.log, Fetched(t, Oldest(s.turns)));
      case Reply(t, facts) => DeletedOne(s.log, Parsed(t, facts));
      case LearnNext(t, stored) => FactKeepsTurns(s, t, stored);
      case Delete(t) => DeleteKeepsTurns(s, t, s.pcs[t].batch);
      case _ =>
    }
  }

  /** No turn is lost: those present are, in order, all there ever were but the ones deleted. */
  lemma {:induction false} TurnsAreConserved(states: seq<State>, actions: seq<Action>, n: nat)
    requires IsRun(states, actions) && n < |states|
    ensures TurnsOk(states[n])
  {
    if n > 0 {
      TurnsAreConserved(states, actions, n - 1);
      assert Step(states[n - 1], actions[n - 1]) == Some(states[n]);
      StepKeepsTurns(states[n - 1], actions[n - 1]);
    } else {
      WithoutNone(states[0].ever, {});
    }
  }

  // ---------------------------------------------------------------------
  // How few turns can be left
  // ---------------------------------------------------------------------

  /** Whether a task holds a batch it is going to delete. */
  predicate Pending(s: State, t: Task) { t in s.pcs && (s.pcs[t].Waiting? || s.pcs[t].Learning?) }

  /** A batch is either gone already or still the oldest 20 of at least 40. */
  ghost predicate Harmless(turns: seq<Turn>, batch: seq<Turn>) {
    (forall t :: t in turns ==> t.id !in Ids(batch)) ||
    (|turns| >= COMPACT_THRESHOLD && batch == turns[..COMPACT_BATCH])
  }

  ghost predicate AllHarmless(s: State) { forall t :: Pending(s, t) ==> Harmless(s.turns, s.pcs[t].batch) }

  lemma HarmlessAfterAppend(turns: seq<Turn>, batch: seq<Turn>, turn: Turn)
    requires Harmless(turns, batch) && forall t :: t in batch ==> t.id != turn.id
    ensures Harmless(turns + [turn], batch)
  {
    if |turns| >= COMPACT_THRESHOLD { assert (turns + [turn])[..COMPACT_BATCH] == turns[..COMPACT_BATCH]; }
  }

  /** Deleting a harmless batch leaves 20, and leaves other harmless batches harmless: they are gone, or
      were the same turns. */
  lemma DeleteHarmless(turns: seq<Turn>, batch: seq<Turn>, other: seq<Turn>)
    requires DistinctIds(turns) && Harmless(turns, batch) && Harmless(turns, other)
    ensures var left := Without(turns, Ids(batch));
            (left == turns || (|turns| >= COMPACT_THRESHOLD && |left| >= COMPACT_BATCH)) && Harmless(left, other)
  {
    var left := Without(turns, Ids(batch));
    forall t ensures t in left <==> t in turns && t.id !in Ids(batch) { WithoutHas(turns, Ids(batch), t); }
    if forall t :: t in turns ==> t.id !in Ids(batch) {
      WithoutNone(turns, Ids(batch));
    } else {
      WithoutPrefix(turns, COMPACT_BATCH);
    }
  }

  /** A fetch sees at least the threshold, as it would if it were one step with the count. */
  predicate FetchSeesEnough(s: State, a: Action) { a.Fetch? ==> |s.turns| >= COMPACT_THRESHOLD }

  lemma StepKeepsHarmless(s: State, a: Action)
    requires TurnsOk(s) && AllHarmless(s) && Step(s, a).Some? && FetchSeesEnough(s, a)
    ensures AllHarmless(Step(s, a).value)
    ensures |s.turns| >= COMPACT_BATCH ==> |Step(s, a).value.turns| >= COMPACT_BATCH
    ensures a.Delete? && |s.turns| < COMPACT_BATCH ==> Step(s, a).value.turns == s.turns
  {
    hide Without, DeletedIds, Harmless;
    var r := Step(s, a).value;
    match a {
      case Append(content) =>
        forall t | Pending(s, t) ensures Harmless(r.turns, r.pcs[t].batch) {
          HarmlessAfterAppend(s.turns, s.pcs[t].batch, Turn(s.nextId, content));
        }
      case Fetch(t) =>
        assert Harmless(s.turns, Oldest(s.turns)) by { OldestIsHarmless(s.turns); }
      case Delete(t) =>
        var batch := s.pcs[t].batch;
        DeleteHarmless(s.turns, batch, batch);
        forall u | Pending(r, u) ensures Harmless(r.turns, r.pcs[u].batch) {
          DeleteHarmless(s.turns, batch, s.pcs[u].batch);
        }
      case _ =>
    }
  }

  lemma OldestIsHarmless(turns: seq<Turn>)
    requires |turns| >= COMPACT_THRESHOLD
    ensures Harmless(turns, Oldest(turns))
  {}

  lemma {:induction false} RunKeepsHarmless(states: seq<State>, actions: seq<Action>, n: nat)
    requires IsRun(states, actions) && n < |states|
    requires forall i :: 0 <= i < n ==> FetchSeesEnough(states[i], actions[i])
    ensures AllHarmless(states[n])
  {
    if n > 0 {
      RunKeepsHarmless(states, actions, n - 1);
      TurnsAreConserved(states, actions, n - 1);
      assert Step(states[n - 1], actions[n - 1]) == Some(states[n]);
      StepKeepsHarmless(states[n - 1], actions[n - 1]);
    }
  }

  /** If every fetch sees the 40 turns its task counted, overlapping compactions never leave a session
      with fewer than 20 turns: their batches coincide. */
  lemma CompactionLeavesTwenty(states: seq<State>, actions: seq<Action>, n: nat)
    requires IsRun(states, actions) && n < |actions|
    requires forall i :: 0 <= i <= n ==> FetchSeesEnough(states[i], actions[i])
    ensures |states[n + 1].turns| < |states[n].turns| ==> |states[n + 1].turns| >= COMPACT_BATCH
  {
    RunKeepsHarmless(states, actions, n);
    TurnsAreConserved(states, actions, n);
    assert Step(states[n], actions[n]) == Some(states[n + 1]);
    StepKeepsHarmless(states[n], actions[n]);
  }

  /** The state after a list of actions, if they are all possible. */
  function After(s: State, actions: seq<Action>): Option<State>
    decreases |actions|
  {
    if |actions| == 0 then Some(s)
    else match After(s, actions[..|actions| - 1])
         case None => None
         case Some(r) => Step(r, actions[|actions| - 1])
  }

  lemma AfterOne(s: State, actions: seq<Action>, a: Action)
    requires After(s, actions).Some?
    ensures After(s, actions + [a]) == Step(After(s, actions).value, a)
  {
    hide Step;
    assert (actions + [a])[..|actions|] == actions;
  }

  /** What a counted task leaves behind when it goes through, its reply holding no facts. */
  function Through(s: State, t: Task): State {
    var batch := Oldest(s.turns);
    AfterDelete(AfterReply(AfterFetch(s, t), t, batch, []), t, batch)
  }

  predicate Unmoved(s: State, t: Task, u: Task) {
    (u in s.pcs <==> u in Through(s, t).pcs) && (u in s.pcs ==> Through(s, t).pcs[u] == s.pcs[u])
  }

  lemma ThroughIs(s: State, t: Task)
    requires TurnsOk(s) && t in s.pcs && s.pcs[t].Counted? && |s.turns| > 0
    ensures TurnsOk(Through(s, t)) && Through(s, t).turns == s.turns[|Oldest(s.turns)|..]
    ensures forall u :: u != t ==> Unmoved(s, t, u)
  {
    hide Without, DeletedIds;
    var batch := Oldest(s.turns);
    StepKeepsTurns(s, Fetch(t));
    StepKeepsTurns(AfterFetch(s, t), Reply(t, []));
    StepKeepsTurns(AfterReply(AfterFetch(s, t), t, batch, []), Delete(t));
    assert batch == s.turns[..|batch|];
    WithoutPrefix(s.turns, |batch|);
  }

  lemma ThreeSteps(s: State, t: Task)
    requires t in s.pcs && s.pcs[t].Counted? && |s.turns| > 0
    ensures Step(s, Fetch(t)).Some? && Step(Step(s, Fetch(t)).value, Reply(t, [])).Some?
    ensures Step(Step(Step(s, Fetch(t)).value, Reply(t, [])).value, Delete(t)) == Some(Through(s, t))
  {
    hide Without;
  }

  lemma GoesThrough(s: State, earlier: seq<Action>, t: Task)
    requires After(s, earlier).Some?
    requires var m := After(s, earlier).value; t in m.pcs && m.pcs[t].Counted? && |m.turns| > 0
    ensures After(s, earlier + [Fetch(t)] + [Reply(t, [])] + [Delete(t)]) == Some(Through(After(s, earlier).value, t))
  {
    hide Step, Through, After;
    ThreeSteps(After(s, earlier).value, t);
    AfterOne(s, earlier, Fetch(t));
    AfterOne(s, earlier + [Fetch(t)], Reply(t, []));
    AfterOne(s, earlier + [Fetch(t)] + [Reply(t, [])], Delete(t));
  }

  /** And that is needed: from any state, a counted task whose fetch sees some but fewer than 40 turns
      can go on to delete, and then leaves fewer than 20. */
  lemma LateFetchLeavesFewer(s: State, t: Task)
    requires TurnsOk(s) && t in s.pcs && s.pcs[t].Counted? && 0 < |s.turns| < COMPACT_THRESHOLD
    ensures var r := After(s, [Fetch(t), Reply(t, []), Delete(t)]);
            r.Some? && |r.value.turns| < COMPACT_BATCH && |r.value.turns| < |s.turns|
  {
    hide Step, Through, TurnsOk;
    GoesThrough(s, [], t);
    ThroughIs(s, t);
    assert [] + [Fetch(t)] + [Reply(t, [])] + [Delete(t)] == [Fetch(t), Reply(t, []), Delete(t)];
  }

  // --- a compaction that nothing disturbs -------------------------------------

  /** The calls of `learn` for the first `n` facts. */
  function LearnAll(t: Task, stores: nat -> bool, n: nat): seq<Action> {
    if n == 0 then [] else LearnAll(t, stores, n - 1) + [LearnNext(t, stores(n - 1))]
  }

  lemma {:induction false} LearnsAll(s: State, earlier: seq<Action>, m: State, t: Task, stores: nat -> bool, n: nat)
    requires After(s, earlier) == Some(m) && t in m.pcs && m.pcs[t].Learning? && m.pcs[t].n == 0
    requires n <= |m.pcs[t].facts|
    ensures var r := After(s, earlier + LearnAll(t, stores, n));
            r.Some? && r.value.turns == m.turns && t in r.value.pcs && r.value.pcs[t] == m.pcs[t].(n := n) &&
            r.value.session == m.session && r.value.table == AfterFacts(m.table, m.session, m.pcs[t].facts, stores, n)
  {
    hide After, KeyOf, Learned, Refuses;
    if n == 0 {
      NothingAdded(earlier);
    } else {
      LearnsAll(s, earlier, m, t, stores, n - 1);
      var before := earlier + LearnAll(t, stores, n - 1);
      AfterOne(s, before, LearnNext(t, stores(n - 1)));
      Associative(earlier, LearnAll(t, stores, n - 1), [LearnNext(t, stores(n - 1))]);
    }
  }

  /** One task from its count to its end, with nothing in between, is one compaction: it leaves the turns and
      the table that `Compacted` does. */
  lemma UndisturbedIsCompacted(s: State, t: Task, facts: seq<Fact>, stores: nat -> bool)
    requires TurnsOk(s) && t !in s.pcs && |s.turns| >= COMPACT_THRESHOLD
    ensures var r := After(s, [Count(t)] + [Fetch(t)] + [Reply(t, facts)] + LearnAll(t, stores, |facts|) + [Delete(t)]);
            var c := Compacted(s.session, s.turns, s.table, Some(facts), stores);
            r.Some? && r.value.turns == c.turns && r.value.table == c.table && r.value.pcs[t] == Stopped
  {
    hide After, TurnsOk, AfterFacts, LearnAll, Without, KeptCount;
    var batch := Oldest(s.turns);
    var told := AfterReply(AfterFetch(At(s, t, Counted), t), t, batch, facts);
    AfterNothing(s);
    AfterOne(s, [], Count(t));
    assert [] + [Count(t)] == [Count(t)];
    AfterOne(s, [Count(t)], Fetch(t));
    AfterOne(s, [Count(t)] + [Fetch(t)], Reply(t, facts));
    LearnsAll(s, [Count(t)] + [Fetch(t)] + [Reply(t, facts)], told, t, stores, |facts|);
    AfterOne(s, [Count(t)] + [Fetch(t)] + [Reply(t, facts)] + LearnAll(t, stores, |facts|), Delete(t));
    TurnsAreDistinct(s);
    WithoutPrefix(s.turns, COMPACT_BATCH);
  }

  /** And a batch does go without its facts: from any state, a counted task can fetch its batch, be told
      of a new fact, fail to learn it and delete the batch, with the fact nowhere in the table. */
  lemma DeletedUnlearned(s: State, t: Task, fact: Fact)
    requires TurnsOk(s) && t in s.pcs && s.pcs[t].Counted? && |s.turns| > 0
    requires Kept(fact) && KeyOf(s.session, fact) !in s.table
    ensures var r := After(s, [Fetch(t)] + [Reply(t, [fact])] + [LearnNext(t, false)] + [Delete(t)]);
            r.Some? && r.value.turns == s.turns[|Oldest(s.turns)|..] && |r.value.turns| < |s.turns| &&
            r.value.log == s.log + [Fetched(t, Oldest(s.turns)), Parsed(t, [fact]), LearnedFact(t, fact, false),
                                    Deleted(t, Ids(Oldest(s.turns)))] &&
            KeyOf(s.session, fact) !in r.value.table
  {
    hide Without, TurnsOk, KeyOf, Kept, After;
    var batch := Oldest(s.turns);
    var fetched := AfterFetch(s, t);
    var told := AfterReply(fetched, t, batch, [fact]);
    var failed := AfterFact(told, t, told.pcs[t], false);
    AfterNothing(s);
    AfterOne(s, [], Fetch(t));
    AfterOne(s, [] + [Fetch(t)], Reply(t, [fact]));
    AfterOne(s, [] + [Fetch(t)] + [Reply(t, [fact])], LearnNext(t, false));
    AfterOne(s, [] + [Fetch(t)] + [Reply(t, [fact])] + [LearnNext(t, false)], Delete(t));
    assert [] + [Fetch(t)] == [Fetch(t)];
    assert s.turns[..|batch|] == batch;
    assert DistinctIds(s.turns) by { TurnsAreDistinct(s); }
    WithoutPrefix(s.turns, |batch|);
  }

  lemma TurnsAreDistinct(s: State)
    requires TurnsOk(s)
    ensures DistinctIds(s.turns)
  {}

  lemma AfterNothing(s: State)
    ensures After(s, []) == Some(s)
  {}

  /** Two tasks that have both counted go through one after the other. */
  lemma BothThrough(s: State, earlier: seq<Action>, m: State, t: Task, u: Task)
    requires After(s, earlier) == Some(m) && TurnsOk(m) && t != u
    requires t in m.pcs && m.pcs[t].Counted? && u in m.pcs && m.pcs[u].Counted? && |m.turns| == COMPACT_THRESHOLD
    ensures exists actions :: After(s, actions).Some? && After(s, actions).value.turns == []
  {
    hide Step, Through, TurnsOk, After;
    GoesThrough(s, earlier, t);
    ThroughIs(m, t);
    assert Unmoved(m, t, u);
    var once := earlier + [Fetch(t)] + [Reply(t, [])] + [Delete(t)];
    GoesThrough(s, once, u);
    ThroughIs(Through(m, t), u);
    assert After(s, once + [Fetch(u)] + [Reply(u, [])] + [Delete(u)]).value.turns == [];
  }

  /** Counting and fetching are separate steps in the program, so such a state is reached: two tasks
      count 40 turns, the first compacts, and the second then fetches and deletes the 20 that are left. */
  lemma SeparateFetchCanEmpty(turns: seq<Turn>)
    requires |turns| == COMPACT_THRESHOLD && DistinctIds(turns) && forall t :: t in turns ==> t.id < 1000
    ensures exists s, actions :: IsInitial(s) && s.turns == turns &&
                                 After(s, actions).Some? && After(s, actions).value.turns == []
  {
    var s := State(turns, 1000, map[], turns, [], "", map[]);
    var m := At(At(s, 0, Counted), 1, Counted);
    TwoCounts(s, m);
    WithoutNone(turns, {});
    BothThrough(s, [Count(0)] + [Count(1)], m, 0, 1);
  }

  lemma TwoCounts(s: State, m: State)
    requires s.pcs == map[] && |s.turns| >= COMPACT_THRESHOLD && m == At(At(s, 0, Counted), 1, Counted)
    ensures After(s, [Count(0)] + [Count(1)]) == Some(m)
  {
    assert [] + [Count(0)] == [Count(0)];
    AfterOne(s, [], Count(0));
    AfterOne(s, [Count(0)], Count(1));
  }
}
