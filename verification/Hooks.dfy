/** The hook registry: priority order that keeps registration order, and the payload chain. */
module Hooks {
  import opened Prelude
  import opened Stream

  datatype Event =
    | MessageReceived | MessageSent | ToolCallEvent | ToolResultEvent | AgentStart | AgentComplete
    | SessionStart | SessionEnd | LlmInput | LlmOutput | LlmError

  datatype Timing = Before | After

  datatype Hook = Hook(name: string, event: Event, timing: Timing, handler: nat, priority: int)

  datatype Context = Context(event: Event, payload: Value, userId: Option<string>, channel: Option<string>)

  datatype Action = Allow | Block(reason: string) | Modify(payload: Value)

  /** What each handler answers. */
  type Handlers = (Hook, Context) -> Action

  // ---------------------------------------------------------------------
  // Stable sorting by priority
  // ---------------------------------------------------------------------

  /** Puts a hook behind every hook of the same or a lower priority value. */
  function Insert(hooks: seq<Hook>, h: Hook): seq<Hook> {
    if hooks == [] || hooks[|hooks| - 1].priority <= h.priority then hooks + [h]
    else Insert(hooks[..|hooks| - 1], h) + [hooks[|hooks| - 1]]
  }

  function StableSort(hooks: seq<Hook>): seq<Hook> {
    if hooks == [] then [] else Insert(StableSort(hooks[..|hooks| - 1]), hooks[|hooks| - 1])
  }

  predicate Sorted(hooks: seq<Hook>) {
    forall i, j :: 0 <= i < j < |hooks| ==> hooks[i].priority <= hooks[j].priority
  }

  /** The hooks of one priority, in order. */
  function OfPriority(hooks: seq<Hook>, p: int): seq<Hook> {
    if hooks == [] then []
    else
      var (front, last) := (OfPriority(hooks[..|hooks| - 1], p), hooks[|hooks| - 1]);
      if last.priority == p then front + [last] else front
  }

  /** The same hooks of every priority, in the same order. */
  ghost predicate SameOrder(a: seq<Hook>, b: seq<Hook>) {
    forall p :: OfPriority(a, p) == OfPriority(b, p)
  }

  lemma OfPriorityAppend(hooks: seq<Hook>, h: Hook, p: int)
    ensures OfPriority(hooks + [h], p) == if h.priority == p then OfPriority(hooks, p) + [h] else OfPriority(hooks, p)
  {
    assert (hooks + [h])[..|hooks|] == hooks;
  }

  lemma {:induction false} HigherHasNone(hooks: seq<Hook>, p: int)
    requires forall i :: 0 <= i < |hooks| ==> hooks[i].priority != p
    ensures OfPriority(hooks, p) == []
  {
    if hooks != [] { HigherHasNone(hooks[..|hooks| - 1], p); }
  }

  lemma {:induction false} InsertSorts(hooks: seq<Hook>, h: Hook)
    requires Sorted(hooks)
    ensures Sorted(Insert(hooks, h))
    ensures forall x :: x in Insert(hooks, h) ==> x == h || x in hooks
  {
    if hooks != [] && hooks[|hooks| - 1].priority > h.priority {
      var (front, last) := (hooks[..|hooks| - 1], hooks[|hooks| - 1]);
      InsertSorts(front, h);
      forall i | 0 <= i < |Insert(front, h)| ensures Insert(front, h)[i].priority <= last.priority {
        assert Insert(front, h)[i] in Insert(front, h);
      }
    }
  }

  lemma {:induction false} InsertKeepsOrder(hooks: seq<Hook>, h: Hook, p: int)
    ensures OfPriority(Insert(hooks, h), p) == OfPriority(hooks + [h], p)
  {
    OfPriorityAppend(hooks, h, p);
    if hooks != [] && hooks[|hooks| - 1].priority > h.priority {
      var (front, last) := (hooks[..|hooks| - 1], hooks[|hooks| - 1]);
      InsertKeepsOrder(front, h, p);
      OfPriorityAppend(front, h, p);
      OfPriorityAppend(Insert(front, h), last, p);
    }
  }

  /** The result is sorted, and hooks of equal priority keep their order. */
  lemma {:induction false} StableSortIsStable(hooks: seq<Hook>)
    ensures Sorted(StableSort(hooks)) && SameOrder(StableSort(hooks), hooks)
  {
    if hooks != [] {
      var (front, last) := (hooks[..|hooks| - 1], hooks[|hooks| - 1]);
      StableSortIsStable(front);
      InsertSorts(StableSort(front), last);
      forall p ensures OfPriority(StableSort(hooks), p) == OfPriority(hooks, p) {
        InsertKeepsOrder(StableSort(front), last, p);
        OfPriorityAppend(StableSort(front), last, p);
        OfPriorityAppend(front, last, p);
        assert front + [last] == hooks;
      }
    }
  }

  /** There is only one sorted list with a given order within each priority, so any stable sort
      computes this one. */
  lemma {:induction false} StableSortIsUnique(a: seq<Hook>, b: seq<Hook>)
    requires Sorted(a) && Sorted(b) && SameOrder(a, b)
    ensures a == b
    decreases |a|
  {
    assert a != [] ==> OfPriority(b, a[|a| - 1].priority) == OfPriority(a, a[|a| - 1].priority) != [];
    assert b != [] ==> OfPriority(a, b[|b| - 1].priority) == OfPriority(b, b[|b| - 1].priority) != [];
    if a != [] && b != [] {
      var (x, y) := (a[|a| - 1], b[|b| - 1]);
      LastIsHighest(a, b);
      LastIsHighest(b, a);
      var (r, s) := (OfPriority(a, x.priority), OfPriority(b, x.priority));
      assert r[|r| - 1] == x && s[|s| - 1] == y;
      var (f, g) := (a[..|a| - 1], b[..|b| - 1]);
      forall p ensures OfPriority(f, p) == OfPriority(g, p) {
        assert OfPriority(a, p) == OfPriority(b, p);
        if p == x.priority {
          assert OfPriority(f, p) == OfPriority(a, p)[..|OfPriority(a, p)| - 1];
          assert OfPriority(g, p) == OfPriority(b, p)[..|OfPriority(b, p)| - 1];
        }
      }
      StableSortIsUnique(f, g);
      assert a == f + [x] && b == g + [y];
    }
  }

  lemma LastIsHighest(a: seq<Hook>, b: seq<Hook>)
    requires Sorted(a) && Sorted(b) && SameOrder(a, b) && a != [] && b != []
    ensures a[|a| - 1].priority <= b[|b| - 1].priority
  {
    var p := a[|a| - 1].priority;
    assert OfPriority(a, p) != [];
    if p > b[|b| - 1].priority { HigherHasNone(b, p); }
  }

  lemma {:induction false} InsertSplits(hooks: seq<Hook>, h: Hook) returns (k: nat)
    requires Sorted(hooks)
    ensures k <= |hooks| && Insert(hooks, h) == hooks[..k] + [h] + hooks[k..]
    ensures forall i :: 0 <= i < k ==> hooks[i].priority <= h.priority
    ensures forall i :: k <= i < |hooks| ==> hooks[i].priority > h.priority
  {
    if hooks == [] || hooks[|hooks| - 1].priority <= h.priority {
      k := |hooks|;
    } else {
      var (front, last) := (hooks[..|hooks| - 1], hooks[|hooks| - 1]);
      k := InsertSplits(front, h);
      hide Insert;
      assert hooks[..k] == front[..k] && hooks[k..] == front[k..] + [last];
      assert forall i :: 0 <= i < |front| ==> hooks[i] == front[i];
    }
  }

  /** Sorting a sorted list with one more hook at its end inserts that hook. */
  lemma SortInserts(hooks: seq<Hook>, h: Hook) returns (k: nat)
    requires Sorted(hooks)
    ensures k <= |hooks| && StableSort(hooks + [h]) == hooks[..k] + [h] + hooks[k..]
    ensures forall i :: 0 <= i < k ==> hooks[i].priority <= h.priority
    ensures forall i :: k <= i < |hooks| ==> hooks[i].priority > h.priority
  {
    assert (hooks + [h])[..|hooks|] == hooks;
    StableSortIsStable(hooks);
    StableSortIsUnique(StableSort(hooks), hooks);
    k := InsertSplits(hooks, h);
  }

  // ---------------------------------------------------------------------
  // The registry
  // ---------------------------------------------------------------------

  /** The hooks not of that name, in order. */
  function Retain(hooks: seq<Hook>, name: string): seq<Hook> {
    if hooks == [] then []
    else
      var (front, last) := (Retain(hooks[..|hooks| - 1], name), hooks[|hooks| - 1]);
      if last.name != name then front + [last] else front
  }

  /** The hooks of an event and timing, in order. */
  function Matching(hooks: seq<Hook>, event: Event, timing: Timing): seq<Hook> {
    if hooks == [] then []
    else
      var (front, last) := (Matching(hooks[..|hooks| - 1], event, timing), hooks[|hooks| - 1]);
      if last.event == event && last.timing == timing then front + [last] else front
  }

  function Apply(ctx: Context, action: Action): Context {
    if action.Modify? then ctx.(payload := action.payload) else ctx
  }

  /** `seen` are the contexts the handlers were given, in order: each the one before with the
      payload its handler set, up to the first block. */
  ghost predicate Chain(handle: Handlers, hooks: seq<Hook>, ctx: Context, seen: seq<Context>) {
    seen != [] && seen[0] == ctx && |seen| <= |hooks| + 1 &&
    forall i :: 0 <= i < |seen| - 1 ==>
      !handle(hooks[i], seen[i]).Block? && seen[i + 1] == Apply(seen[i], handle(hooks[i], seen[i]))
  }

  /** The outcome of a chain: blocked by the next handler, or allowed with the last context. */
  ghost predicate Concludes(handle: Handlers, hooks: seq<Hook>, seen: seq<Context>, action: Action, out: Context)
    requires seen != []
  {
    var k := |seen| - 1;
    out == seen[k] &&
    (if k < |hooks| then action.Block? && action == handle(hooks[k], seen[k])
     else k == |hooks| && action == Allow)
  }

  lemma ChainGrows(handle: Handlers, hooks: seq<Hook>, ctx: Context, seen: seq<Context>)
    requires Chain(handle, hooks, ctx, seen) && |seen| - 1 < |hooks|
    requires !handle(hooks[|seen| - 1], seen[|seen| - 1]).Block?
    ensures Chain(handle, hooks, ctx, seen + [Apply(seen[|seen| - 1], handle(hooks[|seen| - 1], seen[|seen| - 1]))])
  {
    var n := |seen| - 1;
    var more := seen + [Apply(seen[n], handle(hooks[n], seen[n]))];
    forall i | 0 <= i < |more| - 1
      ensures !handle(hooks[i], more[i]).Block? && more[i + 1] == Apply(more[i], handle(hooks[i], more[i]))
    {
      assert more[i] == seen[i];
      if i < n { assert seen[i + 1] == Apply(seen[i], handle(hooks[i], seen[i])); }
    }
  }

  // --- what emitting is to do, without reference to how it does it -----------

  /** `called` are, in list order, the hooks of that event and timing. */
  ghost predicate AreCalled(hooks: seq<Hook>, event: Event, timing: Timing, called: seq<Hook>) {
    exists at :: CallsAt(hooks, event, timing, at, called)
  }

  ghost predicate CallsAt(hooks: seq<Hook>, event: Event, timing: Timing, at: seq<nat>, called: seq<Hook>) {
    Keeps(hooks, (h: Hook) => h.event == event && h.timing == timing, at, called)
  }

  /** `p` is the payload of the last answer that modifies it, or the original when none does. */
  ghost predicate IsLatest(original: Value, answers: seq<Action>, p: Value) {
    (p == original && forall j :: 0 <= j < |answers| ==> !answers[j].Modify?) ||
    exists i :: 0 <= i < |answers| && answers[i] == Modify(p) && forall j :: i < j < |answers| ==> !answers[j].Modify?
  }

  /** The `k`-th of the handlers called was given the payload left by the answers before its own. */
  ghost predicate Answers(handle: Handlers, ctx: Context, called: seq<Hook>, answers: seq<Action>, k: nat)
    requires k < |answers| <= |called|
  {
    exists p :: IsLatest(ctx.payload, answers[..k], p) && answers[k] == handle(called[k], ctx.(payload := p))
  }

  /** The hooks called answered in turn, each on the payload left by the ones before it, up to the first
      that blocked; that is the outcome, or else to allow; `out` has the payload left in the end. */
  ghost predicate BeforeRan(handle: Handlers, called: seq<Hook>, ctx: Context, action: Action, out: Context) {
    exists answers: seq<Action> :: |answers| <= |called| && RanAs(handle, called, ctx, answers, action, out)
  }

  ghost predicate RanAs(handle: Handlers, called: seq<Hook>, ctx: Context, answers: seq<Action>,
      action: Action, out: Context)
    requires |answers| <= |called|
  {
    (forall k :: 0 <= k < |answers| ==> Answers(handle, ctx, called, answers, k)) &&
    (forall k :: 0 <= k < |answers| - 1 ==> !answers[k].Block?) &&
    (if |answers| > 0 && answers[|answers| - 1].Block? then action == answers[|answers| - 1]
     else |answers| == |called| && action == Allow) &&
    out == ctx.(payload := out.payload) && IsLatest(ctx.payload, answers, out.payload)
  }

  lemma LatestOneMore(original: Value, answers: seq<Action>, p: Value, a: Action)
    requires IsLatest(original, answers, p)
    ensures IsLatest(original, answers + [a], if a.Modify? then a.payload else p)
  {
    var more := answers + [a];
    if a.Modify? {
      assert more[|answers|] == a;
    } else if !(p == original && forall j :: 0 <= j < |answers| ==> !answers[j].Modify?) {
      var i :| 0 <= i < |answers| && answers[i] == Modify(p) && forall j :: i < j < |answers| ==> !answers[j].Modify?;
      assert more[i] == Modify(p);
    }
  }

  /** The answers of a chain's handlers. */
  function AnswersOf(handle: Handlers, hooks: seq<Hook>, seen: seq<Context>, n: nat): (answers: seq<Action>)
    requires n <= |seen| && n <= |hooks|
    ensures |answers| == n && forall k :: 0 <= k < n ==> answers[k] == handle(hooks[k], seen[k])
  {
    seq(n, k requires 0 <= k < n => handle(hooks[k], seen[k]))
  }

  /** Every context of a chain has the payload its handlers left so far. */
  lemma {:induction false} ChainIsLatest(handle: Handlers, hooks: seq<Hook>, ctx: Context, seen: seq<Context>, k: nat)
    requires Chain(handle, hooks, ctx, seen) && k < |seen|
    ensures seen[k] == ctx.(payload := seen[k].payload)
    ensures k <= |hooks| && IsLatest(ctx.payload, AnswersOf(handle, hooks, seen, k), seen[k].payload)
  {
    if k > 0 {
      ChainIsLatest(handle, hooks, ctx, seen, k - 1);
      var before := AnswersOf(handle, hooks, seen, k - 1);
      LatestOneMore(ctx.payload, before, seen[k - 1].payload, handle(hooks[k - 1], seen[k - 1]));
      assert AnswersOf(handle, hooks, seen, k) == before + [handle(hooks[k - 1], seen[k - 1])];
      hide IsLatest;
    }
  }

  lemma ChainRan(handle: Handlers, hooks: seq<Hook>, ctx: Context, seen: seq<Context>, action: Action, out: Context)
    requires Chain(handle, hooks, ctx, seen) && Concludes(handle, hooks, seen, action, out)
    ensures BeforeRan(handle, hooks, ctx, action, out)
  {
    hide IsLatest;
    var n := |seen| - 1;
    ChainIsLatest(handle, hooks, ctx, seen, n);
    var m := if n < |hooks| then n + 1 else n;
    var answers := AnswersOf(handle, hooks, seen, m);
    forall k | 0 <= k < m ensures Answers(handle, ctx, hooks, answers, k) {
      ChainIsLatest(handle, hooks, ctx, seen, k);
      assert answers[..k] == AnswersOf(handle, hooks, seen, k);
    }
    if n < |hooks| {
      LatestOneMore(ctx.payload, AnswersOf(handle, hooks, seen, n), out.payload, action);
      assert answers == AnswersOf(handle, hooks, seen, n) + [action];
    }
    assert RanAs(handle, hooks, ctx, answers, action, out);
  }

  lemma CallsOneMore(hooks: seq<Hook>, h: Hook, event: Event, timing: Timing, at: seq<nat>, called: seq<Hook>)
    requires CallsAt(hooks, event, timing, at, called)
    ensures if h.event == event && h.timing == timing
            then CallsAt(hooks + [h], event, timing, at + [|hooks|], called + [h])
            else CallsAt(hooks + [h], event, timing, at, called)
  {
    KeepsOneMore(hooks, (x: Hook) => x.event == event && x.timing == timing, at, called, h);
    hide Keeps;
  }

  lemma {:induction false} MatchingSelects(hooks: seq<Hook>, event: Event, timing: Timing) returns (at: seq<nat>)
    ensures CallsAt(hooks, event, timing, at, Matching(hooks, event, timing))
  {
    at := [];
    if hooks != [] {
      var (front, last) := (hooks[..|hooks| - 1], hooks[|hooks| - 1]);
      at := MatchingSelects(front, event, timing);
      CallsOneMore(front, last, event, timing, at, Matching(front, event, timing));
      MatchingOne(front, last, event, timing);
      assert hooks == front + [last];
      hide CallsAt, Matching;
      NothingAdded(Matching(front, event, timing));
      if last.event == event && last.timing == timing { at := at + [|front|]; }
    }
  }

  lemma MatchingOne(hooks: seq<Hook>, h: Hook, event: Event, timing: Timing)
    ensures Matching(hooks + [h], event, timing) ==
            Matching(hooks, event, timing) + (if h.event == event && h.timing == timing then [h] else [])
  {
    assert (hooks + [h])[..|hooks|] == hooks;
  }

  class Registry {
    /** Sorted by priority, in registration order within a priority. */
    var hooks: seq<Hook>

    ghost predicate Valid()
      reads this
    {
      Sorted(hooks)
    }

    constructor ()
      ensures Valid() && hooks == []
    {
      hooks := [];
    }

    /** The new hook stands behind every hook of its own or a lower priority value and before all the
        others, which keep their places. */
    method Register(h: Hook)
      requires Valid()
      modifies this
      ensures Valid() && hooks == StableSort(old(hooks) + [h])
      ensures exists k :: 0 <= k <= |old(hooks)| && hooks == old(hooks)[..k] + [h] + old(hooks)[k..] &&
                (forall i :: 0 <= i < k ==> old(hooks)[i].priority <= h.priority) &&
                (forall i :: k <= i < |old(hooks)| ==> old(hooks)[i].priority > h.priority)
    {
      ghost var k := SortInserts(hooks, h);
      hooks := hooks + [h];
      StableSortIsStable(hooks);
      hooks := StableSort(hooks);
    }

    /** Exactly the hooks of that name go; the others keep their order. */
    method Unregister(name: string)
      requires Valid()
      modifies this
      ensures Valid() && hooks == Retain(old(hooks), name)
      ensures exists at :: Selects(old(hooks), at, hooks) &&
                forall i: nat :: i in at <==> i < |old(hooks)| && old(hooks)[i].name != name
    {
      RetainSorted(hooks, name);
      ghost var at := RetainSelects(hooks, name);
      var kept: seq<Hook> := [];
      for i := 0 to |hooks|
        invariant hooks == old(hooks) && kept == Retain(hooks[..i], name)
      {
        assert hooks[..i + 1][..i] == hooks[..i];
        if hooks[i].name != name { kept := kept + [hooks[i]]; }
      }
      assert hooks[..|hooks|] == hooks;
      hooks := kept;
    }

    /** Runs the Before hooks of the event, each on the payload the ones before it left, up to the
        first that blocks. */
    method EmitBefore(handle: Handlers, ctx: Context) returns (action: Action, out: Context)
      ensures exists seen :: Chain(handle, Matching(hooks, ctx.event, Before), ctx, seen) &&
                             Concludes(handle, Matching(hooks, ctx.event, Before), seen, action, out)
      ensures !action.Modify? && out == ctx.(payload := out.payload)
      ensures exists called :: AreCalled(hooks, ctx.event, Before, called) &&
                               BeforeRan(handle, called, ctx, action, out)
    {
      hide BeforeRan, AreCalled;
      MatchingAreCalled(hooks, ctx.event, Before);
      out := ctx;
      ghost var seen := [ctx];
      ghost var matching := Matching(hooks, ctx.event, Before);
      for i := 0 to |hooks|
        invariant Chain(handle, matching, ctx, seen) && out == seen[|seen| - 1]
        invariant out == ctx.(payload := out.payload)
        invariant |seen| - 1 == |Matching(hooks[..i], ctx.event, Before)|
        invariant Matching(hooks[..i], ctx.event, Before) <= matching
      {
        MatchingPrefix(hooks, i + 1, ctx.event, Before);
        assert hooks[..i + 1][..i] == hooks[..i];
        if hooks[i].event != ctx.event || hooks[i].timing != Before { continue; }
        var answer := handle(hooks[i], out);
        assert matching[|seen| - 1] == hooks[i];
        if answer.Block? {
          ChainRan(handle, matching, ctx, seen, answer, out);
          return answer, out;
        }
        ChainGrows(handle, matching, ctx, seen);
        out := Apply(out, answer);
        seen := seen + [out];
      }
      assert hooks[..|hooks|] == hooks;
      action := Allow;
      ChainRan(handle, matching, ctx, seen, action, out);
    }

    /** Runs the Before hooks; unless one blocked, starts every After hook of the event on the
        final payload.  `started` are the After hooks started, with what they were given. */
    method Emit(handle: Handlers, ctx: Context) returns (action: Action, started: seq<(Hook, Context)>)
      ensures exists seen, out ::
                Chain(handle, Matching(hooks, ctx.event, Before), ctx, seen) &&
                Concludes(handle, Matching(hooks, ctx.event, Before), seen, action, out) &&
                started == if action.Block? then [] else Started(Matching(hooks, ctx.event, After), out)
      ensures exists called, out :: AreCalled(hooks, ctx.event, Before, called) &&
                                    BeforeRan(handle, called, ctx, action, out) &&
                                    AfterStarted(hooks, out, action, started)
    {
      hide BeforeRan, AreCalled;
      MatchingAreCalled(hooks, ctx.event, After);
      var out;
      action, out := EmitBefore(handle, ctx);
      started := [];
      if action.Block? { return; }
      for i := 0 to |hooks|
        invariant started == Started(Matching(hooks[..i], ctx.event, After), out)
      {
        assert hooks[..i + 1][..i] == hooks[..i];
        if hooks[i].event == out.event && hooks[i].timing == After { started := started + [(hooks[i], out)]; }
      }
      assert hooks[..|hooks|] == hooks;
    }
  }

  /** After a block nothing is started; otherwise every After hook of the event, each on `ctx`. */
  ghost predicate AfterStarted(hooks: seq<Hook>, ctx: Context, action: Action, started: seq<(Hook, Context)>) {
    if action.Block? then started == []
    else exists called :: AreCalled(hooks, ctx.event, After, called) && |started| == |called| &&
                          forall k :: 0 <= k < |called| ==> started[k] == (called[k], ctx)
  }

  lemma MatchingAreCalled(hooks: seq<Hook>, event: Event, timing: Timing)
    ensures AreCalled(hooks, event, timing, Matching(hooks, event, timing))
  {
    var at := MatchingSelects(hooks, event, timing);
  }

  function Started(hooks: seq<Hook>, ctx: Context): (r: seq<(Hook, Context)>)
    ensures |r| == |hooks| && forall i :: 0 <= i < |hooks| ==> r[i] == (hooks[i], ctx)
  {
    seq(|hooks|, i requires 0 <= i < |hooks| => (hooks[i], ctx))
  }

  lemma {:induction false} MatchingPrefix(hooks: seq<Hook>, n: nat, event: Event, timing: Timing)
    requires n <= |hooks|
    ensures Matching(hooks[..n], event, timing) <= Matching(hooks, event, timing)
  {
    if n < |hooks| {
      MatchingPrefix(hooks[..|hooks| - 1], n, event, timing);
      assert hooks[..|hooks| - 1][..n] == hooks[..n];
    } else {
      assert hooks[..n] == hooks;
    }
  }

  lemma {:induction false} RetainSorted(hooks: seq<Hook>, name: string)
    requires Sorted(hooks)
    ensures Sorted(Retain(hooks, name))
    ensures forall x :: x in Retain(hooks, name) <==> x in hooks && x.name != name
  {
    if hooks != [] {
      RetainSorted(hooks[..|hooks| - 1], name);
      assert hooks == hooks[..|hooks| - 1] + [hooks[|hooks| - 1]];
    }
  }

  lemma {:induction false} RetainSelects(hooks: seq<Hook>, name: string) returns (at: seq<nat>)
    ensures Selects(hooks, at, Retain(hooks, name))
    ensures forall i: nat :: i in at <==> i < |hooks| && hooks[i].name != name
  {
    at := [];
    if hooks != [] {
      var (front, last) := (hooks[..|hooks| - 1], hooks[|hooks| - 1]);
      at := RetainSelects(front, name);
      SelectsOneMore(front, at, Retain(front, name), last);
      assert hooks == front + [last];
      if last.name != name { at := at + [|front|]; }
    }
  }

  lemma {:induction false} RetainOfPriority(hooks: seq<Hook>, name: string, p: int)
    ensures OfPriority(Retain(hooks, name), p) == Retain(OfPriority(hooks, p), name)
  {
    if hooks != [] {
      var (front, last) := (hooks[..|hooks| - 1], hooks[|hooks| - 1]);
      RetainOfPriority(front, name, p);
      OfPriorityAppend(Retain(front, name), last, p);
      var ofP := OfPriority(front, p);
      assert (ofP + [last])[..|ofP|] == ofP;
    }
  }

  // ---------------------------------------------------------------------
  // Any sequence of registrations and removals
  // ---------------------------------------------------------------------

  datatype Op = Add(hook: Hook) | Drop(name: string)

  /** The hook list after some operations on an empty registry. */
  function ListAfter(ops: seq<Op>): seq<Hook> {
    if ops == [] then []
    else
      var before := ListAfter(ops[..|ops| - 1]);
      match ops[|ops| - 1]
      case Add(h) => StableSort(before + [h])
      case Drop(name) => Retain(before, name)
  }

  /** The hooks still registered, in the order they were registered. */
  function Survivors(ops: seq<Op>): seq<Hook> {
    if ops == [] then []
    else
      var before := Survivors(ops[..|ops| - 1]);
      match ops[|ops| - 1]
      case Add(h) => before + [h]
      case Drop(name) => Retain(before, name)
  }

  lemma SortOnceMore(hooks: seq<Hook>, h: Hook)
    ensures StableSort(StableSort(hooks) + [h]) == StableSort(hooks + [h])
  {
    StableSortIsStable(hooks);
    StableSortIsStable(StableSort(hooks) + [h]);
    StableSortIsStable(hooks + [h]);
    forall p ensures OfPriority(StableSort(hooks) + [h], p) == OfPriority(hooks + [h], p) {
      OfPriorityAppend(StableSort(hooks), h, p);
      OfPriorityAppend(hooks, h, p);
    }
    StableSortIsUnique(StableSort(StableSort(hooks) + [h]), StableSort(hooks + [h]));
  }

  lemma RetainCommutes(hooks: seq<Hook>, name: string)
    ensures Retain(StableSort(hooks), name) == StableSort(Retain(hooks, name))
  {
    StableSortIsStable(hooks);
    StableSortIsStable(Retain(hooks, name));
    RetainSorted(StableSort(hooks), name);
    forall p ensures OfPriority(Retain(StableSort(hooks), name), p) == OfPriority(Retain(hooks, name), p) {
      RetainOfPriority(StableSort(hooks), name, p);
      RetainOfPriority(hooks, name, p);
    }
    StableSortIsUnique(Retain(StableSort(hooks), name), StableSort(Retain(hooks, name)));
  }

  /** After any sequence of registrations and removals the list is the stable priority sort of
      the surviving hooks in registration order. */
  lemma {:induction false} ListIsSortedSurvivors(ops: seq<Op>)
    ensures ListAfter(ops) == StableSort(Survivors(ops))
  {
    if ops != [] {
      var front := ops[..|ops| - 1];
      ListIsSortedSurvivors(front);
      match ops[|ops| - 1] {
        case Add(h) => SortOnceMore(Survivors(front), h);
        case Drop(name) => RetainCommutes(Survivors(front), name);
      }
    }
  }

  /** A chain and its outcome are determined by the handlers: two runs over the same hooks agree. */
  lemma ChainIsDetermined(
      handle: Handlers, hooks: seq<Hook>, ctx: Context,
      seen: seq<Context>, action: Action, out: Context, seen': seq<Context>, action': Action, out': Context)
    requires Chain(handle, hooks, ctx, seen) && Concludes(handle, hooks, seen, action, out)
    requires Chain(handle, hooks, ctx, seen') && Concludes(handle, hooks, seen', action', out')
    ensures seen == seen' && action == action' && out == out'
  {
    var n := if |seen| < |seen'| then |seen| else |seen'|;
    var i := 0;
    while i < n - 1
      invariant 0 <= i <= n - 1 && forall j :: 0 <= j <= i ==> seen[j] == seen'[j]
    {
      assert seen[i + 1] == Apply(seen[i], handle(hooks[i], seen[i]));
      assert seen'[i + 1] == Apply(seen'[i], handle(hooks[i], seen'[i]));
      i := i + 1;
    }
  }
}
