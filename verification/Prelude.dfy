/** What every module of the model shares: option and result types, and concatenation. */
module Prelude {

  datatype Option<+T> = None | Some(value: T)

  datatype Result<+T, +E> = Ok(value: T) | Err(error: E)

  /** `kept` is what stands at the positions `at` of `all`, in order. */
  ghost predicate Selects<T>(all: seq<T>, at: seq<nat>, kept: seq<T>) {
    |at| == |kept| &&
    (forall i :: 0 <= i < |at| ==> at[i] < |all| && kept[i] == all[at[i]]) &&
    (forall i, j :: 0 <= i < j < |at| ==> at[i] < at[j])
  }

  lemma SelectsOneMore<T>(all: seq<T>, at: seq<nat>, kept: seq<T>, x: T)
    requires Selects(all, at, kept)
    ensures Selects(all + [x], at, kept) && Selects(all + [x], at + [|all|], kept + [x])
  {
  }

  /** `kept` are, in order, those of `all` that satisfy `p`; they stand at the positions `at`. */
  ghost predicate Keeps<T>(all: seq<T>, p: T -> bool, at: seq<nat>, kept: seq<T>) {
    Selects(all, at, kept) && forall i: nat :: i in at <==> i < |all| && p(all[i])
  }

  lemma KeepsNone<T>(p: T -> bool)
    ensures Keeps([], p, [], [])
  {
  }

  lemma KeepsOneMore<T>(all: seq<T>, p: T -> bool, at: seq<nat>, kept: seq<T>, x: T)
    requires Keeps(all, p, at, kept)
    ensures if p(x) then Keeps(all + [x], p, at + [|all|], kept + [x]) else Keeps(all + [x], p, at, kept)
  {
    SelectsOneMore(all, at, kept, x);
    hide Selects;
    assert forall i :: 0 <= i < |all| ==> (all + [x])[i] == all[i];
    assert (all + [x])[|all|] == x;
  }

  /** The two facts about concatenation that proofs over sequences call for by name. */
  lemma Associative<T>(a: seq<T>, b: seq<T>, c: seq<T>)
    ensures a + (b + c) == a + b + c
  {
  }

  lemma NothingAdded<T>(a: seq<T>)
    ensures a + [] == a && [] + a == a
  {
  }
}
