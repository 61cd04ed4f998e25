/** Bounded-concurrency map (src/lib/adt/packageUnits.ts, `mapLimited`).

    The callback is `fn` together with `effect`, the update it makes to captured variables in the
    stretch in which it finishes. Each step below is one uninterrupted stretch of one worker. */
module MapLimited {
  import opened Sequences
  import opened WorkerPool

  datatype Task<!T, R, !S> = Task(items: seq<T>, fn: T -> R, effect: (S, T) -> S, initial: S)

  datatype Worker = Idle | Calling(index: nat) | Returning(index: nat) | Exited

  datatype State<R, S> = State(cursor: nat, results: seq<Option<R>>, shared: S, workers: seq<Worker>)

  function InitialState<T, R, S>(task: Task<T, R, S>, workers: nat): State<R, S> {
    State(0, seq(|task.items|, _ => None), task.initial, seq(workers, _ => Idle))
  }

  predicate CanStep<T, R, S>(task: Task<T, R, S>, s: State<R, S>, w: nat) {
    && w < |s.workers| && |s.results| == |task.items|
    && match s.workers[w]
       case Idle => true
       case Calling(i) => i < |task.items|
       case Returning(i) => i < |task.items|
       case Exited => false
  }

  /** Worker w runs to its next suspension: takes an index, finishes the call, or stores the result. */
  function Step<T, R, S>(task: Task<T, R, S>, s: State<R, S>, w: nat): State<R, S>
    requires CanStep(task, s, w)
  {
    match s.workers[w]
    case Idle =>
      var next := if s.cursor < |task.items| then Calling(s.cursor) else Exited;
      s.(cursor := s.cursor + 1, workers := s.workers[w := next])
    case Calling(i) =>
      s.(shared := task.effect(s.shared, task.items[i]), workers := s.workers[w := Returning(i)])
    case Returning(i) =>
      s.(results := s.results[i := Some(task.fn(task.items[i]))], workers := s.workers[w := Idle])
    case Exited => s
  }

  ghost predicate Reachable<T, R(!new), S(!new)>(task: Task<T, R, S>, workers: nat, s: State<R, S>, steps: nat)
    decreases steps
  {
    if steps == 0 then s == InitialState(task, workers)
    else exists before: State<R, S>, w: nat ::
      Reachable(task, workers, before, steps - 1) && CanStep(task, before, w) && s == Step(task, before, w)
  }

  /** The captured variables after the calls for the items of `order` have finished, in that order. */
  function Effects<T, R, S>(task: Task<T, R, S>, order: seq<nat>): S
    requires forall k :: 0 <= k < |order| ==> order[k] < |task.items|
  {
    if |order| == 0 then task.initial else
    var last := |order| - 1;
    task.effect(Effects(task, order[..last]), task.items[order[last]])
  }

  function Claim(worker: Worker): Option<nat> {
    if worker.Calling? then Some(worker.index) else None
  }

  function Claims(workers: seq<Worker>): (claims: seq<Option<nat>>)
    ensures |claims| == |workers| && forall w :: 0 <= w < |workers| ==> claims[w] == Claim(workers[w])
  {
    seq(|workers|, w requires 0 <= w < |workers| => Claim(workers[w]))
  }

  ghost predicate AboutToReturn(workers: seq<Worker>, i: nat) {
    exists w :: 0 <= w < |workers| && workers[w] == Returning(i)
  }

  /** An item's call is over: its result is stored, or about to be. */
  ghost predicate ResultOk<T, R, S>(task: Task<T, R, S>, s: State<R, S>, owner: seq<Owner>, i: nat)
    requires i < |task.items| == |s.results| == |owner|
  {
    && (s.results[i].Some? ==> s.results[i].value == task.fn(task.items[i]))
    && (owner[i].Settled? ==> s.results[i].Some? || AboutToReturn(s.workers, i))
  }

  ghost predicate Inv<T, R, S>(task: Task<T, R, S>, s: State<R, S>, owner: seq<Owner>, order: seq<nat>) {
    && |owner| == |task.items| == |s.results|
    && Ledger(s.cursor, Claims(s.workers), owner) && Settles(order, owner)
    && s.shared == Effects(task, order)
    && (forall i :: 0 <= i < |owner| ==> ResultOk(task, s, owner, i))
    && (forall w :: 0 <= w < |s.workers| ==>
          && (s.workers[w].Exited? ==> s.cursor >= |task.items|)
          && (s.workers[w].Returning? ==> s.workers[w].index < |task.items| && owner[s.workers[w].index].Settled?))
  }

  lemma EffectsSnoc<T, R, S>(task: Task<T, R, S>, order: seq<nat>, i: nat)
    requires i < |task.items| && forall k :: 0 <= k < |order| ==> order[k] < |task.items|
    ensures Effects(task, order + [i]) == task.effect(Effects(task, order), task.items[i])
  {
    assert (order + [i])[..|order|] == order;
  }

  lemma TakeKeepsInv<T, R, S>(task: Task<T, R, S>, s: State<R, S>, owner: seq<Owner>, order: seq<nat>, w: nat)
    returns (owner': seq<Owner>)
    requires Inv(task, s, owner, order) && CanStep(task, s, w) && s.workers[w].Idle?
    ensures Inv(task, Step(task, s, w), owner', order)
  {
    hide Effects, Ledger, Settles;
    var t := Step(task, s, w);
    owner' := owner;
    if s.cursor < |owner| {
      owner' := owner[s.cursor := ClaimedBy(w)];
      ClaimOne(s.cursor, Claims(s.workers), owner, order, w);
      assert Claims(t.workers) == Claims(s.workers)[w := Some(s.cursor)];
    } else {
      LedgerPastEnd(s.cursor, Claims(s.workers), owner);
      assert Claims(t.workers) == Claims(s.workers);
    }
    forall j | 0 <= j < |owner| ensures ResultOk(task, t, owner', j) {
      assert ResultOk(task, s, owner, j);
      KeepReturning(s.workers, w, t.workers[w], j);
    }
  }

  lemma LedgerPastEnd(cursor: nat, claims: seq<Option<nat>>, owner: seq<Owner>)
    requires Ledger(cursor, claims, owner) && cursor >= |owner|
    ensures Ledger(cursor + 1, claims, owner)
  {
  }

  lemma KeepReturning(workers: seq<Worker>, w: nat, next: Worker, i: nat)
    requires w < |workers| && workers[w] != Returning(i)
    ensures AboutToReturn(workers, i) ==> AboutToReturn(workers[w := next], i)
  {
    if AboutToReturn(workers, i) {
      var v :| 0 <= v < |workers| && workers[v] == Returning(i);
      assert workers[w := next][v] == Returning(i);
    }
  }

  lemma CallKeepsInv<T, R, S>(task: Task<T, R, S>, s: State<R, S>, owner: seq<Owner>, order: seq<nat>, w: nat)
    returns (owner': seq<Owner>, order': seq<nat>)
    requires Inv(task, s, owner, order) && CanStep(task, s, w) && s.workers[w].Calling?
    ensures Inv(task, Step(task, s, w), owner', order')
  {
    var t, i := Step(task, s, w), s.workers[w].index;
    assert forall k :: 0 <= k < |order| ==> order[k] < |task.items|;
    hide Effects, Ledger, Settles;
    assert Claims(s.workers)[w] == Some(i);
    owner', order' := owner[i := Settled], order + [i];
    ReleaseOne(s.cursor, Claims(s.workers), owner, order, w);
    assert Claims(t.workers) == Claims(s.workers)[w := None];
    EffectsSnoc(task, order, i);
    assert t.workers[w] == Returning(i);
    forall j | 0 <= j < |owner| ensures ResultOk(task, t, owner', j) {
      assert ResultOk(task, s, owner, j);
      KeepReturning(s.workers, w, Returning(i), j);
    }
  }

  lemma ReturnKeepsInv<T, R, S>(task: Task<T, R, S>, s: State<R, S>, owner: seq<Owner>, order: seq<nat>, w: nat)
    requires Inv(task, s, owner, order) && CanStep(task, s, w) && s.workers[w].Returning?
    ensures Inv(task, Step(task, s, w), owner, order)
  {
    hide Effects, Ledger, Settles;
    var t, i := Step(task, s, w), s.workers[w].index;
    assert Claims(t.workers) == Claims(s.workers);
    forall j | 0 <= j < |owner| ensures ResultOk(task, t, owner, j) {
      assert ResultOk(task, s, owner, j);
      if j != i {
        KeepReturning(s.workers, w, Idle, j);
      }
    }
  }

  /** Every step of every worker keeps the invariant, for a suitably updated record. */
  lemma StepKeepsInv<T, R, S>(task: Task<T, R, S>, s: State<R, S>, owner: seq<Owner>, order: seq<nat>, w: nat)
    returns (owner': seq<Owner>, order': seq<nat>)
    requires Inv(task, s, owner, order) && CanStep(task, s, w)
    ensures Inv(task, Step(task, s, w), owner', order')
  {
    hide Inv;
    owner', order' := owner, order;
    match s.workers[w] {
      case Idle => owner' := TakeKeepsInv(task, s, owner, order, w);
      case Calling(_) => owner', order' := CallKeepsInv(task, s, owner, order, w);
      case Returning(_) => ReturnKeepsInv(task, s, owner, order, w);
    }
  }

  lemma {:induction false} ReachableInv<T, R(!new), S(!new)>(task: Task<T, R, S>, workers: nat, s: State<R, S>, steps: nat)
    returns (owner: seq<Owner>, order: seq<nat>)
    requires Reachable(task, workers, s, steps)
    ensures Inv(task, s, owner, order) && |s.workers| == workers
    decreases steps
  {
    if steps == 0 {
      owner, order := seq(|task.items|, _ => Unclaimed), [];
    } else {
      var before: State<R, S>, w: nat :|
        Reachable(task, workers, before, steps - 1) && CanStep(task, before, w) && s == Step(task, before, w);
      owner, order := ReachableInv(task, workers, before, steps - 1);
      owner, order := StepKeepsInv(task, before, owner, order, w);
    }
  }

  predicate AllExited<R, S>(s: State<R, S>) {
    forall w :: 0 <= w < |s.workers| ==> s.workers[w].Exited?
  }

  /** For every interleaving and every limit: the results are in item order, and the captured variables are those
      of a sequential run over the items in some order. */
  lemma EveryRun<T, R(!new), S(!new)>(task: Task<T, R, S>, workers: nat, s: State<R, S>, steps: nat)
    returns (order: seq<nat>)
    requires workers > 0 && Reachable(task, workers, s, steps) && AllExited(s)
    ensures |s.results| == |task.items|
    ensures forall i :: 0 <= i < |task.items| ==> s.results[i] == Some(task.fn(task.items[i]))
    ensures Permutation(order, |task.items|) && s.shared == Effects(task, order)
  {
    var owner;
    owner, order := ReachableInv(task, workers, s, steps);
    assert s.workers[0].Exited?;
    QuiescentPool(s.cursor, Claims(s.workers), owner, order);
    forall i | 0 <= i < |task.items| ensures s.results[i] == Some(task.fn(task.items[i])) {
      assert ResultOk(task, s, owner, i) && i in order;
    }
  }

  lemma NoWorkerStuck<T, R(!new), S(!new)>(task: Task<T, R, S>, workers: nat, s: State<R, S>, steps: nat, w: nat)
    requires Reachable(task, workers, s, steps) && w < |s.workers| && !s.workers[w].Exited?
    ensures CanStep(task, s, w)
  {
    var owner, order := ReachableInv(task, workers, s, steps);
    assert Claims(s.workers)[w] == Claim(s.workers[w]);
  }

  function Rank(worker: Worker): nat {
    match worker case Exited => 0 case Idle => 1 case Returning(_) => 2 case Calling(_) => 3
  }

  function Ranks(workers: seq<Worker>): seq<nat> {
    seq(|workers|, w requires 0 <= w < |workers| => Rank(workers[w]))
  }

  function ItemsLeft<T, R, S>(task: Task<T, R, S>, s: State<R, S>): nat {
    if s.cursor < |task.items| then |task.items| - s.cursor else 0
  }

  lemma StepProgresses<T, R, S>(task: Task<T, R, S>, s: State<R, S>, w: nat)
    requires CanStep(task, s, w)
    ensures var t := Step(task, s, w);
            ItemsLeft(task, t) < ItemsLeft(task, s)
            || (ItemsLeft(task, t) == ItemsLeft(task, s) && Sum(Ranks(t.workers)) < Sum(Ranks(s.workers)))
  {
    var t := Step(task, s, w);
    SumUpdate(Ranks(s.workers), w, Rank(t.workers[w]));
    assert Ranks(t.workers) == Ranks(s.workers)[w := Rank(t.workers[w])];
  }

  class Run<T, R(!new), S(!new)> {
    const task: Task<T, R, S>
    var cursor: nat
    var results: seq<Option<R>>
    var shared: S
    var workers: seq<Worker>

    ghost function Now(): State<R, S>
      reads this
    {
      State(cursor, results, shared, workers)
    }

    constructor (task: Task<T, R, S>, limit: int)
      ensures this.task == task && |workers| > 0 && Now() == InitialState(task, |workers|)
      ensures |workers| == if limit <= 1 || |task.items| <= 1 then 1 else if limit < |task.items| then limit else |task.items|
    {
      this.task := task;
      cursor, results, shared := 0, seq(|task.items|, _ => None), task.initial;
      var n := if limit <= 1 || |task.items| <= 1 then 1 else if limit < |task.items| then limit else |task.items|;
      workers := seq(n, _ => Idle);
    }

    method StepWorker(w: nat)
      requires CanStep(task, Now(), w)
      modifies this
      ensures Now() == Step(task, old(Now()), w)
    {
      match workers[w] {
        case Idle =>
          var index := cursor;
          cursor := cursor + 1;
          if index >= |task.items| {
            workers := workers[w := Exited];
          } else {
            workers := workers[w := Calling(index)];
          }
        case Calling(index) =>
          shared := task.effect(shared, task.items[index]);
          workers := workers[w := Returning(index)];
        case Returning(index) =>
          results := results[index := Some(task.fn(task.items[index]))];
          workers := workers[w := Idle];
        case Exited =>
      }
    }

    /** `Promise.all(workers)`: any worker may go next. */
    method Finish() returns (ghost order: seq<nat>)
      requires |workers| > 0 && Now() == InitialState(task, |workers|)
      modifies this
      ensures |results| == |task.items|
      ensures forall i :: 0 <= i < |task.items| ==> results[i] == Some(task.fn(task.items[i]))
      ensures Permutation(order, |task.items|) && shared == Effects(task, order)
    {
      ghost var steps := 0;
      while exists w :: 0 <= w < |workers| && !workers[w].Exited?
        invariant |workers| == old(|workers|) && Reachable(task, |workers|, Now(), steps)
        decreases ItemsLeft(task, Now()), Sum(Ranks(workers))
      {
        var w :| 0 <= w < |workers| && !workers[w].Exited?;
        NoWorkerStuck(task, |workers|, Now(), steps, w);
        StepProgresses(task, Now(), w);
        StepWorker(w);
        steps := steps + 1;
      }
      order := EveryRun(task, |workers|, Now(), steps);
    }
  }
}
