/** Probing a batch of systems under a time budget (src/lib/landscape/probe.ts, `probeBatch`).

    A worker is uninterrupted between two probes; each turn of its loop is one step here, which allows more interleavings
    than JavaScript does. What the clock says at a turn is arbitrary. */
module ProbeBatch {
  import opened Sequences

  /** `urls` are the proposed addresses, and `before` the probes the systems carry already. */
  datatype Batch<P> = Batch(urls: seq<Option<string>>, before: seq<Option<P>>, probe: string -> P)

  datatype Worker = Looping | Probing(system: nat) | Exited

  /** `asked` counts the probes begun for each system; `late` says whether the budget has ended a worker. */
  datatype State<P> = State(index: nat, probes: seq<Option<P>>, asked: seq<nat>, late: bool, workers: seq<Worker>)

  ghost predicate ValidBatch<P>(batch: Batch<P>) {
    |batch.before| == |batch.urls|
  }

  function InitialState<P>(batch: Batch<P>, workers: nat): State<P> {
    State(0, batch.before, seq(|batch.urls|, _ => 0), false, seq(workers, _ => Looping))
  }

  predicate CanStep<P>(batch: Batch<P>, s: State<P>, w: nat) {
    && w < |s.workers| && |s.probes| == |s.asked| == |batch.urls|
    && match s.workers[w]
       case Looping => true
       case Probing(i) => i < |batch.urls| && batch.urls[i].Some?
       case Exited => false
  }

  /** One turn of worker w's loop, or the return of its probe; `out` says that the budget is used up. */
  function Step<P>(batch: Batch<P>, s: State<P>, w: nat, out: bool): State<P>
    requires CanStep(batch, s, w)
  {
    match s.workers[w]
    case Looping =>
      if s.index >= |batch.urls| then s.(workers := s.workers[w := Exited])
      else if out then s.(late := true, workers := s.workers[w := Exited])
      else if batch.urls[s.index].Some? then
        s.(index := s.index + 1, asked := s.asked[s.index := s.asked[s.index] + 1], workers := s.workers[w := Probing(s.index)])
      else s.(index := s.index + 1)
    case Probing(i) =>
      s.(probes := s.probes[i := Some(batch.probe(batch.urls[i].value))], workers := s.workers[w := Looping])
    case Exited => s
  }

  ghost predicate Reachable<P(!new)>(batch: Batch<P>, workers: nat, s: State<P>, steps: nat)
    decreases steps
  {
    if steps == 0 then s == InitialState(batch, workers)
    else exists before: State<P>, w: nat, out: bool ::
      Reachable(batch, workers, before, steps - 1) && CanStep(batch, before, w) && s == Step(batch, before, w, out)
  }

  /** The system has an address and comes before position n. */
  predicate Due<P>(batch: Batch<P>, i: nat, n: nat) {
    i < |batch.urls| && i < n && batch.urls[i].Some?
  }

  ghost predicate SystemOk<P>(batch: Batch<P>, s: State<P>, i: nat)
    requires i < |batch.urls| == |batch.before| == |s.probes| == |s.asked|
  {
    && s.asked[i] == (if Due(batch, i, s.index) then 1 else 0)
    && ((Due(batch, i, s.index) && s.probes[i] == Some(batch.probe(batch.urls[i].value)))
        || (s.probes[i] == batch.before[i]
            && (Due(batch, i, s.index) ==> exists w :: 0 <= w < |s.workers| && s.workers[w] == Probing(i))))
  }

  ghost predicate WorkerOk<P>(batch: Batch<P>, s: State<P>, w: nat)
    requires w < |s.workers|
  {
    && (s.workers[w].Probing? ==> Due(batch, s.workers[w].system, s.index))
    && (s.workers[w].Exited? ==> s.index == |batch.urls| || s.late)
  }

  ghost predicate Inv<P>(batch: Batch<P>, s: State<P>) {
    && |s.probes| == |s.asked| == |batch.before| == |batch.urls| && s.index <= |batch.urls|
    && (|s.workers| == 0 ==> s.index == 0)
    && (forall i :: 0 <= i < |batch.urls| ==> SystemOk(batch, s, i))
    && (forall w :: 0 <= w < |s.workers| ==> WorkerOk(batch, s, w))
  }

  lemma StepKeepsInv<P>(batch: Batch<P>, s: State<P>, w: nat, out: bool)
    requires Inv(batch, s) && CanStep(batch, s, w)
    ensures Inv(batch, Step(batch, s, w, out))
  {
    var t := Step(batch, s, w, out);
    assert WorkerOk(batch, s, w);
    forall i | 0 <= i < |batch.urls| ensures SystemOk(batch, t, i) {
      assert SystemOk(batch, s, i);
      if Due(batch, i, s.index) && s.probes[i] == batch.before[i] && s.probes[i] != Some(batch.probe(batch.urls[i].value)) {
        var v :| 0 <= v < |s.workers| && s.workers[v] == Probing(i);
        assert v == w || t.workers[v] == Probing(i);
      }
      assert i == s.index && Due(batch, i, t.index) ==> t.workers[w] == Probing(i);
    }
    forall v | 0 <= v < |t.workers| ensures WorkerOk(batch, t, v) {
      assert WorkerOk(batch, s, v);
    }
  }

  lemma {:induction false} ReachableInv<P(!new)>(batch: Batch<P>, workers: nat, s: State<P>, steps: nat)
    requires ValidBatch(batch) && Reachable(batch, workers, s, steps)
    ensures Inv(batch, s) && |s.workers| == workers
    decreases steps
  {
    if steps > 0 {
      hide Inv, CanStep, Step;
      var before: State<P>, w: nat, out: bool :|
        Reachable(batch, workers, before, steps - 1) && CanStep(batch, before, w) && s == Step(batch, before, w, out);
      ReachableInv(batch, workers, before, steps - 1);
      StepKeepsInv(batch, before, w, out);
      assert |s.workers| == |before.workers| by {
        StepKeepsWorkers(batch, before, w, out);
      }
    } else {
      forall i | 0 <= i < |batch.urls| ensures SystemOk(batch, s, i) {
      }
    }
  }

  lemma StepKeepsWorkers<P>(batch: Batch<P>, s: State<P>, w: nat, out: bool)
    requires CanStep(batch, s, w)
    ensures |Step(batch, s, w, out).workers| == |s.workers|
  {
  }

  predicate AllExited<P>(s: State<P>) {
    forall w :: 0 <= w < |s.workers| ==> s.workers[w].Exited?
  }

  /** For every interleaving and every clock: the systems before some position that have an address are probed, each once;
      no other system is touched; and without a worker ended by the budget that position is the end. */
  lemma EveryRun<P(!new)>(batch: Batch<P>, workers: nat, s: State<P>, steps: nat)
    requires ValidBatch(batch) && Reachable(batch, workers, s, steps) && AllExited(s)
    ensures |s.probes| == |s.asked| == |batch.urls| && s.index <= |batch.urls|
    ensures forall i :: 0 <= i < |batch.urls| ==>
              && s.probes[i] == (if Due(batch, i, s.index) then Some(batch.probe(batch.urls[i].value)) else batch.before[i])
              && s.asked[i] == (if Due(batch, i, s.index) then 1 else 0)
    ensures workers > 0 && !s.late ==> s.index == |batch.urls|
    ensures workers == 0 ==> s.index == 0
  {
    ReachableInv(batch, workers, s, steps);
    forall i | 0 <= i < |batch.urls|
      ensures s.probes[i] == (if Due(batch, i, s.index) then Some(batch.probe(batch.urls[i].value)) else batch.before[i])
      ensures s.asked[i] == (if Due(batch, i, s.index) then 1 else 0)
    {
      assert SystemOk(batch, s, i);
    }
    if workers > 0 {
      assert WorkerOk(batch, s, 0);
    }
  }

  lemma NoWorkerStuck<P(!new)>(batch: Batch<P>, workers: nat, s: State<P>, steps: nat, w: nat)
    requires ValidBatch(batch) && Reachable(batch, workers, s, steps) && w < |s.workers| && !s.workers[w].Exited?
    ensures CanStep(batch, s, w)
  {
    ReachableInv(batch, workers, s, steps);
    assert WorkerOk(batch, s, w);
  }

  function Rank(worker: Worker): nat {
    match worker case Exited => 0 case Looping => 1 case Probing(_) => 2
  }

  function Ranks(workers: seq<Worker>): seq<nat> {
    seq(|workers|, w requires 0 <= w < |workers| => Rank(workers[w]))
  }

  function SystemsLeft<P>(batch: Batch<P>, s: State<P>): nat {
    if s.index < |batch.urls| then |batch.urls| - s.index else 0
  }

  lemma StepProgresses<P>(batch: Batch<P>, s: State<P>, w: nat, out: bool)
    requires CanStep(batch, s, w)
    ensures var t := Step(batch, s, w, out);
            SystemsLeft(batch, t) < SystemsLeft(batch, s)
            || (SystemsLeft(batch, t) == SystemsLeft(batch, s) && Sum(Ranks(t.workers)) < Sum(Ranks(s.workers)))
  {
    var t := Step(batch, s, w, out);
    SumUpdate(Ranks(s.workers), w, Rank(t.workers[w]));
    assert Ranks(t.workers) == Ranks(s.workers)[w := Rank(t.workers[w])];
  }

  class ProbeRun<P(!new)> {
    const batch: Batch<P>
    var index: nat
    var probes: seq<Option<P>>
    ghost var asked: seq<nat>
    ghost var late: bool
    var workers: seq<Worker>

    ghost function Now(): State<P>
      reads this
    {
      State(index, probes, asked, late, workers)
    }

    /** With a concurrency below one there is no worker. */
    constructor (batch: Batch<P>, maxConcurrency: int)
      ensures this.batch == batch && Now() == InitialState(batch, |workers|)
      ensures |workers| == if maxConcurrency < 0 then 0 else if maxConcurrency < |batch.urls| then maxConcurrency else |batch.urls|
    {
      this.batch := batch;
      index, probes, asked, late := 0, batch.before, seq(|batch.urls|, _ => 0), false;
      var n := if maxConcurrency < 0 then 0 else if maxConcurrency < |batch.urls| then maxConcurrency else |batch.urls|;
      workers := seq(n, _ => Looping);
    }

    method StepWorker(w: nat, out: bool)
      requires CanStep(batch, Now(), w)
      modifies this
      ensures Now() == Step(batch, old(Now()), w, out)
    {
      match workers[w] {
        case Looping =>
          if index >= |batch.urls| {
            workers := workers[w := Exited];
          } else if out {
            late := true;
            workers := workers[w := Exited];
          } else {
            var currentIndex := index;
            index := index + 1;
            if batch.urls[currentIndex].Some? {
              asked := asked[currentIndex := asked[currentIndex] + 1];
              workers := workers[w := Probing(currentIndex)];
            }
          }
        case Probing(i) =>
          probes := probes[i := Some(batch.probe(batch.urls[i].value))];
          workers := workers[w := Looping];
        case Exited =>
      }
    }

    /** `Promise.all(workers)`: any worker may go next, and `outAt` says at which turns the budget is used up. */
    method Finish(outAt: nat -> bool)
      requires ValidBatch(batch) && Now() == InitialState(batch, |workers|)
      modifies this
      ensures |probes| == |batch.urls| && index <= |batch.urls|
      ensures forall i :: 0 <= i < |batch.urls| ==>
                probes[i] == if Due(batch, i, index) then Some(batch.probe(batch.urls[i].value)) else batch.before[i]
      ensures old(|workers|) > 0 && !late ==> index == |batch.urls|
      ensures old(|workers|) == 0 ==> index == 0
    {
      var steps := 0;
      while exists w :: 0 <= w < |workers| && !workers[w].Exited?
        invariant |workers| == old(|workers|) && Reachable(batch, |workers|, Now(), steps)
        decreases SystemsLeft(batch, Now()), Sum(Ranks(workers))
      {
        var w :| 0 <= w < |workers| && !workers[w].Exited?;
        NoWorkerStuck(batch, |workers|, Now(), steps, w);
        StepProgresses(batch, Now(), w, outAt(steps));
        StepWorker(w, outAt(steps));
        steps := steps + 1;
      }
      EveryRun(batch, |workers|, Now(), steps);
    }
  }
}
