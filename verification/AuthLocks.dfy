/** The per-destination lock on token acquisition (src/server/StreamableHttpServer.ts, `authLocks`).

    A request's acquisition is known by the request's number. Each step is a stretch of code that JavaScript runs
    without interruption; the continuations of one settled promise run back to back, so they form one step. */
module AuthLocks {
  import opened Sequences

  datatype Phase =
    | Waiting(lock: nat)    // awaiting the acquisition found on arrival
    | Acquiring             // its own acquisition is in flight
    | Settled(ok: bool)     // the acquisition is over and the finally callback has run; nobody has been resumed yet
    | Done(ok: bool)        // past the lock, or failed

  /** `found` and `latest` are bookkeeping: the lock each request found on arrival, and the acquisition started last. */
  datatype State = State(
    dests: seq<string>,
    phases: seq<Phase>,
    found: seq<Option<nat>>,
    authLocks: map<string, nat>,
    latest: map<string, nat>)

  const INITIAL := State([], [], [], map[], map[])

  datatype Event = Arrive(dest: string) | Finally(request: nat, ok: bool) | Resolve(request: nat)

  predicate Enabled(s: State, e: Event) {
    && |s.dests| == |s.phases| == |s.found|
    && match e
       case Arrive(_) => true
       case Finally(r, _) => r < |s.phases| && s.phases[r].Acquiring?
       case Resolve(r) => r < |s.phases| && s.phases[r].Settled?
  }

  /** The requests awaiting acquisition r, in the order they began to wait. */
  function Waiters(phases: seq<Phase>, r: nat): (ws: seq<nat>)
    ensures forall w: nat :: w in ws <==> w < |phases| && phases[w] == Waiting(r)
    ensures forall i, j :: 0 <= i < j < |ws| ==> ws[i] < ws[j]
  {
    if |phases| == 0 then [] else
    var n := |phases| - 1;
    assert forall w: nat :: w < n ==> phases[w] == phases[..n][w];
    var before := Waiters(phases[..n], r);
    assert forall i :: 0 <= i < |before| ==> before[i] in before;
    before + if phases[n] == Waiting(r) then [n] else []
  }

  /** A waiter goes on to acquire, or fails with the acquisition it awaited. */
  function Woken(phases: seq<Phase>, r: nat, ok: bool): (woken: seq<Phase>)
    ensures |woken| == |phases|
  {
    seq(|phases|, w requires 0 <= w < |phases| =>
      if w == r then Done(ok) else if phases[w] == Waiting(r) then if ok then Acquiring else Done(false) else phases[w])
  }

  function Step(s: State, e: Event): State
    requires Enabled(s, e)
  {
    match e
    case Arrive(d) =>
      var r := |s.phases|;
      if d in s.authLocks then
        s.(dests := s.dests + [d], phases := s.phases + [Waiting(s.authLocks[d])], found := s.found + [Some(s.authLocks[d])])
      else
        State(s.dests + [d], s.phases + [Acquiring], s.found + [None], s.authLocks[d := r], s.latest[d := r])
    case Finally(r, ok) =>
      var d := s.dests[r];
      s.(phases := s.phases[r := Settled(ok)],
         authLocks := if d in s.authLocks && s.authLocks[d] == r then s.authLocks - {d} else s.authLocks)
    case Resolve(r) =>
      var ok, ws := s.phases[r].ok, Waiters(s.phases, r);
      var t := s.(phases := Woken(s.phases, r, ok));
      if ok && |ws| > 0 then
        t.(authLocks := t.authLocks[s.dests[r] := ws[|ws| - 1]], latest := t.latest[s.dests[r] := ws[|ws| - 1]])
      else t
  }

  // ---------- What every interleaving keeps ----------

  ghost predicate RequestOk(s: State, r: nat)
    requires r < |s.phases| == |s.dests| == |s.found|
  {
    && (s.phases[r].Waiting? ==>
          var l := s.phases[r].lock;
          l < r && s.dests[l] == s.dests[r] && s.found[r] == Some(l) && (s.phases[l].Acquiring? || s.phases[l].Settled?))
    && (s.found[r].Some? ==> s.found[r].value < r)
    && ((s.phases[r].Acquiring? || s.phases[r].Settled?) && s.found[r].Some? ==> s.phases[s.found[r].value] == Done(true))
    && (s.phases[r] == Done(true) && s.found[r].Some? ==> s.phases[s.found[r].value] == Done(true))
  }

  /** The entry of a destination is the acquisition started last for it, as long as that is in flight, and is absent otherwise. */
  ghost predicate EntryOk(s: State, d: string)
    requires |s.phases| == |s.dests|
  {
    && (d in s.latest ==> s.latest[d] < |s.phases| && s.dests[s.latest[d]] == d && !s.phases[s.latest[d]].Waiting?)
    && (d in s.authLocks <==> d in s.latest && s.phases[s.latest[d]].Acquiring?)
    && (d in s.authLocks ==> s.authLocks[d] == s.latest[d])
  }

  ghost predicate Inv(s: State) {
    && |s.phases| == |s.dests| == |s.found|
    && (forall r :: 0 <= r < |s.phases| ==> RequestOk(s, r))
    && (forall d :: EntryOk(s, d))
  }

  lemma ArriveKeepsInv(s: State, e: Event)
    requires Inv(s) && Enabled(s, e) && e.Arrive?
    ensures Inv(Step(s, e))
  {
    var t := Step(s, e);
    assert EntryOk(s, e.dest);
    forall r | 0 <= r < |t.phases| ensures RequestOk(t, r) {
      if r < |s.phases| {
        assert RequestOk(s, r);
      }
    }
    forall d ensures EntryOk(t, d) {
      assert EntryOk(s, d);
    }
  }

  lemma FinallyKeepsInv(s: State, e: Event)
    requires Inv(s) && Enabled(s, e) && e.Finally?
    ensures Inv(Step(s, e))
  {
    var t := Step(s, e);
    forall r | 0 <= r < |t.phases| ensures RequestOk(t, r) {
      assert RequestOk(s, r);
    }
    forall d ensures EntryOk(t, d) {
      assert EntryOk(s, d);
    }
  }

  lemma ResolveKeepsRequest(s: State, e: Event, r: nat)
    requires Inv(s) && Enabled(s, e) && e.Resolve? && r < |s.phases|
    ensures RequestOk(Step(s, e), r)
  {
    hide Waiters;
    assert RequestOk(s, r);
  }

  lemma ResolveKeepsEntry(s: State, e: Event, d: string)
    requires Inv(s) && Enabled(s, e) && e.Resolve?
    ensures EntryOk(Step(s, e), d)
  {
    hide Waiters;
    assert EntryOk(s, d);
    var ws := Waiters(s.phases, e.request);
    if |ws| > 0 {
      var last := ws[|ws| - 1];
      assert last in ws && RequestOk(s, last);
    }
  }

  lemma StepKeepsInv(s: State, e: Event)
    requires Inv(s) && Enabled(s, e)
    ensures Inv(Step(s, e))
  {
    match e {
      case Arrive(_) => ArriveKeepsInv(s, e);
      case Finally(_, _) => FinallyKeepsInv(s, e);
      case Resolve(_) =>
        hide Waiters, RequestOk, EntryOk;
        forall r | 0 <= r < |s.phases| ensures RequestOk(Step(s, e), r) {
          ResolveKeepsRequest(s, e, r);
        }
        forall d ensures EntryOk(Step(s, e), d) {
          ResolveKeepsEntry(s, e, d);
        }
    }
  }

  /** The states along a run of events. */
  ghost predicate IsRun(states: seq<State>, events: seq<Event>) {
    && |states| == |events| + 1 && states[0] == INITIAL
    && forall k :: 0 <= k < |events| ==> Enabled(states[k], events[k]) && states[k + 1] == Step(states[k], events[k])
  }

  lemma {:induction false} RunInv(states: seq<State>, events: seq<Event>, k: nat)
    requires IsRun(states, events) && k <= |events|
    ensures Inv(states[k])
  {
    if k > 0 {
      RunInv(states, events, k - 1);
      StepKeepsInv(states[k - 1], events[k - 1]);
    }
  }

  /** In every interleaving: an entry names an acquisition still in flight, namely the one started last, so an older one
      finishing never removes a newer entry and the map is empty when nothing is in flight; and whoever acquires, or has
      acquired, did so after the acquisition it found on arrival had succeeded. */
  lemma EveryInterleaving(states: seq<State>, events: seq<Event>, k: nat)
    requires IsRun(states, events) && k <= |events|
    ensures var s := states[k];
            && |s.phases| == |s.dests| == |s.found|
            && (forall d :: d in s.authLocks ==>
                  s.authLocks[d] < |s.phases| && s.phases[s.authLocks[d]].Acquiring? && s.dests[s.authLocks[d]] == d
                  && d in s.latest && s.latest[d] == s.authLocks[d])
            && (forall d :: d in s.latest ==> s.latest[d] < |s.phases|)
            && (forall d :: d in s.latest && s.phases[s.latest[d]].Acquiring? ==> d in s.authLocks)
            && (forall r :: 0 <= r < |s.phases| && s.found[r].Some? && Started(s.phases[r]) ==>
                  s.found[r].value < r && s.phases[s.found[r].value] == Done(true))
  {
    RunInv(states, events, k);
    var s := states[k];
    forall d | d in s.authLocks || d in s.latest ensures EntryOk(s, d) {
    }
    forall r | 0 <= r < |s.phases| && s.found[r].Some? && Started(s.phases[r])
      ensures s.found[r].value < r && s.phases[s.found[r].value] == Done(true)
    {
      assert RequestOk(s, r);
    }
  }

  /** The request's own acquisition has begun, and has not failed it. */
  predicate Started(phase: Phase) {
    phase.Acquiring? || phase.Settled? || phase == Done(true)
  }

  // ---------- Mutual exclusion ----------

  ghost predicate Exclusive(s: State) {
    forall i, j :: 0 <= i < j < |s.phases| == |s.dests| && s.phases[i].Acquiring? && s.phases[j].Acquiring? ==> s.dests[i] != s.dests[j]
  }

  /** Every acquisition in flight holds its destination's entry. */
  ghost predicate Tight(s: State) {
    forall r :: 0 <= r < |s.phases| == |s.dests| && s.phases[r].Acquiring? ==> s.dests[r] in s.authLocks && s.authLocks[s.dests[r]] == r
  }

  /** The guard a waiter does not re-check: when an acquisition succeeds, at most one request awaits it,
      and none has been started for the destination in the meantime. */
  ghost predicate SafeWakeUp(s: State, e: Event)
    requires Enabled(s, e)
  {
    e.Resolve? && s.phases[e.request].ok && |Waiters(s.phases, e.request)| > 0 ==>
      |Waiters(s.phases, e.request)| == 1 && s.dests[e.request] !in s.authLocks
  }

  lemma SafeStepStaysTight(s: State, e: Event)
    requires Inv(s) && Tight(s) && Enabled(s, e) && SafeWakeUp(s, e)
    ensures Tight(Step(s, e))
  {
    var t := Step(s, e);
    forall r | 0 <= r < |t.phases| && t.phases[r].Acquiring? ensures t.dests[r] in t.authLocks && t.authLocks[t.dests[r]] == r {
      if r < |s.phases| {
        assert RequestOk(s, r);
        if e.Resolve? {
          SafeResolveStaysTight(s, e.request, r);
        } else if e.Arrive? {
          assert s.dests[r] in s.authLocks;
        }
      }
    }
  }

  /** The only waiter acquires under the entry of its own. */
  lemma SafeWaiterHolds(s: State, q: nat, r: nat)
    requires Inv(s) && Enabled(s, Resolve(q)) && SafeWakeUp(s, Resolve(q))
    requires r < |s.phases| && s.phases[r] == Waiting(q) && s.phases[q].ok
    ensures var t := Step(s, Resolve(q)); t.dests[r] in t.authLocks && t.authLocks[t.dests[r]] == r
  {
    var ws := Waiters(s.phases, q);
    assert r in ws;
    assert RequestOk(s, r);
    hide Waiters, RequestOk, EntryOk, Inv;
    assert ws == [r];
  }

  /** An acquisition already in flight keeps its entry: no waiter's entry replaces it. */
  lemma SafeHolderKeeps(s: State, q: nat, r: nat)
    requires Inv(s) && Tight(s) && Enabled(s, Resolve(q)) && SafeWakeUp(s, Resolve(q))
    requires r < |s.phases| && s.phases[r].Acquiring?
    ensures var t := Step(s, Resolve(q)); t.dests[r] in t.authLocks && t.authLocks[t.dests[r]] == r
  {
    hide Waiters, RequestOk, EntryOk, Inv;
    assert s.dests[r] in s.authLocks && s.authLocks[s.dests[r]] == r;
    var ws := Waiters(s.phases, q);
    assert s.phases[q].ok && |ws| > 0 ==> s.dests[q] !in s.authLocks;
  }

  lemma SafeResolveStaysTight(s: State, q: nat, r: nat)
    requires Inv(s) && Tight(s) && Enabled(s, Resolve(q)) && SafeWakeUp(s, Resolve(q))
    requires r < |s.phases| && Step(s, Resolve(q)).phases[r].Acquiring?
    ensures var t := Step(s, Resolve(q)); t.dests[r] in t.authLocks && t.authLocks[t.dests[r]] == r
  {
    hide Waiters, RequestOk, EntryOk, Inv, Tight, SafeWakeUp;
    if s.phases[r].Acquiring? {
      SafeHolderKeeps(s, q, r);
    } else {
      assert s.phases[r] == Waiting(q) && s.phases[q].ok;
      SafeWaiterHolds(s, q, r);
    }
  }

  lemma UnsafeStepBreaks(s: State, e: Event)
    requires Inv(s) && Tight(s) && Enabled(s, e) && !SafeWakeUp(s, e)
    ensures !Exclusive(Step(s, e))
  {
    var t, d, ws := Step(s, e), s.dests[e.request], Waiters(s.phases, e.request);
    var w := ws[0];
    assert w in ws && RequestOk(s, w) && t.phases[w].Acquiring? && t.dests[w] == d;
    var v: nat;
    if |ws| > 1 {
      v := ws[1];
      assert v in ws && RequestOk(s, v);
    } else {
      assert EntryOk(s, d);
      v := s.authLocks[d];
    }
    assert v != w && t.phases[v].Acquiring? && t.dests[v] == d;
    assert v < w || w < v;
  }

  lemma TightIsExclusive(s: State)
    requires Tight(s)
    ensures Exclusive(s)
  {
  }

  lemma {:induction false} SafeRunIsTight(states: seq<State>, events: seq<Event>, k: nat)
    requires IsRun(states, events) && k <= |events|
    requires forall j :: 0 <= j < k ==> SafeWakeUp(states[j], events[j])
    ensures Tight(states[k])
  {
    if k > 0 {
      SafeRunIsTight(states, events, k - 1);
      RunInv(states, events, k - 1);
      SafeStepStaysTight(states[k - 1], events[k - 1]);
    }
  }

  lemma FirstUnsafe(states: seq<State>, events: seq<Event>, n: nat) returns (k: nat)
    requires IsRun(states, events) && n <= |events|
    requires exists j :: 0 <= j < n && !SafeWakeUp(states[j], events[j])
    ensures k < n && !SafeWakeUp(states[k], events[k]) && forall j :: 0 <= j < k ==> SafeWakeUp(states[j], events[j])
  {
    k := 0;
    while SafeWakeUp(states[k], events[k])
      invariant k < n && forall j :: 0 <= j < k ==> SafeWakeUp(states[j], events[j])
      decreases n - k
    {
      k := k + 1;
    }
  }

  /** A run never has two acquisitions for one destination in flight at once if and only if every wake-up in it is safe. */
  lemma ExclusiveExactlyWhenSafe(states: seq<State>, events: seq<Event>)
    requires IsRun(states, events)
    ensures (forall k :: 0 <= k <= |events| ==> Exclusive(states[k]))
            <==> forall k :: 0 <= k < |events| ==> SafeWakeUp(states[k], events[k])
  {
    if forall k :: 0 <= k < |events| ==> SafeWakeUp(states[k], events[k]) {
      forall k | 0 <= k <= |events| ensures Exclusive(states[k]) {
        SafeRunIsTight(states, events, k);
        TightIsExclusive(states[k]);
      }
    } else {
      var k := FirstUnsafe(states, events, |events|);
      SafeRunIsTight(states, events, k);
      RunInv(states, events, k);
      UnsafeStepBreaks(states[k], events[k]);
      assert !Exclusive(states[k + 1]);
    }
  }

  /** Requests for d that have arrived and are not yet past the lock. */
  function Overlapping(s: State, d: string): set<nat>
    requires |s.phases| == |s.dests|
  {
    set r: nat | r < |s.phases| && s.dests[r] == d && !s.phases[r].Done? :: r
  }

  /** With at most two requests overlapping per destination, acquisitions exclude each other. */
  lemma TwoOverlappingExclude(states: seq<State>, events: seq<Event>)
    requires IsRun(states, events)
    requires forall k :: 0 <= k <= |events| ==>
               |states[k].phases| == |states[k].dests| && forall d :: |Overlapping(states[k], d)| <= 2
    ensures forall k :: 0 <= k <= |events| ==> Exclusive(states[k])
  {
    forall k | 0 <= k < |events| ensures SafeWakeUp(states[k], events[k]) {
      RunInv(states, events, k);
      TwoAreSafe(states[k], events[k]);
    }
    ExclusiveExactlyWhenSafe(states, events);
  }

  lemma TwoAreSafe(s: State, e: Event)
    requires Inv(s) && Enabled(s, e) && forall d :: |Overlapping(s, d)| <= 2
    ensures SafeWakeUp(s, e)
  {
    if e.Resolve? && |Waiters(s.phases, e.request)| > 0 {
      var r, d, ws := e.request, s.dests[e.request], Waiters(s.phases, e.request);
      assert ws[0] in ws && RequestOk(s, ws[0]);
      if |ws| > 1 {
        assert ws[1] in ws && RequestOk(s, ws[1]);
        ThreeOverlap(s, d, r, ws[0], ws[1]);
      } else if d in s.authLocks {
        assert EntryOk(s, d);
        ThreeOverlap(s, d, r, ws[0], s.authLocks[d]);
      }
    }
  }

  lemma ThreeOverlap(s: State, d: string, a: nat, b: nat, c: nat)
    requires |s.phases| == |s.dests| && a != b && a != c && b != c
    requires a in Overlapping(s, d) && b in Overlapping(s, d) && c in Overlapping(s, d)
    ensures |Overlapping(s, d)| >= 3
  {
    var three := {a, b, c};
    assert three <= Overlapping(s, d);
    assert Overlapping(s, d) == three + (Overlapping(s, d) - three);
    assert |three| == 3;
  }

  /** Three requests for d have arrived; the first is acquiring, with its lock entry, and the others wait for it. */
  function TwoWait(d: string, first: Phase, entry: map<string, nat>): State {
    State([d, d, d], [first, Waiting(0), Waiting(0)], [None, Some(0), Some(0)], entry, map[d := 0])
  }

  lemma ThreeArrive(d: string)
    ensures var s1 := Step(INITIAL, Arrive(d));
            var s2 := Step(s1, Arrive(d));
            Enabled(s1, Arrive(d)) && Enabled(s2, Arrive(d)) && Step(s2, Arrive(d)) == TwoWait(d, Acquiring, map[d := 0])
  {
    var s1 := Step(INITIAL, Arrive(d));
    assert s1 == State([d], [Acquiring], [None], map[d := 0], map[d := 0]);
    var s2 := Step(s1, Arrive(d));
    assert s2 == State([d, d], [Acquiring, Waiting(0)], [None, Some(0)], map[d := 0], map[d := 0]);
  }

  lemma FirstSettles(d: string)
    ensures Step(TwoWait(d, Acquiring, map[d := 0]), Finally(0, true)) == TwoWait(d, Settled(true), map[])
  {
    assert map[d := 0] - {d} == map[];
    assert [Acquiring, Waiting(0), Waiting(0)][0 := Settled(true)] == [Settled(true), Waiting(0), Waiting(0)];
  }

  lemma BothWake(d: string)
    ensures !Exclusive(Step(TwoWait(d, Settled(true), map[]), Resolve(0)))
  {
    hide Waiters;
    var t := Step(TwoWait(d, Settled(true), map[]), Resolve(0));
    assert t.phases[1].Acquiring? && t.phases[2].Acquiring? && t.dests[1] == t.dests[2];
  }

  /** Three overlapping requests are enough to break exclusion: both waiters go ahead when the first acquisition succeeds. */
  lemma ThreeCanAcquireAtOnce(d: string)
    ensures exists states, events :: IsRun(states, events) && |events| == 5 && !Exclusive(states[5])
  {
    ThreeArrive(d);
    FirstSettles(d);
    BothWake(d);
    var s1 := Step(INITIAL, Arrive(d));
    var s2 := Step(s1, Arrive(d));
    var s3, s4 := TwoWait(d, Acquiring, map[d := 0]), TwoWait(d, Settled(true), map[]);
    assert Enabled(s3, Finally(0, true)) && Enabled(s4, Resolve(0)) && Enabled(INITIAL, Arrive(d));
    hide Step, Exclusive, TwoWait, Enabled;
    var events := [Arrive(d), Arrive(d), Arrive(d), Finally(0, true), Resolve(0)];
    var states := [INITIAL, s1, s2, s3, s4, Step(s4, Resolve(0))];
    assert IsRun(states, events) && |events| == 5 && !Exclusive(states[5]);
  }

  // ---------- The handler's use of the map ----------

  /** Request r's own acquisition begins, under the destination's entry. */
  function Start(s: State, r: nat): State {
    if r < |s.phases| == |s.dests| then
      s.(phases := s.phases[r := Acquiring], authLocks := s.authLocks[s.dests[r] := r], latest := s.latest[s.dests[r] := r])
    else s
  }

  /** The requests of `ws` go on one after the other. */
  function WakeEach(s: State, ws: seq<nat>, ok: bool): State {
    if |ws| == 0 then s
    else
      var t, w := WakeEach(s, ws[..|ws| - 1], ok), ws[|ws| - 1];
      if ok then Start(t, w) else if w < |t.phases| then t.(phases := t.phases[w := Done(false)]) else t
  }

  lemma WakeSnoc(s: State, ws: seq<nat>, i: nat, ok: bool)
    requires i < |ws|
    ensures var t := WakeEach(s, ws[..i], ok);
            WakeEach(s, ws[..i + 1], ok)
            == if ok then Start(t, ws[i]) else if ws[i] < |t.phases| then t.(phases := t.phases[ws[i] := Done(false)]) else t
  {
    assert ws[..i + 1][..i] == ws[..i];
  }

  lemma {:induction false} WakeEachMaps(s: State, ws: seq<nat>, ok: bool, d: string)
    requires |s.phases| == |s.dests| && forall i :: 0 <= i < |ws| ==> ws[i] < |s.phases| && s.dests[ws[i]] == d
    ensures var t := WakeEach(s, ws, ok);
            && t.dests == s.dests && t.found == s.found && |t.phases| == |s.phases|
            && t.authLocks == (if ok && |ws| > 0 then s.authLocks[d := ws[|ws| - 1]] else s.authLocks)
            && t.latest == (if ok && |ws| > 0 then s.latest[d := ws[|ws| - 1]] else s.latest)
  {
    if |ws| > 0 {
      WakeEachMaps(s, ws[..|ws| - 1], ok, d);
    }
  }

  lemma {:induction false} WakeEachPhase(s: State, ws: seq<nat>, ok: bool, w: nat)
    requires w < |s.phases| == |s.dests| && forall i :: 0 <= i < |ws| ==> ws[i] < |s.phases|
    ensures var t := WakeEach(s, ws, ok);
            && |t.phases| == |t.dests| == |s.phases|
            && t.phases[w] == if w in ws then if ok then Acquiring else Done(false) else s.phases[w]
  {
    if |ws| > 0 {
      var n := |ws| - 1;
      WakeEachPhase(s, ws[..n], ok, w);
      assert w in ws <==> w in ws[..n] || w == ws[n];
    }
  }

  /** Waking the waiters one by one, each taking the entry over from the one before, amounts to the step. */
  lemma WakeEachIsResolve(s: State, r: nat)
    requires Inv(s) && Enabled(s, Resolve(r))
    ensures var ok := s.phases[r].ok;
            WakeEach(s.(phases := s.phases[r := Done(ok)]), Waiters(s.phases, r), ok) == Step(s, Resolve(r))
  {
    var ok, ws := s.phases[r].ok, Waiters(s.phases, r);
    var begin := s.(phases := s.phases[r := Done(ok)]);
    forall i | 0 <= i < |ws| ensures ws[i] < |s.phases| && s.dests[ws[i]] == s.dests[r] {
      assert ws[i] in ws && RequestOk(s, ws[i]);
    }
    hide Inv, Waiters, WakeEach, RequestOk;
    WakeEachMaps(begin, ws, ok, s.dests[r]);
    WakePhases(s, r, ok);
  }

  lemma WakePhases(s: State, r: nat, ok: bool)
    requires Inv(s) && r < |s.phases| && s.phases[r] != Waiting(r)
    ensures WakeEach(s.(phases := s.phases[r := Done(ok)]), Waiters(s.phases, r), ok).phases == Woken(s.phases, r, ok)
  {
    var ws, begin := Waiters(s.phases, r), s.(phases := s.phases[r := Done(ok)]);
    forall i | 0 <= i < |ws| ensures ws[i] < |s.phases| && s.dests[ws[i]] == s.dests[r] {
      assert ws[i] in ws && RequestOk(s, ws[i]);
    }
    hide Inv, Waiters, WakeEach, RequestOk;
    WakeEachMaps(begin, ws, ok, s.dests[r]);
    var phases, woken := WakeEach(begin, ws, ok).phases, Woken(s.phases, r, ok);
    forall w | 0 <= w < |phases| ensures phases[w] == woken[w] {
      WakeEachPhase(begin, ws, ok, w);
      assert w in ws <==> s.phases[w] == Waiting(r);
    }
  }

  class RequestHandler {
    var authLocks: map<string, nat>
    var phases: seq<Phase>
    var dests: seq<string>
    ghost var found: seq<Option<nat>>
    ghost var latest: map<string, nat>

    ghost function Now(): State
      reads this
    {
      State(dests, phases, found, authLocks, latest)
    }

    constructor ()
      ensures Now() == INITIAL
    {
      authLocks, phases, dests, found, latest := map[], [], [], [], map[];
    }

    /** Starting an acquisition: nothing is awaited between creating the promise and storing it. */
    method StartAcquisition(request: nat)
      requires request < |phases| == |dests|
      modifies this
      ensures Now() == Start(old(Now()), request)
    {
      phases := phases[request := Acquiring];
      authLocks := authLocks[dests[request] := request];
      latest := latest[dests[request] := request];
    }

    /** A request reaches the lock. */
    method ReachLock(destination: string)
      requires |dests| == |phases| == |found|
      modifies this
      ensures Now() == Step(old(Now()), Arrive(destination))
    {
      var request := |phases|;
      var existingLock := if destination in authLocks then Some(authLocks[destination]) else None;
      dests := dests + [destination];
      found := found + [existingLock];
      if existingLock.Some? {
        phases := phases + [Waiting(existingLock.value)];
      } else {
        phases := phases + [Done(false)];
        StartAcquisition(request);
      }
    }

    /** The `finally` callback of an acquisition. */
    method AcquisitionSettled(request: nat, ok: bool)
      requires Enabled(Now(), Finally(request, ok))
      modifies this
      ensures Now() == Step(old(Now()), Finally(request, ok))
    {
      var destination := dests[request];
      if destination in authLocks && authLocks[destination] == request {
        authLocks := authLocks - {destination};
      }
      phases := phases[request := Settled(ok)];
    }

    /** The acquisition's promise settles: the request goes on, and each waiter, in the order they began to wait,
        starts its own acquisition without looking at the map again, or fails. */
    method AcquisitionResolved(request: nat)
      requires Inv(Now()) && Enabled(Now(), Resolve(request))
      modifies this
      ensures Now() == Step(old(Now()), Resolve(request))
    {
      var ok, waiters := phases[request].ok, Waiters(phases, request);
      WakeEachIsResolve(Now(), request);
      assert forall i :: 0 <= i < |waiters| ==> waiters[i] in waiters;
      phases := phases[request := Done(ok)];
      ResumeEach(waiters, ok);
    }

    /** The continuations of a settled promise. */
    method ResumeEach(waiters: seq<nat>, ok: bool)
      requires |phases| == |dests| && forall i :: 0 <= i < |waiters| ==> waiters[i] < |phases|
      modifies this
      ensures Now() == WakeEach(old(Now()), waiters, ok)
    {
      for i := 0 to |waiters|
        invariant |phases| == |dests| == old(|phases|)
        invariant Now() == WakeEach(old(Now()), waiters[..i], ok)
      {
        WakeSnoc(old(Now()), waiters, i, ok);
        if ok {
          StartAcquisition(waiters[i]);
        } else {
          phases := phases[waiters[i] := Done(false)];
        }
      }
      assert waiters[..|waiters|] == waiters;
    }
  }
}
