/** Which result lists the runs of one search can return (src/lib/search-source/orchestrator.ts): the schedules that pumps
    can really follow, against the sort that has to hide them. */
module SearchSchedules {
  import opened Sequences
  import opened Order
  import opened SearchSource
  import opened SearchOutcome

  /** Some run of that many pumps ends, without the deadline, with this result list. */
  ghost predicate Returns(job: Job, pumps: nat, list: seq<SearchHit>) {
    exists s: State, steps: nat ::
      Reachable(job, pumps, s, steps) && AllStopped(s) && !s.timedOut && list == Sort(HitLe, s.allHits)
  }

  /** All runs of that many pumps return the same list. */
  ghost predicate Unanimous(job: Job, pumps: nat) {
    forall a, b :: Returns(job, pumps, a) && Returns(job, pumps, b) ==> a == b
  }

  // ---------- Letting one pump work ----------

  /** A pump that has read all units of its target delivers the target's hits. */
  lemma DeliverScanned(job: Job, s: State, p: nat)
    requires ValidJob(job) && CanResume(job, s, p) && s.pumps[p].Scanning? && ScanReady(job, s.pumps[p])
    requires s.pumps[p].pos == |job.units[s.pumps[p].index]|
    ensures var t := Resume(job, s, p, false);
            && t.allHits == s.allHits + TargetHits(job, s.pumps[p].index)
            && t.timedOut == s.timedOut && t.next == s.next && t.pumps == s.pumps[p := Claiming]
  {
    AllUnitsRead(job, s.pumps[p].index);
    assert s.allHits + [] == s.allHits;
  }

  /** A pump that the cap stopped delivers the target's hits. */
  lemma DeliverCapped(job: Job, s: State, p: nat)
    requires ValidJob(job) && p < |s.pumps| && s.pumps[p].Finishing? && s.pumps[p].index < |job.targets|
    requires s.pumps[p].hits == TargetHits(job, s.pumps[p].index)
    ensures CanResume(job, s, p)
    ensures var t := Resume(job, s, p, false);
            && t.allHits == s.allHits + TargetHits(job, s.pumps[p].index)
            && t.timedOut == s.timedOut && t.next == s.next && t.pumps == s.pumps[p := Claiming]
  {
    hide TargetHits;
    assert s.allHits + [] == s.allHits;
  }

  lemma ScanNext(job: Job, s: State, p: nat)
    requires ValidJob(job) && CanResume(job, s, p) && s.pumps[p].Scanning? && ScanReady(job, s.pumps[p])
    requires s.pumps[p].pos < |job.units[s.pumps[p].index]|
    ensures var t, i := Resume(job, s, p, false), s.pumps[p].index;
            && t.allHits == s.allHits && t.timedOut == s.timedOut && t.next == s.next && |t.pumps| == |s.pumps|
            && t.pumps[p := Claiming] == s.pumps[p := Claiming]
            && ((t.pumps[p].Finishing? && t.pumps[p].index == i && t.pumps[p].hits == TargetHits(job, i))
                || (t.pumps[p].Scanning? && t.pumps[p].index == i && t.pumps[p].pos == s.pumps[p].pos + 1))
  {
    hide TargetHits, MatchesUpTo;
  }

  /** Pump p reads the rest of its target while the others wait. */
  lemma {:induction false} FinishScan(job: Job, pumps: nat, s: State, steps: nat, p: nat) returns (t: State, more: nat)
    requires ValidJob(job) && Reachable(job, pumps, s, steps) && !s.timedOut && p < |s.pumps| && s.pumps[p].Scanning?
    ensures s.pumps[p].index < |job.targets| && t.allHits == s.allHits + TargetHits(job, s.pumps[p].index)
    ensures Reachable(job, pumps, t, more) && !t.timedOut && t.next == s.next && t.pumps == s.pumps[p := Claiming]
    decreases if s.pumps[p].index < |job.units| then |job.units[s.pumps[p].index]| - s.pumps[p].pos else 0
  {
    NoPumpStuck(job, pumps, s, steps, p);
    hide Reachable, NoDuplicates, Resume, TargetHits, MatchesUpTo;
    var u := Resume(job, s, p, false);
    ReachableStep(job, pumps, s, steps, p, false);
    if s.pumps[p].pos == |job.units[s.pumps[p].index]| {
      DeliverScanned(job, s, p);
      t, more := u, steps + 1;
    } else {
      ScanNext(job, s, p);
      if u.pumps[p].Finishing? {
        DeliverCapped(job, u, p);
        t, more := Resume(job, u, p, false), steps + 2;
        ReachableStep(job, pumps, u, steps + 1, p, false);
      } else {
        t, more := FinishScan(job, pumps, u, steps + 1, p);
      }
    }
  }

  lemma AllUnitsRead(job: Job, i: nat)
    requires i < |job.targets| == |job.units|
    ensures MatchesUpTo(job, i, |job.units[i]|) == TargetMatches(job, i)
  {
    assert UnitHits(job, i)[..|job.units[i]|] == UnitHits(job, i);
  }

  /** Pump p takes the next target. */
  lemma PumpTakesTarget(job: Job, pumps: nat, s: State, steps: nat, p: nat) returns (t: State)
    requires ValidJob(job) && Reachable(job, pumps, s, steps) && !s.timedOut && p < |s.pumps| && s.pumps[p].Claiming?
    requires s.next < |job.targets|
    ensures t == s.(next := s.next + 1, pumps := s.pumps[p := Scanning(s.next, 0, [])])
    ensures Reachable(job, pumps, t, steps + 1)
  {
    t := Resume(job, s, p, false);
    ReachableStep(job, pumps, s, steps, p, false);
  }

  /** Pump p works off the targets up to n. */
  lemma {:induction false} WorkOff(job: Job, pumps: nat, s: State, steps: nat, p: nat, n: nat) returns (t: State, more: nat)
    requires ValidJob(job) && Reachable(job, pumps, s, steps) && !s.timedOut && p < |s.pumps| && s.pumps[p].Claiming?
    requires s.next <= n <= |job.targets|
    ensures Reachable(job, pumps, t, more) && !t.timedOut && t.next == n && t.pumps == s.pumps
    ensures t.allHits == s.allHits + Flatten(AllTargetHits(job)[s.next..n])
    decreases n - s.next
  {
    hide Reachable, NoDuplicates, Resume, TargetHits;
    var all := AllTargetHits(job);
    if s.next == n {
      assert all[n..n] == [] && s.allHits + [] == s.allHits;
      t, more := s, steps;
    } else {
      var u := PumpTakesTarget(job, pumps, s, steps, p);
      var v, after := FinishScan(job, pumps, u, steps + 1, p);
      assert v.pumps == s.pumps;
      t, more := WorkOff(job, pumps, v, after, p, n);
      assert all[s.next..n] == [all[s.next]] + all[s.next + 1..n];
      Associate(s.allHits, all[s.next], Flatten(all[s.next + 1..n]));
    }
  }

  /** The pumps from w on notice that there is nothing left. */
  lemma {:induction false} StopFrom(job: Job, pumps: nat, s: State, steps: nat, w: nat) returns (t: State, more: nat)
    requires ValidJob(job) && Reachable(job, pumps, s, steps) && !s.timedOut && s.next >= |job.targets| && w <= |s.pumps|
    requires forall v :: 0 <= v < |s.pumps| ==> s.pumps[v] == if v < w then Stopped else Claiming
    ensures Reachable(job, pumps, t, more) && AllStopped(t) && !t.timedOut && t.allHits == s.allHits
    decreases |s.pumps| - w
  {
    if w == |s.pumps| {
      t, more := s, steps;
    } else {
      ReachableStep(job, pumps, s, steps, w, false);
      t, more := StopFrom(job, pumps, Resume(job, s, w, false), steps + 1, w + 1);
    }
  }

  /** One pump does everything. */
  lemma GivenOrder(job: Job, pumps: nat)
    requires ValidJob(job) && pumps > 0
    ensures Returns(job, pumps, Sort(HitLe, Flatten(AllTargetHits(job))))
  {
    hide AllTargetHits, Flatten, Sort;
    var start := InitialState(pumps);
    ReachableStart(job, pumps);
    var s, steps := WorkOff(job, pumps, start, 0, 0, |job.targets|);
    assert AllTargetHits(job)[0..|job.targets|] == AllTargetHits(job) && [] + Flatten(AllTargetHits(job)) == Flatten(AllTargetHits(job));
    var t, more := StopFrom(job, pumps, s, steps, 0);
    assert Returns(job, pumps, Sort(HitLe, t.allHits));
  }

  /** One pump is held up at target i until another has done the rest. */
  lemma HeldUp(job: Job, pumps: nat, i: nat)
    requires ValidJob(job) && pumps > 1 && i < |job.targets|
    ensures var all := AllTargetHits(job); Returns(job, pumps, Sort(HitLe, (Flatten(all[..i]) + Flatten(all[i + 1..])) + all[i]))
  {
    hide Sort, Reachable, Resume, NoDuplicates, TargetHits;
    var all, start := AllTargetHits(job), InitialState(pumps);
    ReachableStart(job, pumps);
    var s, steps := WorkOff(job, pumps, start, 0, 0, i);
    assert all[0..i] == all[..i] && [] + Flatten(all[..i]) == Flatten(all[..i]);
    var u := PumpTakesTarget(job, pumps, s, steps, 0);
    var v, after := WorkOff(job, pumps, u, steps + 1, 1, |job.targets|);
    assert all[i + 1..|job.targets|] == all[i + 1..];
    var w, last := FinishScan(job, pumps, v, after, 0);
    assert w.pumps == start.pumps;
    var t, more := StopFrom(job, pumps, w, last, 0);
    assert Returns(job, pumps, Sort(HitLe, t.allHits));
  }

  // ---------- What the sort hides ----------

  lemma HitsNameTheirTarget(job: Job, i: nat, h: SearchHit)
    requires |job.targets| == |job.units| && i < |job.targets| && h in TargetHits(job, i)
    ensures h.target == job.targets[i]
  {
    assert h in TargetMatches(job, i);
    FlattenMembers(UnitHits(job, i), h);
  }

  lemma TiesOfThree(k: SearchHit, a: seq<SearchHit>, b: seq<SearchHit>, c: seq<SearchHit>)
    ensures Ties(HitLe, k, Sort(HitLe, (a + b) + c)) == (Ties(HitLe, k, a) + Ties(HitLe, k, b)) + Ties(HitLe, k, c)
  {
    HitLePreorder();
    SortStable(HitLe, k, (a + b) + c);
    FilterAppend(TiedTo(HitLe, k), a + b, c);
    FilterAppend(TiedTo(HitLe, k), a, b);
  }

  /** Exchanging two parts shows if both have an element tied with k, and those of one are none of the other's. */
  lemma ExchangeShows(k: SearchHit, a: seq<SearchHit>, b: seq<SearchHit>, c: seq<SearchHit>, t: Target)
    requires Ties(HitLe, k, b) != [] && Ties(HitLe, k, c) != []
    requires (forall h :: h in b ==> h.target == t) && (forall h :: h in c ==> h.target != t)
    ensures Sort(HitLe, (a + b) + c) != Sort(HitLe, (a + c) + b)
  {
    var x, y, z := Ties(HitLe, k, a), Ties(HitLe, k, b), Ties(HitLe, k, c);
    TiesOfThree(k, a, b, c);
    TiesOfThree(k, a, c, b);
    FilterMembers(TiedTo(HitLe, k), b);
    FilterMembers(TiedTo(HitLe, k), c);
    assert y[0] in y && z[0] in z && y[0] in b && z[0] in c;
    hide Sort, Ties;
    assert ((x + y) + z)[|x|] == y[0] && ((x + z) + y)[|x|] == z[0];
    assert Ties(HitLe, k, Sort(HitLe, (a + b) + c)) != Ties(HitLe, k, Sort(HitLe, (a + c) + b));
  }

  /** Two targets that tie are delivered in either order by two pumps, and the sort keeps either. */
  lemma TiesShow(job: Job, pumps: nat, i: nat, j: nat)
    requires ValidJob(job) && pumps > 1 && i < j < |job.targets| && TargetsTie(job, i, j)
    ensures exists a, b :: Returns(job, pumps, a) && Returns(job, pumps, b) && a != b
  {
    var all := AllTargetHits(job);
    var before, after := Flatten(all[..i]), Flatten(all[i + 1..]);
    GivenOrder(job, pumps);
    HeldUp(job, pumps, i);
    FlattenAround(all, i);
    var k, b :| k in TargetHits(job, i) && b in TargetHits(job, j) && Tied(HitLe, k, b);
    HitTies(k, k);
    FlattenMembers(all[i + 1..], b);
    assert all[i + 1..][j - i - 1] == all[j];
    FilterMembers(TiedTo(HitLe, k), all[i]);
    FilterMembers(TiedTo(HitLe, k), after);
    assert k in Ties(HitLe, k, all[i]) && b in Ties(HitLe, k, after);
    forall h: SearchHit | h in all[i] ensures h.target == job.targets[i] {
      HitsNameTheirTarget(job, i, h);
    }
    forall h: SearchHit | h in after ensures h.target != job.targets[i] {
      LaterTarget(job, i, h);
    }
    ExchangeShows(k, before, all[i], after, job.targets[i]);
  }

  lemma FlattenAround<T>(all: seq<seq<T>>, i: nat)
    requires i < |all|
    ensures Flatten(all) == (Flatten(all[..i]) + all[i]) + Flatten(all[i + 1..])
  {
    hide Flatten;
    SplitAt(all, i);
    FlattenAppend(all[..i], [all[i]] + all[i + 1..]);
    FlattenCons(all[i], all[i + 1..]);
    Associate(Flatten(all[..i]), all[i], Flatten(all[i + 1..]));
  }

  lemma LaterTarget(job: Job, i: nat, h: SearchHit)
    requires ValidJob(job) && i < |job.targets| && h in Flatten(AllTargetHits(job)[i + 1..])
    ensures h.target != job.targets[i]
  {
    var rest := AllTargetHits(job)[i + 1..];
    FlattenMembers(rest, h);
    var m :| 0 <= m < |rest| && h in rest[m];
    HitsNameTheirTarget(job, i + 1 + m, h);
  }

  /** What a run returns is what the targets deliver in some order, and with one pump in their given order. */
  lemma ReturnsDelivered(job: Job, pumps: nat, list: seq<SearchHit>) returns (order: seq<nat>)
    requires ValidJob(job) && pumps > 0 && Returns(job, pumps, list)
    ensures Permutation(order, |job.targets|) && list == Delivered(job, order)
    ensures pumps == 1 ==> order == Upto(|job.targets|)
  {
    hide Permutation;
    var s: State, steps: nat :| Reachable(job, pumps, s, steps) && AllStopped(s) && !s.timedOut && list == Sort(HitLe, s.allHits);
    EveryRun(job, pumps, s, steps);
    if pumps == 1 {
      order := Upto(|job.targets|);
    } else {
      order :| Complete(job, s, order);
    }
  }

  /** All runs of a search that the deadline does not cut short return the same list if and only if there is one pump, or no
      two targets have hits that tie on the sort key. */
  lemma ScheduleIndependence(job: Job, pumps: nat)
    requires ValidJob(job) && pumps > 0
    ensures Unanimous(job, pumps) <==> pumps == 1 || NoTies(job)
  {
    hide Returns;
    if pumps == 1 || NoTies(job) {
      forall a, b | Returns(job, pumps, a) && Returns(job, pumps, b) ensures a == b {
        var order := ReturnsDelivered(job, pumps, a);
        var other := ReturnsDelivered(job, pumps, b);
        if pumps > 1 {
          NoTiesSuffices(job, order, other);
        }
      }
    } else {
      var i: nat, j: nat :| i < j < |job.targets| && TargetsTie(job, i, j);
      TiesShow(job, pumps, i, j);
    }
  }
}
