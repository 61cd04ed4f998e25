/** Searches whose result is not what one would expect of it (src/lib/search-source/orchestrator.ts). */
module SearchFailures {
  import opened Sequences
  import opened LineScanner
  import opened SearchSource
  import opened SearchOutcome
  import opened SearchSchedules

  const LOOK_FOR_X := ScanInput((s: string) => s, "x", None, [], false)

  /** Every target consists of one unit of the same name, with one line, which matches. */
  function OneLineEach(targets: seq<Target>, maxHits: int): Job {
    Job(LOOK_FOR_X, maxHits, true, true, targets, seq(|targets|, _ => [SourceUnit("A", ["x"])]))
  }

  lemma OneMatchEach(targets: seq<Target>, maxHits: int, i: nat)
    requires i < |targets|
    ensures TargetMatches(OneLineEach(targets, maxHits), i) == [SearchHit(targets[i], "A", 1, "x")]
  {
    var job := OneLineEach(targets, maxHits);
    var hit := ScanHit(1, "x");
    LineHits();
    assert AllHits(LOOK_FOR_X, ["x"]) == [hit] by {
      assert ["x"][..0] == [];
    }
    assert Map(ToHit(targets[i], "A"), [hit]) == [SearchHit(targets[i], "A", 1, "x")] by {
      assert [hit][1..] == [];
    }
    assert UnitHits(job, i) == [[SearchHit(targets[i], "A", 1, "x")]];
    FlattenSingle([SearchHit(targets[i], "A", 1, "x")]);
  }

  lemma FlattenSingle<T>(xs: seq<T>)
    ensures Flatten([xs]) == xs
  {
    assert [xs][1..] == [];
  }

  lemma LineHits()
    ensures IsHit(LOOK_FOR_X, "x")
  {
    assert LOOK_FOR_X.lower("x") == "x" && "x" <= "x";
  }

  /** A class and a program of one name in one package, whose includes have one name too, and more than one pump: the list
      can have either order. */
  lemma OrderDependsOnSchedule(pumps: nat)
    requires pumps > 1
    ensures !Unanimous(OneLineEach([Target("P", CLAS, "A"), Target("P", PROG, "A")], 100), pumps)
  {
    var targets := [Target("P", CLAS, "A"), Target("P", PROG, "A")];
    var job := OneLineEach(targets, 100);
    OneMatchEach(targets, 100, 0);
    OneMatchEach(targets, 100, 1);
    var a, b := SearchHit(targets[0], "A", 1, "x"), SearchHit(targets[1], "A", 1, "x");
    assert a in TargetHits(job, 0) && b in TargetHits(job, 1);
    HitTies(a, b);
    assert TargetsTie(job, 0, 1);
    hide TargetHits, TargetsTie, Unanimous;
    ScheduleIndependence(job, pumps);
  }

  /** A job with one target of one unit, and one pump. */
  ghost predicate OneUnit(job: Job, t: Target) {
    job.targets == [t] && |job.units| == 1 && |job.units[0]| == 1 && job.emitNoHits && job.hasDeadline
  }

  /** The target is claimed. */
  lemma TargetClaimed(job: Job, t: Target)
    requires OneUnit(job, t)
    ensures ValidJob(job) && Reachable(job, 1, State(1, [], [], 0, false, false, [Scanning(0, 0, [])]), 1)
  {
    var start := InitialState(1);
    assert start.pumps == [Claiming];
    ReachableStart(job, 1);
    ReachableStep(job, 1, start, 0, 0, false);
    assert Resume(job, start, 0, false).pumps == [Scanning(0, 0, [])];
  }

  /** The target is listed and the pump stops. */
  lemma SilentTargetListed(job: Job, t: Target, sources: nat, capped: bool, timedOut: bool)
    requires OneUnit(job, t)
    requires Reachable(job, 1, State(1, [], [], sources, false, timedOut, [Finishing(0, [], capped)]), 2)
    ensures Reachable(job, 1, State(if timedOut then 1 else 2, [], [t], sources, capped, timedOut, [Stopped]), 4)
  {
    hide Reachable;
    var s2 := State(1, [], [], sources, false, timedOut, [Finishing(0, [], capped)]);
    var s3 := State(1, [], [t], sources, capped, timedOut, [Claiming]);
    ReachableStep(job, 1, s2, 2, 0, false);
    assert Resume(job, s2, 0, false).pumps == [Claiming] && [] + [t] == [t];
    ReachableStep(job, 1, s3, 3, 0, timedOut);
    assert Resume(job, s3, 0, timedOut).pumps == [Stopped];
  }

  /** Some run of one pump ends with the target listed as having no hit. */
  ghost predicate EndsSilent(job: Job, t: Target, timedOut: bool) {
    exists s: State, steps: nat :: Reachable(job, 1, s, steps) && AllStopped(s) && s.timedOut == timedOut && s.noHits == [t]
  }

  lemma SilentRunEnds(job: Job, s: State, t: Target, steps: nat)
    requires Reachable(job, 1, s, steps) && AllStopped(s) && s.noHits == [t]
    ensures EndsSilent(job, t, s.timedOut)
  {
  }

  /** The ends of two runs of a job with one unit: the cap admits no hit, and the deadline strikes before the unit is scanned. */
  lemma RunWithoutRoom(job: Job, t: Target)
    requires OneUnit(job, t) && ValidJob(job) && |MatchesUpTo(job, 0, 1)| > Cap(job) && TargetHits(job, 0) == []
    ensures EndsSilent(job, t, false)
  {
    hide TargetHits, MatchesUpTo, Reachable, EndsSilent;
    TargetClaimed(job, t);
    var s1 := State(1, [], [], 0, false, false, [Scanning(0, 0, [])]);
    ReachableStep(job, 1, s1, 1, 0, false);
    assert Resume(job, s1, 0, false).pumps == [Finishing(0, [], true)];
    SilentTargetListed(job, t, 1, true, false);
    SilentRunEnds(job, State(2, [], [t], 1, true, false, [Stopped]), t, 4);
  }

  lemma RunWithoutTime(job: Job, t: Target)
    requires OneUnit(job, t) && ValidJob(job)
    ensures EndsSilent(job, t, true)
  {
    hide TargetHits, MatchesUpTo, Reachable, EndsSilent;
    TargetClaimed(job, t);
    var s1 := State(1, [], [], 0, false, false, [Scanning(0, 0, [])]);
    ReachableStep(job, 1, s1, 1, 0, true);
    assert Resume(job, s1, 0, true).pumps == [Finishing(0, [], false)];
    SilentTargetListed(job, t, 0, false, true);
    SilentRunEnds(job, State(1, [], [t], 0, false, true, [Stopped]), t, 4);
  }

  /** With a cap of zero a target with a match is listed as having none, and the deadline has nothing to do with it. */
  lemma CapZeroSilences(t: Target)
    ensures TargetMatches(OneLineEach([t], 0), 0) != [] && EndsSilent(OneLineEach([t], 0), t, false)
  {
    var job := OneLineEach([t], 0);
    OneMatchEach([t], 0, 0);
    AllUnitsRead(job, 0);
    assert TargetHits(job, 0) == [] && |MatchesUpTo(job, 0, 1)| == 1;
    hide TargetHits, MatchesUpTo, TargetMatches, EndsSilent;
    RunWithoutRoom(job, t);
  }

  /** So is a target with a match whose first unit arrives after the deadline, whatever the cap. */
  lemma DeadlineSilences(t: Target, maxHits: int)
    ensures TargetMatches(OneLineEach([t], maxHits), 0) != [] && EndsSilent(OneLineEach([t], maxHits), t, true)
  {
    var job := OneLineEach([t], maxHits);
    OneMatchEach([t], maxHits, 0);
    hide TargetHits, MatchesUpTo, TargetMatches, EndsSilent;
    RunWithoutTime(job, t);
  }
}
