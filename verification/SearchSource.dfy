/** Source search over a bounded pool of coroutines (src/lib/search-source/orchestrator.ts).

    JavaScript runs one coroutine at a time and switches only at an `await`, so each method of
    `SearchRun` below is one uninterrupted stretch of a pump, and `Run` resumes the pumps in any order. */
module SearchSource {
  import opened Sequences
  import opened LineScanner
  import opened WorkerPool

  datatype ObjectType = CLAS | FUGR | PROG

  datatype Target = Target(devclass: string, objectType: ObjectType, objectName: string)

  datatype SourceUnit = SourceUnit(includeName: string, lines: seq<string>)

  /** A hit carries the devclass, type and name of its target. */
  datatype SearchHit = SearchHit(target: Target, includeName: string, line: nat, snippet: string)

  /** One search: units[i] is what the source reader yields for the i-th target. */
  datatype Job = Job(
    scan: ScanInput,
    maxHits: int,
    emitNoHits: bool,
    hasDeadline: bool,
    targets: seq<Target>,
    units: seq<seq<SourceUnit>>)

  ghost predicate ValidJob(job: Job) {
    |job.units| == |job.targets| && NoDuplicates(job.targets)
  }

  // ---------- The reference: filter every line of every unit, cut each target at the cap ----------

  function Cap(job: Job): nat {
    if job.maxHits < 0 then 0 else job.maxHits
  }

  function ToHit(target: Target, includeName: string): ScanHit -> SearchHit {
    (h: ScanHit) => SearchHit(target, includeName, h.line, h.snippet)
  }

  function UnitHits(job: Job, i: nat): (hits: seq<seq<SearchHit>>)
    requires i < |job.targets| == |job.units|
    ensures |hits| == |job.units[i]|
  {
    seq(|job.units[i]|, j requires 0 <= j < |job.units[i]| =>
      Map(ToHit(job.targets[i], job.units[i][j].includeName), AllHits(job.scan, job.units[i][j].lines)))
  }

  /** The hits in the first `pos` units of target i. */
  function MatchesUpTo(job: Job, i: nat, pos: nat): seq<SearchHit>
    requires i < |job.targets| == |job.units| && pos <= |job.units[i]|
  {
    Flatten(UnitHits(job, i)[..pos])
  }

  function TargetMatches(job: Job, i: nat): seq<SearchHit>
    requires i < |job.targets| == |job.units|
  {
    Flatten(UnitHits(job, i))
  }

  function TargetHits(job: Job, i: nat): seq<SearchHit>
    requires i < |job.targets| == |job.units|
  {
    Take(TargetMatches(job, i), job.maxHits)
  }

  predicate ExceedsCap(job: Job, i: nat)
    requires i < |job.targets| == |job.units|
  {
    |TargetMatches(job, i)| > Cap(job)
  }

  /** How many units are scanned: up to the one that shows the cap is exceeded, else all. */
  function UnitsScanned(job: Job, i: nat, pos: nat): nat
    requires i < |job.targets| == |job.units| && pos <= |job.units[i]|
    decreases |job.units[i]| - pos
  {
    if pos == |job.units[i]| then pos
    else if |MatchesUpTo(job, i, pos + 1)| > Cap(job) then pos + 1
    else UnitsScanned(job, i, pos + 1)
  }

  function AllTargetHits(job: Job): (hits: seq<seq<SearchHit>>)
    requires |job.targets| == |job.units|
    ensures |hits| == |job.targets| && forall i :: 0 <= i < |hits| ==> hits[i] == TargetHits(job, i)
  {
    seq(|job.targets|, i requires 0 <= i < |job.targets| => TargetHits(job, i))
  }

  function AllTargetMatches(job: Job): (hits: seq<seq<SearchHit>>)
    requires |job.targets| == |job.units|
    ensures |hits| == |job.targets| && forall i :: 0 <= i < |hits| ==> hits[i] == TargetMatches(job, i)
  {
    seq(|job.targets|, i requires 0 <= i < |job.targets| => TargetMatches(job, i))
  }

  function AllUnitsScanned(job: Job): (counts: seq<nat>)
    requires |job.targets| == |job.units|
    ensures |counts| == |job.targets| && forall i :: 0 <= i < |counts| ==> counts[i] == UnitsScanned(job, i, 0)
  {
    seq(|job.targets|, i requires 0 <= i < |job.targets| => UnitsScanned(job, i, 0))
  }

  /** A target that contributed nothing is reported as a no-hit. */
  function QuietParts(targets: seq<Target>, given: seq<seq<SearchHit>>): (parts: seq<seq<Target>>)
    requires |given| == |targets|
    ensures |parts| == |targets|
  {
    seq(|targets|, i requires 0 <= i < |targets| => if given[i] == [] then [targets[i]] else [])
  }

  // ---------- Cap arithmetic ----------

  lemma MatchesUpToStep(job: Job, i: nat, pos: nat)
    requires i < |job.targets| == |job.units| && pos < |job.units[i]|
    ensures MatchesUpTo(job, i, pos + 1) == MatchesUpTo(job, i, pos) + UnitHits(job, i)[pos]
    ensures MatchesUpTo(job, i, pos + 1) <= TargetMatches(job, i)
    ensures MatchesUpTo(job, i, pos) <= TargetMatches(job, i)
  {
    FlattenStep(UnitHits(job, i), pos);
    FlattenPrefix(UnitHits(job, i), pos + 1);
    FlattenPrefix(UnitHits(job, i), pos);
  }

  lemma MapTake<T, U>(f: T -> U, xs: seq<T>, n: int)
    ensures Map(f, Take(xs, n)) == Take(Map(f, xs), n)
  {
  }

  /** Threading the remaining allowance through the units gives the one-shot cut. */
  lemma IncrementalCap(job: Job, i: nat, pos: nat)
    requires i < |job.targets| == |job.units| && pos < |job.units[i]|
    requires |MatchesUpTo(job, i, pos)| <= Cap(job)
    ensures var before, unit := MatchesUpTo(job, i, pos), UnitHits(job, i)[pos];
            && |before| + |unit| == |MatchesUpTo(job, i, pos + 1)|
            && (|before| + |unit| <= Cap(job) ==> before + Take(unit, job.maxHits - |before|) == MatchesUpTo(job, i, pos + 1))
            && (|before| + |unit| > Cap(job) ==> before + Take(unit, job.maxHits - |before|) == TargetHits(job, i) && ExceedsCap(job, i))
  {
    MatchesUpToStep(job, i, pos);
  }

  lemma ProbeStep(job: Job, i: nat, pos: nat, probeHits: seq<ScanHit>)
    requires i < |job.targets| == |job.units| && pos < |job.units[i]|
    requires |MatchesUpTo(job, i, pos)| <= Cap(job) && job.maxHits <= |MatchesUpTo(job, i, pos)|
    requires probeHits == Take(AllHits(job.scan, job.units[i][pos].lines), 1)
    ensures |probeHits| > 0 <==> |MatchesUpTo(job, i, pos + 1)| > Cap(job)
    ensures MatchesUpTo(job, i, pos) == if |probeHits| > 0 then TargetHits(job, i) else MatchesUpTo(job, i, pos + 1)
  {
    IncrementalCap(job, i, pos);
  }

  lemma ScanStep(job: Job, i: nat, pos: nat, scanHits: seq<ScanHit>, capped: bool)
    requires i < |job.targets| == |job.units| && pos < |job.units[i]|
    requires |MatchesUpTo(job, i, pos)| <= Cap(job) && |MatchesUpTo(job, i, pos)| < job.maxHits
    requires scanHits == Take(AllHits(job.scan, job.units[i][pos].lines), job.maxHits - |MatchesUpTo(job, i, pos)|)
    requires capped <==> |AllHits(job.scan, job.units[i][pos].lines)| > job.maxHits - |MatchesUpTo(job, i, pos)|
    ensures capped <==> |MatchesUpTo(job, i, pos + 1)| > Cap(job)
    ensures MatchesUpTo(job, i, pos) + Map(ToHit(job.targets[i], job.units[i][pos].includeName), scanHits)
         == if capped then TargetHits(job, i) else MatchesUpTo(job, i, pos + 1)
  {
    IncrementalCap(job, i, pos);
    MapTake(ToHit(job.targets[i], job.units[i][pos].includeName), AllHits(job.scan, job.units[i][pos].lines),
            job.maxHits - |MatchesUpTo(job, i, pos)|);
  }

  // ---------- The pool of pumps ----------

  /** Where a pump is suspended. Scanning has consumed `pos` units of target `index`; Finishing has left the unit loop. */
  datatype Pump =
    | Claiming
    | Scanning(index: nat, pos: nat, hits: seq<SearchHit>)
    | Finishing(index: nat, hits: seq<SearchHit>, capped: bool)
    | Stopped

  function Claim(pump: Pump): Option<nat> {
    if pump.Scanning? || pump.Finishing? then Some(pump.index) else None
  }

  function Claims(pumps: seq<Pump>): (claims: seq<Option<nat>>)
    ensures |claims| == |pumps| && forall w :: 0 <= w < |pumps| ==> claims[w] == Claim(pumps[w])
  {
    seq(|pumps|, w requires 0 <= w < |pumps| => Claim(pumps[w]))
  }

  /** What the pumps share, and where each of them is. */
  datatype State = State(
    next: nat,
    allHits: seq<SearchHit>,
    noHits: seq<Target>,
    sourcesScanned: nat,
    truncatedByObjectCap: bool,
    timedOut: bool,
    pumps: seq<Pump>)

  /** The top of the pump loop: the stop check and `next++`, with no suspension in between. */
  function ClaimNext(job: Job, s: State, p: nat, deadlinePassed: bool): State
    requires p < |s.pumps|
  {
    if deadlinePassed then s.(timedOut := true, pumps := s.pumps[p := Stopped])
    else if s.next < |job.targets| then s.(next := s.next + 1, pumps := s.pumps[p := Scanning(s.next, 0, [])])
    else s.(next := s.next + 1, pumps := s.pumps[p := Stopped])
  }

  predicate CanScan(job: Job, s: State, p: nat) {
    && |job.units| == |job.targets|
    && p < |s.pumps| && s.pumps[p].Scanning?
    && s.pumps[p].index < |job.units| && s.pumps[p].pos < |job.units[s.pumps[p].index]|
  }

  /** A unit of the pump's target has been read. */
  function UnitArrives(job: Job, s: State, p: nat, deadlinePassed: bool): State
    requires CanScan(job, s, p)
  {
    var Scanning(i, pos, hits) := s.pumps[p];
    if deadlinePassed then
      s.(timedOut := true, pumps := s.pumps[p := Finishing(i, hits, false)])
    else if |MatchesUpTo(job, i, pos + 1)| > Cap(job) then
      s.(sourcesScanned := s.sourcesScanned + 1, pumps := s.pumps[p := Finishing(i, TargetHits(job, i), true)])
    else
      s.(sourcesScanned := s.sourcesScanned + 1, pumps := s.pumps[p := Scanning(i, pos + 1, MatchesUpTo(job, i, pos + 1))])
  }

  predicate CanFinish(job: Job, s: State, p: nat) {
    && |job.units| == |job.targets|
    && p < |s.pumps|
    && match s.pumps[p]
       case Scanning(i, pos, _) => i < |job.units| && pos == |job.units[i]|
       case Finishing(i, _, _) => i < |job.units|
       case _ => false
  }

  /** The unit loop is over: the target's hits are delivered. */
  function FinishTarget(job: Job, s: State, p: nat): State
    requires CanFinish(job, s, p)
  {
    var pump := s.pumps[p];
    var capped := pump.Finishing? && pump.capped;
    var t := s.(truncatedByObjectCap := s.truncatedByObjectCap || capped, pumps := s.pumps[p := Claiming]);
    if pump.hits == [] && job.emitNoHits then t.(noHits := t.noHits + [job.targets[pump.index]])
    else t.(allHits := t.allHits + pump.hits)
  }

  // ---------- What every step keeps ----------

  /** What a run has done to each target so far. */
  datatype History = History(
    owner: seq<Owner>,            // who works on each target
    order: seq<nat>,              // targets in the order they finished
    given: seq<seq<SearchHit>>,   // the hits each target contributed
    read: seq<nat>,               // units of each target scanned so far
    cut: seq<bool>)               // targets interrupted by the deadline

  ghost predicate Sized(job: Job, h: History) {
    ValidJob(job) && |h.owner| == |h.given| == |h.read| == |h.cut| == |job.targets|
  }

  ghost predicate ControlOk(job: Job, s: State, h: History) {
    Ledger(s.next, Claims(s.pumps), h.owner) && Settles(h.order, h.owner)
  }

  /** The deadline struck when a unit had arrived but was not scanned: the hits are those of the units before it. */
  ghost predicate CutAt(job: Job, i: nat, read: nat, hits: seq<SearchHit>)
    requires i < |job.targets| == |job.units|
  {
    read < |job.units[i]| && hits == MatchesUpTo(job, i, read) && |hits| <= Cap(job)
  }

  ghost predicate PumpOk(job: Job, s: State, h: History, pump: Pump)
    requires Sized(job, h)
  {
    match pump
    case Claiming => true
    case Scanning(i, pos, hits) =>
      && i < |job.targets| && pos <= |job.units[i]| && !h.cut[i]
      && hits == MatchesUpTo(job, i, pos) && |hits| <= Cap(job)
      && h.read[i] == pos && UnitsScanned(job, i, 0) == UnitsScanned(job, i, pos)
    case Finishing(i, hits, capped) =>
      && i < |job.targets|
      && (h.cut[i] ==> CutAt(job, i, h.read[i], hits) && !capped)
      && (!h.cut[i] ==> hits == TargetHits(job, i) && capped == ExceedsCap(job, i) && h.read[i] == UnitsScanned(job, i, 0))
    case Stopped => s.timedOut || s.next >= |job.targets|
  }

  ghost predicate PumpsOk(job: Job, s: State, h: History) {
    Sized(job, h) && forall w :: 0 <= w < |s.pumps| ==> PumpOk(job, s, h, s.pumps[w])
  }

  ghost predicate TargetOk(job: Job, timedOut: bool, h: History, i: nat)
    requires Sized(job, h) && i < |job.targets|
  {
    && (!h.owner[i].Settled? ==> h.given[i] == [])
    && (h.owner[i].Unclaimed? ==> h.read[i] == 0 && !h.cut[i])
    && (h.cut[i] ==> timedOut)
    && (h.owner[i].Settled? && h.cut[i] ==> CutAt(job, i, h.read[i], h.given[i]))
    && (h.owner[i].Settled? && !h.cut[i] ==> h.given[i] == TargetHits(job, i) && h.read[i] == UnitsScanned(job, i, 0))
  }

  ghost predicate TargetsOk(job: Job, s: State, h: History) {
    Sized(job, h) && forall i :: 0 <= i < |h.owner| ==> TargetOk(job, s.timedOut, h, i)
  }

  /** The delivered lists are the contributions in finishing order. */
  ghost predicate OutputOk(job: Job, s: State, h: History) {
    && Sized(job, h) && Settles(h.order, h.owner)
    && s.allHits == Flatten(Pick(h.given, h.order))
    && s.noHits == (if job.emitNoHits then Flatten(Pick(QuietParts(job.targets, h.given), h.order)) else [])
  }

  ghost predicate Overflowed(job: Job, h: History, i: nat)
    requires Sized(job, h) && i < |h.owner|
  {
    h.owner[i].Settled? && !h.cut[i] && ExceedsCap(job, i)
  }

  ghost predicate FlagsOk(job: Job, s: State, h: History) {
    && Sized(job, h)
    && (s.truncatedByObjectCap <==> exists i :: 0 <= i < |h.owner| && Overflowed(job, h, i))
    && (s.timedOut ==> job.hasDeadline)
    && s.sourcesScanned == Sum(h.read)
  }

  /** A single pump finishes the targets in their given order. */
  ghost predicate SinglePumpOk(job: Job, s: State, h: History) {
    |s.pumps| == 1 ==>
      && h.order == Upto(|h.order|)
      && |h.order| == if Claim(s.pumps[0]).Some? then Claim(s.pumps[0]).value
                      else if s.next <= |job.targets| then s.next else |job.targets|
  }

  ghost predicate Inv(job: Job, s: State, h: History) {
    && Sized(job, h) && ControlOk(job, s, h) && PumpsOk(job, s, h) && TargetsOk(job, s, h)
    && OutputOk(job, s, h) && FlagsOk(job, s, h) && SinglePumpOk(job, s, h)
  }

  function ClaimHistory(job: Job, s: State, h: History, p: nat, deadlinePassed: bool): History {
    if !deadlinePassed && s.next < |h.owner| then h.(owner := h.owner[s.next := ClaimedBy(p)]) else h
  }

  lemma ClaimControl(job: Job, s: State, h: History, p: nat, deadlinePassed: bool)
    requires Sized(job, h) && ControlOk(job, s, h) && SinglePumpOk(job, s, h) && p < |s.pumps| && s.pumps[p].Claiming?
    ensures ControlOk(job, ClaimNext(job, s, p, deadlinePassed), ClaimHistory(job, s, h, p, deadlinePassed))
    ensures SinglePumpOk(job, ClaimNext(job, s, p, deadlinePassed), ClaimHistory(job, s, h, p, deadlinePassed))
  {
    var t := ClaimNext(job, s, p, deadlinePassed);
    if !deadlinePassed && s.next < |h.owner| {
      ClaimOne(s.next, Claims(s.pumps), h.owner, h.order, p);
      assert Claims(t.pumps) == Claims(s.pumps)[p := Some(s.next)];
    } else {
      assert Claims(t.pumps) == Claims(s.pumps);
    }
  }

  lemma ClaimPumps(job: Job, s: State, h: History, p: nat, deadlinePassed: bool)
    requires PumpsOk(job, s, h) && TargetsOk(job, s, h) && ControlOk(job, s, h) && p < |s.pumps| && s.pumps[p].Claiming?
    ensures PumpsOk(job, ClaimNext(job, s, p, deadlinePassed), ClaimHistory(job, s, h, p, deadlinePassed))
  {
    var t, h' := ClaimNext(job, s, p, deadlinePassed), ClaimHistory(job, s, h, p, deadlinePassed);
    if !deadlinePassed && s.next < |job.targets| {
      assert TargetOk(job, s.timedOut, h, s.next) && h.owner[s.next].Unclaimed?;
      assert MatchesUpTo(job, s.next, 0) == [];
    }
    forall w | 0 <= w < |t.pumps| && w != p ensures PumpOk(job, t, h', t.pumps[w]) {
      assert PumpOk(job, s, h, s.pumps[w]);
    }
  }

  lemma ClaimTargets(job: Job, s: State, h: History, p: nat, deadlinePassed: bool)
    requires TargetsOk(job, s, h) && ControlOk(job, s, h) && FlagsOk(job, s, h) && p < |s.pumps| && (deadlinePassed ==> job.hasDeadline)
    ensures TargetsOk(job, ClaimNext(job, s, p, deadlinePassed), ClaimHistory(job, s, h, p, deadlinePassed))
    ensures FlagsOk(job, ClaimNext(job, s, p, deadlinePassed), ClaimHistory(job, s, h, p, deadlinePassed))
  {
    var t, h' := ClaimNext(job, s, p, deadlinePassed), ClaimHistory(job, s, h, p, deadlinePassed);
    forall i | 0 <= i < |h.owner|
      ensures TargetOk(job, t.timedOut, h', i) && (Overflowed(job, h', i) <==> Overflowed(job, h, i))
    {
      assert TargetOk(job, s.timedOut, h, i);
    }
  }

  lemma ClaimKeepsInv(job: Job, s: State, h: History, p: nat, deadlinePassed: bool)
    requires Inv(job, s, h) && p < |s.pumps| && s.pumps[p].Claiming? && (deadlinePassed ==> job.hasDeadline)
    ensures Inv(job, ClaimNext(job, s, p, deadlinePassed), ClaimHistory(job, s, h, p, deadlinePassed))
  {
    ClaimControl(job, s, h, p, deadlinePassed);
    ClaimPumps(job, s, h, p, deadlinePassed);
    ClaimTargets(job, s, h, p, deadlinePassed);
  }

  function UnitHistory(job: Job, s: State, h: History, p: nat, deadlinePassed: bool): History
    requires Sized(job, h) && CanScan(job, s, p)
  {
    var Scanning(i, pos, _) := s.pumps[p];
    if deadlinePassed then h.(cut := h.cut[i := true]) else h.(read := h.read[i := pos + 1])
  }

  lemma UnitControl(job: Job, s: State, h: History, p: nat, deadlinePassed: bool)
    requires Sized(job, h) && ControlOk(job, s, h) && SinglePumpOk(job, s, h) && OutputOk(job, s, h) && CanScan(job, s, p)
    ensures var t, h' := UnitArrives(job, s, p, deadlinePassed), UnitHistory(job, s, h, p, deadlinePassed);
            ControlOk(job, t, h') && SinglePumpOk(job, t, h') && OutputOk(job, t, h')
  {
    assert Claims(UnitArrives(job, s, p, deadlinePassed).pumps) == Claims(s.pumps);
  }

  lemma UnitPump(job: Job, s: State, h: History, p: nat, deadlinePassed: bool)
    requires PumpsOk(job, s, h) && CanScan(job, s, p)
    ensures var t, h' := UnitArrives(job, s, p, deadlinePassed), UnitHistory(job, s, h, p, deadlinePassed);
            PumpOk(job, t, h', t.pumps[p])
  {
    var Scanning(i, pos, _) := s.pumps[p];
    assert PumpOk(job, s, h, s.pumps[p]);
    MatchesUpToStep(job, i, pos);
  }

  lemma UnitPumps(job: Job, s: State, h: History, p: nat, deadlinePassed: bool)
    requires PumpsOk(job, s, h) && ControlOk(job, s, h) && CanScan(job, s, p)
    ensures PumpsOk(job, UnitArrives(job, s, p, deadlinePassed), UnitHistory(job, s, h, p, deadlinePassed))
  {
    var t, h' := UnitArrives(job, s, p, deadlinePassed), UnitHistory(job, s, h, p, deadlinePassed);
    UnitPump(job, s, h, p, deadlinePassed);
    var i := s.pumps[p].index;
    assert Claims(s.pumps)[p] == Some(i);
    hide MatchesUpTo, UnitsScanned, TargetHits, ExceedsCap;
    forall w | 0 <= w < |t.pumps| && w != p ensures PumpOk(job, t, h', t.pumps[w]) {
      assert PumpOk(job, s, h, s.pumps[w]) && Claims(s.pumps)[w] == Claim(s.pumps[w]);
    }
  }

  lemma UnitTargets(job: Job, s: State, h: History, p: nat, deadlinePassed: bool)
    requires TargetsOk(job, s, h) && PumpsOk(job, s, h) && ControlOk(job, s, h) && FlagsOk(job, s, h)
    requires CanScan(job, s, p) && (deadlinePassed ==> job.hasDeadline)
    ensures TargetsOk(job, UnitArrives(job, s, p, deadlinePassed), UnitHistory(job, s, h, p, deadlinePassed))
    ensures FlagsOk(job, UnitArrives(job, s, p, deadlinePassed), UnitHistory(job, s, h, p, deadlinePassed))
  {
    var t, h' := UnitArrives(job, s, p, deadlinePassed), UnitHistory(job, s, h, p, deadlinePassed);
    var i, pos := s.pumps[p].index, s.pumps[p].pos;
    assert PumpOk(job, s, h, s.pumps[p]) && Claims(s.pumps)[p] == Some(i);
    SumUpdate(h.read, i, pos + 1);
    forall j | 0 <= j < |h.owner|
      ensures TargetOk(job, t.timedOut, h', j) && (Overflowed(job, h', j) <==> Overflowed(job, h, j))
    {
      assert TargetOk(job, s.timedOut, h, j);
    }
  }

  lemma UnitKeepsInv(job: Job, s: State, h: History, p: nat, deadlinePassed: bool)
    requires Inv(job, s, h) && CanScan(job, s, p) && (deadlinePassed ==> job.hasDeadline)
    ensures Inv(job, UnitArrives(job, s, p, deadlinePassed), UnitHistory(job, s, h, p, deadlinePassed))
  {
    UnitControl(job, s, h, p, deadlinePassed);
    UnitPumps(job, s, h, p, deadlinePassed);
    UnitTargets(job, s, h, p, deadlinePassed);
  }

  function FinishHistory(job: Job, s: State, h: History, p: nat): History
    requires Sized(job, h) && CanFinish(job, s, p)
  {
    var i := s.pumps[p].index;
    h.(owner := h.owner[i := Settled], order := h.order + [i], given := h.given[i := s.pumps[p].hits])
  }

  lemma FinishControl(job: Job, s: State, h: History, p: nat)
    requires Sized(job, h) && ControlOk(job, s, h) && SinglePumpOk(job, s, h) && CanFinish(job, s, p)
    ensures ControlOk(job, FinishTarget(job, s, p), FinishHistory(job, s, h, p))
    ensures SinglePumpOk(job, FinishTarget(job, s, p), FinishHistory(job, s, h, p))
  {
    var i := s.pumps[p].index;
    assert Claims(s.pumps)[p] == Some(i);
    ReleaseOne(s.next, Claims(s.pumps), h.owner, h.order, p);
    assert Claims(FinishTarget(job, s, p).pumps) == Claims(s.pumps)[p := None];
    assert i + 1 < |h.owner| ==> (h.owner[i + 1].Settled? <==> i + 1 in h.order);
  }

  lemma FinishPumps(job: Job, s: State, h: History, p: nat)
    requires PumpsOk(job, s, h) && ControlOk(job, s, h) && CanFinish(job, s, p)
    ensures PumpsOk(job, FinishTarget(job, s, p), FinishHistory(job, s, h, p))
  {
    var t, h' := FinishTarget(job, s, p), FinishHistory(job, s, h, p);
    forall w | 0 <= w < |t.pumps| && w != p ensures PumpOk(job, t, h', t.pumps[w]) {
      assert PumpOk(job, s, h, s.pumps[w]);
    }
  }

  lemma FinishTargets(job: Job, s: State, h: History, p: nat)
    requires TargetsOk(job, s, h) && PumpsOk(job, s, h) && ControlOk(job, s, h) && FlagsOk(job, s, h) && CanFinish(job, s, p)
    ensures TargetsOk(job, FinishTarget(job, s, p), FinishHistory(job, s, h, p))
    ensures FlagsOk(job, FinishTarget(job, s, p), FinishHistory(job, s, h, p))
  {
    var t, h' := FinishTarget(job, s, p), FinishHistory(job, s, h, p);
    var i, pump := s.pumps[p].index, s.pumps[p];
    assert PumpOk(job, s, h, pump) && Claims(s.pumps)[p] == Some(i) && TargetOk(job, s.timedOut, h, i);
    if pump.Scanning? {
      assert UnitHits(job, i)[..|job.units[i]|] == UnitHits(job, i);
    }
    forall j | 0 <= j < |h.owner|
      ensures TargetOk(job, t.timedOut, h', j) && (Overflowed(job, h', j) <==> if j == i then pump.Finishing? && pump.capped else Overflowed(job, h, j))
    {
      assert TargetOk(job, s.timedOut, h, j);
    }
    if s.truncatedByObjectCap {
      var j :| 0 <= j < |h.owner| && Overflowed(job, h, j);
      assert Overflowed(job, h', j);
    } else if t.truncatedByObjectCap {
      assert Overflowed(job, h', i);
    }
  }

  lemma DeliverOne<T>(parts: seq<seq<T>>, order: seq<nat>, i: nat, part: seq<T>)
    requires i < |parts| && i !in order && forall k :: 0 <= k < |order| ==> order[k] < |parts|
    ensures Flatten(Pick(parts[i := part], order + [i])) == Flatten(Pick(parts, order)) + part
  {
    assert Pick(parts[i := part], order + [i]) == Pick(parts, order) + [part];
    FlattenSnoc(Pick(parts, order), part);
  }

  lemma QuietUpdate(targets: seq<Target>, given: seq<seq<SearchHit>>, i: nat, hits: seq<SearchHit>)
    requires i < |targets| == |given|
    ensures QuietParts(targets, given[i := hits]) == QuietParts(targets, given)[i := if |hits| == 0 then [targets[i]] else []]
  {
  }

  lemma FinishFacts(job: Job, s: State, h: History, p: nat)
    requires Sized(job, h) && ControlOk(job, s, h) && CanFinish(job, s, p)
    ensures var i := s.pumps[p].index;
            && i !in h.order && (forall k :: 0 <= k < |h.order| ==> h.order[k] < |job.targets|)
            && Settles(h.order + [i], h.owner[i := Settled])
  {
    var i := s.pumps[p].index;
    assert Claims(s.pumps)[p] == Some(i);
    SettleOne(h.order, h.owner, i);
  }

  lemma FinishOutput(job: Job, s: State, h: History, p: nat)
    requires OutputOk(job, s, h) && TargetsOk(job, s, h) && ControlOk(job, s, h) && CanFinish(job, s, p)
    ensures OutputOk(job, FinishTarget(job, s, p), FinishHistory(job, s, h, p))
  {
    var h' := FinishHistory(job, s, h, p);
    var i, hits := s.pumps[p].index, s.pumps[p].hits;
    FinishFacts(job, s, h, p);
    assert h.given[i] == [] by {
      assert TargetOk(job, s.timedOut, h, i);
    }
    hide Ledger, Settles, Claims, TargetsOk, ControlOk, NoDuplicates;
    var quiet := if |hits| == 0 then [job.targets[i]] else [];
    QuietUpdate(job.targets, h.given, i, hits);
    hide QuietParts, Pick, Flatten;
    DeliverOne(h.given, h.order, i, hits);
    DeliverOne(QuietParts(job.targets, h.given), h.order, i, quiet);
  }

  lemma FinishKeepsInv(job: Job, s: State, h: History, p: nat)
    requires Inv(job, s, h) && CanFinish(job, s, p)
    ensures Inv(job, FinishTarget(job, s, p), FinishHistory(job, s, h, p))
  {
    FinishControl(job, s, h, p);
    FinishPumps(job, s, h, p);
    FinishTargets(job, s, h, p);
    FinishOutput(job, s, h, p);
  }

  // ---------- Every run ----------

  function InitialState(pumps: nat): State {
    State(0, [], [], 0, false, false, seq(pumps, _ => Claiming))
  }

  function InitialHistory(job: Job): History {
    var n := |job.targets|;
    History(seq(n, _ => Unclaimed), [], seq(n, _ => []), seq(n, _ => 0), seq(n, _ => false))
  }

  lemma InitiallyInv(job: Job, pumps: nat)
    requires ValidJob(job)
    ensures Inv(job, InitialState(pumps), InitialHistory(job))
  {
    var h := InitialHistory(job);
    FlattenAllEmpty(h.given);
    SumZeros(h.read);
    hide MatchesUpTo, UnitsScanned, TargetHits, ExceedsCap, Sum, QuietParts;
    hide NoDuplicates;
    assert Pick(h.given, h.order) == [] && Pick(QuietParts(job.targets, h.given), h.order) == [];
    assert Claims(InitialState(pumps).pumps) == seq(pumps, _ => None);
    assert ControlOk(job, InitialState(pumps), h) by {
      NobodyYet(Claims(InitialState(pumps).pumps), h.owner);
    }
    InitialTargets(job, pumps);
    hide Ledger, Settles, Pick, TargetsOk, PumpsOk, ControlOk;
  }

  lemma InitialTargets(job: Job, pumps: nat)
    requires ValidJob(job)
    ensures PumpsOk(job, InitialState(pumps), InitialHistory(job)) && TargetsOk(job, InitialState(pumps), InitialHistory(job))
  {
    hide MatchesUpTo, UnitsScanned, TargetHits, ExceedsCap, NoDuplicates;
  }

  predicate CanResume(job: Job, s: State, p: nat) {
    p < |s.pumps| && (s.pumps[p].Claiming? || CanScan(job, s, p) || CanFinish(job, s, p))
  }

  /** Pump p runs until its next suspension point. */
  function Resume(job: Job, s: State, p: nat, deadlinePassed: bool): State
    requires CanResume(job, s, p)
  {
    if s.pumps[p].Claiming? then ClaimNext(job, s, p, deadlinePassed)
    else if CanScan(job, s, p) then UnitArrives(job, s, p, deadlinePassed)
    else FinishTarget(job, s, p)
  }

  function ResumeHistory(job: Job, s: State, h: History, p: nat, deadlinePassed: bool): History
    requires Sized(job, h) && CanResume(job, s, p)
  {
    if s.pumps[p].Claiming? then ClaimHistory(job, s, h, p, deadlinePassed)
    else if CanScan(job, s, p) then UnitHistory(job, s, h, p, deadlinePassed)
    else FinishHistory(job, s, h, p)
  }

  lemma ResumeKeepsInv(job: Job, s: State, h: History, p: nat, deadlinePassed: bool)
    requires Inv(job, s, h) && CanResume(job, s, p) && (deadlinePassed ==> job.hasDeadline)
    ensures Inv(job, Resume(job, s, p, deadlinePassed), ResumeHistory(job, s, h, p, deadlinePassed))
  {
    if s.pumps[p].Claiming? {
      ClaimKeepsInv(job, s, h, p, deadlinePassed);
    } else if CanScan(job, s, p) {
      UnitKeepsInv(job, s, h, p, deadlinePassed);
    } else {
      FinishKeepsInv(job, s, h, p);
    }
  }

  /** The states that some interleaving of the pumps leads to, under any clock. */
  ghost predicate Reachable(job: Job, pumps: nat, s: State, steps: nat)
    decreases steps
  {
    if steps == 0 then s == InitialState(pumps)
    else exists before: State, p: nat, deadlinePassed: bool ::
      && Reachable(job, pumps, before, steps - 1) && CanResume(job, before, p)
      && (deadlinePassed ==> job.hasDeadline) && s == Resume(job, before, p, deadlinePassed)
  }

  ghost predicate Sound(job: Job, pumps: nat, s: State) {
    |s.pumps| == pumps && exists h :: Inv(job, s, h)
  }

  lemma ResumeKeepsSound(job: Job, pumps: nat, s: State, p: nat, deadlinePassed: bool)
    requires Sound(job, pumps, s) && CanResume(job, s, p) && (deadlinePassed ==> job.hasDeadline)
    ensures Sound(job, pumps, Resume(job, s, p, deadlinePassed))
  {
    hide Inv;
    var h :| Inv(job, s, h);
    ResumeKeepsInv(job, s, h, p, deadlinePassed);
  }

  lemma {:induction false} ReachableSound(job: Job, pumps: nat, s: State, steps: nat)
    requires ValidJob(job) && Reachable(job, pumps, s, steps)
    ensures Sound(job, pumps, s)
    decreases steps
  {
    if steps == 0 {
      InitiallyInv(job, pumps);
    } else {
      var before: State, p: nat, deadlinePassed: bool :|
        && Reachable(job, pumps, before, steps - 1) && CanResume(job, before, p)
        && (deadlinePassed ==> job.hasDeadline) && s == Resume(job, before, p, deadlinePassed);
      ReachableSound(job, pumps, before, steps - 1);
      ResumeKeepsSound(job, pumps, before, p, deadlinePassed);
    }
  }

  lemma ReachableStart(job: Job, pumps: nat)
    requires ValidJob(job)
    ensures Reachable(job, pumps, InitialState(pumps), 0)
  {
  }

  lemma ReachableStep(job: Job, pumps: nat, s: State, steps: nat, p: nat, deadlinePassed: bool)
    requires Reachable(job, pumps, s, steps) && CanResume(job, s, p) && (deadlinePassed ==> job.hasDeadline)
    ensures Reachable(job, pumps, Resume(job, s, p, deadlinePassed), steps + 1)
  {
  }

  /** What a pump has collected when the next unit arrives. */
  ghost predicate ScanReady(job: Job, pump: Pump)
    requires |job.units| == |job.targets|
  {
    pump.Scanning? ==>
      && pump.index < |job.targets| && pump.pos <= |job.units[pump.index]|
      && pump.hits == MatchesUpTo(job, pump.index, pump.pos) && |pump.hits| <= Cap(job)
  }

  /** No pump is ever stuck: whatever has not stopped can be resumed, with exactly the hits of the units it has read. */
  lemma NoPumpStuck(job: Job, pumps: nat, s: State, steps: nat, p: nat)
    requires ValidJob(job) && Reachable(job, pumps, s, steps) && p < |s.pumps| && !s.pumps[p].Stopped?
    ensures CanResume(job, s, p) && ScanReady(job, s.pumps[p])
  {
    ReachableSound(job, pumps, s, steps);
    var h :| Inv(job, s, h);
    assert PumpOk(job, s, h, s.pumps[p]);
  }

  predicate AllStopped(s: State) {
    forall w :: 0 <= w < |s.pumps| ==> s.pumps[w].Stopped?
  }

  /** A run that nothing cut short: every target delivered its first Cap hits, and the counters and flags are exact. */
  ghost predicate Complete(job: Job, s: State, order: seq<nat>) {
    && ValidJob(job) && Permutation(order, |job.targets|)
    && s.allHits == Flatten(Pick(AllTargetHits(job), order))
    && s.noHits == (if job.emitNoHits then Flatten(Pick(QuietParts(job.targets, AllTargetHits(job)), order)) else [])
    && s.sourcesScanned == Sum(AllUnitsScanned(job))
    && (s.truncatedByObjectCap <==> exists i :: 0 <= i < |job.targets| && ExceedsCap(job, i))
  }

  /** A finished target delivered its first Cap hits, or, if the deadline cut it, the hits of the units scanned before. */
  ghost predicate FinishedAs(job: Job, h: History, i: nat)
    requires Sized(job, h) && i < |job.targets|
  {
    if h.cut[i] then CutAt(job, i, h.read[i], h.given[i])
    else h.given[i] == TargetHits(job, i) && h.read[i] == UnitsScanned(job, i, 0)
  }

  /** What holds of any state of any run, whether or not the deadline cuts it short. */
  ghost predicate Partial(job: Job, s: State, h: History) {
    && Sized(job, h) && NoDuplicates(h.order) && (forall k :: 0 <= k < |h.order| ==> h.order[k] < |job.targets|)
    && (forall i :: 0 <= i < |job.targets| ==> if i in h.order then FinishedAs(job, h, i) else h.given[i] == [])
    && (forall i :: 0 <= i < |job.targets| && h.cut[i] ==> s.timedOut)
    && s.allHits == Flatten(Pick(h.given, h.order))
    && s.noHits == (if job.emitNoHits then Flatten(Pick(QuietParts(job.targets, h.given), h.order)) else [])
    && s.sourcesScanned == Sum(h.read)
    && (s.truncatedByObjectCap <==> exists i :: 0 <= i < |job.targets| && i in h.order && !h.cut[i] && ExceedsCap(job, i))
  }

  /** The targets that did not finish were not begun. */
  ghost predicate OthersUntouched(job: Job, h: History)
    requires Sized(job, h)
  {
    forall i :: 0 <= i < |job.targets| && i !in h.order ==> h.read[i] == 0 && !h.cut[i]
  }

  lemma InvIsPartial(job: Job, s: State, h: History)
    requires Inv(job, s, h)
    ensures Partial(job, s, h)
    ensures AllStopped(s) ==> OthersUntouched(job, h)
  {
    hide MatchesUpTo, UnitsScanned, TargetHits, ExceedsCap, Sum, QuietParts, Flatten;
    forall i | 0 <= i < |job.targets|
      ensures if i in h.order then FinishedAs(job, h, i) else h.given[i] == []
      ensures h.cut[i] ==> s.timedOut
      ensures Overflowed(job, h, i) <==> i in h.order && !h.cut[i] && ExceedsCap(job, i)
      ensures AllStopped(s) && i !in h.order ==> h.read[i] == 0 && !h.cut[i]
    {
      assert TargetOk(job, s.timedOut, h, i);
      if AllStopped(s) {
        NobodyWorks(s, h, i);
      }
    }
  }

  lemma NobodyWorks(s: State, h: History, i: nat)
    requires Ledger(s.next, Claims(s.pumps), h.owner) && AllStopped(s) && i < |h.owner|
    ensures !h.owner[i].ClaimedBy?
  {
  }

  /** The hits of a finished target are a prefix of its first Cap hits. */
  lemma FinishedPrefix(job: Job, h: History, i: nat)
    requires Sized(job, h) && i < |job.targets| && FinishedAs(job, h, i)
    ensures h.given[i] <= TargetHits(job, i)
  {
    if h.cut[i] {
      MatchesUpToStep(job, i, h.read[i]);
    }
  }

  lemma InvIsComplete(job: Job, s: State, h: History)
    requires Inv(job, s, h) && AllStopped(s) && |s.pumps| > 0 && !s.timedOut
    ensures Complete(job, s, h.order)
    ensures |s.pumps| == 1 ==> h.order == Upto(|job.targets|)
  {
    assert PumpOk(job, s, h, s.pumps[0]);
    QuiescentPool(s.next, Claims(s.pumps), h.owner, h.order);
    forall i | 0 <= i < |h.owner|
      ensures h.given[i] == TargetHits(job, i) && h.read[i] == UnitsScanned(job, i, 0)
      ensures Overflowed(job, h, i) <==> ExceedsCap(job, i)
    {
      assert TargetOk(job, s.timedOut, h, i) && i in h.order;
    }
    assert h.given == AllTargetHits(job);
    assert h.read == AllUnitsScanned(job);
  }

  /** Safety over every run: whatever the interleaving, the number of pumps and the clock, every delivered list and count is
      that of what has been done to each target; and when all pumps have stopped, a target has finished or was not begun,
      and unless the deadline fired all have finished in full. */
  lemma EveryRun(job: Job, pumps: nat, s: State, steps: nat)
    requires ValidJob(job) && pumps > 0 && Reachable(job, pumps, s, steps)
    ensures exists h :: Partial(job, s, h) && (AllStopped(s) ==> OthersUntouched(job, h))
    ensures AllStopped(s) && !s.timedOut ==> exists order :: Complete(job, s, order)
    ensures AllStopped(s) && !s.timedOut && pumps == 1 ==> Complete(job, s, Upto(|job.targets|))
    ensures s.timedOut ==> job.hasDeadline
  {
    hide Partial, Complete;
    ReachableSound(job, pumps, s, steps);
    var h :| Inv(job, s, h);
    InvIsPartial(job, s, h);
    if AllStopped(s) && !s.timedOut {
      InvIsComplete(job, s, h);
    }
  }

  // ---------- The same pool, as the object it is ----------

  function Rank(job: Job, pump: Pump): nat {
    match pump
    case Claiming => 1
    case Stopped => 0
    case Finishing(_, _, _) => 2
    case Scanning(i, pos, _) => if i < |job.units| && pos <= |job.units[i]| then 3 + |job.units[i]| - pos else 3
  }

  function Ranks(job: Job, pumps: seq<Pump>): seq<nat> {
    seq(|pumps|, w requires 0 <= w < |pumps| => Rank(job, pumps[w]))
  }

  function TargetsLeft(job: Job, s: State): nat {
    if s.next < |job.targets| then |job.targets| - s.next else 0
  }

  /** t has fewer targets unclaimed than s, or as many and less work left in its pumps. */
  predicate Nearer(job: Job, t: State, s: State) {
    TargetsLeft(job, t) < TargetsLeft(job, s)
    || (TargetsLeft(job, t) == TargetsLeft(job, s) && Sum(Ranks(job, t.pumps)) < Sum(Ranks(job, s.pumps)))
  }

  lemma ResumeProgresses(job: Job, s: State, p: nat, deadlinePassed: bool)
    requires CanResume(job, s, p)
    ensures Nearer(job, Resume(job, s, p, deadlinePassed), s)
    ensures |Resume(job, s, p, deadlinePassed).pumps| == |s.pumps|
  {
    var t := Resume(job, s, p, deadlinePassed);
    SumUpdate(Ranks(job, s.pumps), p, Rank(job, t.pumps[p]));
    assert Ranks(job, t.pumps) == Ranks(job, s.pumps)[p := Rank(job, t.pumps[p])];
  }

  class SearchRun {
    const job: Job
    var next: nat
    var allHits: seq<SearchHit>
    var noHits: seq<Target>
    var sourcesScanned: nat
    var truncatedByObjectCap: bool
    var timedOut: bool
    var pumps: seq<Pump>

    ghost function Now(): State
      reads this
    {
      State(next, allHits, noHits, sourcesScanned, truncatedByObjectCap, timedOut, pumps)
    }

    constructor (job: Job, limit: int)
      ensures this.job == job && Now() == InitialState(|pumps|)
      ensures |pumps| == (if limit <= 1 || |job.targets| <= 1 then 1 else if limit < |job.targets| then limit else |job.targets|)
    {
      var n := if limit <= 1 || |job.targets| <= 1 then 1 else if limit < |job.targets| then limit else |job.targets|;
      this.job := job;
      next, allHits, noHits, sourcesScanned, truncatedByObjectCap, timedOut := 0, [], [], 0, false, false;
      pumps := seq(n, _ => Claiming);
    }

    method ClaimNextTarget(p: nat, deadlinePassed: bool)
      requires p < |pumps| && pumps[p].Claiming?
      modifies this
      ensures Now() == ClaimNext(job, old(Now()), p, deadlinePassed)
    {
      if deadlinePassed {
        timedOut := true;
        pumps := pumps[p := Stopped];
        return;
      }
      var index := next;
      next := next + 1;
      if index >= |job.targets| {
        pumps := pumps[p := Stopped];
      } else {
        pumps := pumps[p := Scanning(index, 0, [])];
      }
    }

    /** The body of the unit loop; the target's running total is |hits|. */
    method ScanUnit(p: nat, deadlinePassed: bool)
      requires CanScan(job, Now(), p) && ScanReady(job, pumps[p])
      modifies this
      ensures Now() == UnitArrives(job, old(Now()), p, deadlinePassed)
    {
      hide ListsHits;
      var Scanning(index, pos, hits) := pumps[p];
      if deadlinePassed {
        timedOut := true;
        pumps := pumps[p := Finishing(index, hits, false)];
        return;
      }
      var unit := job.units[index][pos];
      sourcesScanned := sourcesScanned + 1;
      var remaining := job.maxHits - |hits|;
      if remaining <= 0 {
        var probeHits, _ := ScanLines(job.scan, unit.lines, 1);
        ProbeStep(job, index, pos, probeHits);
        pumps := pumps[p := if |probeHits| > 0 then Finishing(index, hits, true) else Scanning(index, pos + 1, hits)];
        return;
      }
      var scanHits, capped := ScanLines(job.scan, unit.lines, remaining);
      ScanStep(job, index, pos, scanHits, capped);
      hits := hits + Map(ToHit(job.targets[index], unit.includeName), scanHits);
      pumps := pumps[p := if capped then Finishing(index, hits, true) else Scanning(index, pos + 1, hits)];
    }

    method DeliverTarget(p: nat)
      requires CanFinish(job, Now(), p)
      modifies this
      ensures Now() == FinishTarget(job, old(Now()), p)
    {
      var pump := pumps[p];
      if pump.Finishing? && pump.capped {
        truncatedByObjectCap := true;
      }
      if |pump.hits| == 0 && job.emitNoHits {
        noHits := noHits + [job.targets[pump.index]];
      } else {
        allHits := allHits + pump.hits;
      }
      pumps := pumps[p := Claiming];
    }

    method ResumePump(p: nat, deadlinePassed: bool)
      requires |job.units| == |job.targets| && CanResume(job, Now(), p) && ScanReady(job, pumps[p])
      modifies this
      ensures Now() == Resume(job, old(Now()), p, deadlinePassed)
    {
      if pumps[p].Claiming? {
        ClaimNextTarget(p, deadlinePassed);
      } else if pumps[p].Scanning? && pumps[p].pos < |job.units[pumps[p].index]| {
        ScanUnit(p, deadlinePassed);
      } else {
        DeliverTarget(p);
      }
    }

    /** Any pump that has not stopped may be the next to go on. */
    method ResumeAny(ghost steps: nat)
      requires ValidJob(job) && Reachable(job, |pumps|, Now(), steps) && !AllStopped(Now())
      modifies this
      ensures |pumps| == old(|pumps|) && Reachable(job, |pumps|, Now(), steps + 1)
      ensures Nearer(job, Now(), old(Now()))
    {
      hide Reachable, Resume, TargetsLeft, Ranks, Sum, NoDuplicates;
      var p :| 0 <= p < |pumps| && !pumps[p].Stopped?;
      var deadlinePassed: bool := *;
      deadlinePassed := deadlinePassed && job.hasDeadline;
      NoPumpStuck(job, |pumps|, Now(), steps, p);
      ResumeProgresses(job, Now(), p, deadlinePassed);
      ReachableStep(job, |pumps|, Now(), steps, p, deadlinePassed);
      ResumePump(p, deadlinePassed);
    }

    /** `Promise.all` over the pumps: resume any of them, at any time, until all have stopped. */
    method Run() returns (ghost steps: nat)
      requires ValidJob(job) && Now() == InitialState(|pumps|)
      modifies this
      ensures |pumps| == old(|pumps|) && AllStopped(Now()) && Reachable(job, |pumps|, Now(), steps)
    {
      steps := 0;
      ReachableStart(job, |pumps|);
      hide Reachable, InitialState, TargetsLeft, Ranks, Sum;
      while exists w :: 0 <= w < |pumps| && !pumps[w].Stopped?
        invariant |pumps| == old(|pumps|) && Reachable(job, |pumps|, Now(), steps)
        decreases TargetsLeft(job, Now()), Sum(Ranks(job, pumps))
      {
        ResumeAny(steps);
        steps := steps + 1;
      }
    }
  }
}
