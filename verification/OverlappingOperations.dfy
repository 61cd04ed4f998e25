/** Breakpoint operations that overlap (src/lib/adt/debuggerBreakpoints.ts): each builds its request from the registry, the
    server handles the requests in some order, and the answers are adopted in some order. */
module OverlappingOperations {
  import opened Sequences
  import opened Breakpoints

  /** What a call lays over the registry it started from: its operation replaces or removes what stands at the URIs of `cut`. */
  datatype Layer = Layer(call: nat, op: Op, cut: set<string>)

  datatype Outcome = Pending | Adopted | Failed

  /** A call that has sent its request: the layers the request consists of, the server's set once the server has handled it,
      and how the call ended. A call whose delete finds no breakpoint is rejected before it sends anything. */
  datatype Phase =
    | NotBegun
    | Rejected
    | Begun(request: seq<Breakpoint>, line: seq<Layer>, held: Option<seq<Breakpoint>>, outcome: Outcome)

  /** The registry and the server's set, the calls, and the calls in the order the server handled and the registry adopted them. */
  datatype Overlap = Overlap(now: State, phases: seq<Phase>, handled: seq<nat>, adopted: seq<nat>)

  datatype Event = Begin(call: nat) | Handle(call: nat, held: seq<Breakpoint>) | Adopt(call: nat) | Fail(call: nat)

  /** A call may begin at any time. It may fail before or after the server has handled its request, and a request that timed
      out may still be handled later. */
  ghost predicate Enabled(ops: seq<Op>, s: Overlap, e: Event) {
    && e.call < |s.phases| == |ops|
    && var phase := s.phases[e.call];
       match e
       case Begin(i) => phase.NotBegun? && !ops[i].Restart?
       case Handle(_, held) => phase.Begun? && phase.held.None? && Replaces(phase.request, held)
       case Adopt(_) => phase.Begun? && phase.outcome.Pending? && phase.held.Some?
       case Fail(_) => phase.Begun? && phase.outcome.Pending?
  }

  function Line(s: Overlap, i: nat): seq<Layer> {
    if i < |s.phases| && s.phases[i].Begun? then s.phases[i].line else []
  }

  /** The layers the registry consists of: those of the call adopted last. */
  function RegistryLine(s: Overlap): seq<Layer> {
    if s.adopted == [] then [] else Line(s, s.adopted[|s.adopted| - 1])
  }

  /** The layers the server's set consists of: those of the call handled last. */
  function ServerLine(s: Overlap): seq<Layer> {
    if s.handled == [] then [] else Line(s, s.handled[|s.handled| - 1])
  }

  function Cut(registry: seq<Breakpoint>, op: Op): set<string> {
    match op
    case Add(b) => {b.uri}
    case Delete(id) => set b | b in registry && b.id == Some(id) :: b.uri
    case DeleteAll => set b | b in registry :: b.uri
    case Restart => {}
  }

  function Step(ops: seq<Op>, s: Overlap, e: Event): Overlap
    requires e.call < |s.phases| == |ops| && (e.Begin? || s.phases[e.call].Begun?)
    requires e.Adopt? ==> s.phases[e.call].held.Some?
  {
    var i, phase := e.call, s.phases[e.call];
    match e
    case Begin(_) =>
      var request := Request(s.now, ops[i]);
      s.(phases := s.phases[i := if request.None? then Rejected else
                                 Begun(request.value, RegistryLine(s) + [Layer(i, ops[i], Cut(s.now.registry, ops[i]))], None, Pending)])
    case Handle(_, held) =>
      s.(now := s.now.(server := held), phases := s.phases[i := phase.(held := Some(held))], handled := s.handled + [i])
    case Adopt(_) =>
      var registry := if ops[i].DeleteAll? then [] else Breakpoints.Adopt(phase.held.value);
      s.(now := s.now.(registry := registry), phases := s.phases[i := phase.(outcome := Adopted)], adopted := s.adopted + [i])
    case Fail(_) =>
      s.(phases := s.phases[i := phase.(outcome := Failed)])
  }

  function Start(base: State, ops: seq<Op>): Overlap {
    Overlap(base, seq(|ops|, _ => NotBegun), [], [])
  }

  ghost predicate Reachable(base: State, ops: seq<Op>, s: Overlap, steps: nat)
    decreases steps
  {
    if steps == 0 then s == Start(base, ops)
    else exists before: Overlap, e: Event ::
      Reachable(base, ops, before, steps - 1) && Enabled(ops, before, e) && s == Step(ops, before, e)
  }

  // ---------- What a line of layers leaves ----------

  function EntryAt(bs: seq<Breakpoint>, uri: string): Option<Breakpoint> {
    if |bs| == 0 then None else if bs[0].uri == uri then Some(bs[0]) else EntryAt(bs[1..], uri)
  }

  /** What stands at a URI: the last layer that covers it decides, or the registry at the start if none does. */
  function Left(base: seq<Breakpoint>, line: seq<Layer>, uri: string): Option<Breakpoint> {
    if |line| == 0 then EntryAt(base, uri) else
    var top := line[|line| - 1];
    if uri !in top.cut then Left(base, line[..|line| - 1], uri)
    else if top.op.Add? then Some(top.op.breakpoint) else None
  }

  ghost predicate Leaves(base: seq<Breakpoint>, line: seq<Layer>, x: Breakpoint) {
    var b := Left(base, line, x.uri);
    b.Some? && SameBreakpoint(b.value, x)
  }

  /** The set is what the line leaves, in all that is transmitted. */
  ghost predicate ConsistsOf(bs: seq<Breakpoint>, base: seq<Breakpoint>, line: seq<Layer>) {
    forall x :: Has(bs, x) <==> Leaves(base, line, x)
  }

  lemma {:induction false} EntryAtHas(bs: seq<Breakpoint>, x: Breakpoint)
    requires DistinctUris(bs)
    ensures Has(bs, x) <==> EntryAt(bs, x.uri).Some? && SameBreakpoint(EntryAt(bs, x.uri).value, x)
    ensures EntryAt(bs, x.uri).Some? ==> EntryAt(bs, x.uri).value.uri == x.uri
  {
    if |bs| != 0 {
      EntryAtHas(bs[1..], x);
      assert forall y :: y in bs <==> y == bs[0] || y in bs[1..];
      assert forall y :: y in bs[1..] ==> y.uri != bs[0].uri;
    }
  }

  lemma LayerOnTop(base: seq<Breakpoint>, line: seq<Layer>, top: Layer, x: Breakpoint)
    ensures Leaves(base, line + [top], x)
            <==> if x.uri in top.cut then top.op.Add? && SameBreakpoint(top.op.breakpoint, x) else Leaves(base, line, x)
  {
    assert (line + [top])[..|line|] == line;
  }

  /** The request of a call is the registry it starts from under the layer of its operation. */
  lemma RequestConsistsOf(now: State, op: Op, base: seq<Breakpoint>, line: seq<Layer>, i: nat)
    requires DistinctUris(now.registry) && ConsistsOf(now.registry, base, line) && Request(now, op).Some?
    ensures ConsistsOf(Request(now, op).value, base, line + [Layer(i, op, Cut(now.registry, op))])
  {
    var request, top := Request(now, op).value, Layer(i, op, Cut(now.registry, op));
    forall x ensures Has(request, x) <==> Leaves(base, line + [top], x) {
      LayerOnTop(base, line, top, x);
      RequestHas(now, op, x);
    }
  }

  lemma RequestHas(now: State, op: Op, x: Breakpoint)
    requires DistinctUris(now.registry) && Request(now, op).Some?
    ensures Has(Request(now, op).value, x)
            <==> if x.uri in Cut(now.registry, op) then op.Add? && SameBreakpoint(op.breakpoint, x) else Has(now.registry, x)
  {
    match op {
      case Add(b) => AddRequestHas(now.registry, b, x);
      case Delete(id) => DeleteRequestHas(now.registry, id, x);
      case DeleteAll =>
      case Restart =>
    }
  }

  lemma DeleteRequestHas(registry: seq<Breakpoint>, id: string, x: Breakpoint)
    requires DistinctUris(registry)
    ensures Has(Filter(OtherId(id), registry), x) <==> x.uri !in Cut(registry, Delete(id)) && Has(registry, x)
  {
    FilterMembers(OtherId(id), registry);
    if Has(Filter(OtherId(id), registry), x) {
      var y :| y in Filter(OtherId(id), registry) && SameBreakpoint(y, x);
      forall z | z in registry && z.uri == x.uri ensures z == y {
        SameUriSame(registry, y, z);
      }
    }
  }

  lemma SameUriSame(bs: seq<Breakpoint>, y: Breakpoint, z: Breakpoint)
    requires DistinctUris(bs) && y in bs && z in bs && y.uri == z.uri
    ensures y == z
  {
    var i :| 0 <= i < |bs| && bs[i] == y;
    var j :| 0 <= j < |bs| && bs[j] == z;
    assert i == j;
  }

  // ---------- What every step keeps ----------

  /** The line of a call ends in its own layer; the layers below are those of a call adopted before it began, if any. */
  ghost predicate LineOk(ops: seq<Op>, phases: seq<Phase>, i: nat)
    requires i < |phases|
  {
    phases[i].Begun? ==>
      var line := phases[i].line;
      && |line| > 0 && line[|line| - 1].call == i
      && (forall k :: 0 <= k < |line| ==> LayerOk(ops, line[k]))
      && (|line| == 1 || exists j :: 0 <= j < |phases| && phases[j].Begun? && phases[j].outcome.Adopted? && phases[j].line == line[..|line| - 1])
  }

  ghost predicate LayerOk(ops: seq<Op>, layer: Layer) {
    layer.call < |ops| && layer.op == ops[layer.call] && (layer.op.Add? ==> layer.cut == {layer.op.breakpoint.uri})
  }

  ghost predicate CallOk(base: State, op: Op, phase: Phase) {
    phase.Begun? ==>
      && (op.DeleteAll? ==> phase.request == [])
      && ConsistsOf(phase.request, base.registry, phase.line)
      && (phase.held.Some? ==> Replaces(phase.request, phase.held.value))
      && (phase.outcome.Adopted? ==> phase.held.Some?)
  }

  /** The set is the one the call named last was answered with, or the one at the start. */
  ghost predicate SetOk(bs: seq<Breakpoint>, start: seq<Breakpoint>, phases: seq<Phase>, order: seq<nat>) {
    if order == [] then bs == start
    else var i := order[|order| - 1]; i < |phases| && phases[i].Begun? && phases[i].held == Some(bs)
  }

  ghost predicate OverlapInv(base: State, ops: seq<Op>, s: Overlap) {
    && |s.phases| == |ops|
    && (forall i :: 0 <= i < |ops| ==> LineOk(ops, s.phases, i))
    && (forall i :: 0 <= i < |ops| ==> CallOk(base, ops[i], s.phases[i]))
    && SetOk(s.now.server, base.server, s.phases, s.handled)
    && SetOk(s.now.registry, base.registry, s.phases, s.adopted)
    && (s.adopted != [] ==> s.phases[s.adopted[|s.adopted| - 1]].outcome.Adopted?)
    && DistinctUris(s.now.registry)
  }

  lemma HeldConsistsOf(base: State, op: Op, phase: Phase)
    requires phase.Begun? && CallOk(base, op, phase) && phase.held.Some?
    ensures ConsistsOf(phase.held.value, base.registry, phase.line)
  {
    forall x ensures Has(phase.held.value, x) <==> Leaves(base.registry, phase.line, x) {
      HeldIsRequest(phase.request, phase.held.value, x);
    }
  }

  lemma BaseConsistsOf(bs: seq<Breakpoint>)
    requires DistinctUris(bs)
    ensures ConsistsOf(bs, bs, [])
  {
    forall x ensures Has(bs, x) <==> Leaves(bs, [], x) {
      EntryAtHas(bs, x);
    }
  }

  lemma RegistryConsistsOf(base: State, ops: seq<Op>, s: Overlap)
    requires Inv(base) && OverlapInv(base, ops, s)
    ensures ConsistsOf(s.now.registry, base.registry, RegistryLine(s))
  {
    hide ConsistsOf, DistinctUris, LineOk;
    if s.adopted == [] {
      BaseConsistsOf(base.registry);
    } else {
      var a := s.adopted[|s.adopted| - 1];
      HeldConsistsOf(base, ops[a], s.phases[a]);
    }
  }

  /** A change of one phase leaves the lines of the others alone, as long as it keeps its own. */
  lemma LinesKept(ops: seq<Op>, phases: seq<Phase>, i: nat, phase: Phase, after: seq<Phase>)
    requires i < |phases| && after == phases[i := phase] && forall k :: 0 <= k < |phases| ==> LineOk(ops, phases, k)
    requires phases[i].Begun? && phase.Begun? && phase.line == phases[i].line
    requires phases[i].outcome.Adopted? ==> phase.outcome.Adopted?
    ensures forall k :: 0 <= k < |phases| ==> LineOk(ops, after, k)
  {
    forall k | 0 <= k < |phases| ensures LineOk(ops, after, k) {
      assert LineOk(ops, phases, k);
      if after[k].Begun? && |after[k].line| > 1 {
        var below := after[k].line[..|after[k].line| - 1];
        var j :| 0 <= j < |phases| && phases[j].Begun? && phases[j].outcome.Adopted? && phases[j].line == below;
        assert after[j].Begun? && after[j].outcome.Adopted? && after[j].line == below;
      }
    }
  }

  lemma BeginKeepsLines(base: State, ops: seq<Op>, s: Overlap, e: Event)
    requires OverlapInv(base, ops, s) && Enabled(ops, s, e) && e.Begin?
    ensures forall k :: 0 <= k < |ops| ==> LineOk(ops, Step(ops, s, e).phases, k)
  {
    hide CallOk, ConsistsOf, DistinctUris;
    var t := Step(ops, s, e);
    forall k | 0 <= k < |ops| ensures LineOk(ops, t.phases, k) {
      if k != e.call {
        OtherLineKept(ops, s.phases, e.call, t.phases[e.call], t.phases, k);
      } else if t.phases[k].Begun? {
        OwnLineBegun(base, ops, s, e);
      }
    }
  }

  lemma OtherLineKept(ops: seq<Op>, phases: seq<Phase>, i: nat, phase: Phase, after: seq<Phase>, k: nat)
    requires i < |phases| && k < |phases| && k != i && after == phases[i := phase] && phases[i].NotBegun? && LineOk(ops, phases, k)
    ensures LineOk(ops, after, k)
  {
    hide LayerOk;
    if phases[k].Begun? && |phases[k].line| > 1 {
      var j :| 0 <= j < |phases| && phases[j].Begun? && phases[j].outcome.Adopted? && phases[j].line == phases[k].line[..|phases[k].line| - 1];
      assert after[j] == phases[j];
    }
  }

  lemma OwnLineBegun(base: State, ops: seq<Op>, s: Overlap, e: Event)
    requires OverlapInv(base, ops, s) && Enabled(ops, s, e) && e.Begin?
    ensures LineOk(ops, Step(ops, s, e).phases, e.call)
  {
    hide CallOk, ConsistsOf, DistinctUris;
    var t := Step(ops, s, e);
    if s.adopted != [] && t.phases[e.call].Begun? {
      var j, line := s.adopted[|s.adopted| - 1], t.phases[e.call].line;
      assert LineOk(ops, s.phases, j);
      assert t.phases[j] == s.phases[j] && line[..|line| - 1] == s.phases[j].line;
    }
  }

  lemma BeginKeeps(base: State, ops: seq<Op>, s: Overlap, e: Event)
    requires Inv(base) && OverlapInv(base, ops, s) && Enabled(ops, s, e) && e.Begin?
    ensures OverlapInv(base, ops, Step(ops, s, e))
  {
    BeginKeepsLines(base, ops, s, e);
    RegistryConsistsOf(base, ops, s);
    if Request(s.now, ops[e.call]).Some? {
      RequestConsistsOf(s.now, ops[e.call], base.registry, RegistryLine(s), e.call);
    }
    hide ConsistsOf, DistinctUris, LineOk, Request, Cut;
  }

  lemma HandleKeeps(base: State, ops: seq<Op>, s: Overlap, e: Event)
    requires OverlapInv(base, ops, s) && Enabled(ops, s, e) && e.Handle?
    ensures OverlapInv(base, ops, Step(ops, s, e))
  {
    hide ConsistsOf, DistinctUris, LineOk, Replaces;
    assert CallOk(base, ops[e.call], s.phases[e.call]);
    LinesKept(ops, s.phases, e.call, s.phases[e.call].(held := Some(e.held)), Step(ops, s, e).phases);
  }

  lemma EmptyReplaced(held: seq<Breakpoint>)
    ensures Replaces([], held) ==> held == []
  {
    assert |held| == 0 || held[0] in held;
  }

  lemma AdoptKeeps(base: State, ops: seq<Op>, s: Overlap, e: Event)
    requires OverlapInv(base, ops, s) && Enabled(ops, s, e) && e.Adopt?
    ensures OverlapInv(base, ops, Step(ops, s, e))
  {
    var phase := s.phases[e.call];
    assert CallOk(base, ops[e.call], phase);
    AdoptDistinct(phase.held.value);
    EmptyReplaced(phase.held.value);
    assert DistinctUris(phase.held.value) && CallOk(base, ops[e.call], phase.(outcome := Adopted));
    hide ConsistsOf, DistinctUris, LineOk, Replaces, Breakpoints.Adopt, CallOk, Request, Cut;
    assert Step(ops, s, e).now.registry == phase.held.value;
    LinesKept(ops, s.phases, e.call, phase.(outcome := Adopted), Step(ops, s, e).phases);
  }

  lemma FailKeeps(base: State, ops: seq<Op>, s: Overlap, e: Event)
    requires OverlapInv(base, ops, s) && Enabled(ops, s, e) && e.Fail?
    ensures OverlapInv(base, ops, Step(ops, s, e))
  {
    hide ConsistsOf, DistinctUris, LineOk, Replaces;
    assert CallOk(base, ops[e.call], s.phases[e.call]);
    LinesKept(ops, s.phases, e.call, s.phases[e.call].(outcome := Failed), Step(ops, s, e).phases);
  }

  lemma {:induction false} ReachableOverlap(base: State, ops: seq<Op>, s: Overlap, steps: nat)
    requires Inv(base) && Reachable(base, ops, s, steps)
    ensures OverlapInv(base, ops, s)
    decreases steps
  {
    if steps > 0 {
      var before: Overlap, e: Event :|
        Reachable(base, ops, before, steps - 1) && Enabled(ops, before, e) && s == Step(ops, before, e);
      ReachableOverlap(base, ops, before, steps - 1);
      hide OverlapInv, Reachable, Step;
      match e {
        case Begin(_) => BeginKeeps(base, ops, before, e);
        case Handle(_, _) => HandleKeeps(base, ops, before, e);
        case Adopt(_) => AdoptKeeps(base, ops, before, e);
        case Fail(_) => FailKeeps(base, ops, before, e);
      }
    }
  }

  // ---------- Every interleaving ----------

  /** In every state that overlapping adds and deletes can reach, whichever of them fail, the registry and the server's set
      are what the lines of the calls adopted and handled last leave; and a line, from the moment the call begins, is its own
      layer on top of the line of a call adopted already, if any. */
  lemma EveryInterleaving(base: State, ops: seq<Op>, s: Overlap, steps: nat)
    requires Inv(base) && Reachable(base, ops, s, steps)
    ensures |s.phases| == |ops| && forall i :: 0 <= i < |ops| ==> LineOk(ops, s.phases, i)
    ensures ConsistsOf(s.now.registry, base.registry, RegistryLine(s))
    ensures if s.handled == [] then s.now.server == base.server else ConsistsOf(s.now.server, base.registry, ServerLine(s))
  {
    ReachableOverlap(base, ops, s, steps);
    RegistryConsistsOf(base, ops, s);
    hide Reachable, ConsistsOf, DistinctUris, LineOk, Replaces;
    if s.handled != [] {
      var l := s.handled[|s.handled| - 1];
      HeldConsistsOf(base, ops[l], s.phases[l]);
    }
  }

  /** A layer of the line decides what stands at the URI. */
  ghost predicate Decides(line: seq<Layer>, uri: string, k: nat) {
    && k < |line| && uri in line[k].cut && forall j :: k < j < |line| ==> uri !in line[j].cut
  }

  ghost predicate Untouched(line: seq<Layer>, uri: string) {
    forall k :: 0 <= k < |line| ==> uri !in line[k].cut
  }

  lemma {:induction false} LeavesExactly(base: seq<Breakpoint>, line: seq<Layer>, x: Breakpoint)
    requires DistinctUris(base)
    ensures Leaves(base, line, x)
            <==> (Untouched(line, x.uri) && Has(base, x))
                 || exists k: nat :: Decides(line, x.uri, k) && line[k].op.Add? && SameBreakpoint(line[k].op.breakpoint, x)
  {
    if |line| == 0 {
      EntryAtHas(base, x);
    } else {
      var n := |line| - 1;
      LeavesExactly(base, line[..n], x);
      if x.uri in line[n].cut {
        assert Decides(line, x.uri, n);
      } else {
        forall k: nat ensures Decides(line, x.uri, k) <==> Decides(line[..n], x.uri, k) {
        }
      }
    }
  }

  lemma LastHandled(base: State, ops: seq<Op>, s: Overlap, steps: nat)
    requires Inv(base) && Reachable(base, ops, s, steps) && s.handled != []
    ensures var l := s.handled[|s.handled| - 1]; l < |s.phases| == |ops| && s.phases[l].Begun? && LineOk(ops, s.phases, l)
  {
    ReachableOverlap(base, ops, s, steps);
  }

  lemma LastAdopted(base: State, ops: seq<Op>, s: Overlap, steps: nat)
    requires Inv(base) && Reachable(base, ops, s, steps) && s.adopted != []
    ensures var a := s.adopted[|s.adopted| - 1]; a < |s.phases| == |ops| && s.phases[a].Begun? && LineOk(ops, s.phases, a)
  {
    ReachableOverlap(base, ops, s, steps);
  }

  /** A breakpoint stands on the server if and only if the layer that decides at its URI, in the line of the call handled
      last, adds it; or no layer covers its URI and it was registered before. */
  lemma Survives(base: State, ops: seq<Op>, s: Overlap, steps: nat, b: Breakpoint)
    requires Inv(base) && Reachable(base, ops, s, steps) && s.handled != []
    ensures Has(s.now.server, b)
            <==> (Untouched(ServerLine(s), b.uri) && Has(base.registry, b))
                 || exists k: nat :: Decides(ServerLine(s), b.uri, k) && ServerLine(s)[k].op.Add?
                                     && SameBreakpoint(ServerLine(s)[k].op.breakpoint, b)
  {
    EveryInterleaving(base, ops, s, steps);
    LeavesExactly(base.registry, ServerLine(s), b);
  }

  /** A breakpoint that is new, and added by one call only, survives if and only if the layer of that call decides at its URI:
      the call is the one handled last, or was adopted before that one began, directly or through others, and none of those
      in between covers the URI. */
  lemma NewSurvives(base: State, ops: seq<Op>, s: Overlap, steps: nat, i: nat)
    requires Inv(base) && Reachable(base, ops, s, steps) && s.handled != [] && i < |ops| && ops[i].Add?
    requires !Has(base.registry, ops[i].breakpoint)
    requires forall j :: 0 <= j < |ops| && j != i && ops[j].Add? ==> !SameBreakpoint(ops[j].breakpoint, ops[i].breakpoint)
    ensures Has(s.now.server, ops[i].breakpoint)
            <==> exists k: nat :: Decides(ServerLine(s), ops[i].breakpoint.uri, k) && ServerLine(s)[k].call == i
  {
    var b, line := ops[i].breakpoint, ServerLine(s);
    Survives(base, ops, s, steps, b);
    LastHandled(base, ops, s, steps);
    hide Reachable, Has, DistinctUris;
    forall k: nat | Decides(line, b.uri, k)
      ensures line[k].op.Add? && SameBreakpoint(line[k].op.breakpoint, b) <==> line[k].call == i
    {
      assert LayerOk(ops, line[k]);
    }
  }

  ghost predicate SameContents(a: seq<Breakpoint>, b: seq<Breakpoint>) {
    forall x :: Has(a, x) <==> Has(b, x)
  }

  predicate SameEntry(a: Option<Breakpoint>, b: Option<Breakpoint>) {
    a.Some? == b.Some? && (a.Some? ==> SameBreakpoint(a.value, b.value))
  }

  lemma {:induction false} UntouchedLeft(base: seq<Breakpoint>, line: seq<Layer>, uri: string)
    requires Untouched(line, uri)
    ensures Left(base, line, uri) == EntryAt(base, uri)
  {
    if |line| != 0 {
      UntouchedLeft(base, line[..|line| - 1], uri);
    }
  }

  lemma {:induction false} LeftAtUri(ops: seq<Op>, base: seq<Breakpoint>, line: seq<Layer>, uri: string)
    requires DistinctUris(base) && forall k :: 0 <= k < |line| ==> LayerOk(ops, line[k])
    ensures var b := Left(base, line, uri); b.Some? ==> b.value.uri == uri
  {
    if |line| == 0 {
      EntryAtUri(base, uri);
    } else if uri !in line[|line| - 1].cut {
      LeftAtUri(ops, base, line[..|line| - 1], uri);
    }
  }

  lemma {:induction false} EntryAtUri(bs: seq<Breakpoint>, uri: string)
    ensures EntryAt(bs, uri).Some? ==> EntryAt(bs, uri).value.uri == uri
  {
    if |bs| != 0 {
      EntryAtUri(bs[1..], uri);
    }
  }

  /** The registry and the server's set hold the same if and only if the lines of the calls adopted and handled last leave
      the same at each URI that one of them covers. */
  lemma Agrees(base: State, ops: seq<Op>, s: Overlap, steps: nat)
    requires Inv(base) && Reachable(base, ops, s, steps) && s.handled != []
    ensures SameContents(s.now.registry, s.now.server)
            <==> forall uri :: (Untouched(RegistryLine(s), uri) && Untouched(ServerLine(s), uri))
                               || SameEntry(Left(base.registry, RegistryLine(s), uri), Left(base.registry, ServerLine(s), uri))
  {
    var registered, known := base.registry, RegistryLine(s);
    var line := ServerLine(s);
    EveryInterleaving(base, ops, s, steps);
    LastHandled(base, ops, s, steps);
    if s.adopted != [] {
      LastAdopted(base, ops, s, steps);
    }
    hide Reachable, Has, DistinctUris, LineOk;
    forall uri
      ensures Untouched(known, uri) && Untouched(line, uri) ==> SameEntry(Left(registered, known, uri), Left(registered, line, uri))
      ensures SameContents(s.now.registry, s.now.server) ==> SameEntry(Left(registered, known, uri), Left(registered, line, uri))
    {
      LeavesSame(ops, registered, known, line, uri, s.now.registry, s.now.server);
    }
  }

  lemma LeavesSame(ops: seq<Op>, base: seq<Breakpoint>, a: seq<Layer>, b: seq<Layer>, uri: string, xs: seq<Breakpoint>, ys: seq<Breakpoint>)
    requires DistinctUris(base) && ConsistsOf(xs, base, a) && ConsistsOf(ys, base, b)
    requires forall k :: 0 <= k < |a| ==> LayerOk(ops, a[k])
    requires forall k :: 0 <= k < |b| ==> LayerOk(ops, b[k])
    ensures (Untouched(a, uri) && Untouched(b, uri)) || SameContents(xs, ys) ==> SameEntry(Left(base, a, uri), Left(base, b, uri))
  {
    var p, q := Left(base, a, uri), Left(base, b, uri);
    LeftAtUri(ops, base, a, uri);
    LeftAtUri(ops, base, b, uri);
    if Untouched(a, uri) && Untouched(b, uri) {
      UntouchedLeft(base, a, uri);
      UntouchedLeft(base, b, uri);
    } else if SameContents(xs, ys) {
      assert p.Some? ==> (Has(xs, p.value) <==> Leaves(base, a, p.value)) && (Has(ys, p.value) <==> Leaves(base, b, p.value));
      assert q.Some? ==> (Has(xs, q.value) <==> Leaves(base, a, q.value)) && (Has(ys, q.value) <==> Leaves(base, b, q.value));
    }
  }

  // ---------- One call, and calls that all overlap ----------

  /** A call that nothing overlaps makes the step of the sequential model. */
  lemma AloneIsApply(base: State, op: Op, held: seq<Breakpoint>)
    requires !op.Restart? && HonestReply(base, op, Echo(held))
    ensures var s0 := Start(base, [op]);
            Enabled([op], s0, Begin(0))
            && var s1 := Step([op], s0, Begin(0));
               if Request(base, op).None? then s1.phases == [Rejected] && Apply(base, op, Echo(held)) == (s1.now, false)
               else Enabled([op], s1, Handle(0, held))
                    && var s2 := Step([op], s1, Handle(0, held));
                       Enabled([op], s2, Adopt(0))
                       && Apply(base, op, Echo(held)) == (Step([op], s2, Adopt(0)).now, true)
                       && Apply(base, op, AnswerLost(held)) == (Step([op], s2, Fail(0)).now, false)
                       && Apply(base, op, NotReceived) == (Step([op], s1, Fail(0)).now, false)
  {
    hide Request, Breakpoints.Adopt, Replaces;
  }

  /** Every call began before an answer was adopted, so that any two of them overlap. */
  ghost predicate AllOverlap(s: Overlap) {
    forall i: nat :: |Line(s, i)| <= 1
  }

  ghost predicate AllAdds(ops: seq<Op>) {
    forall i :: 0 <= i < |ops| ==> ops[i].Add?
  }

  /** What an add alone leaves: its breakpoint at that URI, and elsewhere what was registered. */
  ghost predicate AfterAdd(registry: seq<Breakpoint>, b: Breakpoint, x: Breakpoint) {
    if x.uri == b.uri then SameBreakpoint(b, x) else Has(registry, x)
  }

  lemma OneLayer(base: seq<Breakpoint>, layer: Layer, x: Breakpoint)
    requires DistinctUris(base) && layer.op.Add? && layer.cut == {layer.op.breakpoint.uri}
    ensures Leaves(base, [layer], x)
            <==> AfterAdd(base, layer.op.breakpoint, x)
  {
    LayerOnTop(base, [], layer, x);
    assert [] + [layer] == [layer];
    EntryAtHas(base, x);
  }

  /** Of adds that all overlap, the server ends with what the one handled last would have left alone: another one's
      breakpoint survives if and only if it transmits the same, at the same URI, or was registered before in that form. */
  lemma AddSurvives(base: State, ops: seq<Op>, s: Overlap, steps: nat, x: Breakpoint)
    requires Inv(base) && Reachable(base, ops, s, steps) && s.handled != [] && AllOverlap(s) && AllAdds(ops)
    ensures s.handled[|s.handled| - 1] < |ops|
    ensures var last := ops[s.handled[|s.handled| - 1]].breakpoint;
            Has(s.now.server, x) <==> AfterAdd(base.registry, last, x)
  {
    var l := s.handled[|s.handled| - 1];
    EveryInterleaving(base, ops, s, steps);
    LastHandled(base, ops, s, steps);
    hide Reachable, Has, DistinctUris;
    assert |Line(s, l)| == 1 && LayerOk(ops, Line(s, l)[0]);
    assert ServerLine(s) == [Line(s, l)[0]];
    OneLayer(base.registry, Line(s, l)[0], x);
  }

  lemma AddRegistered(base: State, ops: seq<Op>, s: Overlap, steps: nat, x: Breakpoint)
    requires Inv(base) && Reachable(base, ops, s, steps) && s.adopted != [] && AllOverlap(s) && AllAdds(ops)
    ensures s.adopted[|s.adopted| - 1] < |ops|
    ensures var last := ops[s.adopted[|s.adopted| - 1]].breakpoint;
            Has(s.now.registry, x) <==> AfterAdd(base.registry, last, x)
  {
    var a := s.adopted[|s.adopted| - 1];
    EveryInterleaving(base, ops, s, steps);
    LastAdopted(base, ops, s, steps);
    hide Reachable, Has, DistinctUris;
    assert |Line(s, a)| == 1 && LayerOk(ops, Line(s, a)[0]);
    assert RegistryLine(s) == [Line(s, a)[0]];
    OneLayer(base.registry, Line(s, a)[0], x);
  }

  /** The registry then ends with the server's set if and only if the add handled last and the one adopted last are the
      same, in what they transmit, or were both registered before. */
  lemma AddsAgree(base: State, ops: seq<Op>, s: Overlap, steps: nat)
    requires Inv(base) && Reachable(base, ops, s, steps) && AllOverlap(s) && AllAdds(ops) && s.handled != [] && s.adopted != []
    ensures s.handled[|s.handled| - 1] < |ops| && s.adopted[|s.adopted| - 1] < |ops|
    ensures var last, taken := ops[s.handled[|s.handled| - 1]].breakpoint, ops[s.adopted[|s.adopted| - 1]].breakpoint;
            SameContents(s.now.registry, s.now.server)
            <==> SameBreakpoint(last, taken) || (last.uri != taken.uri && Has(base.registry, last) && Has(base.registry, taken))
  {
    LastHandled(base, ops, s, steps);
    LastAdopted(base, ops, s, steps);
    var last, taken := ops[s.handled[|s.handled| - 1]].breakpoint, ops[s.adopted[|s.adopted| - 1]].breakpoint;
    forall x
      ensures Has(s.now.server, x) <==> AfterAdd(base.registry, last, x)
      ensures Has(s.now.registry, x) <==> AfterAdd(base.registry, taken, x)
    {
      AddSurvives(base, ops, s, steps, x);
      AddRegistered(base, ops, s, steps, x);
    }
    AfterAddsSame(base.registry, last, taken, s.now.registry, s.now.server);
  }

  lemma AfterAddsSame(registry: seq<Breakpoint>, last: Breakpoint, taken: Breakpoint, xs: seq<Breakpoint>, ys: seq<Breakpoint>)
    requires DistinctUris(registry)
    requires forall x :: Has(xs, x) <==> AfterAdd(registry, taken, x)
    requires forall x :: Has(ys, x) <==> AfterAdd(registry, last, x)
    ensures SameContents(xs, ys)
            <==> SameBreakpoint(last, taken) || (last.uri != taken.uri && Has(registry, last) && Has(registry, taken))
  {
    if last.uri != taken.uri && Has(registry, last) && Has(registry, taken) {
      forall x ensures Has(xs, x) <==> Has(ys, x) {
        if x.uri == last.uri {
          OneAtUri(registry, last, x);
        } else if x.uri == taken.uri {
          OneAtUri(registry, taken, x);
        }
      }
    }
    hide Has, DistinctUris;
    if SameContents(xs, ys) {
      assert AfterAdd(registry, taken, taken) && AfterAdd(registry, last, last);
      assert Has(ys, taken) && Has(xs, last);
    }
  }

  /** A registered breakpoint is the only one at its URI. */
  lemma OneAtUri(registry: seq<Breakpoint>, b: Breakpoint, x: Breakpoint)
    requires DistinctUris(registry) && Has(registry, b) && x.uri == b.uri
    ensures Has(registry, x) <==> SameBreakpoint(b, x)
  {
    EntryAtHas(registry, b);
    EntryAtHas(registry, x);
  }

  // ---------- Two runs ----------

  ghost predicate AllAdopted(s: Overlap) {
    forall i :: 0 <= i < |s.phases| ==> s.phases[i].Begun? && s.phases[i].outcome.Adopted?
  }

  function AddLayer(i: nat, b: Breakpoint): Layer {
    Layer(i, Add(b), {b.uri})
  }

  function Sent(request: seq<Breakpoint>, line: seq<Layer>): Phase {
    Begun(request, line, None, Pending)
  }

  function Taken(request: seq<Breakpoint>, line: seq<Layer>): Phase {
    Begun(request, line, Some(request), Adopted)
  }

  lemma {:induction false} FilterDistinct(p: Breakpoint -> bool, bs: seq<Breakpoint>)
    requires DistinctUris(bs)
    ensures DistinctUris(Filter(p, bs))
  {
    if |bs| != 0 {
      FilterDistinct(p, bs[1..]);
      FilterMembers(p, bs[1..]);
      var rest := Filter(p, bs[1..]);
      forall k | 0 <= k < |rest| ensures rest[k].uri != bs[0].uri {
        assert rest[k] in bs[1..];
      }
    }
  }

  /** The server can hold the request of an add as it stands, and the registry adopt it. */
  lemma AddAsAsked(now: State, b: Breakpoint) returns (request: seq<Breakpoint>)
    requires DistinctUris(now.registry) && b.uri != ""
    ensures Request(now, Add(b)) == Some(request) && DistinctUris(request)
    ensures Replaces(request, request) && Breakpoints.Adopt(request) == request
    ensures forall x :: Has(request, x) <==> AfterAdd(now.registry, b, x)
  {
    var kept := Filter(OtherUri(b.uri), now.registry);
    request := kept + [b];
    FilterDistinct(OtherUri(b.uri), now.registry);
    FilterMembers(OtherUri(b.uri), now.registry);
    forall k | 0 <= k < |kept| ensures kept[k].uri != b.uri {
      assert kept[k] in kept;
    }
    assert DistinctUris(request);
    AnswersAsAsked(request);
    AdoptDistinct(request);
    forall x ensures Has(request, x) <==> AfterAdd(now.registry, b, x) {
      AddRequestHas(now.registry, b, x);
    }
  }

  ghost predicate Begins(ops: seq<Op>, s: Overlap, i: nat, b: Breakpoint, request: seq<Breakpoint>, line: seq<Layer>, t: Overlap) {
    && i < |s.phases| == |ops| && ops[i] == Add(b) && s.phases[i].NotBegun?
    && Request(s.now, Add(b)) == Some(request) && line == RegistryLine(s) + [AddLayer(i, b)]
    && t == s.(phases := t.phases) && t.phases == s.phases[i := Sent(request, line)]
  }

  lemma BeginNext(base: State, ops: seq<Op>, s: Overlap, steps: nat, i: nat, b: Breakpoint, request: seq<Breakpoint>, line: seq<Layer>, t: Overlap)
    requires Reachable(base, ops, s, steps) && Begins(ops, s, i, b, request, line, t)
    ensures Reachable(base, ops, t, steps + 1)
  {
    assert t == Step(ops, s, Begin(i));
  }

  /** The server handles a request as it stands, and the answer is adopted at once. */
  ghost predicate Finishes(ops: seq<Op>, s: Overlap, i: nat, request: seq<Breakpoint>, line: seq<Layer>, t: Overlap) {
    && i < |s.phases| == |ops| && ops[i].Add? && s.phases[i] == Sent(request, line)
    && Replaces(request, request) && Breakpoints.Adopt(request) == request
    && t == Overlap(State(request, request), t.phases, s.handled + [i], s.adopted + [i])
    && t.phases == s.phases[i := Taken(request, line)]
  }

  lemma FinishNext(base: State, ops: seq<Op>, s: Overlap, steps: nat, i: nat, request: seq<Breakpoint>, line: seq<Layer>, t: Overlap)
    requires Reachable(base, ops, s, steps) && Finishes(ops, s, i, request, line, t)
    ensures Reachable(base, ops, t, steps + 2)
  {
    var handled := Step(ops, s, Handle(i, request));
    assert Enabled(ops, s, Handle(i, request)) && Reachable(base, ops, handled, steps + 1);
    assert Enabled(ops, handled, Adopt(i)) && t == Step(ops, handled, Adopt(i));
  }

  lemma NoneBegun(base: State, ops: seq<Op>, s: Overlap) returns (steps: nat)
    requires s == Overlap(base, s.phases, [], []) && |s.phases| == |ops| && forall i :: 0 <= i < |ops| ==> s.phases[i].NotBegun?
    ensures Reachable(base, ops, s, steps)
  {
    steps := 0;
    assert s.phases == Start(base, ops).phases;
  }

  /** A breakpoint is set again with a condition while another is being added: the add handled last brings the old form back. */
  lemma ConditionLost(known: Breakpoint, first: Breakpoint, second: Breakpoint) returns (s: Overlap, steps: nat)
    requires known.uri == first.uri != second.uri && first.uri != "" && second.uri != "" && !SameBreakpoint(known, first)
    ensures Reachable(State([known], [known]), [Add(first), Add(second)], s, steps) && AllAdopted(s)
    ensures Has(s.now.server, known) && !Has(s.now.server, first)
  {
    var base := State([known], [known]);
    assert SameBreakpoint(known, known) && known in base.registry;
    assert Has(base.registry, known) && !Has(base.registry, first) && DistinctUris(base.registry);
    hide Reachable, Request, Replaces, Breakpoints.Adopt, Has, AllAdopted, DistinctUris;
    var a := AddAsAsked(base, first);
    var b := AddAsAsked(base, second);
    s, steps := TwoOverlap(base, first, second, a, b);
  }

  lemma TwoOverlap(base: State, first: Breakpoint, second: Breakpoint, a: seq<Breakpoint>, b: seq<Breakpoint>) returns (s: Overlap, steps: nat)
    requires Request(base, Add(first)) == Some(a) && Request(base, Add(second)) == Some(b)
    requires Replaces(a, a) && Replaces(b, b) && Breakpoints.Adopt(a) == a && Breakpoints.Adopt(b) == b
    ensures Reachable(base, [Add(first), Add(second)], s, steps) && AllAdopted(s) && s.now.server == b
  {
    hide Reachable, Request, Replaces, Breakpoints.Adopt, Step, Enabled, Start;
    var ops, la, lb := [Add(first), Add(second)], [AddLayer(0, first)], [AddLayer(1, second)];
    assert [] + la == la && [] + lb == lb;
    var s0 := Overlap(base, [NotBegun, NotBegun], [], []);
    var none := NoneBegun(base, ops, s0);
    var s1 := Overlap(base, [Sent(a, la), NotBegun], [], []);
    BeginNext(base, ops, s0, none, 0, first, a, la, s1);
    var s2 := Overlap(base, [Sent(a, la), Sent(b, lb)], [], []);
    BeginNext(base, ops, s1, none + 1, 1, second, b, lb, s2);
    var s4 := Overlap(State(a, a), [Taken(a, la), Sent(b, lb)], [0], [0]);
    FinishNext(base, ops, s2, none + 2, 0, a, la, s4);
    s, steps := Overlap(State(b, b), [Taken(a, la), Taken(b, lb)], [0, 1], [0, 1]), none + 6;
    FinishNext(base, ops, s4, none + 4, 1, b, lb, s);
  }

  /** Three adds to an empty registry. The first is adopted before the third begins, while the second is still in flight:
      the first breakpoint survives, though it was neither handled last nor registered before, and the second is lost. */
  lemma StaggeredSurvives(a: Breakpoint, b: Breakpoint, c: Breakpoint) returns (s: Overlap, steps: nat)
    requires a.uri != "" && b.uri != "" && c.uri != "" && a.uri != b.uri && a.uri != c.uri && b.uri != c.uri
    ensures Reachable(State([], []), [Add(a), Add(b), Add(c)], s, steps) && AllAdopted(s) && s.handled == [0, 1, 2]
    ensures Has(s.now.server, a) && !Has(s.now.server, b)
  {
    assert SameBreakpoint(a, a) && !Has([], b) && DistinctUris([]);
    hide Reachable, Request, Replaces, Breakpoints.Adopt, Has, AllAdopted, DistinctUris;
    var ra := AddAsAsked(State([], []), a);
    var rb := AddAsAsked(State([], []), b);
    var rc := AddAsAsked(State(ra, ra), c);
    s, steps := ThreeStaggered(State([], []), a, b, c, ra, rb, rc);
  }

  /** The first of three adds is adopted before the third begins, and the second is handled in between. */
  lemma ThreeStaggered(base: State, a: Breakpoint, b: Breakpoint, c: Breakpoint, ra: seq<Breakpoint>, rb: seq<Breakpoint>, rc: seq<Breakpoint>)
    returns (s: Overlap, steps: nat)
    requires Request(base, Add(a)) == Some(ra) && Request(base, Add(b)) == Some(rb) && Request(State(ra, ra), Add(c)) == Some(rc)
    requires Replaces(ra, ra) && Replaces(rb, rb) && Replaces(rc, rc)
    requires Breakpoints.Adopt(ra) == ra && Breakpoints.Adopt(rb) == rb && Breakpoints.Adopt(rc) == rc
    ensures Reachable(base, [Add(a), Add(b), Add(c)], s, steps) && AllAdopted(s) && s.handled == [0, 1, 2] && s.now.server == rc
  {
    hide Reachable, Request, Replaces, Breakpoints.Adopt, Step, Enabled, Start;
    var ops, la, lb := [Add(a), Add(b), Add(c)], [AddLayer(0, a)], [AddLayer(1, b)];
    var lc := la + [AddLayer(2, c)];
    assert [] + la == la && [] + lb == lb;
    var s0 := Overlap(base, [NotBegun, NotBegun, NotBegun], [], []);
    var none := NoneBegun(base, ops, s0);
    var s1 := Overlap(base, [Sent(ra, la), NotBegun, NotBegun], [], []);
    BeginNext(base, ops, s0, none, 0, a, ra, la, s1);
    var s2 := Overlap(base, [Sent(ra, la), Sent(rb, lb), NotBegun], [], []);
    BeginNext(base, ops, s1, none + 1, 1, b, rb, lb, s2);
    var s4 := Overlap(State(ra, ra), [Taken(ra, la), Sent(rb, lb), NotBegun], [0], [0]);
    FinishNext(base, ops, s2, none + 2, 0, ra, la, s4);
    var s5 := Overlap(State(ra, ra), [Taken(ra, la), Sent(rb, lb), Sent(rc, lc)], [0], [0]);
    BeginNext(base, ops, s4, none + 4, 2, c, rc, lc, s5);
    var s7 := Overlap(State(rb, rb), [Taken(ra, la), Taken(rb, lb), Sent(rc, lc)], [0, 1], [0, 1]);
    FinishNext(base, ops, s5, none + 5, 1, rb, lb, s7);
    s, steps := Overlap(State(rc, rc), [Taken(ra, la), Taken(rb, lb), Taken(rc, lc)], [0, 1, 2], [0, 1, 2]), none + 9;
    FinishNext(base, ops, s7, none + 7, 2, rc, lc, s);
  }
}
