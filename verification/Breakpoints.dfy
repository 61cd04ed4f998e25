/** The breakpoint registry against the server's breakpoint set (src/lib/adt/debuggerBreakpoints.ts). */
module Breakpoints {
  import opened Sequences

  datatype Breakpoint = Breakpoint(id: Option<string>, kind: string, clientId: string, uri: string, condition: Option<string>)

  /** How a synchronisation ended: the request did not arrive; it took effect but the answer was lost; or the server
      answered with the set it now holds. */
  datatype Reply = NotReceived | AnswerLost(held: seq<Breakpoint>) | Echo(held: seq<Breakpoint>)

  datatype Op = Add(breakpoint: Breakpoint) | Delete(id: string) | DeleteAll | Restart

  /** This process's registry, in insertion order, and the set the server holds. */
  datatype State = State(registry: seq<Breakpoint>, server: seq<Breakpoint>)

  // ---------- The registry as a map keyed by URI ----------

  function Put(entries: seq<Breakpoint>, b: Breakpoint): seq<Breakpoint> {
    if |entries| == 0 then [b]
    else if entries[0].uri == b.uri then [b] + entries[1..]
    else [entries[0]] + Put(entries[1..], b)
  }

  /** `adoptServerState`: clear, then set every entry that has a URI. */
  function Adopt(held: seq<Breakpoint>): seq<Breakpoint> {
    if |held| == 0 then [] else
    var before, b := Adopt(held[..|held| - 1]), held[|held| - 1];
    if b.uri == "" then before else Put(before, b)
  }

  function OtherUri(uri: string): Breakpoint -> bool {
    (b: Breakpoint) => b.uri != uri
  }

  function OtherId(id: string): Breakpoint -> bool {
    (b: Breakpoint) => b.id != Some(id)
  }

  /** The set a step asks the server to hold; None if it fails before asking. */
  function Request(s: State, op: Op): Option<seq<Breakpoint>> {
    match op
    case Add(b) => Some(Filter(OtherUri(b.uri), s.registry) + [b])
    case Delete(id) =>
      var remaining := Filter(OtherId(id), s.registry);
      if |remaining| == |s.registry| then None else Some(remaining)
    case DeleteAll => Some([])
    case Restart => None
  }

  /** One step: the state afterwards and whether it succeeded. */
  function Apply(s: State, op: Op, reply: Reply): (State, bool) {
    if op.Restart? then (s.(registry := []), true)
    else if Request(s, op).None? then (s, false)
    else
      match reply
      case NotReceived => (s, false)
      case AnswerLost(held) => (s.(server := held), false)
      case Echo(held) => (State(if op.DeleteAll? then [] else Adopt(held), held), true)
  }

  // ---------- The server ----------

  /** Equal in everything the request transmits. */
  predicate SameBreakpoint(a: Breakpoint, b: Breakpoint) {
    a.uri == b.uri && a.kind == b.kind && a.clientId == b.clientId && a.condition == b.condition
  }

  ghost predicate DistinctUris(bs: seq<Breakpoint>) {
    && (forall i, j :: 0 <= i < j < |bs| ==> bs[i].uri != bs[j].uri)
    && (forall i :: 0 <= i < |bs| ==> bs[i].uri != "")
  }

  ghost predicate Has(bs: seq<Breakpoint>, b: Breakpoint) {
    exists x :: x in bs && SameBreakpoint(x, b)
  }

  /** The server replaces its set by the requested one; it may assign ids. */
  ghost predicate Replaces(request: seq<Breakpoint>, held: seq<Breakpoint>) {
    && DistinctUris(held)
    && (forall b :: b in request ==> Has(held, b))
    && (forall x :: x in held ==> Has(request, x))
  }

  ghost predicate HonestReply(s: State, op: Op, reply: Reply) {
    !reply.NotReceived? && Request(s, op).Some? ==> Replaces(Request(s, op).value, reply.held)
  }

  // ---------- Every run ----------

  lemma {:induction false} PutAppends(entries: seq<Breakpoint>, b: Breakpoint)
    requires forall x :: x in entries ==> x.uri != b.uri
    ensures Put(entries, b) == entries + [b]
  {
    if |entries| != 0 {
      assert entries[0] in entries && forall x :: x in entries[1..] ==> x in entries;
      PutAppends(entries[1..], b);
    }
  }

  /** A list with distinct, non-empty URIs is adopted as it is. */
  lemma {:induction false} AdoptDistinct(held: seq<Breakpoint>)
    requires DistinctUris(held)
    ensures Adopt(held) == held
  {
    if |held| != 0 {
      var n := |held| - 1;
      AdoptDistinct(held[..n]);
      forall x | x in held[..n] ensures x.uri != held[n].uri {
        var i :| 0 <= i < n && held[..n][i] == x;
        assert held[i].uri != held[n].uri;
      }
      PutAppends(held[..n], held[n]);
      assert held == held[..n] + [held[n]];
    }
  }

  ghost predicate Inv(s: State) {
    DistinctUris(s.registry) && DistinctUris(s.server)
  }

  lemma StepKeepsInv(s: State, op: Op, reply: Reply)
    requires Inv(s) && HonestReply(s, op, reply)
    ensures Inv(Apply(s, op, reply).0)
    ensures Apply(s, op, reply).1 && !op.Restart? ==> Apply(s, op, reply).0.registry == Apply(s, op, reply).0.server
    ensures !Apply(s, op, reply).1 ==> Apply(s, op, reply).0.registry == s.registry
  {
    if reply.Echo? && Request(s, op).Some? {
      AdoptDistinct(reply.held);
      assert |reply.held| == 0 || reply.held[0] in reply.held;
    }
  }

  /** The states along a run, starting with the given one. */
  function Trace(s: State, steps: seq<(Op, Reply)>): (states: seq<State>)
    ensures |states| == |steps| + 1 && states[0] == s
    decreases steps
  {
    if |steps| == 0 then [s] else [s] + Trace(Apply(s, steps[0].0, steps[0].1).0, steps[1..])
  }

  ghost predicate HonestRun(s: State, steps: seq<(Op, Reply)>)
    decreases steps
  {
    |steps| == 0 || (HonestReply(s, steps[0].0, steps[0].1) && HonestRun(Apply(s, steps[0].0, steps[0].1).0, steps[1..]))
  }

  /** Over every sequential run, with any failures and restarts in between, the registry equals the server's set
      after each step that succeeds, and a step that fails leaves the registry alone. */
  lemma {:induction false} EveryRun(s: State, steps: seq<(Op, Reply)>, k: nat)
    requires Inv(s) && HonestRun(s, steps) && k < |steps|
    ensures var before, after, op := Trace(s, steps)[k], Trace(s, steps)[k + 1], steps[k].0;
            && Inv(after)
            && (after, Apply(before, op, steps[k].1).1) == Apply(before, op, steps[k].1)
            && (Apply(before, op, steps[k].1).1 && !op.Restart? ==> after.registry == after.server)
            && (!Apply(before, op, steps[k].1).1 ==> after.registry == before.registry)
    decreases k
  {
    StepKeepsInv(s, steps[0].0, steps[0].1);
    var next := Apply(s, steps[0].0, steps[0].1).0;
    if k > 0 {
      EveryRun(next, steps[1..], k - 1);
      assert Trace(s, steps)[k] == Trace(next, steps[1..])[k - 1];
      assert Trace(s, steps)[k + 1] == Trace(next, steps[1..])[k];
    } else {
      assert Trace(s, steps)[1] == Trace(next, steps[1..])[0];
    }
  }

  // ---------- What one step does to the server ----------

  lemma HasTransfers(a: seq<Breakpoint>, b: Breakpoint, c: Breakpoint)
    requires SameBreakpoint(b, c)
    ensures Has(a, b) <==> Has(a, c)
  {
    if x :| x in a && SameBreakpoint(x, b) {
      assert SameBreakpoint(x, c);
    }
    if x :| x in a && SameBreakpoint(x, c) {
      assert SameBreakpoint(x, b);
    }
  }

  lemma HeldIsRequest(request: seq<Breakpoint>, held: seq<Breakpoint>, b: Breakpoint)
    requires Replaces(request, held)
    ensures Has(held, b) <==> Has(request, b)
  {
    if x :| x in held && SameBreakpoint(x, b) {
      HasTransfers(request, x, b);
    }
    if x :| x in request && SameBreakpoint(x, b) {
      HasTransfers(held, x, b);
    }
  }

  lemma AddRequestHas(registry: seq<Breakpoint>, b: Breakpoint, x: Breakpoint)
    ensures Has(Filter(OtherUri(b.uri), registry) + [b], x) <==> if x.uri == b.uri then SameBreakpoint(b, x) else Has(registry, x)
  {
    var request := Filter(OtherUri(b.uri), registry) + [b];
    FilterMembers(OtherUri(b.uri), registry);
    assert forall y :: y in request <==> y in Filter(OtherUri(b.uri), registry) || y == b;
    if x.uri != b.uri && Has(registry, x) {
      var y :| y in registry && SameBreakpoint(y, x);
      assert y in request;
    }
  }

  /** After a successful add the server holds the new breakpoint in place of any at the same URI, and of the others
      exactly those the registry knew. */
  lemma AddedSet(s: State, b: Breakpoint, held: seq<Breakpoint>, x: Breakpoint)
    requires Inv(s) && HonestReply(s, Add(b), Echo(held))
    ensures Has(held, x) <==> if x.uri == b.uri then SameBreakpoint(b, x) else Has(s.registry, x)
  {
    HeldIsRequest(Request(s, Add(b)).value, held, x);
    AddRequestHas(s.registry, b, x);
  }

  /** An add keeps every other breakpoint on the server if and only if the registry knew all of them;
      in particular whenever the last step succeeded. */
  lemma AddKeepsOthers(s: State, b: Breakpoint, held: seq<Breakpoint>)
    requires Inv(s) && HonestReply(s, Add(b), Echo(held))
    ensures (forall x :: x in s.server && x.uri != b.uri ==> Has(Apply(s, Add(b), Echo(held)).0.server, x))
            <==> forall x :: x in s.server && x.uri != b.uri ==> Has(s.registry, x)
    ensures s.registry == s.server ==> forall x :: x in s.server && x.uri != b.uri ==> Has(s.registry, x)
  {
    forall x | x in s.server && x.uri != b.uri ensures Has(held, x) <==> Has(s.registry, x) {
      AddedSet(s, b, held, x);
    }
  }

  /** A delete removes the breakpoints with the given id and nothing else; with an unknown id nothing is sent. */
  lemma DeletedSet(s: State, id: string, held: seq<Breakpoint>, x: Breakpoint)
    requires Inv(s) && HonestReply(s, Delete(id), Echo(held))
    ensures Request(s, Delete(id)).None? <==> forall y :: y in s.registry ==> y.id != Some(id)
    ensures Request(s, Delete(id)).Some? ==>
              (Has(held, x) <==> exists y :: y in s.registry && y.id != Some(id) && SameBreakpoint(y, x))
  {
    FilterMembers(OtherId(id), s.registry);
    FilterAll(OtherId(id), s.registry);
    if Request(s, Delete(id)).Some? {
      HeldIsRequest(Request(s, Delete(id)).value, held, x);
    }
  }

  lemma {:induction false} FilterAll<T>(p: T -> bool, xs: seq<T>)
    ensures |Filter(p, xs)| <= |xs|
    ensures |Filter(p, xs)| == |xs| <==> forall x :: x in xs ==> p(x)
  {
    if |xs| != 0 {
      FilterAll(p, xs[1..]);
      assert xs == [xs[0]] + xs[1..];
    }
  }

  lemma AnswersAsAsked(request: seq<Breakpoint>)
    requires DistinctUris(request)
    ensures Replaces(request, request)
  {
    forall b | b in request ensures Has(request, b) {
      assert SameBreakpoint(b, b);
    }
  }

  /** After a restart the registry is empty, and the first add drops what the server still held. */
  lemma RestartLosesOthers(known: Breakpoint, added: Breakpoint)
    requires known.uri != "" && added.uri != "" && known.uri != added.uri
    ensures var s := Apply(State([known], [known]), Restart, NotReceived).0;
            && Inv(s) && HonestReply(s, Add(added), Echo([added]))
            && known in s.server && !Has(Apply(s, Add(added), Echo([added])).0.server, known)
  {
    var s := State([], [known]);
    assert Apply(State([known], [known]), Restart, NotReceived).0 == s;
    OnlyRequest(s, added);
    AnswersAsAsked([added]);
    hide Request, Filter, Replaces, DistinctUris;
    assert !Has([added], known);
  }

  lemma OnlyRequest(s: State, added: Breakpoint)
    requires s.registry == []
    ensures Request(s, Add(added)) == Some([added])
  {
    assert Filter(OtherUri(added.uri), s.registry) == [] && [] + [added] == [added];
  }

  // ---------- The module itself ----------

  class DebuggerBreakpoints {
    var registry: seq<Breakpoint>
    ghost var server: seq<Breakpoint>

    ghost function Now(): State
      reads this
    {
      State(registry, server)
    }

    constructor (ghost onServer: seq<Breakpoint>)
      ensures Now() == State([], onServer)
    {
      registry, server := [], onServer;
    }

    method AdoptServerState(breakpoints: seq<Breakpoint>)
      modifies `registry
      ensures registry == Adopt(breakpoints)
    {
      registry := [];
      var i := 0;
      while i < |breakpoints|
        invariant 0 <= i <= |breakpoints|
        invariant registry == Adopt(breakpoints[..i])
      {
        assert breakpoints[..i + 1][..i] == breakpoints[..i];
        if breakpoints[i].uri != "" {
          registry := Put(registry, breakpoints[i]);
        }
        i := i + 1;
      }
      assert breakpoints[..|breakpoints|] == breakpoints;
    }

    /** The exchange with the server; `None` stands for the exception of a failed request. */
    method SyncBreakpoints(breakpoints: seq<Breakpoint>, reply: Reply) returns (response: Option<seq<Breakpoint>>)
      modifies `server
      ensures server == if reply.NotReceived? then old(server) else reply.held
      ensures response == if reply.Echo? then Some(reply.held) else None
    {
      server := if reply.NotReceived? then server else reply.held;
      response := if reply.Echo? then Some(reply.held) else None;
    }

    method AddBreakpoint(b: Breakpoint, reply: Reply) returns (all: Option<seq<Breakpoint>>)
      modifies this
      ensures (Now(), all.Some?) == Apply(old(Now()), Add(b), reply)
      ensures all.Some? ==> reply.Echo? && all.value == reply.held
    {
      var kept := Filter(OtherUri(b.uri), registry);
      all := SyncBreakpoints(kept + [b], reply);
      if all.Some? {
        AdoptServerState(all.value);
      }
    }

    method DeleteBreakpoint(id: string, reply: Reply) returns (all: Option<seq<Breakpoint>>)
      modifies this
      ensures (Now(), all.Some?) == Apply(old(Now()), Delete(id), reply)
    {
      var existing := registry;
      var remaining := Filter(OtherId(id), existing);
      if |remaining| == |existing| {
        return None;
      }
      all := SyncBreakpoints(remaining, reply);
      if all.Some? {
        AdoptServerState(all.value);
      }
    }

    method DeleteAllBreakpoints(reply: Reply) returns (ok: bool)
      modifies this
      ensures (Now(), ok) == Apply(old(Now()), DeleteAll, reply)
    {
      var response := SyncBreakpoints([], reply);
      ok := response.Some?;
      if ok {
        registry := [];
      }
    }
  }
}
