/** Reading an ATC worklist as a stream of tags (src/lib/adt/atc.ts, `parseAtcWorklist`, and the
    per-check part of `summariseFindings`). A tag is what the tag pattern matches, its attributes decoded. */
module AtcWorklist {
  import opened Sequences

  datatype AtcObject = AtcObject(name: string, kind: string, packageName: string, author: string)

  const NO_OBJECT := AtcObject("", "", "", "")

  datatype Quickfix = Quickfix(manual: bool, automatic: bool, pseudoComment: bool)

  const NO_QUICKFIX := Quickfix(false, false, false)

  datatype RawFinding = RawFinding(
    priority: int, checkTitle: string, messageId: string, message: string, location: string, exempted: bool)

  datatype Tag = ObjectTag(object_: AtcObject) | FindingTag(raw: RawFinding) | QuickfixesTag(quickfix: Quickfix)

  datatype Finding = Finding(object_: AtcObject, raw: RawFinding, quickfix: Quickfix)

  // ---------- The attribution rule ----------

  /** The last object tag, or a blank object if there is none. */
  function LastObject(tags: seq<Tag>): AtcObject {
    if |tags| == 0 then NO_OBJECT
    else if tags[|tags| - 1].ObjectTag? then tags[|tags| - 1].object_
    else LastObject(tags[..|tags| - 1])
  }

  /** The last quickfixes tag before the next object or finding tag, or `default`. */
  function FixAhead(tags: seq<Tag>, default: Quickfix): Quickfix {
    if |tags| == 0 || !tags[0].QuickfixesTag? then default else FixAhead(tags[1..], tags[0].quickfix)
  }

  /** The finding a finding tag at position p stands for. */
  function FindingAt(tags: seq<Tag>, p: nat): Finding
    requires p < |tags| && tags[p].FindingTag?
  {
    Finding(LastObject(tags[..p]), tags[p].raw, FixAhead(tags[p + 1..], NO_QUICKFIX))
  }

  /** One finding per finding tag from position p on, in order. */
  function FindingsFrom(tags: seq<Tag>, p: nat): seq<Finding>
    requires p <= |tags|
    decreases |tags| - p
  {
    if p == |tags| then [] else
    (if tags[p].FindingTag? then [FindingAt(tags, p)] else []) + FindingsFrom(tags, p + 1)
  }

  function ObjectTags(tags: seq<Tag>): nat {
    if |tags| == 0 then 0 else ObjectTags(tags[..|tags| - 1]) + if tags[|tags| - 1].ObjectTag? then 1 else 0
  }

  // ---------- The machine ----------

  /** What is still owed at position i: the pending finding with the fixes ahead, then the finding tags to come. */
  function Owed(tags: seq<Tag>, i: nat, pending: Option<Finding>): seq<Finding>
    requires i <= |tags|
  {
    (if pending.Some? then [pending.value.(quickfix := FixAhead(tags[i..], pending.value.quickfix))] else []) + FindingsFrom(tags, i)
  }

  lemma OwedStep(tags: seq<Tag>, i: nat, pending: Option<Finding>)
    requires i < |tags|
    ensures !tags[i].QuickfixesTag? && pending.Some? ==> FixAhead(tags[i..], pending.value.quickfix) == pending.value.quickfix
    ensures tags[i].QuickfixesTag? && pending.Some? ==>
              Owed(tags, i, pending) == Owed(tags, i + 1, Some(pending.value.(quickfix := tags[i].quickfix)))
    ensures LastObject(tags[..i + 1]) == if tags[i].ObjectTag? then tags[i].object_ else LastObject(tags[..i])
    ensures ObjectTags(tags[..i + 1]) == ObjectTags(tags[..i]) + if tags[i].ObjectTag? then 1 else 0
  {
    assert tags[i..][1..] == tags[i + 1..];
    assert tags[..i + 1][..i] == tags[..i];
  }

  // ---------- The rule, position by position ----------

  /** The object of the last object tag before position p; a blank one if there is none. */
  ghost predicate LastObjectBefore(tags: seq<Tag>, p: nat, o: AtcObject)
    requires p <= |tags|
  {
    || (exists q :: 0 <= q < p && tags[q] == ObjectTag(o) && forall j :: q < j < p ==> !tags[j].ObjectTag?)
    || (o == AtcObject("", "", "", "") && forall j :: 0 <= j < p ==> !tags[j].ObjectTag?)
  }

  /** The quickfixes of the last of the quickfixes tags that follow position p directly; none if there is no such tag. */
  ghost predicate LastFixAfter(tags: seq<Tag>, p: nat, fix: Quickfix)
    requires p < |tags|
  {
    exists n: nat ::
      && p < n <= |tags| && (forall j :: p < j < n ==> tags[j].QuickfixesTag?) && (n < |tags| ==> !tags[n].QuickfixesTag?)
      && fix == if n == p + 1 then Quickfix(false, false, false) else tags[n - 1].quickfix
  }

  /** The findings are those of the tags at the positions listed, which are all the finding tags. */
  ghost predicate Attributed(tags: seq<Tag>, findings: seq<Finding>, at: seq<nat>) {
    && |at| == |findings| && (forall i, j :: 0 <= i < j < |at| ==> at[i] < at[j])
    && (forall k: nat :: k in at <==> k < |tags| && tags[k].FindingTag?)
    && forall i :: 0 <= i < |at| ==>
         && at[i] < |tags| && tags[at[i]].FindingTag? && findings[i].raw == tags[at[i]].raw
         && LastObjectBefore(tags, at[i], findings[i].object_) && LastFixAfter(tags, at[i], findings[i].quickfix)
  }

  lemma {:induction false} LastObjectExactly(tags: seq<Tag>, p: nat)
    requires p <= |tags|
    ensures LastObjectBefore(tags, p, LastObject(tags[..p]))
  {
    if p > 0 {
      assert tags[..p][..p - 1] == tags[..p - 1] && tags[..p][p - 1] == tags[p - 1];
      LastObjectExactly(tags, p - 1);
    }
  }

  lemma {:induction false} FixAheadExactly(tags: seq<Tag>, q: nat, default: Quickfix) returns (n: nat)
    requires q <= |tags|
    ensures q <= n <= |tags| && (forall j :: q <= j < n ==> tags[j].QuickfixesTag?) && (n < |tags| ==> !tags[n].QuickfixesTag?)
    ensures FixAhead(tags[q..], default) == if n == q then default else tags[n - 1].quickfix
    decreases |tags| - q
  {
    if q < |tags| && tags[q].QuickfixesTag? {
      assert tags[q..][1..] == tags[q + 1..];
      n := FixAheadExactly(tags, q + 1, tags[q].quickfix);
    } else {
      n := q;
    }
  }

  lemma FindingAtExactly(tags: seq<Tag>, p: nat)
    requires p < |tags| && tags[p].FindingTag?
    ensures var f := FindingAt(tags, p);
            f.raw == tags[p].raw && LastObjectBefore(tags, p, f.object_) && LastFixAfter(tags, p, f.quickfix)
  {
    LastObjectExactly(tags, p);
    var n := FixAheadExactly(tags, p + 1, NO_QUICKFIX);
  }

  /** The positions of the finding tags from p on, and the findings there. */
  ghost predicate FoundFrom(tags: seq<Tag>, p: nat, findings: seq<Finding>, at: seq<nat>) {
    && |at| == |findings| && (forall i, j :: 0 <= i < j < |at| ==> at[i] < at[j])
    && (forall k: nat :: k in at <==> p <= k < |tags| && tags[k].FindingTag?)
    && forall i :: 0 <= i < |at| ==> at[i] < |tags| && tags[at[i]].FindingTag? && findings[i] == FindingAt(tags, at[i])
  }

  lemma FoundCons(tags: seq<Tag>, p: nat, findings: seq<Finding>, at: seq<nat>)
    requires p < |tags| && FoundFrom(tags, p + 1, findings, at)
    ensures if tags[p].FindingTag? then FoundFrom(tags, p, [FindingAt(tags, p)] + findings, [p] + at) else FoundFrom(tags, p, findings, at)
  {
    if tags[p].FindingTag? {
      hide FindingAt;
      PositionFirst(p, at);
    }
  }

  lemma PositionFirst(p: nat, at: seq<nat>)
    requires (forall i, j :: 0 <= i < j < |at| ==> at[i] < at[j]) && forall k :: k in at ==> p < k
    ensures var more := [p] + at;
            (forall i, j :: 0 <= i < j < |more| ==> more[i] < more[j]) && forall k: nat :: k in more <==> k == p || k in at
  {
    var more := [p] + at;
    forall i, j | 0 <= i < j < |more| ensures more[i] < more[j] {
      assert at[j - 1] in at;
    }
  }

  lemma {:induction false} FindingsExactly(tags: seq<Tag>, p: nat) returns (at: seq<nat>)
    requires p <= |tags|
    ensures FoundFrom(tags, p, FindingsFrom(tags, p), at)
    decreases |tags| - p
  {
    if p == |tags| {
      at := [];
    } else {
      at := FindingsExactly(tags, p + 1);
      FoundCons(tags, p, FindingsFrom(tags, p + 1), at);
      hide FoundFrom, FindingAt;
      assert [] + FindingsFrom(tags, p + 1) == FindingsFrom(tags, p + 1);
      at := if tags[p].FindingTag? then [p] + at else at;
    }
  }

  lemma AllAttributed(tags: seq<Tag>) returns (at: seq<nat>)
    ensures Attributed(tags, FindingsFrom(tags, 0), at)
  {
    at := FindingsExactly(tags, 0);
    forall k | 0 <= k < |tags| && tags[k].FindingTag?
      ensures var f := FindingAt(tags, k);
              f.raw == tags[k].raw && LastObjectBefore(tags, k, f.object_) && LastFixAfter(tags, k, f.quickfix)
    {
      FindingAtExactly(tags, k);
    }
    hide FindingAt, LastObjectBefore, LastFixAfter, FindingsFrom;
  }

  lemma {:induction false} ObjectsCounted(tags: seq<Tag>)
    ensures ObjectTags(tags) == |set k: nat | k < |tags| && tags[k].ObjectTag?|
  {
    var objects := set k: nat | k < |tags| && tags[k].ObjectTag?;
    if |tags| == 0 {
      assert objects == {};
    } else {
      var n := |tags| - 1;
      ObjectsCounted(tags[..n]);
      var before := set k: nat | k < |tags[..n]| && tags[..n][k].ObjectTag?;
      assert objects == if tags[n].ObjectTag? then before + {n} else before;
    }
  }

  /** The machine outputs one finding per finding tag, in order, each attributed by the rule, for any stream of tags. */
  method ParseAtcWorklist(tags: seq<Tag>) returns (objectsAnalysed: nat, findings: seq<Finding>)
    ensures findings == FindingsFrom(tags, 0) && exists at :: Attributed(tags, findings, at)
    ensures objectsAnalysed == ObjectTags(tags) == |set k: nat | k < |tags| && tags[k].ObjectTag?|
  {
    ghost var at := AllAttributed(tags);
    ObjectsCounted(tags);
    hide Attributed;
    findings, objectsAnalysed := [], 0;
    var current := NO_OBJECT;
    var pending: Option<Finding> := None;
    var i := 0;
    while i < |tags|
      invariant 0 <= i <= |tags|
      invariant current == LastObject(tags[..i]) && objectsAnalysed == ObjectTags(tags[..i])
      invariant findings + Owed(tags, i, pending) == FindingsFrom(tags, 0)
    {
      var tag := tags[i];
      OwedStep(tags, i, pending);
      match tag {
        case ObjectTag(object_) =>
          if pending.Some? {
            findings := findings + [pending.value];
            pending := None;
          }
          objectsAnalysed := objectsAnalysed + 1;
          current := object_;
        case FindingTag(raw) =>
          if pending.Some? {
            findings := findings + [pending.value];
          }
          pending := Some(Finding(current, raw, NO_QUICKFIX));
        case QuickfixesTag(quickfix) =>
          if pending.Some? {
            pending := Some(pending.value.(quickfix := quickfix));
          }
      }
      i := i + 1;
    }
    assert tags[..|tags|] == tags && tags[|tags|..] == [];
    if pending.Some? {
      findings := findings + [pending.value];
    }
  }

  // ---------- Nested worklists ----------

  datatype FindingNode = FindingNode(raw: RawFinding, quickfix: Option<Quickfix>)

  datatype ObjectNode = ObjectNode(object_: AtcObject, findings: seq<FindingNode>)

  function PrintFindings(nodes: seq<FindingNode>): seq<Tag> {
    if |nodes| == 0 then [] else
    PrintFinding(nodes[0]) + PrintFindings(nodes[1..])
  }

  function PrintFinding(node: FindingNode): seq<Tag> {
    [FindingTag(node.raw)] + if node.quickfix.Some? then [QuickfixesTag(node.quickfix.value)] else []
  }

  /** A worklist as SAP writes it: objects, their findings nested inside, quickfixes inside those. */
  function Print(worklist: seq<ObjectNode>): seq<Tag> {
    if |worklist| == 0 then [] else
    [ObjectTag(worklist[0].object_)] + PrintFindings(worklist[0].findings) + Print(worklist[1..])
  }

  function Listed(object_: AtcObject, nodes: seq<FindingNode>): seq<Finding> {
    if |nodes| == 0 then [] else
    [Finding(object_, nodes[0].raw, if nodes[0].quickfix.Some? then nodes[0].quickfix.value else NO_QUICKFIX)]
    + Listed(object_, nodes[1..])
  }

  function AllListed(worklist: seq<ObjectNode>): seq<Finding> {
    if |worklist| == 0 then [] else Listed(worklist[0].object_, worklist[0].findings) + AllListed(worklist[1..])
  }

  /** Reading on after `before`, whose last object is `current`: a view of the machine without positions. */
  function Read(current: AtcObject, tags: seq<Tag>): seq<Finding>
    decreases tags
  {
    if |tags| == 0 then [] else
    match tags[0]
    case ObjectTag(object_) => Read(object_, tags[1..])
    case FindingTag(raw) => [Finding(current, raw, FixAhead(tags[1..], NO_QUICKFIX))] + Read(current, tags[1..])
    case QuickfixesTag(_) => Read(current, tags[1..])
  }

  lemma {:induction false} FindingsAreRead(tags: seq<Tag>, p: nat)
    requires p <= |tags|
    ensures FindingsFrom(tags, p) == Read(LastObject(tags[..p]), tags[p..])
    decreases |tags| - p
  {
    if p < |tags| {
      FindingsAreRead(tags, p + 1);
      assert tags[p..][1..] == tags[p + 1..] && tags[..p + 1][..p] == tags[..p];
    }
  }

  lemma ReadFinding(object_: AtcObject, node: FindingNode, more: seq<Tag>)
    requires |more| == 0 || !more[0].QuickfixesTag?
    ensures Read(object_, PrintFinding(node) + more) == Listed(object_, [node]) + Read(object_, more)
  {
    var tags := PrintFinding(node) + more;
    assert Listed(object_, [node][1..]) == [];
    if node.quickfix.Some? {
      assert tags[1..] == [QuickfixesTag(node.quickfix.value)] + more;
      assert tags[1..][1..] == more;
      assert FixAhead(tags[1..], NO_QUICKFIX) == node.quickfix.value;
    } else {
      assert tags[1..] == more;
    }
  }

  lemma PrintCons(nodes: seq<FindingNode>, rest: seq<Tag>)
    requires |nodes| > 0
    ensures PrintFindings(nodes) + rest == PrintFinding(nodes[0]) + (PrintFindings(nodes[1..]) + rest)
    ensures (PrintFindings(nodes) + rest)[0].FindingTag?
  {
  }

  lemma ListedCons(object_: AtcObject, nodes: seq<FindingNode>)
    requires |nodes| > 0
    ensures Listed(object_, nodes) == Listed(object_, [nodes[0]]) + Listed(object_, nodes[1..])
  {
    assert Listed(object_, [nodes[0]][1..]) == [];
  }

  /** Reading the printed findings of one object; what follows them does not start with a quickfix. */
  lemma {:induction false} ReadFindings(object_: AtcObject, nodes: seq<FindingNode>, rest: seq<Tag>)
    requires |rest| == 0 || !rest[0].QuickfixesTag?
    ensures Read(object_, PrintFindings(nodes) + rest) == Listed(object_, nodes) + Read(object_, rest)
    ensures |PrintFindings(nodes) + rest| == 0 || !(PrintFindings(nodes) + rest)[0].QuickfixesTag?
  {
    if |nodes| == 0 {
      assert PrintFindings(nodes) + rest == rest;
    } else {
      hide Read, Listed, PrintFinding, PrintFindings;
      ReadFindings(object_, nodes[1..], rest);
      ReadFinding(object_, nodes[0], PrintFindings(nodes[1..]) + rest);
      ListedCons(object_, nodes);
      PrintCons(nodes, rest);
    }
  }

  lemma {:induction false} ReadWorklist(current: AtcObject, worklist: seq<ObjectNode>)
    ensures Read(current, Print(worklist)) == AllListed(worklist)
    ensures |Print(worklist)| == 0 || !Print(worklist)[0].QuickfixesTag?
    decreases worklist
  {
    if |worklist| != 0 {
      var node, rest := worklist[0], Print(worklist[1..]);
      ReadWorklist(node.object_, worklist[1..]);
      ReadFindings(node.object_, node.findings, rest);
      assert Print(worklist)[1..] == PrintFindings(node.findings) + rest;
    }
  }

  /** Writing a worklist as tags and parsing the tags gives back every finding of the worklist under its own object. */
  lemma ParsePrint(worklist: seq<ObjectNode>)
    ensures FindingsFrom(Print(worklist), 0) == AllListed(worklist)
    ensures ObjectTags(Print(worklist)) == |worklist|
  {
    FindingsAreRead(Print(worklist), 0);
    assert Print(worklist)[0..] == Print(worklist);
    ReadWorklist(NO_OBJECT, worklist);
    CountObjects(worklist);
  }

  lemma {:induction false} ObjectTagsAppend(a: seq<Tag>, b: seq<Tag>)
    ensures ObjectTags(a + b) == ObjectTags(a) + ObjectTags(b)
  {
    if |b| == 0 {
      assert a + b == a;
    } else {
      ObjectTagsAppend(a, b[..|b| - 1]);
      assert (a + b)[..|a + b| - 1] == a + b[..|b| - 1];
    }
  }

  lemma {:induction false} NoObjectsInFindings(nodes: seq<FindingNode>)
    ensures ObjectTags(PrintFindings(nodes)) == 0
  {
    if |nodes| != 0 {
      NoObjectsInFindings(nodes[1..]);
      ObjectTagsAppend(PrintFinding(nodes[0]), PrintFindings(nodes[1..]));
      ObjectTagsAppend([FindingTag(nodes[0].raw)], if nodes[0].quickfix.Some? then [QuickfixesTag(nodes[0].quickfix.value)] else []);
    }
  }

  lemma {:induction false} CountObjects(worklist: seq<ObjectNode>)
    ensures ObjectTags(Print(worklist)) == |worklist|
  {
    if |worklist| != 0 {
      CountObjects(worklist[1..]);
      NoObjectsInFindings(worklist[0].findings);
      ObjectTagsAppend([ObjectTag(worklist[0].object_)] + PrintFindings(worklist[0].findings), Print(worklist[1..]));
      ObjectTagsAppend([ObjectTag(worklist[0].object_)], PrintFindings(worklist[0].findings));
    }
  }

  // ---------- The summary by check ----------

  datatype CheckInfo = CheckInfo(count: nat, priority: int, atWorst: nat)

  function OfCheck(title: string): Finding -> bool {
    (f: Finding) => f.raw.checkTitle == title
  }

  function AtPriority(title: string, priority: int): Finding -> bool {
    (f: Finding) => f.raw.checkTitle == title && f.raw.priority == priority
  }

  /** The entry says how many findings the check has, the most severe priority among them, and how many have that priority. */
  ghost predicate Summarises(findings: seq<Finding>, title: string, info: CheckInfo) {
    && info.count == |Filter(OfCheck(title), findings)| > 0
    && (forall f :: f in findings && f.raw.checkTitle == title ==> info.priority <= f.raw.priority)
    && info.atWorst == |Filter(AtPriority(title, info.priority), findings)| > 0
  }

  lemma {:induction false} NoFindingAtPriority(findings: seq<Finding>, title: string, priority: int)
    requires forall f :: f in findings && f.raw.checkTitle == title ==> f.raw.priority != priority
    ensures Filter(AtPriority(title, priority), findings) == []
  {
    if |findings| != 0 {
      assert findings == [findings[0]] + findings[1..];
      NoFindingAtPriority(findings[1..], title, priority);
    }
  }

  lemma NoneOf(findings: seq<Finding>, title: string)
    requires Filter(OfCheck(title), findings) == []
    ensures forall f :: f in findings ==> f.raw.checkTitle != title
  {
    FilterMembers(OfCheck(title), findings);
  }

  method SummariseChecks(findings: seq<Finding>) returns (byCheck: map<string, CheckInfo>)
    ensures forall title :: title in byCheck <==> Filter(OfCheck(title), findings) != []
    ensures forall title :: title in byCheck ==> Summarises(findings, title, byCheck[title])
  {
    byCheck := map[];
    assert forall title :: Filter(OfCheck(title), findings[..0]) == [];
    hide Summarises, Filter;
    var i := 0;
    while i < |findings|
      invariant 0 <= i <= |findings|
      invariant forall title :: title in byCheck <==> Filter(OfCheck(title), findings[..i]) != []
      invariant forall title :: title in byCheck ==> Summarises(findings[..i], title, byCheck[title])
    {
      var finding := findings[i];
      var title := finding.raw.checkTitle;
      ghost var before := byCheck;
      assert findings[..i] + [finding] == findings[..i + 1];
      var check := if title in byCheck then byCheck[title] else CheckInfo(0, finding.raw.priority, 0);
      check := check.(count := check.count + 1);
      if finding.raw.priority < check.priority {
        check := check.(priority := finding.raw.priority, atWorst := 1);
      } else if finding.raw.priority == check.priority {
        check := check.(atWorst := check.atWorst + 1);
      }
      byCheck := byCheck[title := check];
      forall t ensures t in byCheck <==> Filter(OfCheck(t), findings[..i + 1]) != []
        ensures t in byCheck ==> Summarises(findings[..i + 1], t, byCheck[t])
      {
        AddFinding(findings[..i], finding, t, if t in before then Some(before[t]) else None);
        if t == title {
          CountedMeansPresent(findings[..i + 1], t, check);
        }
      }
      i := i + 1;
    }
    assert findings[..|findings|] == findings;
  }

  lemma CountedMeansPresent(findings: seq<Finding>, title: string, info: CheckInfo)
    requires Summarises(findings, title, info)
    ensures Filter(OfCheck(title), findings) != []
  {
  }

  /** How one more finding changes the entry of a check. */
  lemma AddFinding(findings: seq<Finding>, finding: Finding, title: string, old_: Option<CheckInfo>)
    requires old_.Some? <==> Filter(OfCheck(title), findings) != []
    requires old_.Some? ==> Summarises(findings, title, old_.value)
    ensures finding.raw.checkTitle != title ==>
              && (old_.Some? <==> Filter(OfCheck(title), findings + [finding]) != [])
              && (old_.Some? ==> Summarises(findings + [finding], title, old_.value))
    ensures finding.raw.checkTitle == title ==>
              var p := finding.raw.priority;
              Summarises(findings + [finding], title,
                if old_.None? then CheckInfo(1, p, 1)
                else if p < old_.value.priority then CheckInfo(old_.value.count + 1, p, 1)
                else CheckInfo(old_.value.count + 1, old_.value.priority, old_.value.atWorst + if p == old_.value.priority then 1 else 0))
  {
    FilterAppend(OfCheck(title), findings, [finding]);
    var p := finding.raw.priority;
    if old_.None? {
      NoneOf(findings, title);
      NoFindingAtPriority(findings, title, p);
      FilterAppend(AtPriority(title, p), findings, [finding]);
    } else {
      FilterAppend(AtPriority(title, old_.value.priority), findings, [finding]);
      if finding.raw.checkTitle == title && p < old_.value.priority {
        NoFindingAtPriority(findings, title, p);
        FilterAppend(AtPriority(title, p), findings, [finding]);
      }
    }
  }
}
