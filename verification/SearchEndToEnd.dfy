/** The whole search, from the packages listed to the hits (src/lib/search-source): enumeration, reading and scanning put
    together. */
module SearchEndToEnd {
  import opened Sequences
  import opened Order
  import opened LineScanner
  import opened SearchSource
  import opened SearchOutcome
  import opened PackageEnumerator
  import SourceReader

  ghost function UnitsBy(reader: SourceReader.Reader): Target -> seq<SourceUnit> {
    (t: Target) => SourceReader.UnitsOf(reader, t)
  }

  /** The job that a search makes of the items listed. */
  ghost function SearchJob(env: Environment, reader: SourceReader.Reader, wanted: EnumerateInput, items: seq<Item>, input: SearchInput): Job {
    JobOf(input, KeptTargets(input, Enumerated(env, wanted, items)), UnitsBy(reader))
  }

  /** The hit names a line of the unit that the search asks for. */
  ghost predicate NamesLine(scan: ScanInput, t: Target, u: SourceUnit, h: SearchHit) {
    && h.target == t && h.includeName == u.includeName
    && 1 <= h.line <= |u.lines| && AskedFor(scan, u.lines[h.line - 1]) && CutAt255(u.lines[h.line - 1], h.snippet)
  }

  /** The hit names such a line of a unit of the target. */
  ghost predicate IsLineHit(scan: ScanInput, reader: SourceReader.Reader, t: Target, h: SearchHit) {
    exists u :: u in SourceReader.UnitsOf(reader, t) && NamesLine(scan, t, u, h)
  }

  lemma HitExactly(scan: ScanInput, lines: seq<string>, hit: ScanHit)
    ensures hit in AllHits(scan, lines)
            <==> 1 <= hit.line <= |lines| && AskedFor(scan, lines[hit.line - 1]) && CutAt255(lines[hit.line - 1], hit.snippet)
  {
    AllHitsExact(scan, lines);
  }

  lemma HitsNameLines(scan: ScanInput, t: Target, u: SourceUnit, h: SearchHit)
    ensures h in Map(ToHit(t, u.includeName), AllHits(scan, u.lines)) <==> NamesLine(scan, t, u, h)
  {
    var hits, f, hit := AllHits(scan, u.lines), ToHit(t, u.includeName), ScanHit(h.line, h.snippet);
    HitExactly(scan, u.lines, hit);
    hide AllHits, AskedFor, CutAt255;
    if NamesLine(scan, t, u, h) {
      var k :| 0 <= k < |hits| && hits[k] == hit;
      assert Map(f, hits)[k] == h;
    }
    if k :| 0 <= k < |hits| && Map(f, hits)[k] == h {
      assert f(hits[k]) == h && hits[k] == hit;
    }
  }

  lemma UnitHitsExact(job: Job, i: nat, j: nat, h: SearchHit)
    requires i < |job.targets| == |job.units| && j < |job.units[i]|
    ensures h in UnitHits(job, i)[j] <==> NamesLine(job.scan, job.targets[i], job.units[i][j], h)
  {
    HitsNameLines(job.scan, job.targets[i], job.units[i][j], h);
    hide AllHits, NamesLine, Map;
  }

  lemma MatchesExact(job: Job, reader: SourceReader.Reader, i: nat, h: SearchHit)
    requires i < |job.targets| == |job.units| && job.units[i] == SourceReader.UnitsOf(reader, job.targets[i])
    ensures h in TargetMatches(job, i) <==> IsLineHit(job.scan, reader, job.targets[i], h)
  {
    FlattenMembers(UnitHits(job, i), h);
    hide UnitHits, SourceReader.UnitsOf, NamesLine, Flatten;
    if h in TargetMatches(job, i) {
      var j :| 0 <= j < |job.units[i]| && h in UnitHits(job, i)[j];
      UnitHitsExact(job, i, j, h);
      assert job.units[i][j] in job.units[i];
    }
    if IsLineHit(job.scan, reader, job.targets[i], h) {
      var u :| u in job.units[i] && NamesLine(job.scan, job.targets[i], u, h);
      var j :| 0 <= j < |job.units[i]| && job.units[i][j] == u;
      UnitHitsExact(job, i, j, h);
    }
  }

  /** A search that no limit cuts short (all three flags are down) returns, sorted and each once, exactly the hit lines of the
      units of the wanted objects, provided that no two of these share a key. */
  lemma FindsExactlyTheMatches(env: Environment, reader: SourceReader.Reader, wanted: EnumerateInput, items: seq<Item>,
                               input: SearchInput, order: seq<nat>, r: SearchResult, h: SearchHit)
    requires FullOutcome(SearchJob(env, reader, wanted, items, input), order, r)
    requires !r.byObjectCap && |Enumerated(env, wanted, items)| <= match input.maxObjects case Some(n) => n case None => 500
    requires forall a, b :: DenotedByOne(env, wanted, items, a) && DenotedByOne(env, wanted, items, b) && Key(a) == Key(b) ==> a == b
    ensures Sorted(HitsInOrder, r.results)
    ensures multiset(r.results) == multiset(Flatten(AllTargetMatches(SearchJob(env, reader, wanted, items, input))))
    ensures h in r.results
            <==> DenotedByOne(env, wanted, items, h.target) && IsLineHit(input.scan, reader, h.target, h)
  {
    var job := SearchJob(env, reader, wanted, items, input);
    CapFlagIsHonest(job, order, r);
    EnumeratesTheWanted(env, wanted, items);
    assert job.targets == Enumerated(env, wanted, items) && job.scan == input.scan;
    InResults(job, reader, r.results, h);
  }

  lemma InResults(job: Job, reader: SourceReader.Reader, results: seq<SearchHit>, h: SearchHit)
    requires |job.targets| == |job.units| && multiset(results) == multiset(Flatten(AllTargetMatches(job)))
    requires forall i :: 0 <= i < |job.targets| ==> job.units[i] == SourceReader.UnitsOf(reader, job.targets[i])
    ensures h in results <==> h.target in job.targets && IsLineHit(job.scan, reader, h.target, h)
  {
    var all := AllTargetMatches(job);
    FlattenMembers(all, h);
    assert h in results <==> h in multiset(results);
    assert h in Flatten(all) <==> h in multiset(Flatten(all));
    hide Flatten, TargetMatches, SourceReader.UnitsOf;
    if i :| 0 <= i < |all| && h in all[i] {
      MatchesExact(job, reader, i, h);
      OfTarget(job, reader, i, h);
    }
    if h.target in job.targets && IsLineHit(job.scan, reader, h.target, h) {
      var i :| 0 <= i < |job.targets| && job.targets[i] == h.target;
      MatchesExact(job, reader, i, h);
      assert h in all[i];
    }
  }

  lemma OfTarget(job: Job, reader: SourceReader.Reader, i: nat, h: SearchHit)
    requires i < |job.targets| && IsLineHit(job.scan, reader, job.targets[i], h)
    ensures h.target == job.targets[i]
  {
  }
}
