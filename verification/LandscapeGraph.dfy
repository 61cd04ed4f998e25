/** What the include graph says about the files read and the services merged (src/lib/landscape/landscapeReader.ts). */
module LandscapeGraph {
  import opened Sequences
  import opened Landscape

  /** Different readable files, each including the next, starting at the root. */
  ghost predicate IsChain(world: World, root: Path, chain: seq<Path>) {
    && |chain| > 0 && chain[0] == root && NoDuplicates(chain)
    && (forall k :: 0 <= k < |chain| ==> Readable(world, chain[k]))
    && (forall k :: 0 <= k < |chain| - 1 ==> Includes(world, chain[k], chain[k + 1]))
  }

  /** The files being parsed: a chain down to the file at hand, all of them visited. */
  ghost predicate OnStack(world: World, stack: seq<Path>, depth: nat, visited: set<Path>) {
    && |stack| == depth + 1 && depth <= DEPTH_LIMIT
    && IsChain(world, stack[0], stack) && forall f :: f in stack ==> f in visited
  }

  /** Whatever is cut off at the depth limit, though readable, is the end of a long chain. */
  ghost predicate CutsAreDeep(world: World, root: Path, warnings: seq<Warning>) {
    forall q :: DepthLimit(q) in warnings && Readable(world, q) ==>
                  exists chain :: IsChain(world, root, chain) && |chain| == DEPTH_LIMIT + 2
  }

  ghost predicate Near(world: World, top: Path, depth: nat, f: Path) {
    exists n: nat :: n <= DepthLeft(depth) && ReachedBy(world, top, f, n)
  }

  /** An earlier file of the list includes the one at k. */
  ghost predicate LedTo(world: World, files: seq<Path>, k: nat)
    requires k < |files|
  {
    exists j :: 0 <= j < k && Includes(world, files[j], files[k])
  }

  /** A chain of at most six files that ends in f. */
  ghost predicate IsWay(world: World, root: Path, f: Path, way: seq<Path>) {
    IsChain(world, root, way) && |way| <= DEPTH_LIMIT + 1 && way[|way| - 1] == f
  }

  /** The file at k was read along a chain of files that were being parsed or had been read before. */
  ghost predicate ReadAlong(world: World, stack: seq<Path>, files: seq<Path>, k: nat)
    requires |stack| > 0 && k < |files|
  {
    exists way :: IsWay(world, stack[0], files[k], way) && forall f :: f in way ==> f in stack || f in files[..k + 1]
  }

  ghost predicate GraphOk(world: World, stack: seq<Path>, depth: nat, data: Data) {
    && |stack| == depth + 1 && |data.filesRead| > 0 && data.filesRead[0] == stack[depth]
    && CutsAreDeep(world, stack[0], data.warnings)
    && (forall f :: f in data.filesRead ==> Near(world, stack[depth], depth, f))
    && (forall k :: 1 <= k < |data.filesRead| ==> LedTo(world, data.filesRead, k))
    && (forall k :: 0 <= k < |data.filesRead| ==> ReadAlong(world, stack, data.filesRead, k))
  }

  lemma ParseGraph(world: World, stack: seq<Path>, depth: nat, visited: set<Path>)
    requires |stack| == depth + 1
    requires var path := stack[depth]; Readable(world, path) && OnStack(world, stack, depth, visited + {path})
    ensures var path := stack[depth];
            var (after, data) := Parse(world, path, world[path], depth, visited);
            visited + {path} <= after && data.Some? && GraphOk(world, stack, depth, data.value)
    decreases DepthLeft(depth), 1, 0
  {
    var path := stack[depth];
    StartGraph(world, stack, depth, visited + {path});
    hide GraphOk, Follow, StartData;
    FollowGraph(world, stack, world[path].includes, depth, visited + {path}, StartData(path, world[path]));
  }

  lemma StartGraph(world: World, stack: seq<Path>, depth: nat, visited: set<Path>)
    requires OnStack(world, stack, depth, visited)
    ensures var path := stack[depth]; Readable(world, path) && GraphOk(world, stack, depth, StartData(path, world[path]))
  {
    var path := stack[depth];
    NoDepthWarnings(world[path].services);
    assert ReachedBy(world, path, path, 0);
    assert IsWay(world, stack[0], path, stack);
  }

  lemma {:induction false} FollowGraph(world: World, stack: seq<Path>, includes: seq<IncludeRef>, depth: nat, visited: set<Path>, data: Data)
    requires OnStack(world, stack, depth, visited) && GraphOk(world, stack, depth, data)
    requires forall inc :: inc in includes ==> inc in world[stack[depth]].includes
    ensures var (after, next) := Follow(world, includes, depth, visited, data);
            visited <= after && GraphOk(world, stack, depth, next)
    decreases DepthLeft(depth), 0, |includes|
  {
    hide GraphOk, FollowOne;
    if |includes| > 0 {
      assert includes[0] in includes && forall inc :: inc in includes[1..] ==> inc in includes;
      var (after, next) := FollowOne(world, includes, depth, visited, data);
      FollowOneGraph(world, stack, includes, depth, visited, data);
      FollowGraph(world, stack, includes[1..], depth, after, next);
    }
  }

  lemma {:induction false} FollowOneGraph(world: World, stack: seq<Path>, includes: seq<IncludeRef>, depth: nat, visited: set<Path>, data: Data)
    requires OnStack(world, stack, depth, visited) && GraphOk(world, stack, depth, data)
    requires |includes| > 0 && includes[0] in world[stack[depth]].includes
    ensures var (after, next) := FollowOne(world, includes, depth, visited, data);
            visited <= after && GraphOk(world, stack, depth, next)
    decreases DepthLeft(depth), 0, |includes|, 0
  {
    assert Readable(world, stack[depth]);
    hide GraphOk, IsChain;
    match includes[0] {
      case NoUrl =>
      case Remote(url) => SameGraph(world, stack, depth, data, data.(unresolved := data.unresolved + [url]));
      case Local(q) =>
        if q in visited {
        } else if depth >= DEPTH_LIMIT {
          CutGraph(world, stack, depth, visited, data, q);
        } else if q !in world {
          WarnGraph(world, stack, depth, data, NotFound(q));
        } else if world[q].Unreadable? || world[q].Malformed? {
          WarnGraph(world, stack, depth, data, Failed(q));
        } else {
          var (after, child) := Parse(world, q, world[q], depth + 1, visited);
          PushChain(world, stack, depth, visited, q);
          ParseGraph(world, stack + [q], depth + 1, visited);
          MergeGraph(world, stack, depth, data, q, child.value);
        }
    }
  }

  lemma SameGraph(world: World, stack: seq<Path>, depth: nat, data: Data, data': Data)
    requires GraphOk(world, stack, depth, data) && data'.filesRead == data.filesRead && data'.warnings == data.warnings
    ensures GraphOk(world, stack, depth, data')
  {
  }

  lemma WarnGraph(world: World, stack: seq<Path>, depth: nat, data: Data, w: Warning)
    requires GraphOk(world, stack, depth, data)
    requires w.DepthLimit? && Readable(world, w.path) ==> exists chain :: IsChain(world, stack[0], chain) && |chain| == DEPTH_LIMIT + 2
    ensures GraphOk(world, stack, depth, Warn(data, w))
  {
    hide IsChain;
  }

  /** The files being parsed and a readable file they include, not visited yet, make a longer chain. */
  lemma PushChain(world: World, stack: seq<Path>, depth: nat, visited: set<Path>, q: Path)
    requires OnStack(world, stack, depth, visited) && q !in visited && Local(q) in world[stack[depth]].includes && Readable(world, q)
    ensures IsChain(world, stack[0], stack + [q])
    ensures depth < DEPTH_LIMIT ==> OnStack(world, stack + [q], depth + 1, visited + {q})
  {
    var longer := stack + [q];
    assert q !in stack;
    forall k | 0 <= k < |longer| - 1 ensures Includes(world, longer[k], longer[k + 1]) {
      if k == depth {
        assert longer[k] == stack[depth] && longer[k + 1] == q;
      }
    }
  }

  lemma CutGraph(world: World, stack: seq<Path>, depth: nat, visited: set<Path>, data: Data, q: Path)
    requires OnStack(world, stack, depth, visited) && GraphOk(world, stack, depth, data)
    requires depth >= DEPTH_LIMIT && q !in visited && Local(q) in world[stack[depth]].includes
    ensures GraphOk(world, stack, depth, Warn(data, DepthLimit(q)))
  {
    if Readable(world, q) {
      PushChain(world, stack, depth, visited, q);
      assert IsChain(world, stack[0], stack + [q]) && |stack + [q]| == DEPTH_LIMIT + 2;
    }
    hide GraphOk, IsChain;
    WarnGraph(world, stack, depth, data, DepthLimit(q));
  }

  lemma MergeGraph(world: World, stack: seq<Path>, depth: nat, data: Data, q: Path, child: Data)
    requires GraphOk(world, stack, depth, data) && GraphOk(world, stack + [q], depth + 1, child)
    requires depth < DEPTH_LIMIT && Readable(world, stack[depth]) && Includes(world, stack[depth], q)
    ensures GraphOk(world, stack, depth, Merge(data, child))
  {
    hide IsChain, ReachedBy, IsWay;
    var files := data.filesRead + child.filesRead;
    forall f | f in files ensures Near(world, stack[depth], depth, f) {
      if f in child.filesRead {
        var n: nat :| n <= DepthLeft(depth + 1) && ReachedBy(world, q, f, n);
        ReachedByThrough(world, stack[depth], q, f, n);
      }
    }
    forall k | 1 <= k < |files| ensures LedTo(world, files, k) {
      MergeLedTo(world, data.filesRead, child.filesRead, k);
    }
    forall k | 0 <= k < |files| ensures ReadAlong(world, stack, files, k) {
      MergeReadAlong(world, stack, data.filesRead, q, child.filesRead, k);
    }
  }

  lemma MergeReadAlong(world: World, stack: seq<Path>, a: seq<Path>, q: Path, b: seq<Path>, k: nat)
    requires |stack| > 0 && |b| > 0 && b[0] == q && k < |a + b|
    requires forall i :: 0 <= i < |a| ==> ReadAlong(world, stack, a, i)
    requires forall i :: 0 <= i < |b| ==> ReadAlong(world, stack + [q], b, i)
    ensures ReadAlong(world, stack, a + b, k)
  {
    hide IsWay;
    var files := a + b;
    if k < |a| {
      assert ReadAlong(world, stack, a, k) && files[..k + 1] == a[..k + 1];
    } else {
      var i := k - |a|;
      assert ReadAlong(world, stack + [q], b, i);
      var way :| IsWay(world, stack[0], b[i], way) && forall f :: f in way ==> f in stack + [q] || f in b[..i + 1];
      assert files[..k + 1] == a + b[..i + 1] && b[..i + 1][0] == q;
      assert IsWay(world, stack[0], files[k], way);
    }
  }

  lemma MergeLedTo(world: World, a: seq<Path>, b: seq<Path>, k: nat)
    requires |a| > 0 && |b| > 0 && Includes(world, a[0], b[0]) && 1 <= k < |a + b|
    requires forall i :: 1 <= i < |a| ==> LedTo(world, a, i)
    requires forall i :: 1 <= i < |b| ==> LedTo(world, b, i)
    ensures LedTo(world, a + b, k)
  {
    var files := a + b;
    if k < |a| {
      assert LedTo(world, a, k);
      var j :| 0 <= j < k && Includes(world, a[j], a[k]);
      assert Includes(world, files[j], files[k]);
    } else if k == |a| {
      assert Includes(world, files[0], files[k]);
    } else {
      assert LedTo(world, b, k - |a|);
      var j :| 0 <= j < k - |a| && Includes(world, b[j], b[k - |a|]);
      assert Includes(world, files[|a| + j], files[k]);
    }
  }

  lemma ReadGraph(world: World, root: Path)
    requires Readable(world, root)
    ensures GraphOk(world, [root], 0, Read(world, root).1)
  {
    assert IsChain(world, root, [root]);
    ParseGraph(world, [root], 0, {});
    assert {} + {root} == {root};
  }

  // ---------- Which files are read ----------

  /** Only files at most five includes away are read. */
  lemma ReadIsNear(world: World, root: Path, f: Path)
    requires Readable(world, root) && f in Read(world, root).1.filesRead
    ensures exists n: nat :: n <= DEPTH_LIMIT && ReachedBy(world, root, f, n)
  {
    ReadGraph(world, root);
  }

  /** If no chain of different readable files from the root has more than six files, the files read are exactly those reachable. */
  lemma ShortChainsComplete(world: World, root: Path)
    requires Readable(world, root)
    requires forall chain :: IsChain(world, root, chain) ==> |chain| <= DEPTH_LIMIT + 1
    ensures forall f :: f in Read(world, root).1.filesRead <==> Reached(world, root, f)
  {
    ReadGraph(world, root);
    ReadsExactlyTheReachable(world, root);
  }

  // ---------- Whose definition is merged ----------

  /** Every file but the root is read after a file that includes it. */
  lemma ReadAfterIncluder(world: World, root: Path, k: nat)
    requires Readable(world, root) && 1 <= k < |Read(world, root).1.filesRead|
    ensures LedTo(world, Read(world, root).1.filesRead, k)
  {
    ReadGraph(world, root);
  }

  ghost predicate Defines(world: World, f: Path, uuid: string) {
    Readable(world, f) && uuid in OwnServices(world[f].services)
  }

  lemma {:induction false} FirstOfFiles(world: World, files: seq<Path>, uuid: string, k: nat)
    requires k < |files| && Defines(world, files[k], uuid) && forall j :: 0 <= j < k ==> !Defines(world, files[j], uuid)
    ensures FirstDefinition(world, files, uuid) == Some(OwnServices(world[files[k]].services)[uuid])
  {
    if k > 0 {
      assert !Defines(world, files[0], uuid);
      FirstOfFiles(world, files[1..], uuid, k - 1);
    }
  }

  /** Of two files that define a service, alone among those read, the one read earlier gives it, whichever includes the other. */
  lemma EarlierWins(world: World, root: Path, uuid: string, i: nat, j: nat)
    requires Readable(world, root)
    requires var files := Read(world, root).1.filesRead;
             && i < |files| && j < |files| && i != j && Defines(world, files[i], uuid) && Defines(world, files[j], uuid)
             && OwnServices(world[files[i]].services)[uuid] != OwnServices(world[files[j]].services)[uuid]
             && forall k :: 0 <= k < |files| && Defines(world, files[k], uuid) ==> k == i || k == j
    ensures var (_, data) := Read(world, root);
            uuid in data.services
            && (data.services[uuid] == OwnServices(world[data.filesRead[i]].services)[uuid] <==> i < j)
  {
    var files := Read(world, root).1.filesRead;
    MergePrecedence(world, root, uuid);
    hide Read;
    FirstOfFiles(world, files, uuid, if i < j then i else j);
  }

  // ---------- Two landscapes ----------

  /** A file with includes and nothing else. */
  function Plain(includes: seq<IncludeRef>): FileState {
    WellFormed([], [], includes)
  }

  /** The files and the visited set after parsing a file that includes just q, which is not visited yet. */
  lemma ParseLink(world: World, path: Path, q: Path, depth: nat, visited: set<Path>)
    requires path in world && world[path] == Plain([Local(q)]) && Readable(world, q)
    requires depth < DEPTH_LIMIT && q != path && q !in visited
    ensures var (after, data) := Parse(world, path, world[path], depth, visited);
            var (after', child) := Parse(world, q, world[q], depth + 1, visited + {path});
            after == after' && data.Some? && child.Some? && data.value.filesRead == [path] + child.value.filesRead
  {
    FollowLast(world, [Local(q)], depth, visited + {path}, StartData(path, world[path]));
  }

  lemma ParseLeaf(world: World, path: Path, depth: nat, visited: set<Path>)
    requires Readable(world, path) && world[path].includes == []
    ensures Parse(world, path, world[path], depth, visited) == (visited + {path}, Some(StartData(path, world[path])))
  {
  }

  lemma FollowLast(world: World, includes: seq<IncludeRef>, depth: nat, visited: set<Path>, data: Data)
    requires |includes| == 1
    ensures Follow(world, includes, depth, visited, data) == FollowOne(world, includes, depth, visited, data)
  {
    var (after, next) := FollowOne(world, includes, depth, visited, data);
    assert Follow(world, includes[1..], depth, after, next) == (after, next);
  }

  /** At the depth limit an include that is not visited is cut off. */
  lemma ParseCut(world: World, path: Path, q: Path, depth: nat, visited: set<Path>)
    requires path in world && world[path] == Plain([Local(q)]) && depth >= DEPTH_LIMIT
    ensures var (after, data) := Parse(world, path, world[path], depth, visited);
            after == visited + {path} && data.Some? && data.value.filesRead == [path]
  {
    FollowLast(world, [Local(q)], depth, visited + {path}, StartData(path, world[path]));
  }

  /** The root r includes a and e, and each of a, b, c, d, e includes the next, e including x. */
  ghost predicate Detour(world: World, r: Path, a: Path, b: Path, c: Path, d: Path, e: Path, x: Path) {
    && NoDuplicates([r, a, b, c, d, e, x]) && {r, a, b, c, d, e, x} <= world.Keys
    && world[r] == Plain([Local(a), Local(e)]) && world[a] == Plain([Local(b)]) && world[b] == Plain([Local(c)])
    && world[c] == Plain([Local(d)]) && world[d] == Plain([Local(e)]) && world[e] == Plain([Local(x)]) && world[x] == Plain([])
  }

  lemma DetourFilesDiffer(r: Path, a: Path, b: Path, c: Path, d: Path, e: Path, x: Path)
    requires NoDuplicates([r, a, b, c, d, e, x])
    ensures a !in {r} && b !in {r, a} && c !in {r, a, b} && d !in {r, a, b, c} && e !in {r, a, b, c, d} && x !in {r, a, b, c, d, e}
  {
    var all := [r, a, b, c, d, e, x];
    assert all[0] == r && all[1] == a && all[2] == b && all[3] == c && all[4] == d && all[5] == e && all[6] == x;
  }

  lemma DetourTail(world: World, r: Path, a: Path, b: Path, c: Path, d: Path, e: Path, x: Path)
    requires Detour(world, r, a, b, c, d, e, x)
    ensures var (after, data) := Parse(world, c, world[c], 3, {r, a, b});
            after == {r, a, b, c, d, e} && data.Some? && data.value.filesRead == [c, d, e]
  {
    DetourFilesDiffer(r, a, b, c, d, e, x);
    hide Parse, NoDuplicates;
    assert {r, a, b} + {c} == {r, a, b, c} && {r, a, b, c} + {d} == {r, a, b, c, d};
    ParseLink(world, c, d, 3, {r, a, b});
    ParseLink(world, d, e, 4, {r, a, b, c});
    ParseCut(world, e, x, 5, {r, a, b, c, d});
  }

  lemma DetourBranch(world: World, r: Path, a: Path, b: Path, c: Path, d: Path, e: Path, x: Path)
    requires Detour(world, r, a, b, c, d, e, x)
    ensures var (after, data) := Parse(world, a, world[a], 1, {r});
            after == {r, a, b, c, d, e} && data.Some? && data.value.filesRead == [a, b, c, d, e]
  {
    DetourFilesDiffer(r, a, b, c, d, e, x);
    hide Parse, NoDuplicates;
    assert {r} + {a} == {r, a} && {r, a} + {b} == {r, a, b};
    ParseLink(world, a, b, 1, {r});
    ParseLink(world, b, c, 2, {r, a});
    DetourTail(world, r, a, b, c, d, e, x);
  }

  /** A file met first over a long way is lost behind it, however near it is: x is two includes from the root, and is never read. */
  lemma NearFileLost(world: World, r: Path, a: Path, b: Path, c: Path, d: Path, e: Path, x: Path)
    requires Detour(world, r, a, b, c, d, e, x)
    ensures Readable(world, r) && ReachedBy(world, r, x, 2) && Read(world, r).1.filesRead == [r, a, b, c, d, e]
    ensures x !in Read(world, r).1.filesRead
  {
    DetourFilesDiffer(r, a, b, c, d, e, x);
    DetourBranch(world, r, a, b, c, d, e, x);
    assert ReachedBy(world, r, r, 0);
    assert Includes(world, r, e) && ReachedBy(world, r, e, 1);
    assert Includes(world, e, x) && ReachedBy(world, r, x, 2);
    hide Parse, ReachedBy, NoDuplicates;
    var includes, start := [Local(a), Local(e)], StartData(r, world[r]);
    var (after, next) := FollowOne(world, includes, 0, {r}, start);
    assert after == {r, a, b, c, d, e} && next.filesRead == [r, a, b, c, d, e];
    assert includes[1..] == [Local(e)];
    FollowLast(world, includes[1..], 0, after, next);
    assert Follow(world, includes, 0, {r}, start) == Follow(world, includes[1..], 0, after, next);
  }

  lemma DetourExists()
    ensures exists world: World :: Detour(world, "r", "a", "b", "c", "d", "e", "x")
  {
    var all := ["r", "a", "b", "c", "d", "e", "x"];
    forall i, j | 0 <= i < j < |all| ensures all[i] != all[j] {
      assert all[i][0] != all[j][0];
    }
    var world := map["r" := Plain([Local("a"), Local("e")]), "a" := Plain([Local("b")]), "b" := Plain([Local("c")]),
                     "c" := Plain([Local("d")]), "d" := Plain([Local("e")]), "e" := Plain([Local("x")]), "x" := Plain([])];
    assert "r"[0] != "a"[0];
    assert Detour(world, "r", "a", "b", "c", "d", "e", "x");
  }

  /** The root includes b and then c, which includes b as well; both define a service. */
  function SharedInclude(root: Path, b: Path, c: Path, ofB: Service, ofC: Service): World {
    map[root := Plain([Local(b), Local(c)]), b := WellFormed([ofB], [], []), c := WellFormed([ofC], [], [Local(b)])]
  }

  /** An included file can beat its includer, when it was read before. */
  lemma IncluderBeaten(root: Path, b: Path, c: Path, ofB: Service, ofC: Service)
    requires root != b && root != c && b != c
    requires ofB.uuid == ofC.uuid != "" && ofB.kind == ofC.kind == "SAPGUI"
    ensures var world := SharedInclude(root, b, c, ofB, ofC);
            && Readable(world, root) && Includes(world, c, b)
            && Read(world, root).1.filesRead == [root, b, c]
            && ofB.uuid in Read(world, root).1.services && Read(world, root).1.services[ofB.uuid] == ofB
  {
    var world := SharedInclude(root, b, c, ofB, ofC);
    SharedFiles(root, b, c, ofB, ofC);
    OwnOne(ofB);
    assert Local(b) in world[c].includes;
    MergePrecedence(world, root, ofB.uuid);
    hide Read;
    assert !Defines(world, root, ofB.uuid);
    FirstOfFiles(world, [root, b, c], ofB.uuid, 1);
  }

  lemma OwnOne(s: Service)
    requires s.uuid != "" && s.kind == "SAPGUI"
    ensures OwnServices([s]) == map[s.uuid := s]
  {
    assert [s][..0] == [];
  }

  lemma SharedFiles(root: Path, b: Path, c: Path, ofB: Service, ofC: Service)
    requires root != b && root != c && b != c
    ensures var world := SharedInclude(root, b, c, ofB, ofC);
            Readable(world, root) && Read(world, root).1.filesRead == [root, b, c]
  {
    var world := SharedInclude(root, b, c, ofB, ofC);
    hide OwnServices, TypeWarnings;
    var includes, start := [Local(b), Local(c)], StartData(root, world[root]);
    ParseLeaf(world, b, 1, {root});
    var (v, withB) := FollowOne(world, includes, 0, {root}, start);
    assert v == {root, b} && withB.filesRead == [root, b];
    var last := includes[1..];
    assert last == [Local(c)];
    FollowLast(world, [Local(b)], 1, v + {c}, StartData(c, world[c]));
    FollowLast(world, last, 0, v, withB);
    assert Follow(world, includes, 0, {root}, start) == Follow(world, last, 0, v, withB);
  }
}
