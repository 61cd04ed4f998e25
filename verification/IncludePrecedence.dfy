/** When an including file's service definitions beat those of a file it leads to, for every order of the includes
    (src/lib/landscape/landscapeReader.ts). */
module IncludePrecedence {
  import opened Sequences
  import opened Landscape
  import opened LandscapeGraph

  /** Every chain of at most six files from the root to q passes g. */
  ghost predicate OnEveryWay(world: World, root: Path, g: Path, q: Path) {
    forall way :: IsWay(world, root, q, way) ==> g in way
  }

  ghost predicate Precedes(files: seq<Path>, g: Path, q: Path) {
    exists i, j :: 0 <= i < j < |files| && files[i] == g && files[j] == q
  }

  /** A file that is on every way to q is read before q. */
  lemma ReadBefore(world: World, root: Path, g: Path, q: Path)
    requires Readable(world, root) && g != q && OnEveryWay(world, root, g, q)
    ensures q in Read(world, root).1.filesRead ==> Precedes(Read(world, root).1.filesRead, g, q)
  {
    ReadGraph(world, root);
    var files := Read(world, root).1.filesRead;
    hide Read, IsWay;
    if k :| 0 <= k < |files| && files[k] == q {
      assert ReadAlong(world, [root], files, k);
      var way :| IsWay(world, root, q, way) && forall f :: f in way ==> f in [root] || f in files[..k + 1];
      assert g in way;
      assert files[0] == root && root in files[..k + 1];
      var i :| 0 <= i < |files[..k + 1]| && files[..k + 1][i] == g;
      assert i < k;
    }
  }

  /** The service as f defines it. */
  ghost function Own(world: World, f: Path, uuid: string): Option<Service> {
    if Defines(world, f, uuid) then Some(OwnServices(world[f].services)[uuid]) else None
  }

  function Merged(world: World, root: Path, uuid: string): Option<Service>
    requires Readable(world, root)
  {
    var services := Read(world, root).1.services;
    if uuid in services then Some(services[uuid]) else None
  }

  /** g and q, and no other file, define the service, in two ways. */
  ghost predicate TwoDefine(world: World, g: Path, q: Path, uuid: string) {
    && Own(world, g, uuid).Some? && Own(world, q, uuid).Some? && Own(world, g, uuid) != Own(world, q, uuid)
    && forall f :: f != g && f != q ==> Own(world, f, uuid).None?
  }

  lemma {:induction false} FirstOfTwo(world: World, files: seq<Path>, g: Path, q: Path, uuid: string)
    requires TwoDefine(world, g, q, uuid) && g in files && (q in files ==> Precedes(files, g, q)) && NoDuplicates(files)
    ensures FirstDefinition(world, files, uuid) == Own(world, g, uuid)
  {
    if files[0] != g {
      assert files[0] != q;
      assert Own(world, files[0], uuid).None?;
      if q in files[1..] {
        var i, j :| 0 <= i < j < |files| && files[i] == g && files[j] == q;
        assert files[1..][i - 1] == g && files[1..][j - 1] == q;
      }
      FirstOfTwo(world, files[1..], g, q, uuid);
    }
  }

  /** The includes with one of them moved to the front. */
  function Fronted(includes: seq<IncludeRef>, inc: IncludeRef): (moved: seq<IncludeRef>)
    ensures inc in includes ==> multiset(moved) == multiset(includes) && moved[0] == inc
  {
    if |includes| == 0 then []
    else if includes[0] == inc then includes
    else
      var rest := Fronted(includes[1..], inc);
      assert includes == [includes[0]] + includes[1..];
      if inc in includes[1..] then assert rest == [rest[0]] + rest[1..]; [rest[0], includes[0]] + rest[1..] else includes
  }

  /** Each file of the chain includes the next one first. */
  ghost predicate LeadsAlong(world: World, way: seq<Path>) {
    forall k :: 0 <= k < |way| - 1 ==>
      way[k] in world && world[way[k]].WellFormed? && |world[way[k]].includes| > 0 && world[way[k]].includes[0] == Local(way[k + 1])
  }

  /** The same files with the same services and includes, each file's includes in any order. */
  ghost predicate Reordered(world: World, other: World) {
    && other.Keys == world.Keys
    && forall f :: f in world ==> SameButOrder(world[f], other[f])
  }

  predicate SameButOrder(a: FileState, b: FileState) {
    if a.WellFormed? then b.WellFormed? && b == a.(includes := b.includes) && multiset(b.includes) == multiset(a.includes) else b == a
  }

  lemma ReorderedWays(world: World, other: World, root: Path, q: Path, way: seq<Path>)
    requires Reordered(world, other)
    ensures IsWay(world, root, q, way) <==> IsWay(other, root, q, way)
  {
    forall f, h ensures Readable(world, f) <==> Readable(other, f)
                ensures Includes(world, f, h) <==> Includes(other, f, h) {
      if f in world && world[f].WellFormed? {
        assert Local(h) in multiset(world[f].includes) <==> Local(h) in multiset(other[f].includes);
      }
    }
  }

  /** The world with the chain's includes moved to the front. */
  function Along(world: World, way: seq<Path>): World {
    map f | f in world :: FileAlong(world[f], NextOn(way, f))
  }

  function FileAlong(file: FileState, next: Option<Path>): FileState {
    if file.WellFormed? && next.Some? then file.(includes := Fronted(file.includes, Local(next.value))) else file
  }

  function NextOn(way: seq<Path>, f: Path): Option<Path> {
    if |way| <= 1 then None else if way[0] == f then Some(way[1]) else NextOn(way[1..], f)
  }

  lemma {:induction false} NextOnWay(way: seq<Path>, k: nat)
    requires NoDuplicates(way) && k < |way| - 1
    ensures NextOn(way, way[k]) == Some(way[k + 1])
  {
    if k > 0 {
      NextOnWay(way[1..], k - 1);
    }
  }

  lemma {:induction false} NextOnIs(way: seq<Path>, f: Path)
    ensures NextOn(way, f).Some? ==> exists k :: 0 <= k < |way| - 1 && way[k] == f && way[k + 1] == NextOn(way, f).value
  {
    if |way| > 1 && way[0] != f {
      NextOnIs(way[1..], f);
      if NextOn(way, f).Some? {
        var k :| 0 <= k < |way[1..]| - 1 && way[1..][k] == f && way[1..][k + 1] == NextOn(way, f).value;
        assert way[k + 1] == f && way[k + 2] == NextOn(way, f).value;
      }
    }
  }

  lemma AlongReorders(world: World, root: Path, way: seq<Path>)
    requires IsChain(world, root, way)
    ensures Reordered(world, Along(world, way)) && LeadsAlong(Along(world, way), way)
  {
    var other := Along(world, way);
    forall f | f in world ensures SameButOrder(world[f], other[f]) {
      NextOnIs(way, f);
      if NextOn(way, f).Some? {
        var k :| 0 <= k < |way| - 1 && way[k] == f && way[k + 1] == NextOn(way, f).value;
        assert Includes(world, way[k], way[k + 1]);
      }
    }
    forall k | 0 <= k < |way| - 1
      ensures way[k] in other && other[way[k]].WellFormed? && |other[way[k]].includes| > 0 && other[way[k]].includes[0] == Local(way[k + 1])
    {
      NextOnWay(way, k);
      assert Includes(world, way[k], way[k + 1]);
      var includes := world[way[k]].includes;
      assert |multiset(includes)| == |includes|;
      assert |multiset(other[way[k]].includes)| == |other[way[k]].includes|;
    }
  }

  /** Following further includes only adds to the files read. */
  lemma {:induction false} FollowAdds(world: World, includes: seq<IncludeRef>, depth: nat, visited: set<Path>, data: Data)
    ensures data.filesRead <= Follow(world, includes, depth, visited, data).1.filesRead
    decreases |includes|
  {
    if |includes| > 0 {
      hide Parse;
      var (after, next) := FollowOne(world, includes, depth, visited, data);
      FollowAdds(world, includes[1..], depth, after, next);
    }
  }

  /** Where each file of a chain includes the next one first, the chain is read first. */
  lemma {:induction false} ParseAlong(world: World, root: Path, way: seq<Path>, depth: nat, visited: set<Path>)
    requires IsChain(world, root, way) && |way| <= DEPTH_LIMIT + 1 && LeadsAlong(world, way)
    requires depth < |way| && forall k :: depth <= k < |way| ==> way[k] !in visited
    ensures var data := Parse(world, way[depth], world[way[depth]], depth, visited).1; data.Some? && way[depth..] <= data.value.filesRead
    decreases |way| - depth
  {
    var path := way[depth];
    assert Readable(world, path);
    var file, seen := world[path], visited + {path};
    var start := StartData(path, file);
    if depth == |way| - 1 {
      FollowAdds(world, file.includes, depth, seen, start);
      assert way[depth..] == [path];
    } else {
      var q := way[depth + 1];
      assert Readable(world, q);
      ParseAlong(world, root, way, depth + 1, seen);
      var (after, next) := FollowOne(world, file.includes, depth, seen, start);
      assert next.filesRead == [path] + Parse(world, q, world[q], depth + 1, seen).1.value.filesRead;
      assert way[depth..] == [path] + way[depth + 1..];
      FollowAdds(world, file.includes[1..], depth, after, next);
    }
  }

  lemma SameDefinitions(world: World, other: World, root: Path, g: Path, q: Path, uuid: string)
    requires Reordered(world, other) && Readable(world, root)
    ensures Readable(other, root) && forall f :: Own(other, f, uuid) == Own(world, f, uuid)
    ensures OnEveryWay(world, root, g, q) ==> OnEveryWay(other, root, g, q)
  {
    assert SameButOrder(world[root], other[root]);
    forall f ensures Own(other, f, uuid) == Own(world, f, uuid) {
      if f in world {
        assert SameButOrder(world[f], other[f]);
      }
    }
    forall way | OnEveryWay(world, root, g, q) && IsWay(other, root, q, way) ensures g in way {
      ReorderedWays(world, other, root, q, way);
    }
  }

  lemma WinsWhenOnEveryWay(world: World, root: Path, g: Path, q: Path, uuid: string)
    requires Readable(world, root) && TwoDefine(world, g, q, uuid) && OnEveryWay(world, root, g, q)
    requires q in Read(world, root).1.filesRead
    ensures Merged(world, root, uuid) == Own(world, g, uuid)
  {
    ReadBefore(world, root, g, q);
    ReadOnce(world, root);
    MergePrecedence(world, root, uuid);
    hide Read, OnEveryWay;
    FirstOfTwo(world, Read(world, root).1.filesRead, g, q, uuid);
  }

  /** If some way to q passes g by, the includes can be ordered so that q is read along it, and its definition is merged. */
  lemma LosesAlong(world: World, root: Path, g: Path, q: Path, uuid: string, way: seq<Path>)
    requires Readable(world, root) && TwoDefine(world, g, q, uuid) && IsWay(world, root, q, way) && g !in way && LeadsAlong(world, way)
    ensures q in Read(world, root).1.filesRead && Merged(world, root, uuid) == Own(world, q, uuid)
  {
    var files := Read(world, root).1.filesRead;
    ParseAlong(world, root, way, 0, {});
    assert {} + {root} == {root} && way[0..] == way;
    ReadOnce(world, root);
    MergePrecedence(world, root, uuid);
    hide Read, IsChain, LeadsAlong;
    assert files[|way| - 1] == q && forall i :: 0 <= i < |way| ==> files[i] == way[i];
    if k :| 0 <= k < |files| && files[k] == g {
      assert Precedes(files, q, g);
    }
    FirstOfTwo(world, files, q, g, uuid);
  }

  /** Let g and q alone define a service, in two ways. Wherever q is read, the definition of g is merged, in whatever order
      the files list their includes, if and only if every chain of at most six files from the root to q passes g. */
  lemma IncluderWinsExactly(world: World, root: Path, g: Path, q: Path, uuid: string)
    requires Readable(world, root) && TwoDefine(world, g, q, uuid)
    ensures OnEveryWay(world, root, g, q)
            <==> forall other :: Reordered(world, other) ==>
                   Readable(other, root) && (q in Read(other, root).1.filesRead ==> Merged(other, root, uuid) == Own(world, g, uuid))
  {
    hide Read, Merged;
    if OnEveryWay(world, root, g, q) {
      forall other | Reordered(world, other)
        ensures Readable(other, root) && (q in Read(other, root).1.filesRead ==> Merged(other, root, uuid) == Own(world, g, uuid))
      {
        SameDefinitions(world, other, root, g, q, uuid);
        if q in Read(other, root).1.filesRead {
          WinsWhenOnEveryWay(other, root, g, q, uuid);
        }
      }
    } else {
      var way :| IsWay(world, root, q, way) && g !in way;
      var other := Along(world, way);
      AlongReorders(world, root, way);
      ReorderedWays(world, other, root, q, way);
      SameDefinitions(world, other, root, g, q, uuid);
      LosesAlong(other, root, g, q, uuid, way);
    }
  }
}
