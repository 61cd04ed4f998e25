/** What the warnings about a landscape say (src/lib/landscape/landscapeReader.ts). */
module LandscapeWarnings {
  import opened Sequences
  import opened Landscape

  /** A file that was read includes q. */
  ghost predicate IncludedBy(world: World, files: seq<Path>, q: Path) {
    exists f :: f in files && Includes(world, f, q)
  }

  /** The warning is true: the file does not exist, cannot be read or parsed, or was met too deep; and a file read includes it. */
  ghost predicate Justified(world: World, files: seq<Path>, w: Warning) {
    match w
    case UnsupportedType(_) => true
    case DepthLimit(q) => IncludedBy(world, files, q)
    case NotFound(q) => q !in world && IncludedBy(world, files, q)
    case Failed(q) => q in world && !world[q].WellFormed? && IncludedBy(world, files, q)
  }

  predicate AboutType(w: Warning) {
    w.UnsupportedType?
  }

  /** The warnings about types, file by file. */
  function AllTypeWarnings(world: World, files: seq<Path>): seq<Warning> {
    if |files| == 0 then []
    else (if files[0] in world && world[files[0]].WellFormed? then TypeWarnings(world[files[0]].services) else [])
         + AllTypeWarnings(world, files[1..])
  }

  lemma {:induction false} AllTypeWarningsAppend(world: World, a: seq<Path>, b: seq<Path>)
    ensures AllTypeWarnings(world, a + b) == AllTypeWarnings(world, a) + AllTypeWarnings(world, b)
  {
    if |a| == 0 {
      assert a + b == b;
    } else {
      AllTypeWarningsAppend(world, a[1..], b);
      assert (a + b)[1..] == a[1..] + b;
      hide TypeWarnings;
      var first := if a[0] in world && world[a[0]].WellFormed? then TypeWarnings(world[a[0]].services) else [];
      Associate(first, AllTypeWarnings(world, a[1..]), AllTypeWarnings(world, b));
    }
  }

  lemma {:induction false} OnlyAboutTypes(services: seq<Service>)
    ensures Filter(AboutType, TypeWarnings(services)) == TypeWarnings(services)
  {
    if |services| != 0 {
      var n := |services| - 1;
      OnlyAboutTypes(services[..n]);
      var last := if Unsupported(services[n]) then [UnsupportedType(services[n].uuid)] else [];
      FilterAppend(AboutType, TypeWarnings(services[..n]), last);
      assert Filter(AboutType, last) == last;
    }
  }

  ghost predicate WarningsOk(world: World, top: Path, data: Data) {
    && top in data.filesRead
    && (forall w :: w in data.warnings ==> Justified(world, data.filesRead, w))
    && Filter(AboutType, data.warnings) == AllTypeWarnings(world, data.filesRead)
  }

  lemma StartWarnings(world: World, top: Path)
    requires Readable(world, top)
    ensures WarningsOk(world, top, StartData(top, world[top]))
  {
    NoDepthWarnings(world[top].services);
    OnlyAboutTypes(world[top].services);
    assert [top][1..] == [];
  }

  lemma WarnOne(world: World, top: Path, data: Data, w: Warning)
    requires WarningsOk(world, top, data) && !w.UnsupportedType? && Justified(world, data.filesRead, w)
    ensures WarningsOk(world, top, Warn(data, w))
  {
    FilterAppend(AboutType, data.warnings, [w]);
    assert Filter(AboutType, [w]) == [];
  }

  lemma MergeWarnings(world: World, top: Path, data: Data, q: Path, child: Data)
    requires WarningsOk(world, top, data) && WarningsOk(world, q, child)
    ensures WarningsOk(world, top, Merge(data, child))
  {
    FilterAppend(AboutType, data.warnings, child.warnings);
    AllTypeWarningsAppend(world, data.filesRead, child.filesRead);
    forall w | w in data.warnings + child.warnings ensures Justified(world, data.filesRead + child.filesRead, w) {
      assert forall f :: f in data.filesRead || f in child.filesRead ==> f in data.filesRead + child.filesRead;
    }
  }

  lemma {:induction false} ParseWarnings(world: World, path: Path, depth: nat, visited: set<Path>)
    requires Readable(world, path)
    ensures var data := Parse(world, path, world[path], depth, visited).1; data.Some? && WarningsOk(world, path, data.value)
    decreases DepthLeft(depth), 1, 0
  {
    hide WarningsOk, Follow, StartData;
    StartWarnings(world, path);
    FollowWarnings(world, path, world[path].includes, depth, visited + {path}, StartData(path, world[path]));
  }

  lemma {:induction false} FollowWarnings(world: World, top: Path, includes: seq<IncludeRef>, depth: nat, visited: set<Path>, data: Data)
    requires Readable(world, top) && WarningsOk(world, top, data) && forall inc :: inc in includes ==> inc in world[top].includes
    ensures WarningsOk(world, top, Follow(world, includes, depth, visited, data).1)
    decreases DepthLeft(depth), 0, |includes|
  {
    hide WarningsOk, FollowOne;
    if |includes| > 0 {
      assert includes[0] in includes && forall inc :: inc in includes[1..] ==> inc in includes;
      var (after, next) := FollowOne(world, includes, depth, visited, data);
      FollowOneWarnings(world, top, includes, depth, visited, data);
      FollowWarnings(world, top, includes[1..], depth, after, next);
    }
  }

  lemma {:induction false} FollowOneWarnings(world: World, top: Path, includes: seq<IncludeRef>, depth: nat, visited: set<Path>, data: Data)
    requires Readable(world, top) && WarningsOk(world, top, data) && |includes| > 0 && includes[0] in world[top].includes
    ensures WarningsOk(world, top, FollowOne(world, includes, depth, visited, data).1)
    decreases DepthLeft(depth), 0, |includes|, 0
  {
    match includes[0] {
      case NoUrl =>
      case Remote(url) =>
      case Local(q) =>
        assert Includes(world, top, q) && IncludedBy(world, data.filesRead, q);
        hide WarningsOk, Parse;
        if q in visited {
        } else if depth >= DEPTH_LIMIT {
          WarnOne(world, top, data, DepthLimit(q));
        } else if q !in world {
          WarnOne(world, top, data, NotFound(q));
        } else if world[q].Unreadable? || world[q].Malformed? {
          assert world[q].Malformed? ==> Parse(world, q, world[q], depth + 1, visited).1.None? by {
            MalformedFails(world, q, depth + 1, visited);
          }
          WarnOne(world, top, data, Failed(q));
        } else {
          ParseWarnings(world, q, depth + 1, visited);
          MergeWarnings(world, top, data, q, Parse(world, q, world[q], depth + 1, visited).1.value);
        }
    }
  }

  lemma MalformedFails(world: World, q: Path, depth: nat, visited: set<Path>)
    requires q in world
    ensures world[q].Malformed? ==> Parse(world, q, world[q], depth, visited).1.None?
  {
  }

  /** Every include of a file read is read, cut off, missing or unusable, and the warnings say which; they say nothing that is
      not so, and about types of services they say, file by file, what each file gives rise to. */
  lemma WarningsExactly(world: World, root: Path)
    requires Readable(world, root)
    ensures var (_, data) := Read(world, root);
            && (forall w :: w in data.warnings ==> Justified(world, data.filesRead, w))
            && (forall q :: IncludedBy(world, data.filesRead, q) ==>
                  || q in data.filesRead || DepthLimit(q) in data.warnings
                  || (q !in world && NotFound(q) in data.warnings)
                  || (q in world && !world[q].WellFormed? && Failed(q) in data.warnings))
            && Filter(AboutType, data.warnings) == AllTypeWarnings(world, data.filesRead)
  {
    ParseWarnings(world, root, 0, {});
    assert {} + {root} == {root};
    ReadInv(world, root);
    var (visited, data) := Read(world, root);
    forall q | IncludedBy(world, data.filesRead, q)
      ensures || q in data.filesRead || DepthLimit(q) in data.warnings
              || (q !in world && NotFound(q) in data.warnings)
              || (q in world && !world[q].WellFormed? && Failed(q) in data.warnings)
    {
      var f :| f in data.filesRead && Includes(world, f, q);
      var k :| 0 <= k < |data.filesRead| && data.filesRead[k] == f;
      assert Closed(world, visited, data.warnings, world[f].includes);
      assert Accounted(world, visited, data.warnings, q);
    }
  }
}
