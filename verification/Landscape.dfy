/** Reading a SAP Logon landscape with its includes (src/lib/landscape/landscapeReader.ts).

    The file system and the XML parser are a map from normalised paths to what parsing each file yields. */
module Landscape {
  import opened Sequences

  type Path = string

  /** A `Service` element; `body` stands for the attributes not looked at during the merge. */
  datatype Service = Service(uuid: string, kind: string, body: string)

  datatype Workspace = Workspace(name: string, items: seq<(string, seq<string>)>)

  /** An `Include` element, its URL resolved against the directory of the file it occurs in. */
  datatype IncludeRef = NoUrl | Remote(url: string) | Local(path: Path)

  datatype FileState =
    | Unreadable
    | Malformed
    | WellFormed(services: seq<Service>, workspaces: seq<Workspace>, includes: seq<IncludeRef>)

  type World = map<Path, FileState>

  datatype Warning = UnsupportedType(uuid: string) | DepthLimit(path: Path) | NotFound(path: Path) | Failed(path: Path)

  datatype Data = Data(
    services: map<string, Service>,
    workspaces: seq<Workspace>,
    warnings: seq<Warning>,
    unresolved: seq<string>,
    filesRead: seq<Path>)

  const DEPTH_LIMIT := 5

  // ---------- The traversal ----------

  predicate Unsupported(s: Service) {
    s.uuid != "" && s.kind != "" && s.kind != "SAPGUI"
  }

  /** The services a file defines itself: of several with one uuid, the last. */
  function OwnServices(services: seq<Service>): map<string, Service> {
    if |services| == 0 then map[] else
    var s := services[|services| - 1];
    var before := OwnServices(services[..|services| - 1]);
    if s.uuid == "" || Unsupported(s) then before else before[s.uuid := s]
  }

  function TypeWarnings(services: seq<Service>): seq<Warning> {
    if |services| == 0 then [] else
    var s := services[|services| - 1];
    TypeWarnings(services[..|services| - 1]) + if Unsupported(s) then [UnsupportedType(s.uuid)] else []
  }

  /** Folding an included file's data into its includer's: the includer keeps its services. */
  function Merge(outer: Data, child: Data): Data {
    Data(child.services + outer.services, outer.workspaces + child.workspaces, outer.warnings + child.warnings,
         outer.unresolved + child.unresolved, outer.filesRead + child.filesRead)
  }

  function Warn(data: Data, w: Warning): Data {
    data.(warnings := data.warnings + [w])
  }

  function StartData(path: Path, file: FileState): Data
    requires file.WellFormed?
  {
    Data(OwnServices(file.services), file.workspaces, TypeWarnings(file.services), [], [path])
  }

  function DepthLeft(depth: nat): nat {
    if depth < DEPTH_LIMIT then DEPTH_LIMIT - depth else 0
  }

  /** Parsing the content of a file: the visited set afterwards, and the data unless the parse throws. */
  function Parse(world: World, path: Path, file: FileState, depth: nat, visited: set<Path>): (set<Path>, Option<Data>)
    requires !file.Unreadable?
    decreases DepthLeft(depth), 1, 0
  {
    if file.Malformed? then (visited + {path}, None) else
    var (after, data) := Follow(world, file.includes, depth, visited + {path}, StartData(path, file));
    (after, Some(data))
  }

  /** Following the includes of one file in order. */
  function Follow(world: World, includes: seq<IncludeRef>, depth: nat, visited: set<Path>, data: Data): (set<Path>, Data)
    decreases DepthLeft(depth), 0, |includes|
  {
    if |includes| == 0 then (visited, data) else
    var (after, next) := FollowOne(world, includes, depth, visited, data);
    Follow(world, includes[1..], depth, after, next)
  }

  function FollowOne(world: World, includes: seq<IncludeRef>, depth: nat, visited: set<Path>, data: Data): (set<Path>, Data)
    requires |includes| > 0
    decreases DepthLeft(depth), 0, |includes|, 0
  {
    match includes[0]
    case NoUrl => (visited, data)
    case Remote(url) => (visited, data.(unresolved := data.unresolved + [url]))
    case Local(q) =>
      if q in visited then (visited, data)
      else if depth >= DEPTH_LIMIT then (visited, Warn(data, DepthLimit(q)))
      else if q !in world then (visited, Warn(data, NotFound(q)))
      else if world[q].Unreadable? then (visited, Warn(data, Failed(q)))
      else
        var (after, child) := Parse(world, q, world[q], depth + 1, visited);
        (after, if child.Some? then Merge(data, child.value) else Warn(data, Failed(q)))
  }

  // ---------- What the traversal should find ----------

  ghost predicate Readable(world: World, f: Path) {
    f in world && world[f].WellFormed?
  }

  ghost predicate Includes(world: World, f: Path, q: Path) {
    Readable(world, f) && Local(q) in world[f].includes
  }

  /** f is reached from root over n includes through existing, well-formed files. */
  ghost predicate ReachedBy(world: World, root: Path, f: Path, n: nat)
    decreases n
  {
    Readable(world, f) && if n == 0 then f == root else exists g :: ReachedBy(world, root, g, n - 1) && Includes(world, g, f)
  }

  ghost predicate Reached(world: World, root: Path, f: Path) {
    exists n: nat :: ReachedBy(world, root, f, n)
  }

  /** The definition of a service in the first of the files that defines it. */
  function FirstDefinition(world: World, files: seq<Path>, uuid: string): Option<Service> {
    if |files| == 0 then None
    else if files[0] in world && world[files[0]].WellFormed? && uuid in OwnServices(world[files[0]].services)
    then Some(OwnServices(world[files[0]].services)[uuid])
    else FirstDefinition(world, files[1..], uuid)
  }

  function WorkspacesOf(world: World, f: Path): seq<Workspace> {
    if f in world && world[f].WellFormed? then world[f].workspaces else []
  }

  function RemoteUrls(includes: seq<IncludeRef>): seq<string> {
    if |includes| == 0 then [] else
    var last := includes[|includes| - 1];
    RemoteUrls(includes[..|includes| - 1]) + if last.Remote? then [last.url] else []
  }

  function RemoteUrlsOf(world: World, f: Path): seq<string> {
    if f in world && world[f].WellFormed? then RemoteUrls(world[f].includes) else []
  }

  function AllWorkspaces(world: World, files: seq<Path>): seq<Workspace> {
    if |files| == 0 then [] else WorkspacesOf(world, files[0]) + AllWorkspaces(world, files[1..])
  }

  function AllRemoteUrls(world: World, files: seq<Path>): multiset<string> {
    if |files| == 0 then multiset{} else multiset(RemoteUrlsOf(world, files[0])) + AllRemoteUrls(world, files[1..])
  }

  lemma {:induction false} FirstDefinitionAppend(world: World, a: seq<Path>, b: seq<Path>, uuid: string)
    ensures FirstDefinition(world, a + b, uuid) ==
              if FirstDefinition(world, a, uuid).Some? then FirstDefinition(world, a, uuid) else FirstDefinition(world, b, uuid)
  {
    if |a| == 0 {
      assert a + b == b;
    } else {
      FirstDefinitionAppend(world, a[1..], b, uuid);
      assert (a + b)[1..] == a[1..] + b;
    }
  }

  lemma {:induction false} AllWorkspacesAppend(world: World, a: seq<Path>, b: seq<Path>)
    ensures AllWorkspaces(world, a + b) == AllWorkspaces(world, a) + AllWorkspaces(world, b)
  {
    if |a| == 0 {
      assert a + b == b;
    } else {
      AllWorkspacesAppend(world, a[1..], b);
      assert (a + b)[1..] == a[1..] + b;
      var first := WorkspacesOf(world, a[0]);
      assert first + (AllWorkspaces(world, a[1..]) + AllWorkspaces(world, b)) == (first + AllWorkspaces(world, a[1..])) + AllWorkspaces(world, b);
    }
  }

  lemma {:induction false} AllRemoteUrlsAppend(world: World, a: seq<Path>, b: seq<Path>)
    ensures AllRemoteUrls(world, a + b) == AllRemoteUrls(world, a) + AllRemoteUrls(world, b)
  {
    hide RemoteUrlsOf;
    if |a| == 0 {
      assert a + b == b;
    } else {
      AllRemoteUrlsAppend(world, a[1..], b);
      assert (a + b)[1..] == a[1..] + b;
    }
  }

  // ---------- What a file defines ----------

  /** The service at k is of a type that is read: none is given, or SAPGUI. */
  ghost predicate Accepted(services: seq<Service>, k: nat)
    requires k < |services|
  {
    services[k].uuid != "" && (services[k].kind == "" || services[k].kind == "SAPGUI")
  }

  /** The file defines the service: it is the last accepted one with that uuid. */
  ghost predicate DefinesAs(services: seq<Service>, uuid: string, s: Service) {
    exists k: nat :: k < |services| && Accepted(services, k) && services[k] == s && s.uuid == uuid
                     && forall j :: k < j < |services| && Accepted(services, j) ==> services[j].uuid != uuid
  }

  lemma {:induction false} OwnServicesExactly(services: seq<Service>, uuid: string, s: Service)
    ensures uuid in OwnServices(services) && OwnServices(services)[uuid] == s <==> DefinesAs(services, uuid, s)
  {
    if |services| != 0 {
      var n := |services| - 1;
      OwnServicesExactly(services[..n], uuid, s);
      assert forall k :: 0 <= k < n ==> (Accepted(services[..n], k) <==> Accepted(services, k));
      if Accepted(services, n) && services[n].uuid == uuid {
        assert DefinesAs(services, uuid, services[n]);
      } else {
        assert DefinesAs(services[..n], uuid, s) <==> DefinesAs(services, uuid, s);
      }
    }
  }

  /** The service at k has a uuid and is of another type. */
  ghost predicate OtherType(services: seq<Service>, k: nat) {
    k < |services| && services[k].uuid != "" && services[k].kind != "" && services[k].kind != "SAPGUI"
  }

  /** The warnings name, in order, the services at the positions listed, which are all those of another type. */
  ghost predicate WarnsAt(services: seq<Service>, warnings: seq<Warning>, at: seq<nat>) {
    && |at| == |warnings| && (forall i, j :: 0 <= i < j < |at| ==> at[i] < at[j])
    && (forall k: nat :: k in at <==> OtherType(services, k))
    && (forall i :: 0 <= i < |at| ==> at[i] < |services| && warnings[i] == UnsupportedType(services[at[i]].uuid))
  }

  lemma {:induction false} TypeWarningsExactly(services: seq<Service>) returns (at: seq<nat>)
    ensures WarnsAt(services, TypeWarnings(services), at)
  {
    if |services| == 0 {
      at := [];
    } else {
      var n := |services| - 1;
      at := TypeWarningsExactly(services[..n]);
      assert Unsupported(services[n]) <==> OtherType(services, n);
      WarnsSnoc(services, TypeWarnings(services[..n]), at);
      at := if Unsupported(services[n]) then at + [n] else at;
    }
  }

  lemma WarnsSnoc(services: seq<Service>, warnings: seq<Warning>, at: seq<nat>)
    requires |services| > 0 && WarnsAt(services[..|services| - 1], warnings, at)
    ensures var n := |services| - 1;
            if OtherType(services, n) then WarnsAt(services, warnings + [UnsupportedType(services[n].uuid)], at + [n])
            else WarnsAt(services, warnings, at)
  {
    var n := |services| - 1;
    forall k: nat ensures OtherType(services, k) <==> OtherType(services[..n], k) || (k == n && OtherType(services, n)) {
    }
    hide OtherType;
    forall i | 0 <= i < |at| ensures at[i] < n && services[..n][at[i]] == services[at[i]] {
    }
    forall k: nat ensures k in at + [n] <==> k in at || k == n {
    }
  }

  /** Of the files read, the first that defines a service gives it, and nothing else is merged. */
  ghost predicate MergedInOrder(world: World, files: seq<Path>, services: map<string, Service>) {
    forall uuid, s :: FirstGives(world, files, uuid, s) <==> uuid in services && services[uuid] == s
  }

  ghost predicate FirstGives(world: World, files: seq<Path>, uuid: string, s: Service) {
    exists k :: 0 <= k < |files| && FileDefines(world, files[k], uuid, s)
                && forall j, other :: 0 <= j < k ==> !FileDefines(world, files[j], uuid, other)
  }

  ghost predicate FileDefines(world: World, f: Path, uuid: string, s: Service) {
    Readable(world, f) && DefinesAs(world[f].services, uuid, s)
  }

  lemma FileDefinesExactly(world: World, f: Path, uuid: string, s: Service)
    ensures FirstDefinition(world, [f], uuid) == Some(s) <==> FileDefines(world, f, uuid, s)
  {
    assert [f][1..] == [];
    if Readable(world, f) {
      OwnServicesExactly(world[f].services, uuid, s);
    }
  }

  lemma {:induction false} FirstDefinitionExactly(world: World, files: seq<Path>, uuid: string, s: Service)
    ensures FirstDefinition(world, files, uuid) == Some(s) <==> FirstGives(world, files, uuid, s)
  {
    if |files| > 0 {
      var first, rest := [files[0]], files[1..];
      assert files == first + rest;
      FirstDefinitionAppend(world, first, rest, uuid);
      FirstDefinitionExactly(world, rest, uuid, s);
      forall other ensures FirstDefinition(world, first, uuid) == Some(other) <==> FileDefines(world, files[0], uuid, other) {
        FileDefinesExactly(world, files[0], uuid, other);
      }
      hide FirstDefinition, FileDefines, FirstGives;
      FirstGivesCons(world, files, uuid, s);
    }
  }

  lemma FirstGivesCons(world: World, files: seq<Path>, uuid: string, s: Service)
    requires |files| > 0
    ensures FirstGives(world, files, uuid, s)
            <==> FileDefines(world, files[0], uuid, s)
                 || ((forall other :: !FileDefines(world, files[0], uuid, other)) && FirstGives(world, files[1..], uuid, s))
  {
    var rest := files[1..];
    hide FileDefines;
    if (forall other :: !FileDefines(world, files[0], uuid, other)) && FirstGives(world, rest, uuid, s) {
      var k :| 0 <= k < |rest| && FileDefines(world, rest[k], uuid, s)
               && forall j, other :: 0 <= j < k ==> !FileDefines(world, rest[j], uuid, other);
      assert files[k + 1] == rest[k] && forall j :: 0 < j <= k ==> files[j] == rest[j - 1];
    }
    if FirstGives(world, files, uuid, s) {
      var k :| 0 <= k < |files| && FileDefines(world, files[k], uuid, s)
               && forall j, other :: 0 <= j < k ==> !FileDefines(world, files[j], uuid, other);
      if k > 0 {
        assert rest[k - 1] == files[k] && forall j :: 0 <= j < k - 1 ==> rest[j] == files[j + 1];
      }
    }
  }

  // ---------- What the traversal keeps ----------

  /** The merged services are, for every uuid, the first definition in traversal order. */
  ghost predicate ServicesOk(world: World, data: Data) {
    forall uuid :: FirstDefinition(world, data.filesRead, uuid) == if uuid in data.services then Some(data.services[uuid]) else None
  }

  /** An include target that is followed or accounted for by a warning. */
  ghost predicate Accounted(world: World, visited: set<Path>, warnings: seq<Warning>, q: Path) {
    || q in visited
    || DepthLimit(q) in warnings
    || (q !in world && NotFound(q) in warnings)
    || (q in world && world[q].Unreadable? && Failed(q) in warnings)
  }

  ghost predicate Closed(world: World, visited: set<Path>, warnings: seq<Warning>, includes: seq<IncludeRef>) {
    forall q :: Local(q) in includes ==> Accounted(world, visited, warnings, q)
  }

  /** Files read and visited, relative to the set visited before the parse of `top` began. */
  ghost predicate FilesOk(world: World, top: Path, before: set<Path>, visited: set<Path>, data: Data) {
    && before <= visited
    && NoDuplicates(data.filesRead)
    && (forall f :: f in data.filesRead ==> f !in before && f in visited && Readable(world, f))
    && (forall f :: f in visited ==>
          || f in before || f in data.filesRead
          || (f in world && world[f].Malformed? && Failed(f) in data.warnings))
  }

  ghost predicate OriginOk(world: World, top: Path, data: Data) {
    && (forall f :: f in data.filesRead ==> Reached(world, top, f))
    && (forall q :: DepthLimit(q) in data.warnings ==> exists f :: f in data.filesRead && Includes(world, f, q))
  }

  /** All files read so far but the one at the head have all their includes accounted for. */
  ghost predicate TailClosed(world: World, visited: set<Path>, data: Data) {
    forall k :: 1 <= k < |data.filesRead| && Readable(world, data.filesRead[k]) ==>
                  Closed(world, visited, data.warnings, world[data.filesRead[k]].includes)
  }

  ghost predicate Inv(world: World, top: Path, before: set<Path>, visited: set<Path>, data: Data, done: seq<IncludeRef>) {
    && Readable(world, top) && top !in before
    && |data.filesRead| > 0 && data.filesRead[0] == top
    && done <= world[top].includes
    && FilesOk(world, top, before, visited, data) && OriginOk(world, top, data)
    && TailClosed(world, visited, data) && Closed(world, visited, data.warnings, done)
    && ServicesOk(world, data)
    && data.workspaces == AllWorkspaces(world, data.filesRead)
    && multiset(data.unresolved) == multiset(RemoteUrls(done)) + AllRemoteUrls(world, data.filesRead[1..])
  }

  lemma StartInv(world: World, top: Path, before: set<Path>)
    requires Readable(world, top) && top !in before
    ensures Inv(world, top, before, before + {top}, StartData(top, world[top]), [])
  {
    assert ReachedBy(world, top, top, 0);
    NoDepthWarnings(world[top].services);
    forall uuid ensures FirstDefinition(world, [top], uuid) ==
        if uuid in OwnServices(world[top].services) then Some(OwnServices(world[top].services)[uuid]) else None
    {
      assert [top][1..] == [];
    }
    assert AllWorkspaces(world, [top]) == WorkspacesOf(world, top) + AllWorkspaces(world, []) by {
      assert [top][1..] == [];
    }
  }

  lemma {:induction false} NoDepthWarnings(services: seq<Service>)
    ensures forall w :: w in TypeWarnings(services) ==> w.UnsupportedType?
  {
    if |services| != 0 {
      NoDepthWarnings(services[..|services| - 1]);
    }
  }

  lemma ReachedThrough(world: World, top: Path, q: Path, f: Path)
    requires Readable(world, top) && Includes(world, top, q) && Reached(world, q, f)
    ensures Reached(world, top, f)
  {
    var n: nat :| ReachedBy(world, q, f, n);
    ReachedByThrough(world, top, q, f, n);
  }

  lemma {:induction false} ReachedByThrough(world: World, top: Path, q: Path, f: Path, n: nat)
    requires Readable(world, top) && Includes(world, top, q) && ReachedBy(world, q, f, n)
    ensures ReachedBy(world, top, f, n + 1)
    decreases n
  {
    if n == 0 {
      assert ReachedBy(world, top, top, 0);
    } else {
      var g :| ReachedBy(world, q, g, n - 1) && Includes(world, g, f);
      ReachedByThrough(world, top, q, g, n - 1);
    }
  }

  /** Everything a warning leaves alone. */
  lemma WarnInv(world: World, top: Path, before: set<Path>, visited: set<Path>, data: Data, done: seq<IncludeRef>, w: Warning, q: Path)
    requires Inv(world, top, before, visited, data, done)
    requires done + [Local(q)] <= world[top].includes
    requires Accounted(world, visited, data.warnings + [w], q)
    requires w.DepthLimit? ==> w.path == q
    ensures Inv(world, top, before, visited, Warn(data, w), done + [Local(q)])
  {
    assert Includes(world, top, q) by {
      assert Local(q) in done + [Local(q)];
    }
    assert RemoteUrls(done + [Local(q)]) == RemoteUrls(done) by {
      assert (done + [Local(q)])[..|done|] == done;
    }
    ClosedMonotone(world, visited, visited, data.warnings, data.warnings + [w], done);
    TailClosedMonotone(world, visited, visited, data, Warn(data, w));
  }

  lemma ClosedMonotone(world: World, visited: set<Path>, visited': set<Path>, warnings: seq<Warning>, warnings': seq<Warning>, includes: seq<IncludeRef>)
    requires visited <= visited' && (forall w :: w in warnings ==> w in warnings')
    requires Closed(world, visited, warnings, includes)
    ensures Closed(world, visited', warnings', includes)
  {
    forall q | Local(q) in includes ensures Accounted(world, visited', warnings', q) {
      assert Accounted(world, visited, warnings, q);
    }
  }

  lemma TailClosedMonotone(world: World, visited: set<Path>, visited': set<Path>, data: Data, data': Data)
    requires visited <= visited' && (forall w :: w in data.warnings ==> w in data'.warnings) && data.filesRead == data'.filesRead
    requires TailClosed(world, visited, data)
    ensures TailClosed(world, visited', data')
  {
    forall k | 1 <= k < |data.filesRead| && Readable(world, data.filesRead[k])
      ensures Closed(world, visited', data'.warnings, world[data.filesRead[k]].includes)
    {
      ClosedMonotone(world, visited, visited', data.warnings, data'.warnings, world[data.filesRead[k]].includes);
    }
  }

  lemma MergeFiles(world: World, top: Path, before: set<Path>, visited: set<Path>, data: Data, q: Path, after: set<Path>, child: Data)
    requires FilesOk(world, top, before, visited, data) && FilesOk(world, q, visited, after, child)
    ensures FilesOk(world, top, before, after, Merge(data, child))
  {
    var files := data.filesRead + child.filesRead;
    forall i, j | 0 <= i < j < |files| ensures files[i] != files[j] {
      if i < |data.filesRead| <= j {
        assert files[i] in data.filesRead && files[j] in child.filesRead;
      }
    }
  }

  lemma MergeOrigin(world: World, top: Path, data: Data, q: Path, child: Data)
    requires Readable(world, top) && Includes(world, top, q) && OriginOk(world, top, data) && OriginOk(world, q, child)
    ensures OriginOk(world, top, Merge(data, child))
  {
    var merged := Merge(data, child);
    forall f | f in merged.filesRead ensures Reached(world, top, f) {
      if f in child.filesRead {
        ReachedThrough(world, top, q, f);
      }
    }
    forall p | DepthLimit(p) in merged.warnings ensures exists f :: f in merged.filesRead && Includes(world, f, p) {
      if DepthLimit(p) in data.warnings {
        var f :| f in data.filesRead && Includes(world, f, p);
        assert f in merged.filesRead;
      } else {
        var f :| f in child.filesRead && Includes(world, f, p);
        assert f in merged.filesRead;
      }
    }
  }

  lemma MergeClosed(world: World, visited: set<Path>, data: Data, q: Path, after: set<Path>, child: Data)
    requires visited <= after && TailClosed(world, visited, data) && TailClosed(world, after, child)
    requires Readable(world, q) && |child.filesRead| > 0 && child.filesRead[0] == q && |data.filesRead| > 0
    requires Closed(world, after, child.warnings, world[q].includes)
    ensures TailClosed(world, after, Merge(data, child))
  {
    var merged := Merge(data, child);
    forall k | 1 <= k < |merged.filesRead| && Readable(world, merged.filesRead[k])
      ensures Closed(world, after, merged.warnings, world[merged.filesRead[k]].includes)
    {
      var includes := world[merged.filesRead[k]].includes;
      if k < |data.filesRead| {
        ClosedMonotone(world, visited, after, data.warnings, merged.warnings, includes);
      } else {
        assert merged.filesRead[k] == child.filesRead[k - |data.filesRead|];
        ClosedMonotone(world, after, after, child.warnings, merged.warnings, includes);
      }
    }
  }

  lemma MergeServices(world: World, data: Data, child: Data)
    requires ServicesOk(world, data) && ServicesOk(world, child)
    ensures ServicesOk(world, Merge(data, child))
  {
    var merged := Merge(data, child);
    forall uuid
      ensures FirstDefinition(world, merged.filesRead, uuid) == if uuid in merged.services then Some(merged.services[uuid]) else None
    {
      FirstDefinitionAppend(world, data.filesRead, child.filesRead, uuid);
    }
  }

  lemma MergeUnresolved(world: World, data: Data, child: Data, done: seq<IncludeRef>, q: Path)
    requires Readable(world, q) && |data.filesRead| > 0 && |child.filesRead| > 0 && child.filesRead[0] == q
    requires multiset(data.unresolved) == multiset(RemoteUrls(done)) + AllRemoteUrls(world, data.filesRead[1..])
    requires multiset(child.unresolved) == multiset(RemoteUrls(world[q].includes)) + AllRemoteUrls(world, child.filesRead[1..])
    ensures multiset(Merge(data, child).unresolved) ==
              multiset(RemoteUrls(done + [Local(q)])) + AllRemoteUrls(world, Merge(data, child).filesRead[1..])
  {
    RemoteUrlsOfRest(world, data.filesRead, child.filesRead);
    LocalIsNotRemote(done, q);
    hide AllRemoteUrls, RemoteUrls;
  }

  lemma RemoteUrlsOfRest(world: World, a: seq<Path>, b: seq<Path>)
    requires |a| > 0 && |b| > 0 && Readable(world, b[0])
    ensures AllRemoteUrls(world, (a + b)[1..]) ==
              AllRemoteUrls(world, a[1..]) + (multiset(RemoteUrls(world[b[0]].includes)) + AllRemoteUrls(world, b[1..]))
  {
    assert (a + b)[1..] == a[1..] + b;
    AllRemoteUrlsAppend(world, a[1..], b);
    hide RemoteUrls;
  }

  lemma LocalIsNotRemote(done: seq<IncludeRef>, q: Path)
    ensures RemoteUrls(done + [Local(q)]) == RemoteUrls(done)
  {
    assert (done + [Local(q)])[..|done|] == done;
  }

  lemma MergeInv(world: World, top: Path, before: set<Path>, visited: set<Path>, data: Data, done: seq<IncludeRef>,
                 q: Path, after: set<Path>, child: Data)
    requires Inv(world, top, before, visited, data, done)
    requires done + [Local(q)] <= world[top].includes
    requires Readable(world, q) && Inv(world, q, visited, after, child, world[q].includes)
    ensures Inv(world, top, before, after, Merge(data, child), done + [Local(q)])
  {
    assert Includes(world, top, q) by {
      assert Local(q) in done + [Local(q)];
    }
    MergeFiles(world, top, before, visited, data, q, after, child);
    MergeOrigin(world, top, data, q, child);
    MergeClosed(world, visited, data, q, after, child);
    MergeServices(world, data, child);
    AllWorkspacesAppend(world, data.filesRead, child.filesRead);
    MergeUnresolved(world, data, child, done, q);
    ClosedMonotone(world, visited, after, data.warnings, Merge(data, child).warnings, done);
    assert q in after by {
      assert child.filesRead[0] in child.filesRead;
    }
    hide FilesOk, OriginOk, TailClosed, ServicesOk, AllWorkspaces, AllRemoteUrls, RemoteUrls;
  }

  /** A malformed include adds itself to the visited set and nothing else. */
  lemma MalformedInv(world: World, top: Path, before: set<Path>, visited: set<Path>, data: Data, done: seq<IncludeRef>, q: Path)
    requires Inv(world, top, before, visited, data, done)
    requires done + [Local(q)] <= world[top].includes
    requires q in world && world[q].Malformed? && q !in visited
    ensures Inv(world, top, before, visited + {q}, Warn(data, Failed(q)), done + [Local(q)])
  {
    var visited', data' := visited + {q}, Warn(data, Failed(q));
    assert FilesOk(world, top, before, visited', data');
    assert OriginOk(world, top, data');
    ClosedMonotone(world, visited, visited', data.warnings, data'.warnings, done);
    TailClosedMonotone(world, visited, visited', data, data');
    assert (done + [Local(q)])[..|done|] == done;
  }

  lemma RemoteInv(world: World, top: Path, before: set<Path>, visited: set<Path>, data: Data, done: seq<IncludeRef>, inc: IncludeRef)
    requires Inv(world, top, before, visited, data, done)
    requires done + [inc] <= world[top].includes
    requires !inc.Local?
    ensures Inv(world, top, before, visited, if inc.Remote? then data.(unresolved := data.unresolved + [inc.url]) else data, done + [inc])
  {
    assert (done + [inc])[..|done|] == done;
    TailClosedMonotone(world, visited, visited, data, data.(unresolved := data.unresolved + RemoteUrls([inc])));
  }

  /** What one parse of a fresh, well-formed file establishes, whatever was visited before and however deep it is. */
  lemma {:induction false} ParseInv(world: World, path: Path, depth: nat, visited: set<Path>)
    requires Readable(world, path) && path !in visited
    ensures var (after, data) := Parse(world, path, world[path], depth, visited);
            data.Some? && Inv(world, path, visited, after, data.value, world[path].includes)
    decreases DepthLeft(depth), 1, 0
  {
    hide Inv, Follow, FollowOne, StartData;
    StartInv(world, path, visited);
    FollowInv(world, path, [], world[path].includes, depth, visited, visited + {path}, StartData(path, world[path]));
  }

  lemma {:induction false} FollowInv(world: World, top: Path, done: seq<IncludeRef>, includes: seq<IncludeRef>, depth: nat,
                                     before: set<Path>, visited: set<Path>, data: Data)
    requires Readable(world, top) && Inv(world, top, before, visited, data, done)
    requires done + includes == world[top].includes
    ensures var (after, next) := Follow(world, includes, depth, visited, data);
            Inv(world, top, before, after, next, world[top].includes)
    decreases DepthLeft(depth), 0, |includes|
  {
    hide Inv;
    if |includes| == 0 {
      assert done == world[top].includes;
    } else {
      var (after, next) := FollowOne(world, includes, depth, visited, data);
      FollowOneInv(world, top, done, includes, depth, before, visited, data);
      assert done + includes == (done + [includes[0]]) + includes[1..];
      FollowInv(world, top, done + [includes[0]], includes[1..], depth, before, after, next);
    }
  }

  lemma {:induction false} FollowOneInv(world: World, top: Path, done: seq<IncludeRef>, includes: seq<IncludeRef>, depth: nat,
                                        before: set<Path>, visited: set<Path>, data: Data)
    requires Readable(world, top) && Inv(world, top, before, visited, data, done) && |includes| > 0
    requires done + includes == world[top].includes
    ensures var (after, next) := FollowOne(world, includes, depth, visited, data);
            Inv(world, top, before, after, next, done + [includes[0]])
    decreases DepthLeft(depth), 0, |includes|, 0
  {
    hide Inv;
    assert done + [includes[0]] <= world[top].includes;
    match includes[0] {
      case NoUrl => RemoteInv(world, top, before, visited, data, done, includes[0]);
      case Remote(url) => RemoteInv(world, top, before, visited, data, done, includes[0]);
      case Local(q) =>
        if q in visited {
          VisitedInv(world, top, before, visited, data, done, q);
        } else if depth >= DEPTH_LIMIT {
          WarnInv(world, top, before, visited, data, done, DepthLimit(q), q);
        } else if q !in world {
          WarnInv(world, top, before, visited, data, done, NotFound(q), q);
        } else if world[q].Unreadable? {
          WarnInv(world, top, before, visited, data, done, Failed(q), q);
        } else if world[q].Malformed? {
          MalformedInv(world, top, before, visited, data, done, q);
        } else {
          var (after, child) := Parse(world, q, world[q], depth + 1, visited);
          ParseInv(world, q, depth + 1, visited);
          MergeInv(world, top, before, visited, data, done, q, after, child.value);
        }
    }
  }

  lemma VisitedInv(world: World, top: Path, before: set<Path>, visited: set<Path>, data: Data, done: seq<IncludeRef>, q: Path)
    requires Inv(world, top, before, visited, data, done)
    requires done + [Local(q)] <= world[top].includes && q in visited
    ensures Inv(world, top, before, visited, data, done + [Local(q)])
  {
    assert (done + [Local(q)])[..|done|] == done;
  }

  // ---------- Theorems about a whole landscape ----------

  /** The landscape read from `root`. */
  function Read(world: World, root: Path): (set<Path>, Data)
    requires Readable(world, root)
  {
    Follow(world, world[root].includes, 0, {root}, StartData(root, world[root]))
  }

  lemma ReadInv(world: World, root: Path)
    requires Readable(world, root)
    ensures var (visited, data) := Read(world, root); Inv(world, root, {}, visited, data, world[root].includes)
  {
    ParseInv(world, root, 0, {});
    assert {} + {root} == {root};
  }

  /** On any include graph, cycles included, no file is read twice, only reachable files are read,
      and whatever was visited but not read is reported as failed. */
  lemma ReadOnce(world: World, root: Path)
    requires Readable(world, root)
    ensures var (visited, data) := Read(world, root);
            && NoDuplicates(data.filesRead) && |data.filesRead| > 0 && data.filesRead[0] == root
            && (forall f :: f in data.filesRead ==> f in visited && Reached(world, root, f))
            && (forall f :: f in visited && f !in data.filesRead ==> f in world && world[f].Malformed? && Failed(f) in data.warnings)
  {
    ReadInv(world, root);
  }

  lemma {:induction false} ClosureReaches(world: World, root: Path, f: Path, n: nat)
    requires Readable(world, root) && ReachedBy(world, root, f, n)
    requires var (_, data) := Read(world, root);
             forall q :: DepthLimit(q) in data.warnings && Readable(world, q) ==> q in data.filesRead
    ensures f in Read(world, root).1.filesRead
    decreases n
  {
    var (visited, data) := Read(world, root);
    ReadInv(world, root);
    if n == 0 {
      assert f == data.filesRead[0];
    } else {
      var g :| ReachedBy(world, root, g, n - 1) && Includes(world, g, f);
      ClosureReaches(world, root, g, n - 1);
      var k :| 0 <= k < |data.filesRead| && data.filesRead[k] == g;
      assert Closed(world, visited, data.warnings, world[g].includes);
      assert Accounted(world, visited, data.warnings, f);
    }
  }

  /** The files read are exactly the reachable ones, if and only if every path cut off at the depth limit
      was read on another way or is not a readable file. */
  lemma ReadsExactlyTheReachable(world: World, root: Path)
    requires Readable(world, root)
    ensures var (_, data) := Read(world, root);
            (forall f :: f in data.filesRead <==> Reached(world, root, f))
            <==> forall q :: DepthLimit(q) in data.warnings && Readable(world, q) ==> q in data.filesRead
  {
    var (visited, data) := Read(world, root);
    ReadInv(world, root);
    if forall q :: DepthLimit(q) in data.warnings && Readable(world, q) ==> q in data.filesRead {
      forall f ensures f in data.filesRead <==> Reached(world, root, f) {
        if Reached(world, root, f) {
          var n: nat :| ReachedBy(world, root, f, n);
          ClosureReaches(world, root, f, n);
        }
      }
    }
    if forall f :: f in data.filesRead <==> Reached(world, root, f) {
      forall q | DepthLimit(q) in data.warnings && Readable(world, q) ensures q in data.filesRead {
        var f :| f in data.filesRead && Includes(world, f, q);
        var n: nat :| ReachedBy(world, root, f, n);
        assert ReachedBy(world, root, q, n + 1);
      }
    }
  }

  /** In particular, without a depth-limit warning nothing is missing. */
  lemma NoDepthWarningMeansComplete(world: World, root: Path)
    requires Readable(world, root)
    requires forall q :: DepthLimit(q) !in Read(world, root).1.warnings
    ensures forall f :: f in Read(world, root).1.filesRead <==> Reached(world, root, f)
  {
    ReadsExactlyTheReachable(world, root);
  }

  /** Precedence follows traversal order: of the files read, the first that defines a service gives it. */
  lemma MergePrecedence(world: World, root: Path, uuid: string)
    requires Readable(world, root)
    ensures var (_, data) := Read(world, root);
            && FirstDefinition(world, data.filesRead, uuid) == (if uuid in data.services then Some(data.services[uuid]) else None)
            && MergedInOrder(world, data.filesRead, data.services)
            && data.workspaces == AllWorkspaces(world, data.filesRead)
            && multiset(data.unresolved) == AllRemoteUrls(world, data.filesRead)
  {
    ReadInv(world, root);
    var (_, data) := Read(world, root);
    MergedExactly(world, data);
    assert AllRemoteUrls(world, data.filesRead) == multiset(RemoteUrlsOf(world, root)) + AllRemoteUrls(world, data.filesRead[1..]);
  }

  lemma MergedExactly(world: World, data: Data)
    requires ServicesOk(world, data)
    ensures MergedInOrder(world, data.filesRead, data.services)
  {
    hide FirstDefinition, FirstGives;
    forall uuid, s ensures FirstGives(world, data.filesRead, uuid, s) <==> uuid in data.services && data.services[uuid] == s {
      FirstDefinitionExactly(world, data.filesRead, uuid, s);
    }
  }

  // ---------- The reader itself ----------

  datatype ReadError = NoLandscape(path: Path) | CannotRead(path: Path) | CannotParse(path: Path)

  class LandscapeReader {
    const world: World
    var visitedFiles: set<Path>

    constructor (world: World)
      ensures this.world == world && visitedFiles == {}
    {
      this.world := world;
      visitedFiles := {};
    }

    /** The service loop of one file. */
    method ParseServices(raw: seq<Service>) returns (services: map<string, Service>, warnings: seq<Warning>)
      ensures services == OwnServices(raw) && warnings == TypeWarnings(raw)
      ensures forall uuid, s :: DefinesAs(raw, uuid, s) <==> uuid in services && services[uuid] == s
      ensures exists at :: WarnsAt(raw, warnings, at)
    {
      forall uuid, s ensures DefinesAs(raw, uuid, s) <==> uuid in OwnServices(raw) && OwnServices(raw)[uuid] == s {
        OwnServicesExactly(raw, uuid, s);
      }
      ghost var at := TypeWarningsExactly(raw);
      hide DefinesAs, WarnsAt;
      services, warnings := map[], [];
      var i := 0;
      while i < |raw|
        invariant 0 <= i <= |raw|
        invariant services == OwnServices(raw[..i]) && warnings == TypeWarnings(raw[..i])
      {
        assert raw[..i + 1][..i] == raw[..i];
        var s := raw[i];
        i := i + 1;
        if s.uuid == "" {
          continue;
        }
        if s.kind != "" && s.kind != "SAPGUI" {
          warnings := warnings + [UnsupportedType(s.uuid)];
          continue;
        }
        services := services[s.uuid := s];
      }
      assert raw[..|raw|] == raw;
    }

    /** `None` stands for the exception a malformed file raises. */
    method ParseLandscapeXml(path: Path, file: FileState, depth: nat) returns (r: Option<Data>)
      requires !file.Unreadable?
      modifies this
      ensures (visitedFiles, r) == Parse(world, path, file, depth, old(visitedFiles))
      decreases DepthLeft(depth)
    {
      visitedFiles := visitedFiles + {path};
      if file.Malformed? {
        return None;
      }
      var services, warnings := ParseServices(file.services);
      var data := Data(services, file.workspaces, warnings, [], [path]);
      var i := 0;
      while i < |file.includes|
        invariant 0 <= i <= |file.includes|
        invariant Follow(world, file.includes, depth, old(visitedFiles) + {path}, StartData(path, file))
               == Follow(world, file.includes[i..], depth, visitedFiles, data)
      {
        assert file.includes[i..][1..] == file.includes[i + 1..];
        data := FollowInclude(file.includes[i..], depth, data);
        i := i + 1;
      }
      r := Some(data);
    }

    /** The body of the include loop. */
    method FollowInclude(includes: seq<IncludeRef>, depth: nat, data: Data) returns (next: Data)
      requires |includes| > 0
      modifies this
      ensures (visitedFiles, next) == FollowOne(world, includes, depth, old(visitedFiles), data)
      decreases DepthLeft(depth), 0
    {
      next := data;
      match includes[0] {
        case NoUrl =>
        case Remote(url) =>
          next := next.(unresolved := next.unresolved + [url]);
        case Local(q) =>
          if q in visitedFiles {
            return;
          }
          if depth >= DEPTH_LIMIT {
            next := Warn(next, DepthLimit(q));
          } else if q !in world {
            next := Warn(next, NotFound(q));
          } else if world[q].Unreadable? {
            next := Warn(next, Failed(q));
          } else {
            var child := ParseLandscapeXml(q, world[q], depth + 1);
            next := if child.Some? then Merge(next, child.value) else Warn(next, Failed(q));
          }
      }
    }
  }

  /** `readLandscapeFile` up to the merged raw data. */
  method ReadLandscapeFile(world: World, path: Path) returns (r: Result<Data, ReadError>)
    ensures path !in world ==> r == Failure(NoLandscape(path))
    ensures path in world && world[path].Unreadable? ==> r == Failure(CannotRead(path))
    ensures path in world && world[path].Malformed? ==> r == Failure(CannotParse(path))
    ensures Readable(world, path) ==>
              && r == Success(Read(world, path).1)
              && MergedInOrder(world, r.value.filesRead, r.value.services)
  {
    if path !in world {
      return Failure(NoLandscape(path));
    }
    if world[path].Unreadable? {
      return Failure(CannotRead(path));
    }
    var reader := new LandscapeReader(world);
    var data := reader.ParseLandscapeXml(path, world[path], 0);
    assert {} + {path} == {path};
    if Readable(world, path) {
      MergePrecedence(world, path, "");
    }
    hide MergedInOrder;
    r := if data.Some? then Success(data.value) else Failure(CannotParse(path));
  }

  // ---------- Which system ids are unique ----------

  function Occurrences(sids: seq<string>, sid: string): nat {
    if |sids| == 0 then 0 else
    Occurrences(sids[..|sids| - 1], sid) + if sids[|sids| - 1] == sid then 1 else 0
  }

  lemma {:induction false} OccurrencesBound(sids: seq<string>, sid: string, i: nat)
    requires i < |sids| && sids[i] == sid
    ensures Occurrences(sids, sid) >= 1
    ensures Occurrences(sids, sid) == 1 <==> forall j :: 0 <= j < |sids| && j != i ==> sids[j] != sid
  {
    var n := |sids| - 1;
    if i == n {
      NoOccurrence(sids[..n], sid);
    } else {
      OccurrencesBound(sids[..n], sid, i);
      assert sids[n] == sid ==> !(forall j :: 0 <= j < |sids| && j != i ==> sids[j] != sid);
      if forall j :: 0 <= j < |sids| && j != i ==> sids[j] != sid {
        assert forall j :: 0 <= j < n && j != i ==> sids[..n][j] != sid;
      }
    }
  }

  lemma {:induction false} NoOccurrence(sids: seq<string>, sid: string)
    ensures Occurrences(sids, sid) == 0 <==> forall j :: 0 <= j < |sids| ==> sids[j] != sid
  {
    if |sids| != 0 {
      var n := |sids| - 1;
      NoOccurrence(sids[..n], sid);
      if forall j :: 0 <= j < n ==> sids[..n][j] != sid {
        assert forall j :: 0 <= j < n ==> sids[j] == sids[..n][j];
      }
    }
  }

  /** A sid is marked unique exactly when it is not blank and no other system carries it. */
  method MarkUniqueSids(sids: seq<string>) returns (unique: seq<bool>)
    ensures |unique| == |sids|
    ensures forall i :: 0 <= i < |sids| ==>
                          (unique[i] <==> sids[i] != "" && forall j :: 0 <= j < |sids| && j != i ==> sids[j] != sids[i])
  {
    var counts: map<string, nat> := map[];
    var i := 0;
    while i < |sids|
      invariant 0 <= i <= |sids|
      invariant forall sid :: sid != "" ==> (if sid in counts then counts[sid] else 0) == Occurrences(sids[..i], sid)
    {
      assert sids[..i + 1][..i] == sids[..i];
      if sids[i] != "" {
        counts := counts[sids[i] := (if sids[i] in counts then counts[sids[i]] else 0) + 1];
      }
      i := i + 1;
    }
    assert sids[..|sids|] == sids;
    unique := [];
    i := 0;
    while i < |sids|
      invariant 0 <= i <= |sids| && |unique| == i
      invariant forall k :: 0 <= k < i ==>
                              (unique[k] <==> sids[k] != "" && forall j :: 0 <= j < |sids| && j != k ==> sids[j] != sids[k])
    {
      OccurrencesBound(sids, sids[i], i);
      unique := unique + [sids[i] != "" && sids[i] in counts && counts[sids[i]] == 1];
      i := i + 1;
    }
  }
}
