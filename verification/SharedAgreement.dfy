/** The end-to-end promise of the shared virtual store: projects that meet at
    one shared location agree on everything below it, and a shared entry never
    points outside the shared set. */
module SharedAgreement {
  import opened Digraph
  import opened PackageGraph
  import opened Peers
  import opened Sharing
  import opened Text
  import opened EntryHash
  import opened Closures
  import opened HashTraversal
  import opened SharedStore
  import opened DirectoryEntries
  import opened Links

  /** No text of the graph or of its wiring contains NUL, and no version a slash. */
  ghost predicate CleanGraph(g: PackageGraph.Graph, peers: PeerMap) {
    forall id :: id in g.packages ==>
      && Free(g.packages[id].tarball, NUL) && Free(g.packages[id].integrity.GetOr(""), NUL)
      && (forall d :: d in g.packages[id].dependencies ==> Free(d.name, NUL) && CleanId(d.id))
      && (forall d :: d in PeersOf(peers, id) ==> Free(d.name, NUL) && CleanId(d.id))
  }

  lemma {:induction false} UnfoldingClean(g: PackageGraph.Graph, peers: PeerMap, t: Tree)
    requires Unfolds(g, peers, t) && CleanGraph(g, peers) && CleanId(t.id)
    ensures Clean(t)
    decreases t, 1
  {
    if t.Node? {
      BranchesClean(g, peers, t, t.deps, g.packages[t.id].dependencies);
      BranchesClean(g, peers, t, t.peers, PeersOf(peers, t.id));
    }
  }

  lemma {:induction false} BranchesClean(g: PackageGraph.Graph, peers: PeerMap, t: Tree, bs: seq<Branch>,
                                         edges: seq<Dep>)
    requires CleanGraph(g, peers) && Below(t, bs) && Along(bs, edges) && Under(g, peers, t.id, edges)
    requires AllUnfold(g, peers, bs)
    ensures forall i :: 0 <= i < |bs| ==> Free(bs[i].name, NUL) && Clean(bs[i].tree)
    decreases t, 0
  {
    forall i | 0 <= i < |bs|
      ensures Free(bs[i].name, NUL) && Clean(bs[i].tree)
    {
      assert edges[i] in edges;
      UnfoldingClean(g, peers, bs[i].tree);
    }
  }

  lemma ClosureClean(g: PackageGraph.Graph, peers: PeerMap, id: PackageId)
    requires Tame(g, peers, id) && CleanGraph(g, peers) && CleanId(id)
    ensures Clean(Closure(g, peers, id))
  {
    ClosureUnfolds(g, peers, id);
    UnfoldingClean(g, peers, Closure(g, peers, id));
  }

  /** Where `id` lies in the shared store of a project, for an `id` above no cycle. */
  ghost function SharedLocation(h: Hasher, store: string, g: PackageGraph.Graph, peers: PeerMap, id: PackageId): string
    requires Tame(g, peers, id)
  {
    Location(store, id, TreeHash(h, Closure(g, peers, id)))
  }

  /** Two projects use one location for two packages exactly when the ids and
      the whole closures agree, or else the hash collided on two streams that
      were hashed for them. */
  lemma SameLocationSameClosure(h: Hasher, store: string, g1: PackageGraph.Graph, peers1: PeerMap, id1: PackageId,
                                g2: PackageGraph.Graph, peers2: PeerMap, id2: PackageId)
    requires Tame(g1, peers1, id1) && Tame(g2, peers2, id2)
    requires CleanGraph(g1, peers1) && CleanId(id1) && Free(id1.version, '/')
    requires CleanGraph(g2, peers2) && CleanId(id2) && Free(id2.version, '/')
    ensures var t1, t2 := Closure(g1, peers1, id1), Closure(g2, peers2, id2);
      && (t1 == t2 ==> SharedLocation(h, store, g1, peers1, id1) == SharedLocation(h, store, g2, peers2, id2))
      && (SharedLocation(h, store, g1, peers1, id1) == SharedLocation(h, store, g2, peers2, id2) ==>
            id1 == id2 && (t1 == t2 || Collision(h, t1, t2)))
  {
    var t1, t2 := Closure(g1, peers1, id1), Closure(g2, peers2, id2);
    if SharedLocation(h, store, g1, peers1, id1) == SharedLocation(h, store, g2, peers2, id2) {
      LocationInjective(store, id1, TreeHash(h, t1), id2, TreeHash(h, t2));
      ClosureClean(g1, peers1, id1);
      ClosureClean(g2, peers2, id2);
      EqualHashEqualClosure(h, t1, t2);
    }
  }

  // ---- any two packages, on cycles or above them too ----

  /** Two packages with unfoldings at one location, whatever cycles there are: one id, and
      the unfoldings agree or the hash collided on two streams of theirs. */
  lemma SameLocationSameUnfolding(h: Hasher, store: string, g1: PackageGraph.Graph, peers1: PeerMap, t1: Tree,
                                  g2: PackageGraph.Graph, peers2: PeerMap, t2: Tree)
    requires Unfolds(g1, peers1, t1) && Unfolds(g2, peers2, t2)
    requires CleanGraph(g1, peers1) && CleanId(t1.id) && Free(t1.id.version, '/')
    requires CleanGraph(g2, peers2) && CleanId(t2.id) && Free(t2.id.version, '/')
    requires Location(store, t1.id, TreeHash(h, t1)) == Location(store, t2.id, TreeHash(h, t2))
    ensures t1.id == t2.id && (t1 == t2 || Collision(h, t1, t2))
  {
    LocationInjective(store, t1.id, TreeHash(h, t1), t2.id, TreeHash(h, t2));
    UnfoldingClean(g1, peers1, t1);
    UnfoldingClean(g2, peers2, t2);
    EqualHashEqualClosure(h, t1, t2);
  }

  /** A package above no cycle shares its location with another one only if that lies above
      no cycle too, with the same closure, or the hash collided. */
  lemma SameLocationAsAny(h: Hasher, store: string, g1: PackageGraph.Graph, peers1: PeerMap, id: PackageId,
                          g2: PackageGraph.Graph, peers2: PeerMap, t2: Tree)
    requires Tame(g1, peers1, id) && Unfolds(g2, peers2, t2)
    requires CleanGraph(g1, peers1) && CleanId(id) && Free(id.version, '/')
    requires CleanGraph(g2, peers2) && CleanId(t2.id) && Free(t2.id.version, '/')
    requires SharedLocation(h, store, g1, peers1, id) == Location(store, t2.id, TreeHash(h, t2))
    ensures id == t2.id
    ensures (SameClosure(g1, peers1, g2, peers2, id) && t2 == Closure(g2, peers2, id))
         || Collision(h, Closure(g1, peers1, id), t2)
  {
    var t1 := Closure(g1, peers1, id);
    ClosureUnfolds(g1, peers1, id);
    SameLocationSameUnfolding(h, store, g1, peers1, t1, g2, peers2, t2);
    if t1 == t2 {
      UnbrokenIsClosure(g2, peers2, t2);
    }
  }

  /** A tree that unfolds two graphs has one record in both. */
  lemma SameTreeSameRecord(g1: PackageGraph.Graph, peers1: PeerMap, g2: PackageGraph.Graph, peers2: PeerMap, t: Tree)
    requires Unfolds(g1, peers1, t) && Unfolds(g2, peers2, t) && !t.Again?
    ensures SameRecord(g1, peers1, g2, peers2, t.id)
  {
    if t.Node? {
      SameAlong(t.deps, g1.packages[t.id].dependencies, g2.packages[t.id].dependencies);
      SameAlong(t.peers, PeersOf(peers1, t.id), PeersOf(peers2, t.id));
    }
  }

  lemma SameAlong(bs: seq<Branch>, e1: seq<Dep>, e2: seq<Dep>)
    requires Along(bs, e1) && Along(bs, e2)
    ensures e1 == e2
  {
    forall i | 0 <= i < |e1|
      ensures e1[i] == e2[i]
    {
      assert bs[i].name == e1[i].name && bs[i].tree.id == e1[i].id;
    }
  }

  /** The record of `id` is the same in both graphs: tarball, integrity,
      dependencies and bound peers. */
  ghost predicate SameRecord(g1: PackageGraph.Graph, peers1: PeerMap, g2: PackageGraph.Graph, peers2: PeerMap,
                             id: PackageId) {
    && (id in g1.packages <==> id in g2.packages)
    && (id in g1.packages && id in g2.packages ==>
          && g1.packages[id].tarball == g2.packages[id].tarball
          && g1.packages[id].integrity.GetOr("") == g2.packages[id].integrity.GetOr("")
          && g1.packages[id].dependencies == g2.packages[id].dependencies
          && PeersOf(peers1, id) == PeersOf(peers2, id))
  }

  /** `id` is above no cycle and has one closure in both graphs. */
  ghost predicate SameClosure(g1: PackageGraph.Graph, peers1: PeerMap, g2: PackageGraph.Graph, peers2: PeerMap,
                              id: PackageId) {
    Tame(g1, peers1, id) && Tame(g2, peers2, id) && Closure(g1, peers1, id) == Closure(g2, peers2, id)
  }

  lemma EqualClosureEqualRecord(g1: PackageGraph.Graph, peers1: PeerMap, g2: PackageGraph.Graph, peers2: PeerMap,
                                id: PackageId)
    requires Tame(g1, peers1, id) && Tame(g2, peers2, id)
    requires Closure(g1, peers1, id) == Closure(g2, peers2, id)
    ensures SameRecord(g1, peers1, g2, peers2, id)
    ensures id in g1.packages ==> forall d :: d in EdgesOf(g1, peers1, id) ==> SameClosure(g1, peers1, g2, peers2, d.id)
  {
    if id in g1.packages && id in g2.packages {
      EqualBranchesEqualEdges(g1, peers1, g1.packages[id].dependencies, g2, peers2, g2.packages[id].dependencies, id);
      EqualBranchesEqualEdges(g1, peers1, PeersOf(peers1, id), g2, peers2, PeersOf(peers2, id), id);
    }
  }

  lemma EqualBranchesEqualEdges(g1: PackageGraph.Graph, peers1: PeerMap, e1: seq<Dep>,
                                g2: PackageGraph.Graph, peers2: PeerMap, e2: seq<Dep>, id: PackageId)
    requires Tame(g1, peers1, id) && Tame(g2, peers2, id)
    requires Under(g1, peers1, id, e1) && Under(g2, peers2, id, e2)
    requires Branches(g1, peers1, id, e1) == Branches(g2, peers2, id, e2)
    ensures e1 == e2 && forall d :: d in e1 ==> SameClosure(g1, peers1, g2, peers2, d.id)
  {
    assert |Branches(g1, peers1, id, e1)| == |e1| && |Branches(g2, peers2, id, e2)| == |e2|;
    forall i | 0 <= i < |e1|
      ensures e1[i] == e2[i] && SameClosure(g1, peers1, g2, peers2, e1[i].id)
    {
      assert Branches(g1, peers1, id, e1)[i] == Branches(g2, peers2, id, e2)[i];
      BranchAt(g1, peers1, id, e1, i);
      BranchAt(g2, peers2, id, e2, i);
    }
  }

  lemma BranchAt(g: PackageGraph.Graph, peers: PeerMap, id: PackageId, edges: seq<Dep>, i: nat)
    requires Tame(g, peers, id) && Under(g, peers, id, edges) && i < |edges|
    ensures Tame(g, peers, edges[i].id)
    ensures Branches(g, peers, id, edges)[i] == Branch(edges[i].name, Closure(g, peers, edges[i].id))
  {
    EdgeDescends(g, peers, id, edges, i);
  }

  /** Equal closures mean equal records for everything reachable. */
  lemma EqualClosureEqualBelow(g1: PackageGraph.Graph, peers1: PeerMap, g2: PackageGraph.Graph, peers2: PeerMap,
                               id: PackageId, x: PackageId)
    requires Tame(g1, peers1, id) && Tame(g2, peers2, id)
    requires Closure(g1, peers1, id) == Closure(g2, peers2, id) && Reaches(Edges(g1, peers1), id, x)
    ensures SameRecord(g1, peers1, g2, peers2, x) && SameClosure(g1, peers1, g2, peers2, x)
  {
    var p :| PathBetween(Edges(g1, peers1), id, x, p);
    EqualAlong(g1, peers1, g2, peers2, p);
    EqualClosureEqualRecord(g1, peers1, g2, peers2, x);
  }

  lemma EqualStep(g1: PackageGraph.Graph, peers1: PeerMap, g2: PackageGraph.Graph, peers2: PeerMap, u: PackageId,
                  v: PackageId)
    requires Tame(g1, peers1, u) && Tame(g2, peers2, u)
    requires Edge(Edges(g1, peers1), u, v) && Closure(g1, peers1, u) == Closure(g2, peers2, u)
    ensures SameClosure(g1, peers1, g2, peers2, v)
  {
    EqualClosureEqualRecord(g1, peers1, g2, peers2, u);
    var d :| d in EdgesOf(g1, peers1, u) && d.id == v;
  }

  lemma {:induction false} EqualAlong(g1: PackageGraph.Graph, peers1: PeerMap, g2: PackageGraph.Graph, peers2: PeerMap,
                                      p: seq<PackageId>)
    requires IsPath(Edges(g1, peers1), p) && Tame(g1, peers1, p[0]) && Tame(g2, peers2, p[0])
    requires Closure(g1, peers1, p[0]) == Closure(g2, peers2, p[0])
    ensures SameClosure(g1, peers1, g2, peers2, p[|p| - 1])
    decreases |p|
  {
    if |p| > 1 {
      PathTail(Edges(g1, peers1), p);
      assert Edge(Edges(g1, peers1), p[0], p[1]);
      EqualStep(g1, peers1, g2, peers2, p[0], p[1]);
      EqualAlong(g1, peers1, g2, peers2, p[1..]);
    }
  }

  /** `paths` gives each wiring target of `id` its shared location. */
  ghost predicate PathsFor(h: Hasher, store: string, g: PackageGraph.Graph, peers: PeerMap, id: PackageId,
                           paths: map<PackageId, string>)
    requires id in g.packages
  {
    forall d :: d in EdgesOf(g, peers, id) ==>
        Tame(g, peers, d.id) && d.id in paths && paths[d.id] == SharedLocation(h, store, g, peers, d.id)
  }

  /** Two projects that reach the same shared location wire the same names
      there to the same targets. */
  lemma SameLocationSameLinks(h: Hasher, store: string,
                              g1: PackageGraph.Graph, peers1: PeerMap, id1: PackageId, paths1: map<PackageId, string>,
                              g2: PackageGraph.Graph, peers2: PeerMap, id2: PackageId, paths2: map<PackageId, string>)
    requires Tame(g1, peers1, id1) && Tame(g2, peers2, id2)
    requires CleanGraph(g1, peers1) && CleanId(id1) && Free(id1.version, '/') && id1 in g1.packages
    requires CleanGraph(g2, peers2) && CleanId(id2) && Free(id2.version, '/') && id2 in g2.packages
    requires PathsFor(h, store, g1, peers1, id1, paths1) && PathsFor(h, store, g2, peers2, id2, paths2)
    requires SharedLocation(h, store, g1, peers1, id1) == SharedLocation(h, store, g2, peers2, id2)
    ensures id1 == id2
    ensures Collision(h, Closure(g1, peers1, id1), Closure(g2, peers2, id2)) ||
      (EdgesOf(g1, peers1, id1) == EdgesOf(g2, peers2, id2) &&
       LinksTo(Wired(EdgesOf(g1, peers1, id1)), paths1) == LinksTo(Wired(EdgesOf(g2, peers2, id2)), paths2))
  {
    SameLocationSameClosure(h, store, g1, peers1, id1, g2, peers2, id2);
    if Closure(g1, peers1, id1) == Closure(g2, peers2, id2) {
      EqualClosureEqualLinks(h, store, g1, peers1, paths1, g2, peers2, paths2, id1);
    }
  }

  lemma EqualClosureEqualLinks(h: Hasher, store: string, g1: PackageGraph.Graph, peers1: PeerMap,
                               paths1: map<PackageId, string>,
                               g2: PackageGraph.Graph, peers2: PeerMap, paths2: map<PackageId, string>, id: PackageId)
    requires Tame(g1, peers1, id) && Tame(g2, peers2, id) && id in g1.packages && id in g2.packages
    requires PathsFor(h, store, g1, peers1, id, paths1) && PathsFor(h, store, g2, peers2, id, paths2)
    requires Closure(g1, peers1, id) == Closure(g2, peers2, id)
    ensures EdgesOf(g1, peers1, id) == EdgesOf(g2, peers2, id)
    ensures LinksTo(Wired(EdgesOf(g1, peers1, id)), paths1) == LinksTo(Wired(EdgesOf(g2, peers2, id)), paths2)
  {
    EqualClosureEqualRecord(g1, peers1, g2, peers2, id);
    SamePathsSameLinks(EdgesOf(g1, peers1, id), paths1, paths2);
  }

  lemma SamePathsSameLinks(edges: seq<Dep>, paths1: map<PackageId, string>, paths2: map<PackageId, string>)
    requires forall d :: d in edges ==> d.id in paths1 && d.id in paths2 && paths1[d.id] == paths2[d.id]
    ensures LinksTo(Wired(edges), paths1) == LinksTo(Wired(edges), paths2)
  {
    forall n | n in Wired(edges)
      ensures Wired(edges)[n] in paths1 && Wired(edges)[n] in paths2
      ensures paths1[Wired(edges)[n]] == paths2[Wired(edges)[n]]
    {
      var d :| d in edges && d.id == Wired(edges)[n];
    }
  }

  // ---- populating the store for one project ----

  /** Wiring succeeds exactly when every wired package has a location. */
  lemma LocatedIffTargetsShared(sv: Semver, g: PackageGraph.Graph, id: PackageId, paths: map<PackageId, string>)
    requires WellFormed(g) && id in g.packages
    ensures var peers := ResolvedPeers(sv, g);
      Located(Wired(EdgesOf(g, peers, id)), paths) <==> Edges(g, peers)[id] <= paths.Keys
  {
    NoEdgeLost(sv, g, id);
    LocatedIffIds(EdgesOf(g, ResolvedPeers(sv, g), id), paths);
    IdsOfBoth(g.packages[id].dependencies, PeersOf(ResolvedPeers(sv, g), id));
  }

  lemma IdsOfBoth(a: seq<Dep>, b: seq<Dep>)
    ensures DepIds(a + b) == DepIds(a) + DepIds(b)
  {
  }

  lemma LocatedIffIds(edges: seq<Dep>, paths: map<PackageId, string>)
    requires KeepsEdges(edges, Wired(edges))
    ensures Located(Wired(edges), paths) <==> DepIds(edges) <= paths.Keys
  {
    if Located(Wired(edges), paths) {
      forall x | x in DepIds(edges)
        ensures x in paths
      {
        var d :| d in edges && d.id == x;
        var i :| 0 <= i < |edges| && edges[i] == d;
        assert Wired(edges)[edges[i].name] == x;
      }
    }
  }

  /** The `node_modules` of an entry: whatever an earlier install left there. */
  function Before(before: map<PackageId, map<string, FsEntry>>, id: PackageId): map<string, FsEntry> {
    if id in before then before[id] else map[id.name := Directory]
  }

  ghost predicate TargetsIn(g: PackageGraph.Graph, peers: PeerMap, id: PackageId, ids: set<PackageId>) {
    id in g.packages && Edges(g, peers)[id] <= ids
  }

  /** The entry of `id` after wiring: the earlier content with its links over it. */
  function WiredEntry(g: PackageGraph.Graph, peers: PeerMap, paths: map<PackageId, string>,
                      before: map<PackageId, map<string, FsEntry>>, id: PackageId): map<string, FsEntry>
    requires id in g.packages
  {
    Before(before, id) + LinksTo(Wired(EdgesOf(g, peers, id)), paths)
  }

  method WireEntry(sv: Semver, g: PackageGraph.Graph, peers: PeerMap, paths: map<PackageId, string>,
                   before: map<PackageId, map<string, FsEntry>>, id: PackageId)
    returns (ok: bool, entries: map<string, FsEntry>)
    requires WellFormed(g) && peers == ResolvedPeers(sv, g) && id in g.packages
    ensures ok <==> TargetsIn(g, peers, id, paths.Keys)
    ensures ok ==> entries == WiringOf(g, peers, paths, before)(id)
  {
    var modules := new NodeModules(Before(before, id));
    ok := modules.Wire(EdgesOf(g, peers, id), paths);
    entries := modules.entries;
    LocatedIffTargetsShared(sv, g, id, paths);
  }

  ghost predicate AllTargetsIn(g: PackageGraph.Graph, peers: PeerMap, sources: set<PackageId>, ids: set<PackageId>) {
    forall id :: id in sources ==> TargetsIn(g, peers, id, ids)
  }

  type Wiring = PackageId -> map<string, FsEntry>

  ghost function WiringOf(g: PackageGraph.Graph, peers: PeerMap, paths: map<PackageId, string>,
                          before: map<PackageId, map<string, FsEntry>>): Wiring {
    id => if id in g.packages then WiredEntry(g, peers, paths, before, id) else map[]
  }

  ghost predicate EntriesRight(wiring: Wiring, after: map<PackageId, map<string, FsEntry>>) {
    forall id :: id in after ==> after[id] == wiring(id)
  }

  /** The entries done so far are right, unless one of them misses a target. */
  ghost predicate WiredSoFar(g: PackageGraph.Graph, peers: PeerMap, paths: map<PackageId, string>,
                             before: map<PackageId, map<string, FsEntry>>, ok: bool,
                             done: map<PackageId, map<string, FsEntry>>) {
    && (ok <==> AllTargetsIn(g, peers, done.Keys, paths.Keys))
    && (ok ==> EntriesRight(WiringOf(g, peers, paths, before), done))
  }

  method WireShared(sv: Semver, g: PackageGraph.Graph, peers: PeerMap, paths: map<PackageId, string>,
                    before: map<PackageId, map<string, FsEntry>>)
    returns (ok: bool, after: map<PackageId, map<string, FsEntry>>)
    requires WellFormed(g) && peers == ResolvedPeers(sv, g) && paths.Keys <= g.packages.Keys
    ensures ok <==> AllTargetsIn(g, peers, paths.Keys, paths.Keys)
    ensures after.Keys == paths.Keys && (ok ==> EntriesRight(WiringOf(g, peers, paths, before), after))
  {
    ok, after := true, map[];
    var todo := paths.Keys;
    NothingWired(g, peers, paths, before);
    while todo != {}
      invariant after.Keys + todo == paths.Keys
      invariant WiredSoFar(g, peers, paths, before, ok, after)
    {
      var id :| id in todo;
      assert id in paths.Keys && id in g.packages.Keys;
      MoveOne(after.Keys, todo, id);
      ok, after := WireNext(sv, g, peers, paths, before, id, ok, after);
      todo := todo - {id};
    }
    AllWired(g, peers, paths, before, ok, after);
  }

  lemma NothingWired(g: PackageGraph.Graph, peers: PeerMap, paths: map<PackageId, string>,
                     before: map<PackageId, map<string, FsEntry>>)
    ensures WiredSoFar(g, peers, paths, before, true, map[])
  {
  }

  lemma AllWired(g: PackageGraph.Graph, peers: PeerMap, paths: map<PackageId, string>,
                 before: map<PackageId, map<string, FsEntry>>, ok: bool,
                 done: map<PackageId, map<string, FsEntry>>)
    requires WiredSoFar(g, peers, paths, before, ok, done) && done.Keys + {} == paths.Keys
    ensures done.Keys == paths.Keys && (ok <==> AllTargetsIn(g, peers, paths.Keys, paths.Keys))
    ensures ok ==> EntriesRight(WiringOf(g, peers, paths, before), done)
  {
    assert done.Keys + {} == done.Keys;
  }

  /** One task of the parallel loop, folded into the results so far. */
  method WireNext(sv: Semver, g: PackageGraph.Graph, peers: PeerMap, paths: map<PackageId, string>,
                  before: map<PackageId, map<string, FsEntry>>, id: PackageId,
                  okBefore: bool, done: map<PackageId, map<string, FsEntry>>)
    returns (ok: bool, after: map<PackageId, map<string, FsEntry>>)
    requires WellFormed(g) && peers == ResolvedPeers(sv, g) && id in g.packages
    requires WiredSoFar(g, peers, paths, before, okBefore, done)
    ensures after.Keys == done.Keys + {id}
    ensures WiredSoFar(g, peers, paths, before, ok, after)
  {
    var wired, entries := WireEntry(sv, g, peers, paths, before, id);
    OneMoreSource(g, peers, done.Keys, id, paths.Keys);
    if okBefore && wired {
      OneMoreEntry(WiringOf(g, peers, paths, before), done, id, entries);
    }
    ok, after := okBefore && wired, done[id := entries];
  }

  lemma MoveOne<T>(done: set<T>, todo: set<T>, x: T)
    requires x in todo
    ensures (done + {x}) + (todo - {x}) == done + todo
  {
  }

  lemma OneMoreEntry(wiring: Wiring, after: map<PackageId, map<string, FsEntry>>, id: PackageId,
                     entries: map<string, FsEntry>)
    requires EntriesRight(wiring, after) && entries == wiring(id)
    ensures EntriesRight(wiring, after[id := entries])
  {
  }

  lemma OneMoreSource(g: PackageGraph.Graph, peers: PeerMap, sources: set<PackageId>, id: PackageId,
                      ids: set<PackageId>)
    ensures AllTargetsIn(g, peers, sources + {id}, ids) <==>
      AllTargetsIn(g, peers, sources, ids) && TargetsIn(g, peers, id, ids)
  {
    if AllTargetsIn(g, peers, sources + {id}, ids) {
      assert id in sources + {id};
      forall x | x in sources
        ensures TargetsIn(g, peers, x, ids)
      {
        assert x in sources + {id};
      }
    }
  }

  /** In a closed graph a bound peer is a package of the graph, like every dependency. */
  lemma ClosedEdges(sv: Semver, g: PackageGraph.Graph, id: PackageId)
    requires WellFormed(g) && ClosedGraph(g) && id in g.packages
    ensures TargetsIn(g, ResolvedPeers(sv, g), id, g.packages.Keys)
  {
    var peers := ResolvedPeers(sv, g);
    ResolvedPeersMeaning(sv, g, id);
    forall d | d in PeersOf(peers, id)
      ensures d.id in g.packages
    {
      var r :| r in g.packages[id].peerRanges && r.name == d.name && BoundWell(sv, g, r, d.id);
    }
  }

  lemma ClosedGraphHasTargets(sv: Semver, g: PackageGraph.Graph, ids: set<PackageId>)
    requires WellFormed(g) && ids <= g.packages.Keys
    ensures ClosedGraph(g) ==> AllTargetsIn(g, ResolvedPeers(sv, g), ids, g.packages.Keys)
  {
    if ClosedGraph(g) {
      forall id | id in ids
        ensures TargetsIn(g, ResolvedPeers(sv, g), id, g.packages.Keys)
      {
        ClosedEdges(sv, g, id);
      }
    }
  }

  /** Every location of a package above no cycle is that of its closure. */
  ghost predicate LocatedPlainly(sv: Semver, h: Hasher, store: string, g: PackageGraph.Graph,
                                 paths: map<PackageId, string>) {
    forall id :: id in paths && Tame(g, ResolvedPeers(sv, g), id) ==>
      paths[id] == SharedLocation(h, store, g, ResolvedPeers(sv, g), id)
  }

  /** Every location is that of an unfolding of the package. */
  ghost predicate LocatedSomehow(sv: Semver, h: Hasher, store: string, g: PackageGraph.Graph,
                                 paths: map<PackageId, string>) {
    forall id :: id in paths ==> exists t :: PlacedBy(sv, h, store, g, paths, id, t)
  }

  ghost predicate PlacedBy(sv: Semver, h: Hasher, store: string, g: PackageGraph.Graph,
                           paths: map<PackageId, string>, id: PackageId, t: Tree) {
    && id in paths && t.id == id && !t.Again? && Unfolds(g, ResolvedPeers(sv, g), t)
    && paths[id] == Location(store, id, TreeHash(h, t))
  }

  /** The paths are the locations that the hashes give. */
  ghost predicate PathsBy(store: string, paths: map<PackageId, string>, hashes: Memo) {
    forall id :: id in paths ==> id in hashes && paths[id] == Location(store, id, hashes[id])
  }

  lemma PlacedSomehow(sv: Semver, h: Hasher, store: string, g: PackageGraph.Graph, paths: map<PackageId, string>,
                      hashes: Memo)
    requires MemoUnfolds(h, g, ResolvedPeers(sv, g), hashes) && PathsBy(store, paths, hashes)
    ensures LocatedSomehow(sv, h, store, g, paths)
  {
    forall id | id in paths
      ensures exists t :: PlacedBy(sv, h, store, g, paths, id, t)
    {
      assert HashedSomehow(h, g, ResolvedPeers(sv, g), id, hashes[id]);
      var t :| Hashed(h, g, ResolvedPeers(sv, g), id, t, hashes[id]) && !t.Again?;
      assert PlacedBy(sv, h, store, g, paths, id, t);
    }
  }

  lemma PlacedPlainly(sv: Semver, h: Hasher, store: string, g: PackageGraph.Graph, paths: map<PackageId, string>,
                      hashes: Memo)
    requires HashedPlainly(h, g, ResolvedPeers(sv, g), hashes) && PathsBy(store, paths, hashes)
    ensures LocatedPlainly(sv, h, store, g, paths)
  {
  }

  /** A populated store: every edge of a located package leads to a located package,
      and every entry is what it was before with its links over it. */
  ghost predicate Populated(sv: Semver, h: Hasher, store: string, g: PackageGraph.Graph,
                            before: map<PackageId, map<string, FsEntry>>,
                            paths: map<PackageId, string>, after: map<PackageId, map<string, FsEntry>>) {
    && AllTargetsIn(g, ResolvedPeers(sv, g), paths.Keys, paths.Keys)
    && LocatedPlainly(sv, h, store, g, paths) && LocatedSomehow(sv, h, store, g, paths)
    && after.Keys == paths.Keys && EntriesRight(WiringOf(g, ResolvedPeers(sv, g), paths, before), after)
  }

  /** `ids` are the packages of the graph that lead to no seed. */
  ghost predicate SharedExactly(s: Settings, g: PackageGraph.Graph, peers: PeerMap, ids: set<PackageId>) {
    forall id :: id in ids <==> id in g.packages && !LeadsToSeed(s, g, peers, id)
  }

  /** Every required peer of each of `ids` is provided by something. */
  ghost predicate PeersProvided(sv: Semver, g: PackageGraph.Graph, ids: set<PackageId>) {
    forall id, r :: id in ids && id in g.packages && r in g.packages[id].peerRanges ==>
      PeerAvailable(sv, g, g.packages[id].dependencies, r)
  }

  lemma SharedPeersProvided(sv: Semver, s: Settings, g: PackageGraph.Graph, ids: set<PackageId>)
    requires WellFormed(g) && NoneKept(s, g, ResolvedPeers(sv, g), ids)
    ensures PeersProvided(sv, g, ids)
  {
    forall id, r | id in ids && id in g.packages && r in g.packages[id].peerRanges
      ensures PeerAvailable(sv, g, g.packages[id].dependencies, r)
    {
      ResolvedPeersMeaning(sv, g, id);
    }
  }

  /** `ids` lead to nothing that is kept, are exactly the packages below which everything is
      shareable, each of them and, if all are, all; and their peers are provided. */
  ghost predicate SharedRightly(sv: Semver, s: Settings, g: PackageGraph.Graph, ids: set<PackageId>) {
    var peers := ResolvedPeers(sv, g);
    && SharedExactly(s, g, peers, ids) && SharedAre(s, g, peers, ids) && NoneKept(s, g, peers, ids)
    && PeersProvided(sv, g, ids)
  }

  /** Give every shareable package its location and wire its entry.  The
      targets are shared themselves, and nothing is missing, exactly when the
      shared packages' edges stay inside the graph. */
  method PopulateShared(sv: Semver, s: Settings, h: Hasher, store: string, g: PackageGraph.Graph,
                        before: map<PackageId, map<string, FsEntry>>)
    returns (ok: bool, paths: map<PackageId, string>, after: map<PackageId, map<string, FsEntry>>)
    requires WellFormed(g)
    ensures SharedRightly(sv, s, g, paths.Keys)
    ensures ok <==> AllTargetsIn(g, ResolvedPeers(sv, g), paths.Keys, g.packages.Keys)
    ensures ClosedGraph(g) ==> ok
    ensures ok ==> Populated(sv, h, store, g, before, paths, after)
    ensures LocatedPlainly(sv, h, store, g, paths) && LocatedSomehow(sv, h, store, g, paths)
  {
    var shared := SharedPackages(sv, s, g);
    paths := SharedPaths(sv, h, store, g, shared);
    var peers := ResolveUniquePeers(sv, g);
    ok, after := WireShared(sv, g, peers, paths, before);
    SharedTargets(s, g, peers, paths.Keys);
    ClosedGraphHasTargets(sv, g, paths.Keys);
  }

  /** The packages that may be shared. */
  method SharedPackages(sv: Semver, s: Settings, g: PackageGraph.Graph) returns (shared: set<PackageId>)
    requires WellFormed(g)
    ensures shared <= g.packages.Keys && SharedRightly(sv, s, g, shared)
  {
    var peers := ResolveUniquePeers(sv, g);
    var local := LocalPackageIds(s, g, peers);
    shared := SharedIds(g, local);
    AllRight(sv, s, g, local);
  }

  lemma AllRight(sv: Semver, s: Settings, g: PackageGraph.Graph, local: set<PackageId>)
    requires WellFormed(g)
    requires forall id :: id in local <==> id in g.packages && LeadsToSeed(s, g, ResolvedPeers(sv, g), id)
    ensures SharedRightly(sv, s, g, SharedIds(g, local))
  {
    LeadersAreLocal(s, g, ResolvedPeers(sv, g), local);
    SharedPeersProvided(sv, s, g, SharedIds(g, local));
  }

  /** The location of each of them. */
  method SharedPaths(sv: Semver, h: Hasher, store: string, g: PackageGraph.Graph, shared: set<PackageId>)
    returns (paths: map<PackageId, string>)
    requires shared <= g.packages.Keys
    ensures paths.Keys == shared
    ensures LocatedPlainly(sv, h, store, g, paths) && LocatedSomehow(sv, h, store, g, paths)
  {
    var peers := ResolveUniquePeers(sv, g);
    var hashes := GlobalEntryHashes(h, g, peers);
    paths := map id | id in shared :: Location(store, id, hashes[id]);
    assert PathsBy(store, paths, hashes);
    PlacedSomehow(sv, h, store, g, paths, hashes);
    PlacedPlainly(sv, h, store, g, paths, hashes);
  }

  /** The edges of shared packages stay among them as far as they stay in the graph. */
  lemma SharedTargets(s: Settings, g: PackageGraph.Graph, peers: PeerMap, ids: set<PackageId>)
    requires SharedExactly(s, g, peers, ids)
    ensures AllTargetsIn(g, peers, ids, ids) <==> AllTargetsIn(g, peers, ids, g.packages.Keys)
  {
    var local := g.packages.Keys - ids;
    assert SharedIds(g, local) == ids;
    forall id | id in ids
      ensures TargetsIn(g, peers, id, ids) <==> TargetsIn(g, peers, id, g.packages.Keys)
    {
      SharedPointsAtShared(s, g, peers, local, id);
    }
  }

  // ---- two projects ----

  /** A project after it has populated the store. */
  datatype Project = Project(graph: PackageGraph.Graph, before: map<PackageId, map<string, FsEntry>>,
                             paths: map<PackageId, string>, after: map<PackageId, map<string, FsEntry>>)

  ghost predicate HasPopulated(sv: Semver, h: Hasher, store: string, p: Project) {
    Populated(sv, h, store, p.graph, p.before, p.paths, p.after)
  }

  /** `id` has a location, lies above no cycle, and no text that is hashed for it is ambiguous. */
  ghost predicate Shares(sv: Semver, p: Project, id: PackageId) {
    HasPlace(sv, p, id) && id in p.graph.packages && Tame(p.graph, ResolvedPeers(sv, p.graph), id)
  }

  /** `id` has a location, and no text that is hashed for it is ambiguous. */
  ghost predicate HasPlace(sv: Semver, p: Project, id: PackageId) {
    id in p.paths && CleanGraph(p.graph, ResolvedPeers(sv, p.graph)) && CleanId(id) && Free(id.version, '/')
  }

  /** The tree whose hash names the location of `id`. */
  ghost predicate Names(sv: Semver, h: Hasher, store: string, p: Project, id: PackageId, t: Tree) {
    PlacedBy(sv, h, store, p.graph, p.paths, id, t)
  }

  /** The links a project puts into the entry of `id`. */
  ghost function LinksOf(sv: Semver, p: Project, id: PackageId): map<string, FsEntry>
    requires id in p.graph.packages
  {
    LinksTo(Wired(EdgesOf(p.graph, ResolvedPeers(sv, p.graph), id)), p.paths)
  }

  lemma PopulatedEntry(sv: Semver, h: Hasher, store: string, p: Project, id: PackageId)
    requires HasPopulated(sv, h, store, p) && Shares(sv, p, id)
    ensures id in p.after && p.after[id] == Before(p.before, id) + LinksOf(sv, p, id)
    ensures p.paths[id] == SharedLocation(h, store, p.graph, ResolvedPeers(sv, p.graph), id)
  {
    assert p.after[id] == WiringOf(p.graph, ResolvedPeers(sv, p.graph), p.paths, p.before)(id);
  }

  lemma PopulatedPaths(sv: Semver, h: Hasher, store: string, p: Project, id: PackageId)
    requires HasPopulated(sv, h, store, p) && Shares(sv, p, id)
    ensures PathsFor(h, store, p.graph, ResolvedPeers(sv, p.graph), id, p.paths)
  {
    var g, peers := p.graph, ResolvedPeers(sv, p.graph);
    assert TargetsIn(g, peers, id, p.paths.Keys);
    IdsOfBoth(g.packages[id].dependencies, PeersOf(peers, id));
    forall d | d in EdgesOf(g, peers, id)
      ensures Tame(g, peers, d.id) && d.id in p.paths && p.paths[d.id] == SharedLocation(h, store, g, peers, d.id)
    {
      assert d.id in DepIds(EdgesOf(g, peers, id));
      assert Edge(Edges(g, peers), id, d.id);
      HeightFalls(Edges(g, peers), id, d.id);
    }
  }

  /** After both projects have populated the store: where they use one location for packages
      above no cycle, it is one package, and both have put the same links into its entry, or
      the hash collided. */
  lemma ProjectsAgree(sv: Semver, h: Hasher, store: string, p1: Project, id1: PackageId, p2: Project, id2: PackageId)
    requires HasPopulated(sv, h, store, p1) && Shares(sv, p1, id1)
    requires HasPopulated(sv, h, store, p2) && Shares(sv, p2, id2)
    requires p1.paths[id1] == p2.paths[id2]
    ensures id1 == id2
    ensures LinksOf(sv, p1, id1) == LinksOf(sv, p2, id2)
         || Collision(h, Closure(p1.graph, ResolvedPeers(sv, p1.graph), id1),
                      Closure(p2.graph, ResolvedPeers(sv, p2.graph), id2))
    ensures id1 in p1.after && p1.after[id1] == Before(p1.before, id1) + LinksOf(sv, p1, id1)
    ensures id2 in p2.after && p2.after[id2] == Before(p2.before, id2) + LinksOf(sv, p2, id2)
  {
    PopulatedEntry(sv, h, store, p1, id1);
    PopulatedEntry(sv, h, store, p2, id2);
    PopulatedPaths(sv, h, store, p1, id1);
    PopulatedPaths(sv, h, store, p2, id2);
    SameLocationSameLinks(h, store, p1.graph, ResolvedPeers(sv, p1.graph), id1, p1.paths,
                          p2.graph, ResolvedPeers(sv, p2.graph), id2, p2.paths);
  }

  lemma PlaceOf(sv: Semver, h: Hasher, store: string, p: Project, id: PackageId) returns (t: Tree)
    requires HasPopulated(sv, h, store, p) && id in p.paths
    ensures Names(sv, h, store, p, id, t)
  {
    t :| PlacedBy(sv, h, store, p.graph, p.paths, id, t);
  }

  /** Any two packages at one location, on cycles or not, are one package with one tarball,
      integrity and set of edges in both projects, or the hash collided. */
  lemma AnyTwoAgree(sv: Semver, h: Hasher, store: string, p1: Project, id1: PackageId, p2: Project, id2: PackageId)
    returns (t1: Tree, t2: Tree)
    requires HasPopulated(sv, h, store, p1) && HasPlace(sv, p1, id1)
    requires HasPopulated(sv, h, store, p2) && HasPlace(sv, p2, id2)
    requires p1.paths[id1] == p2.paths[id2]
    ensures id1 == id2 && Names(sv, h, store, p1, id1, t1) && Names(sv, h, store, p2, id2, t2)
    ensures SameRecord(p1.graph, ResolvedPeers(sv, p1.graph), p2.graph, ResolvedPeers(sv, p2.graph), id1)
         || Collision(h, t1, t2)
  {
    t1 := PlaceOf(sv, h, store, p1, id1);
    t2 := PlaceOf(sv, h, store, p2, id2);
    TreesAgree(sv, h, store, p1, id1, t1, p2, id2, t2);
  }

  lemma TreesAgree(sv: Semver, h: Hasher, store: string, p1: Project, id1: PackageId, t1: Tree,
                   p2: Project, id2: PackageId, t2: Tree)
    requires HasPlace(sv, p1, id1) && Names(sv, h, store, p1, id1, t1)
    requires HasPlace(sv, p2, id2) && Names(sv, h, store, p2, id2, t2)
    requires p1.paths[id1] == p2.paths[id2]
    ensures id1 == id2
    ensures SameRecord(p1.graph, ResolvedPeers(sv, p1.graph), p2.graph, ResolvedPeers(sv, p2.graph), id1)
         || Collision(h, t1, t2)
  {
    var peers1, peers2 := ResolvedPeers(sv, p1.graph), ResolvedPeers(sv, p2.graph);
    SameLocationSameUnfolding(h, store, p1.graph, peers1, t1, p2.graph, peers2, t2);
    if t1 == t2 {
      SameTreeSameRecord(p1.graph, peers1, p2.graph, peers2, t1);
    }
  }

  /** Where a package above no cycle meets any package of another project, that one lies
      above no cycle too, and both projects have put the same links into the entry, or the
      hash collided. */
  lemma MeetsAnyPackage(sv: Semver, h: Hasher, store: string, p1: Project, id1: PackageId, p2: Project, id2: PackageId)
    returns (t2: Tree)
    requires HasPopulated(sv, h, store, p1) && Shares(sv, p1, id1)
    requires HasPopulated(sv, h, store, p2) && HasPlace(sv, p2, id2)
    requires p1.paths[id1] == p2.paths[id2]
    ensures id1 == id2 && Names(sv, h, store, p2, id2, t2)
    ensures (Shares(sv, p2, id2) && LinksOf(sv, p1, id1) == LinksOf(sv, p2, id2))
         || Collision(h, Closure(p1.graph, ResolvedPeers(sv, p1.graph), id1), t2)
  {
    PopulatedEntry(sv, h, store, p1, id1);
    t2 := PlaceOf(sv, h, store, p2, id2);
    AlsoShares(sv, h, store, p1, id1, p2, id2, t2);
    if Shares(sv, p2, id2) && t2 == Closure(p2.graph, ResolvedPeers(sv, p2.graph), id2) {
      ProjectsAgree(sv, h, store, p1, id1, p2, id2);
    }
  }

  lemma AlsoShares(sv: Semver, h: Hasher, store: string, p1: Project, id1: PackageId,
                   p2: Project, id2: PackageId, t2: Tree)
    requires Shares(sv, p1, id1) && HasPlace(sv, p2, id2) && Names(sv, h, store, p2, id2, t2)
    requires p2.paths[id2] == SharedLocation(h, store, p1.graph, ResolvedPeers(sv, p1.graph), id1)
    ensures id1 == id2
    ensures Collision(h, Closure(p1.graph, ResolvedPeers(sv, p1.graph), id1), t2) ||
      (Shares(sv, p2, id2) && t2 == Closure(p2.graph, ResolvedPeers(sv, p2.graph), id2))
  {
    var peers1, peers2 := ResolvedPeers(sv, p1.graph), ResolvedPeers(sv, p2.graph);
    SameLocationAsAny(h, store, p1.graph, peers1, id1, p2.graph, peers2, t2);
    if SameClosure(p1.graph, peers1, p2.graph, peers2, id1) {
      EqualClosureEqualRecord(p1.graph, peers1, p2.graph, peers2, id1);
    }
  }
}
