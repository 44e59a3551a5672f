/** Which packages may live in the shared virtual store and which stay
    project-local (snpm-core/src/linker/virtual_store.rs,
    `local_global_virtual_store_package_ids`). */
module Sharing {
  import opened Wrappers
  import opened Digraph
  import opened PackageGraph

  /** The settings that keep a package local whatever its neighbours are. */
  datatype Settings = Settings(disabled: set<string>, workspaceDisabled: Option<set<string>>,
                               patched: set<PackageId>, scriptAllowed: string -> bool, isDirectory: string -> bool)

  predicate Disabled(s: Settings, name: string) {
    if s.workspaceDisabled.Some? then name in s.workspaceDisabled.value else name in s.disabled
  }

  const FILE_SCHEME := "file://"

  predicate HasLocalSource(s: Settings, package: Package) {
    FILE_SCHEME <= package.tarball && s.isDirectory(package.tarball[|FILE_SCHEME|..])
  }

  predicate IsProjectLocal(s: Settings, peers: PeerMap, id: PackageId, package: Package) {
    || Disabled(s, id.name)
    || id in s.patched
    || s.scriptAllowed(id.name)
    || HasLocalSource(s, package)
    || (package.peerRanges != [] && id !in peers)
  }

  ghost predicate Seed(s: Settings, g: PackageGraph.Graph, peers: PeerMap, id: PackageId) {
    id in g.packages && IsProjectLocal(s, peers, id, g.packages[id])
  }

  /** `id` leads to a seed by dependency and resolved-peer edges. */
  ghost predicate LeadsToSeed(s: Settings, g: PackageGraph.Graph, peers: PeerMap, id: PackageId) {
    exists seed :: Seed(s, g, peers, seed) && Reaches(Edges(g, peers), id, seed)
  }

  /** No package outside `local` is a seed or points into `local`. */
  ghost predicate Saturated(s: Settings, g: PackageGraph.Graph, peers: PeerMap, local: set<PackageId>) {
    forall id :: id in g.packages && id !in local ==> !Seed(s, g, peers, id) && Edges(g, peers)[id] !! local
  }

  /** Nothing about the package itself keeps it out of the shared store: no patch, no
      scripts that may run, no list that names it (the workspace's if it has one), no
      directory as source, and no peers unless all are resolved. */
  ghost predicate Shareable(s: Settings, g: PackageGraph.Graph, peers: PeerMap, id: PackageId)
    requires id in g.packages
  {
    && id !in s.patched
    && !s.scriptAllowed(id.name)
    && (forall names :: s.workspaceDisabled == Some(names) ==> id.name !in names)
    && (s.workspaceDisabled == None ==> id.name !in s.disabled)
    && (forall dir :: g.packages[id].tarball == "file://" + dir ==> !s.isDirectory(dir))
    && (id in peers || g.packages[id].peerRanges == [])
  }

  lemma SeedIsNotShareable(s: Settings, g: PackageGraph.Graph, peers: PeerMap, id: PackageId)
    requires id in g.packages
    ensures Seed(s, g, peers, id) <==> !Shareable(s, g, peers, id)
  {
    var tarball := g.packages[id].tarball;
    if FILE_SCHEME <= tarball {
      assert tarball == "file://" + tarball[|FILE_SCHEME|..];
    }
    forall dir | tarball == "file://" + dir
      ensures FILE_SCHEME <= tarball && tarball[|FILE_SCHEME|..] == dir
    {
    }
  }

  ghost predicate AllBelowShareable(s: Settings, g: PackageGraph.Graph, peers: PeerMap, id: PackageId) {
    forall below :: below in g.packages && Reaches(Edges(g, peers), id, below) ==> Shareable(s, g, peers, below)
  }

  /** `ids` are exactly the packages below which everything is shareable. */
  ghost predicate SharedAre(s: Settings, g: PackageGraph.Graph, peers: PeerMap, ids: set<PackageId>) {
    && ids <= g.packages.Keys
    && forall id :: id in g.packages ==> (id in ids <==> AllBelowShareable(s, g, peers, id))
  }

  /** Each of `ids` is shareable itself, and they are all packages if all are shareable. */
  ghost predicate NoneKept(s: Settings, g: PackageGraph.Graph, peers: PeerMap, ids: set<PackageId>) {
    && (forall id :: id in ids ==> id in g.packages && Shareable(s, g, peers, id))
    && ((forall id :: id in g.packages ==> Shareable(s, g, peers, id)) ==> ids == g.packages.Keys)
  }

  lemma LeadsOrAllBelow(s: Settings, g: PackageGraph.Graph, peers: PeerMap, id: PackageId)
    requires id in g.packages
    ensures LeadsToSeed(s, g, peers, id) <==> !AllBelowShareable(s, g, peers, id)
    ensures AllBelowShareable(s, g, peers, id) ==> Shareable(s, g, peers, id)
  {
    ReachesSelf(Edges(g, peers), id);
    if seed :| Seed(s, g, peers, seed) && Reaches(Edges(g, peers), id, seed) {
      SeedIsNotShareable(s, g, peers, seed);
    }
    if below :| below in g.packages && Reaches(Edges(g, peers), id, below) && !Shareable(s, g, peers, below) {
      SeedIsNotShareable(s, g, peers, below);
      assert Seed(s, g, peers, below);
    }
  }

  lemma LeadersAreLocal(s: Settings, g: PackageGraph.Graph, peers: PeerMap, local: set<PackageId>)
    requires forall id :: id in local <==> id in g.packages && LeadsToSeed(s, g, peers, id)
    ensures SharedAre(s, g, peers, SharedIds(g, local)) && NoneKept(s, g, peers, SharedIds(g, local))
  {
    forall id | id in g.packages
      ensures id in SharedIds(g, local) <==> AllBelowShareable(s, g, peers, id)
      ensures AllBelowShareable(s, g, peers, id) ==> Shareable(s, g, peers, id)
    {
      LeadsOrAllBelow(s, g, peers, id);
    }
    if forall id :: id in g.packages ==> Shareable(s, g, peers, id) {
      forall id | id in g.packages
        ensures id in SharedIds(g, local)
      {
        assert AllBelowShareable(s, g, peers, id);
      }
    }
  }

  method LocalPackageIds(s: Settings, g: PackageGraph.Graph, peers: PeerMap) returns (local: set<PackageId>)
    ensures forall id :: id in local <==> id in g.packages && LeadsToSeed(s, g, peers, id)
    ensures SharedAre(s, g, peers, g.packages.Keys - local) && NoneKept(s, g, peers, g.packages.Keys - local)
  {
    local := Spread(s, g, peers);
    SaturatedIsAll(s, g, peers, local);
  }

  /** The loop that adds what leads to a local package until a pass adds nothing. */
  method Spread(s: Settings, g: PackageGraph.Graph, peers: PeerMap) returns (local: set<PackageId>)
    ensures AllLead(s, g, peers, local) && Saturated(s, g, peers, local)
  {
    local := SeedIds(s, g, peers);
    var changed := true;
    while changed
      invariant SeedsIn(s, g, peers, local) && AllLead(s, g, peers, local)
      invariant !changed ==> Saturated(s, g, peers, local)
      decreases g.packages.Keys - local, changed
    {
      ghost var before := local;
      changed, local := SpreadOnce(s, g, peers, local);
      SeedsStay(s, g, peers, before, local);
    }
  }

  lemma SeedsStay(s: Settings, g: PackageGraph.Graph, peers: PeerMap, before: set<PackageId>, after: set<PackageId>)
    requires SeedsIn(s, g, peers, before) && before <= after
    ensures SeedsIn(s, g, peers, after)
  {
  }

  ghost predicate SeedsIn(s: Settings, g: PackageGraph.Graph, peers: PeerMap, local: set<PackageId>) {
    forall id :: Seed(s, g, peers, id) ==> id in local
  }

  /** The packages that are kept local for themselves. */
  method SeedIds(s: Settings, g: PackageGraph.Graph, peers: PeerMap) returns (local: set<PackageId>)
    ensures SeedsIn(s, g, peers, local) && AllLead(s, g, peers, local)
  {
    local := {};
    var todo := g.packages.Keys;
    while todo != {}
      invariant todo <= g.packages.Keys
      invariant forall id :: id in local <==> id in g.packages.Keys - todo && Seed(s, g, peers, id)
    {
      var id :| id in todo;
      if IsProjectLocal(s, peers, id, g.packages[id]) {
        local := local + {id};
      }
      todo := todo - {id};
    }
    SeedsLead(s, g, peers, local);
  }

  lemma SaturatedIsAll(s: Settings, g: PackageGraph.Graph, peers: PeerMap, local: set<PackageId>)
    requires AllLead(s, g, peers, local) && Saturated(s, g, peers, local)
    ensures forall id :: id in local <==> id in g.packages && LeadsToSeed(s, g, peers, id)
    ensures SharedAre(s, g, peers, g.packages.Keys - local) && NoneKept(s, g, peers, g.packages.Keys - local)
  {
    forall id | id in g.packages && LeadsToSeed(s, g, peers, id)
      ensures id in local
    {
      SaturatedContains(s, g, peers, local, id);
    }
    LeadersAreLocal(s, g, peers, local);
  }

  /** Outside `todo` and `local`, no package points into `local`. */
  ghost predicate Untouched(g: PackageGraph.Graph, peers: PeerMap, todo: set<PackageId>, local: set<PackageId>) {
    forall id :: id in g.packages && id !in todo && id !in local ==> Edges(g, peers)[id] !! local
  }

  lemma StillUntouched(g: PackageGraph.Graph, peers: PeerMap, todo: set<PackageId>, local: set<PackageId>,
                       id: PackageId)
    requires Untouched(g, peers, todo, local) && id in g.packages && (id in local || !PointsInto(g, peers, id, local))
    ensures Untouched(g, peers, todo - {id}, local)
  {
  }

  /** One pass over the packages, adding those that point into `before`. */
  method SpreadOnce(s: Settings, g: PackageGraph.Graph, peers: PeerMap, before: set<PackageId>)
    returns (changed: bool, local: set<PackageId>)
    requires SeedsIn(s, g, peers, before)
    requires AllLead(s, g, peers, before)
    ensures before <= local
    ensures AllLead(s, g, peers, local)
    ensures changed ==> before < local
    ensures !changed ==> local == before && Saturated(s, g, peers, local)
  {
    changed, local := false, before;
    var todo := g.packages.Keys;
    while todo != {}
      invariant todo <= g.packages.Keys && before <= local
      invariant AllLead(s, g, peers, local)
      invariant if changed then before < local else local == before && Untouched(g, peers, todo, local)
    {
      var id :| id in todo;
      if id !in local && PointsInto(g, peers, id, local) {
        OneMoreLeads(s, g, peers, local, id);
        local := local + {id};
        changed := true;
      } else if !changed {
        StillUntouched(g, peers, todo, local, id);
      }
      todo := todo - {id};
    }
  }

  /** Some dependency or resolved peer of `id` is local. */
  predicate PointsInto(g: PackageGraph.Graph, peers: PeerMap, id: PackageId, local: set<PackageId>)
    requires id in g.packages
    ensures PointsInto(g, peers, id, local) <==> !(Edges(g, peers)[id] !! local)
  {
    !(DepIds(g.packages[id].dependencies) !! local) || !(DepIds(PeersOf(peers, id)) !! local)
  }

  ghost predicate AllLead(s: Settings, g: PackageGraph.Graph, peers: PeerMap, local: set<PackageId>) {
    forall id :: id in local ==> id in g.packages && LeadsToSeed(s, g, peers, id)
  }

  lemma SeedsLead(s: Settings, g: PackageGraph.Graph, peers: PeerMap, local: set<PackageId>)
    requires forall id :: id in local ==> Seed(s, g, peers, id)
    ensures AllLead(s, g, peers, local)
  {
    forall id | id in local
      ensures LeadsToSeed(s, g, peers, id)
    {
      ReachesSelf(Edges(g, peers), id);
    }
  }

  lemma PointsAtLocal(s: Settings, g: PackageGraph.Graph, peers: PeerMap, local: set<PackageId>, id: PackageId)
    requires id in g.packages && !(Edges(g, peers)[id] !! local)
    requires forall i :: i in local ==> LeadsToSeed(s, g, peers, i)
    ensures LeadsToSeed(s, g, peers, id)
  {
    var d :| d in Edges(g, peers)[id] && d in local;
    var seed :| Seed(s, g, peers, seed) && Reaches(Edges(g, peers), d, seed);
    assert Edge(Edges(g, peers), id, d);
    ReachesStep(Edges(g, peers), id, d, seed);
  }

  lemma OneMoreLeads(s: Settings, g: PackageGraph.Graph, peers: PeerMap, local: set<PackageId>, id: PackageId)
    requires id in g.packages && PointsInto(g, peers, id, local) && AllLead(s, g, peers, local)
    ensures AllLead(s, g, peers, local + {id})
  {
    PointsAtLocal(s, g, peers, local, id);
  }

  /** A saturated set contains everything that leads to a seed, so the local
      set is the least saturated one. */
  lemma SaturatedContains(s: Settings, g: PackageGraph.Graph, peers: PeerMap, local: set<PackageId>, id: PackageId)
    requires Saturated(s, g, peers, local) && id in g.packages && LeadsToSeed(s, g, peers, id)
    ensures id in local
  {
    var e := Edges(g, peers);
    var seed :| Seed(s, g, peers, seed) && Reaches(e, id, seed);
    if id !in local {
      var p :| PathBetween(e, id, seed, p);
      OutsideStaysOutside(s, g, peers, local, p);
    }
  }

  lemma {:induction false} OutsideStaysOutside(s: Settings, g: PackageGraph.Graph, peers: PeerMap,
                                               local: set<PackageId>, p: seq<PackageId>)
    requires Saturated(s, g, peers, local) && IsPath(Edges(g, peers), p) && p[0] !in local
    ensures p[|p| - 1] !in local
    decreases |p|
  {
    if |p| > 1 {
      PathTail(Edges(g, peers), p);
      assert Edge(Edges(g, peers), p[0], p[1]);
      OutsideStaysOutside(s, g, peers, local, p[1..]);
    }
  }

  /** The packages that are not local: these get a shared entry. */
  function SharedIds(g: PackageGraph.Graph, local: set<PackageId>): set<PackageId> {
    g.packages.Keys - local
  }

  /** A shared package depends on shared packages only, and all its wiring
      targets are shared, as long as its targets are in the graph at all. */
  lemma SharedPointsAtShared(s: Settings, g: PackageGraph.Graph, peers: PeerMap, local: set<PackageId>, id: PackageId)
    requires forall i :: i in local <==> i in g.packages && LeadsToSeed(s, g, peers, i)
    requires id in SharedIds(g, local)
    ensures !Seed(s, g, peers, id)
    ensures Edges(g, peers)[id] <= SharedIds(g, local) <==> Edges(g, peers)[id] <= g.packages.Keys
  {
    ReachesSelf(Edges(g, peers), id);
    if d :| d in Edges(g, peers)[id] && d in local {
      PointsAtLocal(s, g, peers, local, id);
    }
  }
}
