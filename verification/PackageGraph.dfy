/** The resolved dependency graph of a project (snpm-core/src/resolve/types.rs). */
module PackageGraph {
  import opened Wrappers
  import opened Ordering
  import opened Digraph

  datatype PackageId = PackageId(name: string, version: string)

  /** One entry of a `BTreeMap<String, PackageId>`. */
  datatype Dep = Dep(name: string, id: PackageId)

  datatype PeerRange = PeerRange(name: string, range: string)

  /** Both lists are sorted maps, listed in key order. */
  datatype Package = Package(tarball: string, integrity: Option<string>,
                             dependencies: seq<Dep>, peerRanges: seq<PeerRange>)

  /** `order` lists the keys of `packages` in the order the sorted map
      iterates them; `root` maps a root dependency to the id it resolved to. */
  datatype Graph = Graph(root: map<string, PackageId>, packages: map<PackageId, Package>, order: seq<PackageId>)

  predicate DepsSorted(deps: seq<Dep>) {
    forall i, j :: 0 <= i < j < |deps| ==> TextLess(deps[i].name, deps[j].name)
  }

  predicate RangesSorted(ranges: seq<PeerRange>) {
    forall i, j :: 0 <= i < j < |ranges| ==> TextLess(ranges[i].name, ranges[j].name)
  }

  ghost predicate WellFormed(g: Graph) {
    && (forall id :: id in g.order <==> id in g.packages)
    && (forall id :: id in g.packages ==>
          DepsSorted(g.packages[id].dependencies) && RangesSorted(g.packages[id].peerRanges))
  }

  /** Every dependency edge and every root dependency stays inside the graph. */
  ghost predicate ClosedGraph(g: Graph) {
    && (forall id, d :: id in g.packages && d in g.packages[id].dependencies ==> d.id in g.packages)
    && (forall n :: n in g.root ==> g.root[n] in g.packages)
  }

  function DepNames(deps: seq<Dep>): set<string> {
    set d | d in deps :: d.name
  }

  function DepIds(deps: seq<Dep>): set<PackageId> {
    set d | d in deps :: d.id
  }

  /** The peers bound for each package whose required peers all resolved. */
  type PeerMap = map<PackageId, seq<Dep>>

  function PeersOf(peers: PeerMap, id: PackageId): seq<Dep> {
    if id in peers then peers[id] else []
  }

  /** Dependency and resolved-peer edges together. */
  ghost function Edges(g: Graph, peers: PeerMap): (e: Digraph.Graph<PackageId>)
    ensures e.Keys == g.packages.Keys
  {
    map id | id in g.packages :: DepIds(g.packages[id].dependencies) + DepIds(PeersOf(peers, id))
  }

  /** One package leads to another by a dependency or by a peer bound for it. */
  lemma EdgesMean(g: Graph, peers: PeerMap, u: PackageId, v: PackageId)
    ensures Edge(Edges(g, peers), u, v) <==>
      && u in g.packages
      && exists d: Dep :: d.id == v && (d in g.packages[u].dependencies || (u in peers && d in peers[u]))
  {
    if u in g.packages {
      if d: Dep :| d.id == v && (d in g.packages[u].dependencies || (u in peers && d in peers[u])) {
        assert d in g.packages[u].dependencies || d in PeersOf(peers, u);
      }
      if v in Edges(g, peers)[u] {
        var d: Dep :| d.id == v && (d in g.packages[u].dependencies || d in PeersOf(peers, u));
        assert u !in peers ==> PeersOf(peers, u) == [];
      }
    }
  }

  /** The ids of one name, in iteration order. */
  function Named(order: seq<PackageId>, name: string): (ids: seq<PackageId>)
    ensures forall id :: id in ids <==> id in order && id.name == name
  {
    if order == [] then []
    else
      var last := order[|order| - 1];
      assert order == order[..|order| - 1] + [last];
      Named(order[..|order| - 1], name) + if last.name == name then [last] else []
  }

  lemma SortedNamesDiffer(deps: seq<Dep>, i: nat, j: nat)
    requires DepsSorted(deps) && i < |deps| && j < |deps| && deps[i].name == deps[j].name
    ensures i == j
  {
    TextLessIrreflexive(deps[i].name);
  }
}
