/** Locations of shared entries, the links wired into them, and the agreement
    of all projects on both (snpm-core/src/linker/virtual_store.rs,
    `populate_shared_virtual_store_for_packages`, `wire_dep_symlinks_into`). */
module SharedStore {
  import opened PackageGraph
  import opened Peers
  import opened Text
  import opened EntryHash
  import opened DirectoryEntries
  import opened Links

  // ---- locations ----

  /** `/` in a package name becomes `+` in its directory name. */
  function Safe(name: string): (s: string)
    ensures Free(s, '/')
  {
    seq(|name|, i requires 0 <= i < |name| => if name[i] == '/' then '+' else name[i])
  }

  /** A package's place below `directory`, an entry of the store. */
  function Place(store: string, directory: string, name: string): string {
    store + ("/" + (directory + (['/'] + ("node_modules/" + name))))
  }

  function EntryDirectory(id: PackageId, hash: ShortHash): string {
    Safe(id.name) + "@" + (id.version + ("-" + hash))
  }

  function Location(store: string, id: PackageId, hash: ShortHash): string {
    Place(store, EntryDirectory(id, hash), id.name)
  }

  /** A package's place in the project's own view, which carries no hash. */
  function LocalLocation(store: string, id: PackageId): string {
    Place(store, Safe(id.name) + "@" + id.version, id.name)
  }

  lemma PlaceInjective(store: string, d1: string, name1: string, d2: string, name2: string)
    requires Free(d1, '/') && Free(d2, '/') && Place(store, d1, name1) == Place(store, d2, name2)
    ensures d1 == d2 && name1 == name2
  {
    SplitSame(store, "/" + (d1 + (['/'] + ("node_modules/" + name1))),
              store, "/" + (d2 + (['/'] + ("node_modules/" + name2))));
    SplitSame("/", d1 + (['/'] + ("node_modules/" + name1)), "/", d2 + (['/'] + ("node_modules/" + name2)));
    SplitAtFirst('/', d1, "node_modules/" + name1, d2, "node_modules/" + name2);
    SplitSame("node_modules/", name1, "node_modules/", name2);
  }

  /** A location names one package id and one hash. */
  lemma LocationInjective(store: string, id1: PackageId, h1: ShortHash, id2: PackageId, h2: ShortHash)
    requires Free(id1.version, '/') && Free(id2.version, '/')
    requires Location(store, id1, h1) == Location(store, id2, h2)
    ensures id1 == id2 && h1 == h2
  {
    DirectoryIsOneComponent(id1, h1);
    DirectoryIsOneComponent(id2, h2);
    PlaceInjective(store, EntryDirectory(id1, h1), id1.name, EntryDirectory(id2, h2), id2.name);
    DirectoryInjective(id1, h1, id2, h2);
  }

  /** A place in the project's view names one package id. */
  lemma LocalLocationInjective(store: string, id1: PackageId, id2: PackageId)
    requires Free(id1.version, '/') && Free(id2.version, '/')
    requires LocalLocation(store, id1) == LocalLocation(store, id2)
    ensures id1 == id2
  {
    assert Free("@", '/');
    PlaceInjective(store, Safe(id1.name) + "@" + id1.version, id1.name,
                   Safe(id2.name) + "@" + id2.version, id2.name);
    SplitSame(Safe(id1.name) + "@", id1.version, Safe(id2.name) + "@", id2.version);
  }

  lemma DirectoryIsOneComponent(id: PackageId, hash: ShortHash)
    requires Free(id.version, '/')
    ensures Free(EntryDirectory(id, hash), '/')
  {
    assert Free(hash, '/') by {
      assert !IsHex('/');
    }
    assert Free("@", '/') && Free("-", '/');
  }

  lemma DirectoryInjective(id1: PackageId, h1: ShortHash, id2: PackageId, h2: ShortHash)
    requires id1.name == id2.name && EntryDirectory(id1, h1) == EntryDirectory(id2, h2)
    ensures id1 == id2 && h1 == h2
  {
    SplitSame(Safe(id1.name) + "@", id1.version + ("-" + h1), Safe(id2.name) + "@", id2.version + ("-" + h2));
    assert |id1.version + ("-" + h1)| == |id2.version + ("-" + h2)|;
    SplitSame(id1.version, "-" + h1, id2.version, "-" + h2);
    SplitSame("-", h1, "-", h2);
  }

  lemma SplitAtFirst(c: char, a: string, x: string, b: string, y: string)
    requires Free(a, c) && Free(b, c) && a + ([c] + x) == b + ([c] + y)
    ensures a == b && x == y
  {
    assert a + ([c] + x) == a + [c] + x && b + ([c] + y) == b + [c] + y;
    CutAtFirst(a, c, x);
    CutAtFirst(b, c, y);
  }

  // ---- wiring ----

  /** Dependencies and bound peers collected into one sorted map; a later
      entry replaces an earlier one of the same name. */
  function Wired(edges: seq<Dep>): (m: map<string, PackageId>)
    ensures m.Keys == DepNames(edges) && forall n :: n in m ==> m[n] in DepIds(edges)
  {
    if edges == [] then map[]
    else
      var last := edges[|edges| - 1];
      assert edges == edges[..|edges| - 1] + [last];
      Wired(edges[..|edges| - 1])[last.name := last.id]
  }

  ghost predicate NamesDiffer(edges: seq<Dep>) {
    forall i, j :: 0 <= i < j < |edges| ==> edges[i].name != edges[j].name
  }

  ghost predicate KeepsEdges(edges: seq<Dep>, m: map<string, PackageId>) {
    forall i :: 0 <= i < |edges| ==> edges[i].name in m && m[edges[i].name] == edges[i].id
  }

  lemma KeepsOneMore(edges: seq<Dep>, n: nat, m: map<string, PackageId>)
    requires n + 1 == |edges| && NamesDiffer(edges) && KeepsEdges(edges[..n], m)
    ensures KeepsEdges(edges, m[edges[n].name := edges[n].id])
  {
    forall i | 0 <= i < n
      ensures edges[i].name in m && m[edges[i].name] == edges[i].id && edges[i].name != edges[n].name
    {
      assert edges[..n][i] == edges[i];
    }
  }

  lemma FrontDiffers(edges: seq<Dep>, n: nat)
    requires n <= |edges| && NamesDiffer(edges)
    ensures NamesDiffer(edges[..n])
  {
  }

  /** When no two edges share a name, the map keeps every edge. */
  lemma {:induction false} WiredKeepsEdges(edges: seq<Dep>)
    requires NamesDiffer(edges)
    ensures KeepsEdges(edges, Wired(edges))
    decreases |edges|
  {
    if edges != [] {
      var n := |edges| - 1;
      FrontDiffers(edges, n);
      WiredKeepsEdges(edges[..n]);
      KeepsOneMore(edges, n, Wired(edges[..n]));
    }
  }

  /** The pass that hashes the wired names with their locations: it stops at
      the first package without one. */
  method AllLocated(wired: map<string, PackageId>, locations: map<PackageId, string>) returns (ok: bool)
    ensures ok <==> Located(wired, locations)
  {
    var unchecked := wired.Keys;
    while unchecked != {}
      invariant unchecked <= wired.Keys
      invariant forall n :: n in wired && n !in unchecked ==> wired[n] in locations
    {
      var n :| n in unchecked;
      if wired[n] !in locations {
        return false;
      }
      unchecked := unchecked - {n};
    }
    ok := true;
  }

  /** The `node_modules` directory in which a package and its links lie. */
  class NodeModules {
    var entries: map<string, FsEntry>

    constructor (entries: map<string, FsEntry>)
      ensures this.entries == entries
    {
      this.entries := entries;
    }

    /** Link every wired name to the location of its package.  When a location
        is unknown the call fails and changes nothing. */
    method Wire(edges: seq<Dep>, locations: map<PackageId, string>) returns (ok: bool)
      modifies this
      ensures ok <==> Located(Wired(edges), locations)
      ensures !ok ==> entries == old(entries)
      ensures ok ==> entries == old(entries) + LinksTo(Wired(edges), locations)
    {
      var wired := Wired(edges);
      ok := AllLocated(wired, locations);
      if ok && wired != map[] {
        LinkAll(wired, locations);
      }
    }

    method LinkAll(wired: map<string, PackageId>, locations: map<PackageId, string>)
      requires Located(wired, locations)
      modifies this
      ensures entries == old(entries) + LinksTo(wired, locations)
    {
      var todo := wired.Keys;
      ghost var start := entries;
      while todo != {}
        invariant todo <= wired.Keys
        invariant entries == start + LinksTo(wired - todo, locations)
      {
        var n :| n in todo;
        LinkOneMore(start, wired, todo, n, locations);
        LinkOne(n, locations[wired[n]]);
        todo := todo - {n};
      }
      assert wired - todo == wired;
    }

    /** Keep a link that is already right, otherwise replace whatever is there. */
    method LinkOne(name: string, target: string)
      modifies this
      ensures entries == old(entries)[name := Link(target)]
    {
      if name in entries && entries[name] == Link(target) {
        return;
      }
      entries := entries - {name};
      entries := entries[name := Link(target)];
    }
  }

  /** The edges wired into the entry of `id`. */
  function EdgesOf(g: PackageGraph.Graph, peers: PeerMap, id: PackageId): seq<Dep>
    requires id in g.packages
  {
    g.packages[id].dependencies + PeersOf(peers, id)
  }

  /** No two wired edges of a package share a name, so the merge of its
      dependencies and bound peers loses none of them. */
  lemma NoEdgeLost(sv: Semver, g: PackageGraph.Graph, id: PackageId)
    requires WellFormed(g) && id in g.packages
    ensures var edges := EdgesOf(g, ResolvedPeers(sv, g), id);
      KeepsEdges(edges, Wired(edges))
  {
    ResolvedPeersMeaning(sv, g, id);
    var deps, bound := g.packages[id].dependencies, PeersOf(ResolvedPeers(sv, g), id);
    ConcatNamesDiffer(deps, bound);
    WiredKeepsEdges(deps + bound);
  }

  lemma ConcatNamesDiffer(deps: seq<Dep>, bound: seq<Dep>)
    requires DepsSorted(deps) && DepsSorted(bound) && DepNames(deps) !! DepNames(bound)
    ensures NamesDiffer(deps + bound)
  {
    var edges := deps + bound;
    forall i, j | 0 <= i < j < |edges|
      ensures edges[i].name != edges[j].name
    {
      if j < |deps| {
        if deps[i].name == deps[j].name {
          SortedNamesDiffer(deps, i, j);
        }
      } else if i >= |deps| {
        if edges[i].name == edges[j].name {
          SortedNamesDiffer(bound, i - |deps|, j - |deps|);
        }
      } else {
        assert edges[i] in deps && edges[j] in bound;
        assert edges[i].name in DepNames(deps) && edges[j].name in DepNames(bound);
      }
    }
  }
}
