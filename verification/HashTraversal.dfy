/** The memoised depth-first computation of entry hashes
    (`compute_global_virtual_store_entry_hash`), and what it computes. */
module HashTraversal {
  import opened Wrappers
  import opened Digraph
  import opened PackageGraph
  import opened EntryHash
  import opened Closures

  type Memo = map<PackageId, ShortHash>

  // ---- the traversal as a function of memo and stack ----

  /** The hash of `id` and the memo afterwards, when the ids of `stack` are
      being hashed: a memo hit, a stub for an id on the stack, or the hash of
      the entry's own stream. */
  ghost function Visit(h: Hasher, g: PackageGraph.Graph, peers: PeerMap, id: PackageId,
                       memo: Memo, stack: set<PackageId>): (ShortHash, Memo)
    decreases g.packages.Keys - stack, 0, 0
  {
    if id in memo then (memo[id], memo)
    else if id in stack then (h(CycleStream(id)), memo)
    else if id !in g.packages then (h(MissingStream(id)), memo[id := h(MissingStream(id))])
    else
      var p := g.packages[id];
      var (deps, m1) := VisitAll(h, g, peers, p.dependencies, memo, stack + {id});
      var (bound, m2) := VisitAll(h, g, peers, PeersOf(peers, id), m1, stack + {id});
      var hash := h(EntryStream(id, p.tarball, p.integrity.GetOr(""), deps, bound));
      (hash, m2[id := hash])
  }

  ghost function VisitAll(h: Hasher, g: PackageGraph.Graph, peers: PeerMap, edges: seq<Dep>,
                          memo: Memo, stack: set<PackageId>): (r: (seq<Record>, Memo))
    decreases g.packages.Keys - stack, 1, |edges|
  {
    if edges == [] then ([], memo)
    else
      var last := edges[|edges| - 1];
      var (records, m1) := VisitAll(h, g, peers, edges[..|edges| - 1], memo, stack);
      var (hash, m2) := Visit(h, g, peers, last.id, m1, stack);
      (records + [Record(last.name, last.id, hash)], m2)
  }

  /** The memo only grows, by ids that are not on the stack: an entry, once
      written, is never written again. */
  lemma {:induction false} VisitFrame(h: Hasher, g: PackageGraph.Graph, peers: PeerMap, id: PackageId,
                                      memo: Memo, stack: set<PackageId>)
    ensures var after := Visit(h, g, peers, id, memo, stack).1;
      && Grows(memo, after, stack) && (id in after || id in stack)
    decreases g.packages.Keys - stack, 0, 0
  {
    if id !in memo && id !in stack && id in g.packages {
      var p := g.packages[id];
      var m1 := VisitAll(h, g, peers, p.dependencies, memo, stack + {id}).1;
      VisitAllFrame(h, g, peers, p.dependencies, memo, stack + {id});
      VisitAllFrame(h, g, peers, PeersOf(peers, id), m1, stack + {id});
    }
  }

  ghost predicate Grows(before: Memo, after: Memo, stack: set<PackageId>) {
    forall k :: (k in before ==> k in after && after[k] == before[k]) && (k in after && k !in before ==> k !in stack)
  }

  lemma {:induction false} VisitAllFrame(h: Hasher, g: PackageGraph.Graph, peers: PeerMap, edges: seq<Dep>,
                                         memo: Memo, stack: set<PackageId>)
    ensures Grows(memo, VisitAll(h, g, peers, edges, memo, stack).1, stack)
    decreases g.packages.Keys - stack, 1, |edges|
  {
    if edges != [] {
      var front := edges[..|edges| - 1];
      VisitAllFrame(h, g, peers, front, memo, stack);
      VisitFrame(h, g, peers, edges[|edges| - 1].id, VisitAll(h, g, peers, front, memo, stack).1, stack);
    }
  }

  // ---- the closure of a package above no cycle ----

  /** No cycle is reachable from `id`. */
  ghost predicate Tame(g: PackageGraph.Graph, peers: PeerMap, id: PackageId) {
    !ReachesCycle(Edges(g, peers), id)
  }

  ghost function Depth(g: PackageGraph.Graph, peers: PeerMap, id: PackageId): nat {
    Height(Edges(g, peers), id)
  }

  ghost predicate Under(g: PackageGraph.Graph, peers: PeerMap, id: PackageId, edges: seq<Dep>) {
    id in g.packages && (edges == g.packages[id].dependencies || edges == PeersOf(peers, id))
  }

  lemma UnderIsEdge(g: PackageGraph.Graph, peers: PeerMap, id: PackageId, edges: seq<Dep>, i: nat)
    requires Under(g, peers, id, edges) && i < |edges|
    ensures Edge(Edges(g, peers), id, edges[i].id)
  {
    assert edges[i] in edges;
  }

  lemma EdgeDescends(g: PackageGraph.Graph, peers: PeerMap, id: PackageId, edges: seq<Dep>, i: nat)
    requires Tame(g, peers, id) && Under(g, peers, id, edges) && i < |edges|
    ensures Tame(g, peers, edges[i].id) && Depth(g, peers, edges[i].id) < Depth(g, peers, id)
  {
    UnderIsEdge(g, peers, id, edges, i);
    HeightFalls(Edges(g, peers), id, edges[i].id);
  }

  /** Everything `id` is wired to, transitively. */
  ghost function Closure(g: PackageGraph.Graph, peers: PeerMap, id: PackageId): (t: Tree)
    requires Tame(g, peers, id)
    ensures t.id == id
    decreases Depth(g, peers, id), 1
  {
    if id !in g.packages then Absent(id)
    else
      var p := g.packages[id];
      Node(id, p.tarball, p.integrity.GetOr(""),
           Branches(g, peers, id, p.dependencies), Branches(g, peers, id, PeersOf(peers, id)))
  }

  ghost function Branches(g: PackageGraph.Graph, peers: PeerMap, id: PackageId, edges: seq<Dep>): (b: seq<Branch>)
    requires Tame(g, peers, id) && Under(g, peers, id, edges)
    ensures |b| == |edges|
    decreases Depth(g, peers, id), 0
  {
    seq(|edges|, i requires 0 <= i < |edges| =>
      EdgeDescends(g, peers, id, edges, i);
      Branch(edges[i].name, Closure(g, peers, edges[i].id)))
  }

  // ---- above no cycle the traversal computes the plain recursive hash ----

  function RecordsBy(f: PackageId -> ShortHash, edges: seq<Dep>): seq<Record> {
    seq(|edges|, i requires 0 <= i < |edges| => Record(edges[i].name, edges[i].id, f(edges[i].id)))
  }

  /** `f` gives every id above no cycle the hash of its own stream, with `f` itself for the children. */
  ghost predicate HashesPlainly(h: Hasher, g: PackageGraph.Graph, peers: PeerMap, f: PackageId -> ShortHash) {
    && (forall id :: id !in g.packages ==> f(id) == h(MissingStream(id)))
    && (forall id :: id in g.packages && Tame(g, peers, id) ==> f(id) == h(StreamBy(g, peers, f, id)))
  }

  ghost function StreamBy(g: PackageGraph.Graph, peers: PeerMap, f: PackageId -> ShortHash, id: PackageId): string
    requires id in g.packages
  {
    var p := g.packages[id];
    EntryStream(id, p.tarball, p.integrity.GetOr(""), RecordsBy(f, p.dependencies), RecordsBy(f, PeersOf(peers, id)))
  }

  /** Whatever stands in the memo for an id above no cycle is its plain hash. */
  ghost predicate MemoOf(g: PackageGraph.Graph, peers: PeerMap, f: PackageId -> ShortHash, memo: Memo) {
    forall id :: id in memo && Tame(g, peers, id) ==> memo[id] == f(id)
  }

  ghost predicate LeadsTo(g: PackageGraph.Graph, peers: PeerMap, v: PackageId, id: PackageId) {
    exists w :: Edge(Edges(g, peers), v, w) && Reaches(Edges(g, peers), w, id)
  }

  /** Everything on the stack leads to `id` by at least one edge. */
  ghost predicate Above(g: PackageGraph.Graph, peers: PeerMap, stack: set<PackageId>, id: PackageId) {
    forall v :: v in stack ==> LeadsTo(g, peers, v, id)
  }

  lemma TameIsNotOnStack(g: PackageGraph.Graph, peers: PeerMap, stack: set<PackageId>, id: PackageId)
    requires Above(g, peers, stack, id) && Tame(g, peers, id)
    ensures id !in stack
  {
    if id in stack {
      var w :| Edge(Edges(g, peers), id, w) && Reaches(Edges(g, peers), w, id);
      WayBackIsCycle(Edges(g, peers), id, w);
    }
  }

  /** From any memo that is right above no cycle, a visit leaves such a memo, and it
      returns the plain hash of an id above no cycle, cycles elsewhere notwithstanding. */
  lemma {:induction false} VisitIsPlain(h: Hasher, g: PackageGraph.Graph, peers: PeerMap,
                                        f: PackageId -> ShortHash, id: PackageId, memo: Memo, stack: set<PackageId>)
    requires HashesPlainly(h, g, peers, f) && MemoOf(g, peers, f, memo) && Above(g, peers, stack, id)
    ensures Tame(g, peers, id) ==> Visit(h, g, peers, id, memo, stack).0 == f(id)
    ensures MemoOf(g, peers, f, Visit(h, g, peers, id, memo, stack).1)
    decreases g.packages.Keys - stack, 0, 0
  {
    if Tame(g, peers, id) {
      TameIsNotOnStack(g, peers, stack, id);
    }
    if id !in memo && id !in stack && id in g.packages {
      var deps, bound := g.packages[id].dependencies, PeersOf(peers, id);
      AllAbove(g, peers, id, deps, stack);
      AllAbove(g, peers, id, bound, stack);
      VisitAllIsPlain(h, g, peers, f, deps, memo, stack + {id});
      var m1 := VisitAll(h, g, peers, deps, memo, stack + {id}).1;
      VisitAllIsPlain(h, g, peers, f, bound, m1, stack + {id});
      var m2 := VisitAll(h, g, peers, bound, m1, stack + {id}).1;
      var hash := Visit(h, g, peers, id, memo, stack).0;
      if Tame(g, peers, id) {
        AllTame(g, peers, id, deps);
        AllTame(g, peers, id, bound);
        VisitFresh(h, g, peers, f, id, memo, stack);
      }
      MemoGrows(g, peers, f, m2, id, hash);
      assert Visit(h, g, peers, id, memo, stack).1 == m2[id := hash];
    }
  }

  ghost predicate TameTargets(g: PackageGraph.Graph, peers: PeerMap, edges: seq<Dep>) {
    forall i :: 0 <= i < |edges| ==> Tame(g, peers, edges[i].id)
  }

  lemma AllTame(g: PackageGraph.Graph, peers: PeerMap, id: PackageId, edges: seq<Dep>)
    requires Tame(g, peers, id) && Under(g, peers, id, edges)
    ensures TameTargets(g, peers, edges)
  {
    forall i | 0 <= i < |edges|
      ensures Tame(g, peers, edges[i].id)
    {
      EdgeDescends(g, peers, id, edges, i);
    }
  }

  lemma MemoGrows(g: PackageGraph.Graph, peers: PeerMap, f: PackageId -> ShortHash, memo: Memo, id: PackageId,
                  hash: ShortHash)
    requires MemoOf(g, peers, f, memo) && (Tame(g, peers, id) ==> hash == f(id))
    ensures MemoOf(g, peers, f, memo[id := hash])
  {
  }

  lemma VisitFresh(h: Hasher, g: PackageGraph.Graph, peers: PeerMap, f: PackageId -> ShortHash, id: PackageId,
                   memo: Memo, stack: set<PackageId>)
    requires id !in memo && id !in stack && id in g.packages && HashesPlainly(h, g, peers, f) && Tame(g, peers, id)
    requires VisitAll(h, g, peers, g.packages[id].dependencies, memo, stack + {id}).0
          == RecordsBy(f, g.packages[id].dependencies)
    requires var m1 := VisitAll(h, g, peers, g.packages[id].dependencies, memo, stack + {id}).1;
      VisitAll(h, g, peers, PeersOf(peers, id), m1, stack + {id}).0 == RecordsBy(f, PeersOf(peers, id))
    ensures var m1 := VisitAll(h, g, peers, g.packages[id].dependencies, memo, stack + {id}).1;
      var m2 := VisitAll(h, g, peers, PeersOf(peers, id), m1, stack + {id}).1;
      Visit(h, g, peers, id, memo, stack) == (f(id), m2[id := f(id)])
  {
    assert f(id) == h(StreamBy(g, peers, f, id));
  }

  lemma AllAbove(g: PackageGraph.Graph, peers: PeerMap, id: PackageId, edges: seq<Dep>, stack: set<PackageId>)
    requires Under(g, peers, id, edges) && Above(g, peers, stack, id)
    ensures AboveAll(g, peers, stack + {id}, edges)
  {
    forall i | 0 <= i < |edges|
      ensures Above(g, peers, stack + {id}, edges[i].id)
    {
      UnderIsEdge(g, peers, id, edges, i);
      OneStepAbove(g, peers, stack, id, edges[i].id);
    }
  }

  lemma OneStepAbove(g: PackageGraph.Graph, peers: PeerMap, stack: set<PackageId>, id: PackageId, target: PackageId)
    requires Above(g, peers, stack, id) && Edge(Edges(g, peers), id, target)
    ensures Above(g, peers, stack + {id}, target)
  {
    var edges := Edges(g, peers);
    ReachesSelf(edges, target);
    ReachesStep(edges, id, target, target);
    forall v | v in stack
      ensures LeadsTo(g, peers, v, target)
    {
      var w :| Edge(edges, v, w) && Reaches(edges, w, id);
      ReachesTransitive(edges, w, id, target);
    }
    assert LeadsTo(g, peers, id, target);
  }

  ghost predicate AboveAll(g: PackageGraph.Graph, peers: PeerMap, stack: set<PackageId>, edges: seq<Dep>) {
    forall i :: 0 <= i < |edges| ==> Above(g, peers, stack, edges[i].id)
  }

  lemma {:induction false} VisitAllIsPlain(h: Hasher, g: PackageGraph.Graph, peers: PeerMap,
                                           f: PackageId -> ShortHash, edges: seq<Dep>, memo: Memo,
                                           stack: set<PackageId>)
    requires HashesPlainly(h, g, peers, f) && MemoOf(g, peers, f, memo) && AboveAll(g, peers, stack, edges)
    ensures TameTargets(g, peers, edges) ==> VisitAll(h, g, peers, edges, memo, stack).0 == RecordsBy(f, edges)
    ensures MemoOf(g, peers, f, VisitAll(h, g, peers, edges, memo, stack).1)
    decreases g.packages.Keys - stack, 1, |edges|
  {
    if edges != [] {
      var n := |edges| - 1;
      VisitAllIsPlain(h, g, peers, f, edges[..n], memo, stack);
      VisitIsPlain(h, g, peers, f, edges[n].id, VisitAll(h, g, peers, edges[..n], memo, stack).1, stack);
      RecordsGrow(g, peers, f, edges);
    }
  }

  lemma RecordsGrow(g: PackageGraph.Graph, peers: PeerMap, f: PackageId -> ShortHash, edges: seq<Dep>)
    requires edges != []
    ensures var n := |edges| - 1;
      && RecordsBy(f, edges) == RecordsBy(f, edges[..n]) + [Record(edges[n].name, edges[n].id, f(edges[n].id))]
      && (TameTargets(g, peers, edges) ==> TameTargets(g, peers, edges[..n]) && Tame(g, peers, edges[n].id))
  {
  }

  /** The plain recursive hash of every id above no cycle. */
  ghost function PlainHashes(h: Hasher, g: PackageGraph.Graph, peers: PeerMap): (f: PackageId -> ShortHash)
    ensures forall id :: Tame(g, peers, id) ==> f(id) == TreeHash(h, Closure(g, peers, id))
    ensures forall id :: id !in g.packages ==> f(id) == h(MissingStream(id))
  {
    id => PlainHash(h, g, peers, id)
  }

  ghost function PlainHash(h: Hasher, g: PackageGraph.Graph, peers: PeerMap, id: PackageId): ShortHash {
    if id !in g.packages then h(MissingStream(id))
    else if Tame(g, peers, id) then TreeHash(h, Closure(g, peers, id))
    else h("")
  }

  /** The hash of the unfolded closure solves the plain equations. */
  lemma ClosureHashesPlainly(h: Hasher, g: PackageGraph.Graph, peers: PeerMap)
    ensures HashesPlainly(h, g, peers, PlainHashes(h, g, peers))
  {
    var f := PlainHashes(h, g, peers);
    forall id | id in g.packages && Tame(g, peers, id)
      ensures f(id) == h(StreamBy(g, peers, f, id))
    {
      var t := Closure(g, peers, id);
      BranchRecords(h, g, peers, id, g.packages[id].dependencies);
      BranchRecords(h, g, peers, id, PeersOf(peers, id));
      assert TreeStream(h, t) == StreamBy(g, peers, f, id);
    }
  }

  lemma BranchRecords(h: Hasher, g: PackageGraph.Graph, peers: PeerMap, id: PackageId, edges: seq<Dep>)
    requires Tame(g, peers, id) && Under(g, peers, id, edges)
    ensures Records(h, Closure(g, peers, id), Branches(g, peers, id, edges)) ==
      RecordsBy(PlainHashes(h, g, peers), edges)
  {
    AllTame(g, peers, id, edges);
  }

  // ---- every hash is that of an unfolding, cycles or not ----

  predicate Along(bs: seq<Branch>, edges: seq<Dep>) {
    |bs| == |edges| && forall i :: 0 <= i < |bs| ==> bs[i].name == edges[i].name && bs[i].tree.id == edges[i].id
  }

  /** The tree follows the edges of the graph as far as it goes. */
  ghost predicate Unfolds(g: PackageGraph.Graph, peers: PeerMap, t: Tree) {
    match t
    case Absent(id) => id !in g.packages
    case Again(id) => true
    case Node(id, tarball, integrity, deps, bound) =>
      && id in g.packages && tarball == g.packages[id].tarball && integrity == g.packages[id].integrity.GetOr("")
      && Along(deps, g.packages[id].dependencies) && Along(bound, PeersOf(peers, id))
      && (forall i :: 0 <= i < |deps| ==> Unfolds(g, peers, deps[i].tree))
      && (forall i :: 0 <= i < |bound| ==> Unfolds(g, peers, bound[i].tree))
  }

  ghost predicate AllUnfold(g: PackageGraph.Graph, peers: PeerMap, bs: seq<Branch>) {
    forall i :: 0 <= i < |bs| ==> Unfolds(g, peers, bs[i].tree)
  }

  ghost predicate Hashed(h: Hasher, g: PackageGraph.Graph, peers: PeerMap, id: PackageId, t: Tree, hash: ShortHash) {
    t.id == id && Unfolds(g, peers, t) && TreeHash(h, t) == hash
  }

  /** `hash` is the hash of an unfolding of `id` that goes on beyond `id` itself. */
  ghost predicate HashedSomehow(h: Hasher, g: PackageGraph.Graph, peers: PeerMap, id: PackageId, hash: ShortHash) {
    exists t :: Hashed(h, g, peers, id, t, hash) && !t.Again?
  }

  ghost predicate MemoUnfolds(h: Hasher, g: PackageGraph.Graph, peers: PeerMap, memo: Memo) {
    forall id :: id in memo ==> HashedSomehow(h, g, peers, id, memo[id])
  }

  function RecordsOf(h: Hasher, bs: seq<Branch>): seq<Record> {
    seq(|bs|, i requires 0 <= i < |bs| => Record(bs[i].name, bs[i].tree.id, TreeHash(h, bs[i].tree)))
  }

  /** A visit returns the hash of an unfolding, whatever the stack. */
  lemma {:induction false} VisitUnfolds(h: Hasher, g: PackageGraph.Graph, peers: PeerMap, id: PackageId,
                                        memo: Memo, stack: set<PackageId>) returns (t: Tree)
    requires MemoUnfolds(h, g, peers, memo)
    ensures Hashed(h, g, peers, id, t, Visit(h, g, peers, id, memo, stack).0)
    ensures MemoUnfolds(h, g, peers, Visit(h, g, peers, id, memo, stack).1)
    decreases g.packages.Keys - stack, 0, 0
  {
    if id in memo {
      t :| Hashed(h, g, peers, id, t, memo[id]);
    } else if id in stack {
      t := Again(id);
    } else if id !in g.packages {
      t := Absent(id);
      assert Hashed(h, g, peers, id, t, h(MissingStream(id)));
    } else {
      var p := g.packages[id];
      var deps := VisitAllUnfolds(h, g, peers, p.dependencies, memo, stack + {id});
      var m1 := VisitAll(h, g, peers, p.dependencies, memo, stack + {id}).1;
      var bound := VisitAllUnfolds(h, g, peers, PeersOf(peers, id), m1, stack + {id});
      t := NodeHashed(h, g, peers, id, deps, bound);
      var m2 := VisitAll(h, g, peers, PeersOf(peers, id), m1, stack + {id}).1;
      MemoUnfoldsOn(h, g, peers, m2, id, t);
    }
  }

  lemma MemoUnfoldsOn(h: Hasher, g: PackageGraph.Graph, peers: PeerMap, memo: Memo, id: PackageId, t: Tree)
    requires MemoUnfolds(h, g, peers, memo) && Hashed(h, g, peers, id, t, TreeHash(h, t)) && !t.Again?
    ensures MemoUnfolds(h, g, peers, memo[id := TreeHash(h, t)])
  {
    assert HashedSomehow(h, g, peers, id, TreeHash(h, t));
  }

  lemma NodeHashed(h: Hasher, g: PackageGraph.Graph, peers: PeerMap, id: PackageId, deps: seq<Branch>,
                   bound: seq<Branch>) returns (t: Tree)
    requires id in g.packages && Along(deps, g.packages[id].dependencies) && Along(bound, PeersOf(peers, id))
    requires AllUnfold(g, peers, deps) && AllUnfold(g, peers, bound)
    ensures var p := g.packages[id];
      && t == Node(id, p.tarball, p.integrity.GetOr(""), deps, bound)
      && Hashed(h, g, peers, id, t, TreeHash(h, t))
      && TreeHash(h, t)
           == h(EntryStream(id, p.tarball, p.integrity.GetOr(""), RecordsOf(h, deps), RecordsOf(h, bound)))
  {
    t := Node(id, g.packages[id].tarball, g.packages[id].integrity.GetOr(""), deps, bound);
    assert Records(h, t, deps) == RecordsOf(h, deps) && Records(h, t, bound) == RecordsOf(h, bound);
  }

  lemma OneBranchMore(h: Hasher, g: PackageGraph.Graph, peers: PeerMap, edges: seq<Dep>, bs: seq<Branch>, t: Tree)
    requires edges != []
    requires var n := |edges| - 1; Along(bs, edges[..n]) && t.id == edges[n].id
    requires AllUnfold(g, peers, bs) && Unfolds(g, peers, t)
    ensures var last := edges[|edges| - 1];
      var longer := bs + [Branch(last.name, t)];
      && Along(longer, edges) && AllUnfold(g, peers, longer)
      && RecordsOf(h, longer) == RecordsOf(h, bs) + [Record(last.name, last.id, TreeHash(h, t))]
  {
  }

  lemma {:induction false} VisitAllUnfolds(h: Hasher, g: PackageGraph.Graph, peers: PeerMap, edges: seq<Dep>,
                                           memo: Memo, stack: set<PackageId>) returns (bs: seq<Branch>)
    requires MemoUnfolds(h, g, peers, memo)
    ensures Along(bs, edges) && AllUnfold(g, peers, bs)
    ensures VisitAll(h, g, peers, edges, memo, stack).0 == RecordsOf(h, bs)
    ensures MemoUnfolds(h, g, peers, VisitAll(h, g, peers, edges, memo, stack).1)
    decreases g.packages.Keys - stack, 1, |edges|
  {
    bs := [];
    if edges != [] {
      var n := |edges| - 1;
      bs := VisitAllUnfolds(h, g, peers, edges[..n], memo, stack);
      var t := VisitUnfolds(h, g, peers, edges[n].id, VisitAll(h, g, peers, edges[..n], memo, stack).1, stack);
      OneBranchMore(h, g, peers, edges, bs, t);
      bs := bs + [Branch(edges[n].name, t)];
    }
  }

  /** No id was met again in it. */
  predicate Unbroken(t: Tree) {
    && !t.Again?
    && (t.Node? ==>
          && (forall i :: 0 <= i < |t.deps| ==> Unbroken(t.deps[i].tree))
          && (forall i :: 0 <= i < |t.peers| ==> Unbroken(t.peers[i].tree)))
  }

  /** The closure of an id above no cycle is an unfolding without stubs ... */
  lemma {:induction false} ClosureUnfolds(g: PackageGraph.Graph, peers: PeerMap, id: PackageId)
    requires Tame(g, peers, id)
    ensures Unfolds(g, peers, Closure(g, peers, id)) && Unbroken(Closure(g, peers, id))
    decreases Depth(g, peers, id), 1
  {
    if id in g.packages {
      BranchesUnfold(g, peers, id, g.packages[id].dependencies);
      BranchesUnfold(g, peers, id, PeersOf(peers, id));
    }
  }

  lemma {:induction false} BranchesUnfold(g: PackageGraph.Graph, peers: PeerMap, id: PackageId, edges: seq<Dep>)
    requires Tame(g, peers, id) && Under(g, peers, id, edges)
    ensures var bs := Branches(g, peers, id, edges);
      Along(bs, edges) && AllUnfold(g, peers, bs) && forall i :: 0 <= i < |bs| ==> Unbroken(bs[i].tree)
    decreases Depth(g, peers, id), 0
  {
    forall i | 0 <= i < |edges|
      ensures var t := Branches(g, peers, id, edges)[i].tree;
        t.id == edges[i].id && Unfolds(g, peers, t) && Unbroken(t)
    {
      EdgeDescends(g, peers, id, edges, i);
      ClosureUnfolds(g, peers, edges[i].id);
    }
  }

  /** ... and the only one: whatever unfolds without stubs lies above no cycle. */
  lemma {:induction false} UnbrokenIsClosure(g: PackageGraph.Graph, peers: PeerMap, t: Tree)
    requires Unfolds(g, peers, t) && Unbroken(t)
    ensures Tame(g, peers, t.id) && t == Closure(g, peers, t.id)
    decreases t, 1
  {
    if t.Node? {
      UnbrokenBranches(g, peers, t, t.deps);
      UnbrokenBranches(g, peers, t, t.peers);
      TargetsTame(g, peers, t);
      SameBranches(g, peers, t.id, g.packages[t.id].dependencies, t.deps);
      SameBranches(g, peers, t.id, PeersOf(peers, t.id), t.peers);
    } else {
      OutsideIsTame(g, peers, t.id);
    }
  }

  lemma {:induction false} UnbrokenBranches(g: PackageGraph.Graph, peers: PeerMap, t: Tree, bs: seq<Branch>)
    requires Unfolds(g, peers, t) && Unbroken(t) && Below(t, bs)
    ensures forall i :: 0 <= i < |bs| ==>
      Tame(g, peers, bs[i].tree.id) && bs[i].tree == Closure(g, peers, bs[i].tree.id)
    decreases t, 0
  {
    forall i | 0 <= i < |bs|
      ensures Tame(g, peers, bs[i].tree.id) && bs[i].tree == Closure(g, peers, bs[i].tree.id)
    {
      UnbrokenIsClosure(g, peers, bs[i].tree);
    }
  }

  lemma SameBranches(g: PackageGraph.Graph, peers: PeerMap, id: PackageId, edges: seq<Dep>, bs: seq<Branch>)
    requires Tame(g, peers, id) && Under(g, peers, id, edges) && Along(bs, edges)
    requires forall i :: 0 <= i < |bs| ==>
      Tame(g, peers, bs[i].tree.id) && bs[i].tree == Closure(g, peers, bs[i].tree.id)
    ensures bs == Branches(g, peers, id, edges)
  {
    forall i | 0 <= i < |bs|
      ensures bs[i] == Branches(g, peers, id, edges)[i]
    {
      EdgeDescends(g, peers, id, edges, i);
    }
  }

  lemma OutsideIsTame(g: PackageGraph.Graph, peers: PeerMap, id: PackageId)
    requires id !in g.packages
    ensures Tame(g, peers, id)
  {
    if ReachesCycle(Edges(g, peers), id) {
      var _ := CycleBelow(Edges(g, peers), id);
    }
  }

  lemma TargetIsBranch(edges: seq<Dep>, bs: seq<Branch>, w: PackageId)
    requires Along(bs, edges) && w in DepIds(edges)
    ensures exists i :: 0 <= i < |bs| && bs[i].tree.id == w
  {
    var i :| 0 <= i < |edges| && edges[i].id == w;
    assert bs[i].tree.id == w;
  }

  lemma TargetsTame(g: PackageGraph.Graph, peers: PeerMap, t: Tree)
    requires t.Node? && Unfolds(g, peers, t)
    requires forall i :: 0 <= i < |t.deps| ==> Tame(g, peers, t.deps[i].tree.id)
    requires forall i :: 0 <= i < |t.peers| ==> Tame(g, peers, t.peers[i].tree.id)
    ensures Tame(g, peers, t.id)
  {
    var edges := Edges(g, peers);
    if ReachesCycle(edges, t.id) {
      var w := CycleBelow(edges, t.id);
      if w in DepIds(g.packages[t.id].dependencies) {
        TargetIsBranch(g.packages[t.id].dependencies, t.deps, w);
      } else {
        TargetIsBranch(PeersOf(peers, t.id), t.peers, w);
      }
    }
  }

  // ---- on a cycle the hash does not cover the closure ----

  function CycleA(): PackageId { PackageId("a", "1.0.0") }

  function CycleB(): PackageId { PackageId("b", "1.0.0") }

  /** Two packages that depend on each other; `tarball` is where `a` comes from. */
  function TwoCycle(tarball: string): PackageGraph.Graph {
    PackageGraph.Graph(map[], map[CycleA() := Package(tarball, None, [Dep("b", CycleB())], []),
                                  CycleB() := Package("b.tgz", None, [Dep("a", CycleA())], [])], [CycleA(), CycleB()])
  }

  /** Hashing `a` first, the hash of `b` is the same wherever `a` comes from,
      although `b` depends on `a`: inside the cycle `a` counts by its id only.
      The hash of `a` itself is taken of a stream that names its tarball. */
  lemma CycleHidesContent(h: Hasher, tarball: string)
    ensures OnCycle(Edges(TwoCycle(tarball), map[]), CycleA())
    ensures var stub := Record("a", CycleA(), h(CycleStream(CycleA())));
      var hashB := h(EntryStream(CycleB(), "b.tgz", "", [stub], []));
      var (hashA, memo) := Visit(h, TwoCycle(tarball), map[], CycleA(), map[], {});
      && CycleB() in memo && memo[CycleB()] == hashB
      && hashA == h(EntryStream(CycleA(), tarball, "", [Record("b", CycleB(), hashB)], []))
  {
    TwoCycleIsCycle(tarball);
    HashInsideCycle(h, tarball);
    var g := TwoCycle(tarball);
    var a, b := CycleA(), CycleB();
    var stub := Record("a", a, h(CycleStream(a)));
    var hashB := h(EntryStream(b, "b.tgz", "", [stub], []));
    OneEdge(h, g, Dep("b", b), map[], {a});
    NoEdges(h, g, map[b := hashB], {a});
    assert {} + {a} == {a};
  }

  lemma CycleIdsDiffer()
    ensures CycleA() != CycleB()
  {
    assert CycleA().name[0] != CycleB().name[0];
  }

  lemma TwoCycleIsCycle(tarball: string)
    ensures OnCycle(Edges(TwoCycle(tarball), map[]), CycleA())
  {
    CycleIdsDiffer();
    var edges := Edges(TwoCycle(tarball), map[]);
    assert edges[CycleA()] == {CycleB()} && edges[CycleB()] == {CycleA()};
    assert PathBetween(edges, CycleA(), CycleA(), [CycleA(), CycleB(), CycleA()]);
  }

  lemma HashInsideCycle(h: Hasher, tarball: string)
    ensures var hashB := h(EntryStream(CycleB(), "b.tgz", "", [Record("a", CycleA(), h(CycleStream(CycleA())))], []));
      Visit(h, TwoCycle(tarball), map[], CycleB(), map[], {CycleA()}) == (hashB, map[CycleB() := hashB])
  {
    CycleIdsDiffer();
    var g := TwoCycle(tarball);
    var a, b := CycleA(), CycleB();
    NoEdges(h, g, map[], {a, b});
    OneEdge(h, g, Dep("a", a), map[], {a, b});
    assert {a} + {b} == {a, b};
  }

  lemma NoEdges(h: Hasher, g: PackageGraph.Graph, memo: Memo, stack: set<PackageId>)
    ensures VisitAll(h, g, map[], [], memo, stack) == ([], memo)
  {
  }

  lemma OneEdge(h: Hasher, g: PackageGraph.Graph, d: Dep, memo: Memo, stack: set<PackageId>)
    ensures var (hash, after) := Visit(h, g, map[], d.id, memo, stack);
      VisitAll(h, g, map[], [d], memo, stack) == ([Record(d.name, d.id, hash)], after)
  {
    var r := Record(d.name, d.id, Visit(h, g, map[], d.id, memo, stack).0);
    assert [d][..0] == [] && [] + [r] == [r];
    NoEdges(h, g, memo, stack);
  }

  // ---- the traversal as the program runs it ----

  class EntryHasher {
    const h: Hasher
    const g: PackageGraph.Graph
    const peers: PeerMap
    var hashes: Memo
    var visiting: set<PackageId>

    constructor (h: Hasher, g: PackageGraph.Graph, peers: PeerMap)
      ensures this.h == h && this.g == g && this.peers == peers && hashes == map[] && visiting == {}
    {
      this.h, this.g, this.peers := h, g, peers;
      hashes, visiting := map[], {};
    }

    method Compute(id: PackageId) returns (hash: ShortHash)
      modifies this`hashes, this`visiting
      ensures (hash, hashes) == Visit(h, g, peers, id, old(hashes), old(visiting))
      ensures visiting == old(visiting)
      decreases g.packages.Keys - visiting, 0
    {
      if id in hashes {
        return hashes[id];
      }
      var stream := TAG + Encode(IdFields(id));
      if id in visiting {
        return h(stream + CYCLE);
      }
      visiting := visiting + {id};
      if id in g.packages {
        var package := g.packages[id];
        EncodeConcat(IdFields(id), [package.tarball, package.integrity.GetOr("")]);
        stream := stream + Encode([package.tarball, package.integrity.GetOr("")]);
        var depPart, depRecords := HashEdges(package.dependencies, false);
        var peerPart, peerRecords := HashEdges(if id in peers then peers[id] else [], true);
        StreamParts(id, package.tarball, package.integrity.GetOr(""), depRecords, peerRecords);
        stream := stream + depPart + peerPart;
      }
      visiting := visiting - {id};
      assert visiting == old(visiting);
      hash := h(stream);
      hashes := hashes[id := hash];
    }

    /** One loop over edges: what it appends to the stream. */
    method HashEdges(edges: seq<Dep>, tagged: bool) returns (part: string, ghost records: seq<Record>)
      modifies this`hashes, this`visiting
      ensures (records, hashes) == VisitAll(h, g, peers, edges, old(hashes), old(visiting))
      ensures part == Encode(if tagged then PeerFields(records) else DepFields(records))
      ensures visiting == old(visiting)
      decreases g.packages.Keys - visiting, 1
    {
      part, records := [], [];
      assert PeerFields([]) == [] && DepFields([]) == [];
      for i := 0 to |edges|
        invariant visiting == old(visiting)
        invariant (records, hashes) == VisitAll(h, g, peers, edges[..i], old(hashes), old(visiting))
        invariant part == Encode(if tagged then PeerFields(records) else DepFields(records))
      {
        assert edges[..i + 1][..i] == edges[..i];
        var edge := edges[i];
        var hash := Compute(edge.id);
        var fields := (if tagged then [PEER] else []) + [edge.name] + IdFields(edge.id) + [hash];
        ghost var r := Record(edge.name, edge.id, hash);
        AppendRecord(records, r, tagged, fields);
        part := part + Encode(fields);
        records := records + [r];
      }
      assert edges[..|edges|] == edges;
    }
  }

  lemma AppendRecord(records: seq<Record>, r: Record, tagged: bool, fields: seq<string>)
    requires fields == (if tagged then [PEER] else []) + [r.name] + IdFields(r.id) + [r.hash]
    ensures var before := if tagged then PeerFields(records) else DepFields(records);
      var after := if tagged then PeerFields(records + [r]) else DepFields(records + [r]);
      Encode(before) + Encode(fields) == Encode(after)
  {
    if tagged {
      assert fields == [PEER, r.name, r.id.name, r.id.version, r.hash];
      PeerFieldsGrow(records, r);
      EncodeConcat(PeerFields(records), fields);
    } else {
      assert fields == [r.name, r.id.name, r.id.version, r.hash];
      DepFieldsGrow(records, r);
      EncodeConcat(DepFields(records), fields);
    }
  }

  lemma StreamParts(id: PackageId, tarball: string, integrity: string, deps: seq<Record>, bound: seq<Record>)
    ensures TAG + Encode(IdFields(id)) + Encode([tarball, integrity])
      + Encode(DepFields(deps)) + Encode(PeerFields(bound)) == EntryStream(id, tarball, integrity, deps, bound)
  {
    var head := IdFields(id) + [tarball, integrity];
    EncodeConcat(IdFields(id), [tarball, integrity]);
    EncodeConcat(DepFields(deps), PeerFields(bound));
    EncodeConcat(head, DepFields(deps) + PeerFields(bound));
    assert head == [id.name, id.version, tarball, integrity];
  }

  /** Every hash of a package above no cycle is that of its closure. */
  ghost predicate HashedPlainly(h: Hasher, g: PackageGraph.Graph, peers: PeerMap, hashes: Memo) {
    forall id :: id in hashes && Tame(g, peers, id) ==> hashes[id] == TreeHash(h, Closure(g, peers, id))
  }

  /** Hash every package, starting the traversal at the ids in any order.  The
      memo ends up with every package, with the hash of an unfolding of each, and
      with the plain recursive hash of each that is above no cycle. */
  method GlobalEntryHashes(h: Hasher, g: PackageGraph.Graph, peers: PeerMap) returns (hashes: Memo)
    ensures g.packages.Keys <= hashes.Keys
    ensures MemoUnfolds(h, g, peers, hashes)
    ensures HashedPlainly(h, g, peers, hashes)
  {
    var hasher := new EntryHasher(h, g, peers);
    ghost var f := PlainHashes(h, g, peers);
    ClosureHashesPlainly(h, g, peers);
    var todo := g.packages.Keys;
    while todo != {}
      invariant hasher.h == h && hasher.g == g && hasher.peers == peers && hasher.visiting == {}
      invariant todo <= g.packages.Keys && g.packages.Keys - todo <= hasher.hashes.Keys
      invariant MemoOf(g, peers, f, hasher.hashes) && MemoUnfolds(h, g, peers, hasher.hashes)
    {
      var id :| id in todo;
      VisitFrame(h, g, peers, id, hasher.hashes, {});
      VisitIsPlain(h, g, peers, f, id, hasher.hashes, {});
      ghost var _ := VisitUnfolds(h, g, peers, id, hasher.hashes, {});
      var _ := hasher.Compute(id);
      todo := todo - {id};
    }
    hashes := hasher.hashes;
  }
}
