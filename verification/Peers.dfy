/** Binding required peer dependencies to concrete packages
    (snpm-core/src/linker/virtual_store.rs, `resolve_unique_peers` and
    `select_dominant_peer`). */
module Peers {
  import opened Wrappers
  import opened Ordering
  import opened Versions
  import opened PackageGraph
  import opened Sequences

  /** How version and range texts are read: `parseVersion` and `rangeOk` say
      which texts parse, `matches` whether a version lies in a parsed range. */
  datatype Semver = Semver(parseVersion: string -> Option<Version>,
                           rangeOk: string -> bool,
                           matches: (string, Version) -> bool)

  predicate Satisfies(sv: Semver, range: string, id: PackageId) {
    sv.parseVersion(id.version).Some? && sv.matches(range, sv.parseVersion(id.version).value)
  }

  /** `filter(satisfies).max_by(version)`: of several maximal candidates the
      last one wins. */
  function Highest(sv: Semver, range: string, ids: seq<PackageId>): (best: Option<PackageId>)
    ensures best.None? <==> forall id :: id in ids ==> !Satisfies(sv, range, id)
    ensures best.Some? ==> best.value in ids && Satisfies(sv, range, best.value)
    ensures best.Some? ==> forall id :: id in ids && Satisfies(sv, range, id) ==>
      !Less(sv.parseVersion(best.value.version).value, sv.parseVersion(id.version).value)
  {
    if ids == [] then None
    else
      var last := ids[|ids| - 1];
      var rest := ids[..|ids| - 1];
      assert ids == rest + [last];
      var best := Highest(sv, range, rest);
      if !Satisfies(sv, range, last) then best
      else if best.None? then
        LessIsStrictTotal(sv.parseVersion(last.version).value, sv.parseVersion(last.version).value,
                          sv.parseVersion(last.version).value);
        Some(last)
      else
        HighestStep(sv, range, rest, best.value, last);
        if Less(sv.parseVersion(last.version).value, sv.parseVersion(best.value.version).value)
        then best else Some(last)
  }

  lemma HighestStep(sv: Semver, range: string, rest: seq<PackageId>, best: PackageId, last: PackageId)
    requires Satisfies(sv, range, best) && Satisfies(sv, range, last)
    requires forall id :: id in rest && Satisfies(sv, range, id) ==>
      !Less(sv.parseVersion(best.version).value, sv.parseVersion(id.version).value)
    ensures !Less(sv.parseVersion(last.version).value, sv.parseVersion(last.version).value)
    ensures !Less(sv.parseVersion(last.version).value, sv.parseVersion(best.version).value) ==>
      forall id :: id in rest && Satisfies(sv, range, id) ==>
        !Less(sv.parseVersion(last.version).value, sv.parseVersion(id.version).value)
    ensures Less(sv.parseVersion(last.version).value, sv.parseVersion(best.version).value) ==>
      !Less(sv.parseVersion(best.version).value, sv.parseVersion(last.version).value)
  {
    var b, l := sv.parseVersion(best.version).value, sv.parseVersion(last.version).value;
    LessIsStrictTotal(l, b, l);
    LessIsStrictTotal(b, l, b);
    if !Less(l, b) {
      forall id | id in rest && Satisfies(sv, range, id)
        ensures !Less(l, sv.parseVersion(id.version).value)
      {
        LessIsStrictTotal(b, l, sv.parseVersion(id.version).value);
      }
    }
  }

  /** The root's own choice of a provider named `name`. */
  function RootChoice(g: Graph, name: string): Option<PackageId> {
    if name in g.root && g.root[name].name == name then Some(g.root[name]) else None
  }

  function SelectDominantPeer(sv: Semver, g: Graph, name: string, range: string,
                              candidates: seq<PackageId>): Option<PackageId> {
    if RootChoice(g, name).Some? && Satisfies(sv, range, RootChoice(g, name).value) then RootChoice(g, name)
    else Highest(sv, range, candidates)
  }

  datatype Binding = Provided | Missing | To(id: PackageId)

  /** One required peer: provided by a direct dependency, unavailable, or bound. */
  function BindOne(sv: Semver, g: Graph, deps: seq<Dep>, r: PeerRange, candidates: seq<PackageId>): Binding {
    if r.name in DepNames(deps) then Provided
    else if !sv.rangeOk(r.range) then Missing
    else
      match SelectDominantPeer(sv, g, r.name, r.range, candidates)
      case Some(id) => To(id)
      case None => Missing
  }

  /** Bind the listed peers in order; None as soon as one is missing. */
  ghost function Bind(sv: Semver, g: Graph, deps: seq<Dep>, ranges: seq<PeerRange>): Option<seq<Dep>> {
    if ranges == [] then Some([])
    else
      var last := ranges[|ranges| - 1];
      Extend(Bind(sv, g, deps, ranges[..|ranges| - 1]), last.name,
             BindOne(sv, g, deps, last, Named(g.order, last.name)))
  }

  ghost function Extend(bound: Option<seq<Dep>>, name: string, next: Binding): Option<seq<Dep>> {
    if bound.None? || next.Provided? then bound
    else if next.Missing? then None
    else Some(bound.value + [Dep(name, next.id)])
  }

  /** The peers bound for `id`, if it has required peers and all resolve. */
  ghost function BoundFor(sv: Semver, g: Graph, id: PackageId): Option<seq<Dep>> {
    if id !in g.packages || g.packages[id].peerRanges == [] then None
    else Bind(sv, g, g.packages[id].dependencies, g.packages[id].peerRanges)
  }

  ghost function ResolvedPeers(sv: Semver, g: Graph): (m: PeerMap)
    ensures forall id :: id in m ==> id in g.packages
  {
    map id | id in g.packages && BoundFor(sv, g, id).Some? :: BoundFor(sv, g, id).value
  }

  method GroupByName(g: Graph) returns (idsByName: map<string, seq<PackageId>>)
    ensures forall n :: (if n in idsByName then idsByName[n] else []) == Named(g.order, n)
  {
    idsByName := map[];
    for i := 0 to |g.order|
      invariant forall n :: (if n in idsByName then idsByName[n] else []) == Named(g.order[..i], n)
    {
      var id := g.order[i];
      assert g.order[..i + 1][..i] == g.order[..i];
      idsByName := idsByName[id.name := (if id.name in idsByName then idsByName[id.name] else []) + [id]];
    }
    assert g.order[..|g.order|] == g.order;
  }

  /** The inner loop over one package's required peers. */
  method BindAll(sv: Semver, g: Graph, package: Package, idsByName: map<string, seq<PackageId>>)
    returns (bound: Option<seq<Dep>>)
    requires forall n :: (if n in idsByName then idsByName[n] else []) == Named(g.order, n)
    ensures bound == Bind(sv, g, package.dependencies, package.peerRanges)
  {
    var ranges := package.peerRanges;
    var peerMap: seq<Dep> := [];
    for i := 0 to |ranges|
      invariant Bind(sv, g, package.dependencies, ranges[..i]) == Some(peerMap)
    {
      var peer := ranges[i];
      BindOneMore(sv, g, package.dependencies, ranges, i);
      var candidates := if peer.name in idsByName then idsByName[peer.name] else [];
      match BindOne(sv, g, package.dependencies, peer, candidates) {
        case Provided =>
        case Missing =>
          BindStaysNone(sv, g, package.dependencies, ranges, i + 1);
          return None;
        case To(id) =>
          peerMap := peerMap + [Dep(peer.name, id)];
      }
    }
    assert ranges[..|ranges|] == ranges;
    return Some(peerMap);
  }

  lemma BindOneMore(sv: Semver, g: Graph, deps: seq<Dep>, ranges: seq<PeerRange>, i: nat)
    requires i < |ranges|
    ensures Bind(sv, g, deps, ranges[..i + 1])
         == Extend(Bind(sv, g, deps, ranges[..i]), ranges[i].name,
                   BindOne(sv, g, deps, ranges[i], Named(g.order, ranges[i].name)))
  {
    PrefixGrows(ranges, i);
    assert ranges[..i + 1][..i] == ranges[..i];
  }

  lemma {:induction false} BindStaysNone(sv: Semver, g: Graph, deps: seq<Dep>, ranges: seq<PeerRange>, i: nat)
    requires i <= |ranges| && Bind(sv, g, deps, ranges[..i]).None?
    ensures Bind(sv, g, deps, ranges).None?
    decreases |ranges|
  {
    if i == |ranges| {
      assert ranges[..i] == ranges;
    } else {
      assert ranges[..|ranges| - 1][..i] == ranges[..i];
      BindStaysNone(sv, g, deps, ranges[..|ranges| - 1], i);
    }
  }

  ghost predicate Peered(sv: Semver, g: Graph, ids: set<PackageId>, resolved: PeerMap) {
    && (forall id :: id in resolved <==> id in ids && BoundFor(sv, g, id).Some?)
    && (forall id :: id in resolved ==> resolved[id] == BoundFor(sv, g, id).value)
  }

  method ResolveUniquePeers(sv: Semver, g: Graph) returns (resolved: PeerMap)
    ensures resolved == ResolvedPeers(sv, g)
  {
    var idsByName := GroupByName(g);
    resolved := map[];
    var todo := g.packages.Keys;
    while todo != {}
      invariant todo <= g.packages.Keys
      invariant Peered(sv, g, g.packages.Keys - todo, resolved)
    {
      var id :| id in todo;
      var package := g.packages[id];
      if package.peerRanges != [] {
        var bound := BindAll(sv, g, package, idsByName);
        if bound.Some? {
          resolved := resolved[id := bound.value];
        }
      }
      todo := todo - {id};
    }
  }

  // ---- what a binding promises ----

  /** The version text of `id` parses, to a version in the range. */
  ghost predicate InRange(sv: Semver, range: string, id: PackageId) {
    exists v :: sv.parseVersion(id.version) == Some(v) && sv.matches(range, v)
  }

  /** The root depends on the peer under its own name, at a version in the range. */
  ghost predicate RootProvides(sv: Semver, g: Graph, r: PeerRange) {
    r.name in g.root && g.root[r.name].name == r.name && InRange(sv, r.range, g.root[r.name])
  }

  ghost predicate DirectDependency(deps: seq<Dep>, name: string) {
    exists d :: d in deps && d.name == name
  }

  /** A direct dependency has the peer's name, or the range parses and the root or some
      package of the graph provides it. */
  ghost predicate PeerAvailable(sv: Semver, g: Graph, deps: seq<Dep>, r: PeerRange) {
    || DirectDependency(deps, r.name)
    || (sv.rangeOk(r.range) &&
          (RootProvides(sv, g, r) || exists id :: id in g.packages && id.name == r.name && InRange(sv, r.range, id)))
  }

  /** No package of the peer's name and in its range has a higher version. */
  ghost predicate NoneHigher(sv: Semver, g: Graph, r: PeerRange, id: PackageId) {
    forall other, v, w ::
      (other in g.packages && other.name == r.name && sv.parseVersion(other.version) == Some(w)
       && sv.matches(r.range, w) && sv.parseVersion(id.version) == Some(v)) ==> !Less(v, w)
  }

  /** The peer bound for `r`: what the root depends on if that is in the range, and
      otherwise a package of the graph that is, none being higher. */
  ghost predicate BoundWell(sv: Semver, g: Graph, r: PeerRange, id: PackageId) {
    && sv.rangeOk(r.range)
    && if RootProvides(sv, g, r) then id == g.root[r.name]
       else id in g.packages && id.name == r.name && InRange(sv, r.range, id) && NoneHigher(sv, g, r, id)
  }

  lemma SatisfiesIsInRange(sv: Semver, range: string, id: PackageId)
    ensures Satisfies(sv, range, id) <==> InRange(sv, range, id)
  {
    if Satisfies(sv, range, id) {
      assert sv.parseVersion(id.version) == Some(sv.parseVersion(id.version).value);
    }
  }

  lemma SelectedMeaning(sv: Semver, g: Graph, r: PeerRange)
    requires WellFormed(g) && sv.rangeOk(r.range)
    ensures var best := SelectDominantPeer(sv, g, r.name, r.range, Named(g.order, r.name));
      && (best.Some? ==> BoundWell(sv, g, r, best.value))
      && (best.None? <==> !RootProvides(sv, g, r)
                          && forall id :: id in g.packages && id.name == r.name ==> !InRange(sv, r.range, id))
  {
    forall id
      ensures Satisfies(sv, r.range, id) <==> InRange(sv, r.range, id)
    {
      SatisfiesIsInRange(sv, r.range, id);
    }
  }

  lemma BindOneMeaning(sv: Semver, g: Graph, deps: seq<Dep>, r: PeerRange)
    requires WellFormed(g)
    ensures var b := BindOne(sv, g, deps, r, Named(g.order, r.name));
      && (b.Provided? <==> DirectDependency(deps, r.name))
      && (b.Missing? <==> !PeerAvailable(sv, g, deps, r))
      && (b.To? ==> BoundWell(sv, g, r, b.id))
  {
    assert r.name in DepNames(deps) <==> DirectDependency(deps, r.name);
    if sv.rangeOk(r.range) {
      SelectedMeaning(sv, g, r);
    }
  }

  /** A package's peers resolve exactly when each required one is a direct
      dependency or has a satisfying provider. */
  lemma {:induction false} BoundIffAvailable(sv: Semver, g: Graph, deps: seq<Dep>, ranges: seq<PeerRange>)
    requires WellFormed(g)
    ensures Bind(sv, g, deps, ranges).Some? <==> forall r :: r in ranges ==> PeerAvailable(sv, g, deps, r)
    decreases |ranges|
  {
    if ranges != [] {
      var n := |ranges| - 1;
      PrefixGrows(ranges, n);
      assert ranges[..n + 1] == ranges;
      BoundIffAvailable(sv, g, deps, ranges[..n]);
      BindOneMeaning(sv, g, deps, ranges[n]);
    }
  }

  ghost predicate EachBoundWell(sv: Semver, g: Graph, ranges: seq<PeerRange>, bound: seq<Dep>) {
    forall d :: d in bound ==> exists r :: r in ranges && r.name == d.name && BoundWell(sv, g, r, d.id)
  }

  function RequiredNames(ranges: seq<PeerRange>): set<string> {
    set r | r in ranges :: r.name
  }

  /** The bound peers are, in name order, exactly the required ones that are
      not direct dependencies, each bound well. */
  lemma {:induction false} BoundPeers(sv: Semver, g: Graph, deps: seq<Dep>, ranges: seq<PeerRange>)
    requires WellFormed(g) && RangesSorted(ranges) && Bind(sv, g, deps, ranges).Some?
    ensures var bound := Bind(sv, g, deps, ranges).value;
      && DepsSorted(bound)
      && DepNames(bound) == RequiredNames(ranges) - DepNames(deps)
      && EachBoundWell(sv, g, ranges, bound)
    decreases |ranges|
  {
    if ranges != [] {
      var n := |ranges| - 1;
      PrefixGrows(ranges, n);
      assert ranges[..n + 1] == ranges;
      BoundPeers(sv, g, deps, ranges[..n]);
      BindOneMeaning(sv, g, deps, ranges[n]);
      ExtendBound(sv, g, deps, ranges[..n], ranges[n], Bind(sv, g, deps, ranges[..n]).value);
      assert RangesSorted(ranges[..n] + [ranges[n]]);
    }
  }

  lemma ExtendBound(sv: Semver, g: Graph, deps: seq<Dep>, front: seq<PeerRange>, last: PeerRange, before: seq<Dep>)
    requires RangesSorted(front + [last]) && DepsSorted(before)
    requires DepNames(before) == RequiredNames(front) - DepNames(deps) && EachBoundWell(sv, g, front, before)
    ensures last.name in DepNames(deps) ==>
      DepNames(before) == RequiredNames(front + [last]) - DepNames(deps) && EachBoundWell(sv, g, front + [last], before)
    ensures last.name !in DepNames(deps) ==> forall id :: BoundWell(sv, g, last, id) ==>
      var bound := before + [Dep(last.name, id)];
      DepsSorted(bound) && DepNames(bound) == RequiredNames(front + [last]) - DepNames(deps)
      && EachBoundWell(sv, g, front + [last], bound)
  {
    var ranges := front + [last];
    assert RequiredNames(ranges) == RequiredNames(front) + {last.name};
    forall d | d in before
      ensures TextLess(d.name, last.name)
      ensures exists r :: r in ranges && r.name == d.name && BoundWell(sv, g, r, d.id)
    {
      var r :| r in front && r.name == d.name && BoundWell(sv, g, r, d.id);
      var i :| 0 <= i < |front| && front[i] == r;
      assert ranges[i] == r && ranges[|front|] == last;
      assert r in ranges;
    }
    forall id | last.name !in DepNames(deps) && BoundWell(sv, g, last, id)
      ensures var bound := before + [Dep(last.name, id)];
        DepsSorted(bound) && DepNames(bound) == RequiredNames(ranges) - DepNames(deps) &&
            EachBoundWell(sv, g, ranges, bound)
    {
      var bound := before + [Dep(last.name, id)];
      assert DepNames(bound) == DepNames(before) + {last.name};
      assert last in ranges;
    }
  }

  /** The resolved-peer map: which packages are in it, and what it binds. */
  lemma ResolvedPeersMeaning(sv: Semver, g: Graph, id: PackageId)
    requires WellFormed(g) && id in g.packages
    ensures id in ResolvedPeers(sv, g) <==>
      g.packages[id].peerRanges != [] &&
      forall r :: r in g.packages[id].peerRanges ==> PeerAvailable(sv, g, g.packages[id].dependencies, r)
    ensures id in ResolvedPeers(sv, g) ==>
      && DepsSorted(ResolvedPeers(sv, g)[id])
      && DepNames(ResolvedPeers(sv, g)[id]) !! DepNames(g.packages[id].dependencies)
      && EachBoundWell(sv, g, g.packages[id].peerRanges, ResolvedPeers(sv, g)[id])
      && EachBound(g.packages[id].dependencies, g.packages[id].peerRanges, ResolvedPeers(sv, g)[id])
  {
    var package := g.packages[id];
    BoundIffAvailable(sv, g, package.dependencies, package.peerRanges);
    if id in ResolvedPeers(sv, g) {
      BoundPeers(sv, g, package.dependencies, package.peerRanges);
      NamesBound(package.dependencies, package.peerRanges, ResolvedPeers(sv, g)[id]);
    }
  }

  /** Every required peer that is no direct dependency is bound. */
  ghost predicate EachBound(deps: seq<Dep>, ranges: seq<PeerRange>, bound: seq<Dep>) {
    forall r :: r in ranges && !DirectDependency(deps, r.name) ==> DirectDependency(bound, r.name)
  }

  lemma NamesBound(deps: seq<Dep>, ranges: seq<PeerRange>, bound: seq<Dep>)
    requires DepNames(bound) == RequiredNames(ranges) - DepNames(deps)
    ensures EachBound(deps, ranges, bound)
  {
    forall r | r in ranges && !DirectDependency(deps, r.name)
      ensures DirectDependency(bound, r.name)
    {
      assert r.name in RequiredNames(ranges) && r.name !in DepNames(deps);
      assert r.name in DepNames(bound);
    }
  }

  /** The peer of one range in the resolved map, in terms of the root's own dependencies:
      what the root has if that is in the range, whatever else the graph holds. */
  lemma RootDominates(sv: Semver, g: Graph, id: PackageId, r: PeerRange, d: Dep)
    requires WellFormed(g) && id in g.packages && r in g.packages[id].peerRanges
    requires id in ResolvedPeers(sv, g) && d in ResolvedPeers(sv, g)[id] && d.name == r.name
    ensures BoundWell(sv, g, r, d.id)
    ensures r.name in g.root && g.root[r.name].name == r.name && InRange(sv, r.range, g.root[r.name]) ==>
      d.id == g.root[r.name]
  {
    ResolvedPeersMeaning(sv, g, id);
    var q :| q in g.packages[id].peerRanges && q.name == d.name && BoundWell(sv, g, q, d.id);
    SortedRangesDiffer(g.packages[id].peerRanges, q, r);
  }

  lemma SortedRangesDiffer(ranges: seq<PeerRange>, q: PeerRange, r: PeerRange)
    requires RangesSorted(ranges) && q in ranges && r in ranges && q.name == r.name
    ensures q == r
  {
    TextLessIrreflexive(q.name);
    var i :| 0 <= i < |ranges| && ranges[i] == q;
    var j :| 0 <= j < |ranges| && ranges[j] == r;
  }
}
