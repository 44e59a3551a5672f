/** Finite directed graphs: paths, cycles, and the layers in which a vertex
    "settles" once everything it points at has settled.  The lifecycle
    scheduler and the virtual-store hasher are both specified on top of it. */
module Digraph {

  /** A vertex is a key; an edge may lead to a value that is not a key (a leaf). */
  type Graph<V(!new,==)> = map<V, set<V>>

  ghost predicate Edge<V(!new)>(g: Graph<V>, u: V, v: V) {
    u in g && v in g[u]
  }

  ghost predicate IsPath<V(!new)>(g: Graph<V>, p: seq<V>) {
    |p| > 0 && forall i :: 0 <= i < |p| - 1 ==> Edge(g, p[i], p[i + 1])
  }

  ghost predicate PathFrom<V(!new)>(g: Graph<V>, u: V, p: seq<V>) {
    IsPath(g, p) && p[0] == u
  }

  ghost predicate PathBetween<V(!new)>(g: Graph<V>, u: V, v: V, p: seq<V>) {
    PathFrom(g, u, p) && p[|p| - 1] == v
  }

  ghost predicate Reaches<V(!new)>(g: Graph<V>, u: V, v: V) {
    exists p :: PathBetween(g, u, v, p)
  }

  /** `u` lies on a cycle: some path of at least one edge leads from u back to u. */
  ghost predicate OnCycle<V(!new)>(g: Graph<V>, u: V) {
    exists p :: PathBetween(g, u, u, p) && |p| >= 2
  }

  ghost predicate ReachesCycle<V(!new)>(g: Graph<V>, u: V) {
    exists v :: Reaches(g, u, v) && OnCycle(g, v)
  }

  ghost predicate Acyclic<V(!new)>(g: Graph<V>) {
    forall u :: !OnCycle(g, u)
  }

  /** A path all of whose vertices are keys. */
  ghost predicate Chain<V(!new)>(g: Graph<V>, u: V, p: seq<V>) {
    PathFrom(g, u, p) && forall i :: 0 <= i < |p| ==> p[i] in g
  }

  ghost predicate ChainsWithin<V(!new)>(g: Graph<V>, u: V, k: nat) {
    forall p :: Chain(g, u, p) ==> |p| <= k
  }

  /** The vertices from which no chain has more than k vertices.  `SettledStep`
      shows that these are the vertices that settle within k rounds, when a
      vertex settles one round after its last successor. */
  ghost function Settled<V(!new)>(g: Graph<V>, k: nat): set<V> {
    set u | u in g && ChainsWithin(g, u, k)
  }

  ghost function Layer<V(!new)>(g: Graph<V>, k: nat): set<V> {
    Settled(g, k + 1) - Settled(g, k)
  }

  ghost function Unsettled<V(!new)>(g: Graph<V>): set<V> {
    g.Keys - Settled(g, |g|)
  }

  // ---- reachability ----

  lemma PathTail<V(!new)>(g: Graph<V>, p: seq<V>)
    requires IsPath(g, p) && |p| > 1
    ensures IsPath(g, p[1..])
  {
    forall i | 0 <= i < |p| - 2
      ensures Edge(g, p[1..][i], p[1..][i + 1])
    {
      assert Edge(g, p[i + 1], p[i + 2]);
    }
  }

  lemma ReachesSelf<V(!new)>(g: Graph<V>, u: V)
    ensures Reaches(g, u, u)
  {
    assert PathBetween(g, u, u, [u]);
  }

  lemma ReachesStep<V(!new)>(g: Graph<V>, u: V, v: V, w: V)
    requires Edge(g, u, v) && Reaches(g, v, w)
    ensures Reaches(g, u, w)
  {
    var p :| PathBetween(g, v, w, p);
    assert PathBetween(g, u, w, [u] + p);
  }

  lemma ReachesTransitive<V(!new)>(g: Graph<V>, u: V, v: V, w: V)
    requires Reaches(g, u, v) && Reaches(g, v, w)
    ensures Reaches(g, u, w)
  {
    var p :| PathBetween(g, u, v, p);
    var q :| PathBetween(g, v, w, q);
    var r := p + q[1..];
    forall i | 0 <= i < |r| - 1
      ensures Edge(g, r[i], r[i + 1])
    {
      if i < |p| - 1 {
        assert r[i] == p[i] && r[i + 1] == p[i + 1];
      } else {
        assert r[i] == q[i - (|p| - 1)] && r[i + 1] == q[i - (|p| - 1) + 1];
      }
    }
    assert PathBetween(g, u, w, r);
  }

  /** A set closed under edges keeps everything reachable from its members. */
  lemma ClosedUnderReach<V(!new)>(g: Graph<V>, s: set<V>, u: V, v: V)
    requires u in s && Reaches(g, u, v)
    requires forall a, b :: a in s && Edge(g, a, b) ==> b in s
    ensures v in s
  {
    var p :| PathBetween(g, u, v, p);
    ClosedAlongPath(g, s, p);
  }

  lemma {:induction false} ClosedAlongPath<V(!new)>(g: Graph<V>, s: set<V>, p: seq<V>)
    requires IsPath(g, p) && p[0] in s
    requires forall a, b :: a in s && Edge(g, a, b) ==> b in s
    ensures forall i :: 0 <= i < |p| ==> p[i] in s
    decreases |p|
  {
    if |p| > 1 {
      assert Edge(g, p[0], p[1]);
      var q := p[1..];
      PathTail(g, p);
      ClosedAlongPath(g, s, q);
      assert forall i :: 0 < i < |p| ==> p[i] == q[i - 1];
    }
  }

  // ---- layers and chains ----

  lemma NothingSettlesInNoRounds<V(!new)>(g: Graph<V>)
    ensures Settled(g, 0) == {}
  {
    forall u | u in g
      ensures u !in Settled(g, 0)
    {
      assert Chain(g, u, [u]);
    }
  }

  lemma SettledStep<V(!new)>(g: Graph<V>, u: V, k: nat)
    requires u in g
    ensures u in Settled(g, k + 1) <==> forall v :: v in g[u] && v in g ==> v in Settled(g, k)
  {
    if u in Settled(g, k + 1) {
      forall v, q | v in g[u] && v in g && Chain(g, v, q)
        ensures |q| <= k
      {
        assert Edge(g, u, v);
        assert Chain(g, u, [u] + q);
      }
    } else {
      var p :| Chain(g, u, p) && |p| > k + 1;
      PathTail(g, p);
      assert Edge(g, p[0], p[1]);
      assert Chain(g, p[1], p[1..]);
    }
  }

  /** A vertex that is still unsettled after k rounds starts a chain of k + 1 vertices. */
  lemma UnsettledChain<V(!new)>(g: Graph<V>, u: V, k: nat) returns (p: seq<V>)
    requires u in g && u !in Settled(g, k)
    ensures Chain(g, u, p) && |p| == k + 1
  {
    var q :| Chain(g, u, q) && |q| > k;
    p := q[..k + 1];
    forall i | 0 <= i < |p| - 1
      ensures Edge(g, p[i], p[i + 1])
    {
      assert Edge(g, q[i], q[i + 1]);
    }
  }

  lemma SettledMonotone<V(!new)>(g: Graph<V>, j: nat, k: nat)
    requires j <= k
    ensures Settled(g, j) <= Settled(g, k)
  {}

  /** Once a round settles nothing new, no later round does. */
  lemma {:induction false} SettledStays<V(!new)>(g: Graph<V>, m: nat, k: nat)
    requires Settled(g, m) == Settled(g, m + 1) && m <= k
    ensures Settled(g, k) == Settled(g, m)
    decreases k
  {
    if k > m {
      SettledStays(g, m, k - 1);
      forall u | u in g
        ensures u in Settled(g, k) <==> u in Settled(g, m + 1)
      {
        SettledStep(g, u, k - 1);
        SettledStep(g, u, m);
      }
    }
  }

  // ---- cycles ----

  /** More positions than available values force a repetition. */
  lemma {:induction false} Pigeonhole<V(!new)>(p: seq<V>, s: set<V>) returns (i: nat, j: nat)
    requires |p| > |s| && forall k :: 0 <= k < |p| ==> p[k] in s
    ensures i < j < |p| && p[i] == p[j]
    decreases |p|
  {
    var last := p[|p| - 1];
    if k: nat :| k < |p| - 1 && p[k] == last {
      i, j := k, |p| - 1;
    } else {
      i, j := Pigeonhole(p[..|p| - 1], s - {last});
    }
  }

  lemma SubPath<V(!new)>(g: Graph<V>, p: seq<V>, i: nat, j: nat)
    requires IsPath(g, p) && i <= j < |p|
    ensures PathBetween(g, p[i], p[j], p[i..j + 1])
  {
    var q := p[i..j + 1];
    forall k | 0 <= k < |q| - 1
      ensures Edge(g, q[k], q[k + 1])
    {
      assert Edge(g, p[i + k], p[i + k + 1]);
    }
  }

  lemma LongChainReachesCycle<V(!new)>(g: Graph<V>, u: V, p: seq<V>)
    requires Chain(g, u, p) && |p| > |g|
    ensures ReachesCycle(g, u)
  {
    assert |g.Keys| == |g|;
    var i, j := Pigeonhole(p, g.Keys);
    SubPath(g, p, 0, i);
    SubPath(g, p, i, j);
    assert Reaches(g, u, p[i]) && OnCycle(g, p[i]);
  }

  /** A closed walk stays among the keys, so from it chains of any length exist. */
  lemma {:induction false} CycleChain<V(!new)>(g: Graph<V>, v: V, c: seq<V>, n: nat) returns (p: seq<V>)
    requires PathBetween(g, v, v, c) && |c| >= 2
    ensures Chain(g, v, p) && |p| > n
    decreases n
  {
    forall i | 0 <= i < |c|
      ensures c[i] in g
    {
      if i < |c| - 1 {
        assert Edge(g, c[i], c[i + 1]);
      } else {
        assert Edge(g, c[0], c[1]);
      }
    }
    if n == 0 {
      p := c;
    } else {
      var q := CycleChain(g, v, c, n - 1);
      p := JoinChains(g, c, q);
    }
  }

  lemma JoinChains<V(!new)>(g: Graph<V>, c: seq<V>, q: seq<V>) returns (p: seq<V>)
    requires |c| > 0 && |q| > 0 && Chain(g, c[0], c) && Chain(g, q[0], q) && c[|c| - 1] == q[0]
    ensures Chain(g, c[0], p) && |p| == |c| + |q| - 1
  {
    p := c + q[1..];
    forall i | 0 <= i < |p| - 1
      ensures Edge(g, p[i], p[i + 1])
    {
      if i < |c| - 1 {
        assert p[i] == c[i] && p[i + 1] == c[i + 1];
      } else {
        assert p[i] == q[i - (|c| - 1)] && p[i + 1] == q[i - (|c| - 1) + 1];
      }
    }
  }

  lemma ReachesCycleGivesChain<V(!new)>(g: Graph<V>, u: V, n: nat) returns (p: seq<V>)
    requires ReachesCycle(g, u)
    ensures Chain(g, u, p) && |p| > n
  {
    var v :| Reaches(g, u, v) && OnCycle(g, v);
    var r :| PathBetween(g, u, v, r);
    var c :| PathBetween(g, v, v, c) && |c| >= 2;
    var q := CycleChain(g, v, c, n);
    forall i | 0 <= i < |r|
      ensures r[i] in g
    {
      if i < |r| - 1 {
        assert Edge(g, r[i], r[i + 1]);
      }
    }
    p := JoinChains(g, r, q);
  }

  /** The vertices that never settle are exactly those from which a cycle is reachable. */
  lemma UnsettledIffReachesCycle<V(!new)>(g: Graph<V>, u: V)
    requires u in g
    ensures u in Unsettled(g) <==> ReachesCycle(g, u)
  {
    if u !in Settled(g, |g|) {
      var p := UnsettledChain(g, u, |g|);
      LongChainReachesCycle(g, u, p);
    }
    if ReachesCycle(g, u) {
      var p := ReachesCycleGivesChain(g, u, |g|);
    }
  }

  /** Every round up to the first idle one settles something, so that round
      comes no later than round |g|. */
  lemma {:induction false} SettledGrows<V(!new)>(g: Graph<V>, m: nat)
    requires forall k :: 0 <= k < m ==> Layer(g, k) != {}
    ensures |Settled(g, m)| >= m && m <= |g|
  {
    if m > 0 {
      SettledGrows(g, m - 1);
      SettledMonotone(g, m - 1, m);
      assert Layer(g, m - 1) != {};
      ProperSubsetSize(Settled(g, m - 1), Settled(g, m));
    }
    SubsetSize(Settled(g, m), g.Keys);
    assert |g.Keys| == |g|;
  }

  /** The first idle round is the last one: nothing settles after it. */
  lemma IdleRoundEnds<V(!new)>(g: Graph<V>, n: nat)
    requires Layer(g, n) == {} && forall k :: 0 <= k < n ==> Layer(g, k) != {}
    ensures Settled(g, |g|) == Settled(g, n)
  {
    SettledGrows(g, n);
    SettledMonotone(g, n, n + 1);
    forall u | u in Settled(g, n + 1)
      ensures u in Settled(g, n)
    {
      assert u !in Layer(g, n);
    }
    SettledStays(g, n, |g|);
  }

  lemma SubsetSize<V>(a: set<V>, b: set<V>)
    requires a <= b
    ensures |a| <= |b|
  {
    assert b == a + (b - a);
  }

  lemma ProperSubsetSize<V>(a: set<V>, b: set<V>)
    requires a <= b && b - a != {}
    ensures |a| < |b|
  {
    assert b == a + (b - a);
  }

  lemma NeverSettles<V(!new)>(g: Graph<V>, u: V, k: nat)
    requires u in Unsettled(g)
    ensures u !in Settled(g, k)
  {
    UnsettledIffReachesCycle(g, u);
    var p := ReachesCycleGivesChain(g, u, k);
  }

  lemma LayersDisjoint<V(!new)>(g: Graph<V>, u: V, j: nat, k: nat)
    ensures u in Layer(g, j) && u in Layer(g, k) ==> j == k
    ensures u in Layer(g, j) ==> u !in Unsettled(g)
  {
    if j < k {
      SettledMonotone(g, j + 1, k);
    } else if k < j {
      SettledMonotone(g, k + 1, j);
    }
    if u in Unsettled(g) {
      NeverSettles(g, u, j + 1);
    }
  }

  /** Up to the first idle round, the layers hold every vertex that ever settles. */
  lemma LayersCover<V(!new)>(g: Graph<V>, n: nat, u: V) returns (k: nat)
    requires Layer(g, n) == {} && forall i :: 0 <= i < n ==> Layer(g, i) != {}
    requires u in g && u !in Unsettled(g)
    ensures k < n && u in Layer(g, k)
  {
    IdleRoundEnds(g, n);
    k := SettleRound(g, u, n) - 1;
  }

  /** A successor of a vertex of layer k is in an earlier layer. */
  lemma LayerBelow<V(!new)>(g: Graph<V>, u: V, v: V, k: nat) returns (j: nat)
    requires u in Layer(g, k) && Edge(g, u, v) && v in g
    ensures j < k && v in Layer(g, j)
  {
    SettledStep(g, u, k);
    j := SettleRound(g, v, k) - 1;
  }

  /** A vertex of a later layer has a successor in the layer before. */
  lemma LayerAbove<V(!new)>(g: Graph<V>, u: V, k: nat) returns (v: V)
    requires k > 0 && u in Layer(g, k)
    ensures Edge(g, u, v) && v in Layer(g, k - 1)
  {
    var p := UnsettledChain(g, u, k);
    v := p[1];
    assert Edge(g, p[0], p[1]);
    SettledStep(g, u, k);
    if v in Settled(g, k - 1) {
      assert Chain(g, v, p[1..]) by {
        PathTail(g, p);
      }
    }
  }

  // ---- ranks on acyclic graphs ----

  /** Edges between keys go strictly down. */
  ghost predicate Ranked<V(!new)>(g: Graph<V>, rank: map<V, nat>) {
    rank.Keys == g.Keys && forall u, v :: Edge(g, u, v) && v in g ==> rank[v] < rank[u]
  }

  /** The first round in which a vertex has settled. */
  ghost function SettleRound<V(!new)>(g: Graph<V>, u: V, k: nat): (r: nat)
    requires u in Settled(g, k)
    ensures 0 < r <= k && u in Settled(g, r) && u !in Settled(g, r - 1)
  {
    NothingSettlesInNoRounds(g);
    if u in Settled(g, k - 1) then SettleRound(g, u, k - 1) else k
  }

  /** The round in which a vertex settles; zero for a leaf. */
  ghost function Height<V(!new)>(g: Graph<V>, u: V): nat {
    if u in Settled(g, |g|) then SettleRound(g, u, |g|) else 0
  }

  /** Above no cycle every edge leads to a vertex above no cycle that settles earlier. */
  lemma HeightFalls<V(!new)>(g: Graph<V>, u: V, v: V)
    requires !ReachesCycle(g, u) && Edge(g, u, v)
    ensures !ReachesCycle(g, v) && Height(g, v) < Height(g, u)
  {
    if w :| Reaches(g, v, w) && OnCycle(g, w) {
      ReachesStep(g, u, v, w);
      assert false;
    }
    UnsettledIffReachesCycle(g, u);
    if v in g {
      UnsettledIffReachesCycle(g, v);
      SettledStep(g, u, Height(g, u) - 1);
      SettledEarlier(g, v, Height(g, u) - 1);
    }
  }

  lemma SettledEarlier<V(!new)>(g: Graph<V>, v: V, k: nat)
    requires v in Settled(g, k) && v in Settled(g, |g|)
    ensures Height(g, v) <= k
  {
    forall j: nat | k <= j
      ensures v in Settled(g, j)
    {
      SettledMonotone(g, k, j);
    }
  }

  /** What leads to a cycle has a successor that does. */
  lemma CycleBelow<V(!new)>(g: Graph<V>, u: V) returns (w: V)
    requires ReachesCycle(g, u)
    ensures Edge(g, u, w) && ReachesCycle(g, w)
  {
    var v :| Reaches(g, u, v) && OnCycle(g, v);
    var p :| PathBetween(g, u, v, p);
    if |p| == 1 {
      p :| PathBetween(g, v, v, p) && |p| >= 2;
    }
    w := p[1];
    assert Edge(g, p[0], p[1]);
    PathTail(g, p);
    assert PathBetween(g, w, v, p[1..]);
  }

  /** No vertex with a proper way back to itself is above no cycle. */
  lemma WayBackIsCycle<V(!new)>(g: Graph<V>, u: V, v: V)
    requires Edge(g, u, v) && Reaches(g, v, u)
    ensures ReachesCycle(g, u)
  {
    var p :| PathBetween(g, v, u, p);
    assert PathBetween(g, u, u, [u] + p);
    ReachesSelf(g, u);
  }

  lemma AcyclicIffRanked<V(!new)>(g: Graph<V>)
    ensures Acyclic(g) <==> exists rank :: Ranked(g, rank)
  {
    if Acyclic(g) {
      var rank := map u | u in g :: Height(g, u);
      forall u, v | Edge(g, u, v) && v in g
        ensures rank[v] < rank[u]
      {
        HeightFalls(g, u, v);
      }
      assert Ranked(g, rank);
    }
    if rank :| Ranked(g, rank) {
      forall u
        ensures !OnCycle(g, u)
      {
        if p :| PathBetween(g, u, u, p) && |p| >= 2 {
          assert Edge(g, p[0], p[1]);
          RankFallsAlong(g, rank, p);
        }
      }
    }
  }

  lemma {:induction false} RankFallsAlong<V(!new)>(g: Graph<V>, rank: map<V, nat>, p: seq<V>)
    requires Ranked(g, rank) && IsPath(g, p) && |p| >= 2 && p[|p| - 1] in g
    ensures p[0] in g && rank[p[|p| - 1]] < rank[p[0]]
    decreases |p|
  {
    assert Edge(g, p[0], p[1]);
    if |p| > 2 {
      var q := p[1..];
      PathTail(g, p);
      RankFallsAlong(g, rank, q);
    }
  }
}
