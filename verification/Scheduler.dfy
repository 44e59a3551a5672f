/** Layered scheduling of lifecycle-script jobs
    (snpm-core/src/lifecycle/runner/walk.rs, `topological_chunks`). */
module Scheduler {
  import opened Digraph

  /** `depNames` concatenates three manifest blocks, so a name can occur twice. */
  datatype Job = Job(name: string, pkgRoot: string, depNames: seq<string>)

  // ---- specification ----

  /** Collecting the jobs into a map keeps the last job of each name. */
  function ByName(jobs: seq<Job>): (m: map<string, Job>)
    ensures forall n :: n in m ==> m[n].name == n && m[n] in jobs
    ensures forall j :: j in jobs ==> j.name in m
  {
    if jobs == [] then map[]
    else
      var last := jobs[|jobs| - 1];
      var rest := jobs[..|jobs| - 1];
      assert jobs == rest + [last];
      ByName(rest)[last.name := last]
  }

  /** The jobbed names that the job `name` waits for; a self-dependency does not count. */
  function Producers(all: map<string, Job>, name: string): set<string>
    requires name in all
  {
    set d | d in all[name].depNames && d != name && d in all
  }

  ghost function JobGraph(all: map<string, Job>): (g: Graph<string>)
    ensures g.Keys == all.Keys
  {
    map n | n in all :: Producers(all, n)
  }

  function Names(chunk: seq<Job>): set<string> {
    set i | 0 <= i < |chunk| :: chunk[i].name
  }

  /** `chunk` holds the job of each of `names`, once. */
  ghost predicate ChunkOf(all: map<string, Job>, chunk: seq<Job>, names: set<string>) {
    && Names(chunk) == names
    && (forall i :: 0 <= i < |chunk| ==> chunk[i].name in all && chunk[i] == all[chunk[i].name])
    && (forall i, j :: 0 <= i < j < |chunk| ==> chunk[i].name != chunk[j].name)
  }

  /** How many of the chunks are ordered layers, i.e. not the cycle chunk. */
  ghost function LayerCount(all: map<string, Job>, chunks: seq<seq<Job>>): int {
    |chunks| - if Unsettled(JobGraph(all)) == {} then 0 else 1
  }

  ghost predicate Layered(all: map<string, Job>, chunks: seq<seq<Job>>) {
    var g := JobGraph(all);
    var n := LayerCount(all, chunks);
    && n >= 0
    && Layer(g, n) == {}
    && (forall k :: 0 <= k < n ==> Layer(g, k) != {} && ChunkOf(all, chunks[k], Layer(g, k)))
    && (Unsettled(g) != {} ==> ChunkOf(all, chunks[n], Unsettled(g)))
  }

  // ---- counting the occurrences that are still pending ----

  ghost function CountIn(deps: seq<string>, s: set<string>): nat {
    if deps == [] then 0
    else CountIn(deps[..|deps| - 1], s) + if deps[|deps| - 1] in s then 1 else 0
  }

  lemma {:induction false} CountRemove(deps: seq<string>, s: set<string>, d: string)
    ensures CountIn(deps, s) == CountIn(deps, s - {d}) + if d in s then multiset(deps)[d] else 0
  {
    if deps != [] {
      var rest := deps[..|deps| - 1];
      assert deps == rest + [deps[|deps| - 1]];
      CountRemove(rest, s, d);
    }
  }

  lemma {:induction false} CountZero(deps: seq<string>, s: set<string>)
    ensures CountIn(deps, s) == 0 <==> forall d :: d in deps ==> d !in s
  {
    if deps != [] {
      var rest := deps[..|deps| - 1];
      assert deps == rest + [deps[|deps| - 1]];
      CountZero(rest, s);
    }
  }

  /** The in-degree of `c` while the names in `pending` have not run. */
  ghost function Degree(all: map<string, Job>, pending: set<string>, c: string): nat
    requires c in all
  {
    CountIn(all[c].depNames, pending - {c})
  }

  /** How often `c` is listed among the dependents of `d`. */
  ghost function Listed(all: map<string, Job>, d: string, c: string): nat {
    if c in all && c != d then multiset(all[c].depNames)[d] else 0
  }

  ghost predicate DegreesFor(all: map<string, Job>, pending: set<string>, inDegree: map<string, nat>) {
    inDegree.Keys == all.Keys && forall c :: c in all ==> inDegree[c] == Degree(all, pending, c)
  }

  function Consumers(dependents: map<string, seq<string>>, d: string): seq<string> {
    if d in dependents then dependents[d] else []
  }

  ghost function Times(dependents: map<string, seq<string>>, d: string, c: string): nat {
    multiset(Consumers(dependents, d))[c]
  }

  ghost predicate DependentsFor(all: map<string, Job>, pending: set<string>, dependents: map<string, seq<string>>) {
    forall d, c :: d in pending ==> Times(dependents, d, c) == Listed(all, d, c)
  }

  /** The loop state of the sort while the jobs of `byName` have not run. */
  ghost predicate Kahn(all: map<string, Job>, byName: map<string, Job>,
                       inDegree: map<string, nat>, dependents: map<string, seq<string>>) {
    && byName.Keys <= all.Keys
    && (forall n :: n in byName ==> byName[n] == all[n])
    && (forall n :: n in all && n !in byName && n in inDegree ==> inDegree[n] == 0)
    && DegreesFor(all, byName.Keys, inDegree)
    && DependentsFor(all, byName.Keys, dependents)
  }

  /** `ready` lists, once each, the pending jobs of in-degree zero. */
  ghost predicate Ready(byName: map<string, Job>, inDegree: map<string, nat>, ready: seq<string>) {
    NoRepeats(ready) && forall c :: c in ready <==> c in byName && c in inDegree && inDegree[c] == 0
  }

  function Elements(s: seq<string>): set<string> {
    set c | c in s
  }

  ghost predicate NoRepeats(s: seq<string>) {
    forall i, j :: 0 <= i < j < |s| ==> s[i] != s[j]
  }

  lemma DegreeDrop(all: map<string, Job>, pending: set<string>, d: string, c: string)
    requires c in all && d in pending
    ensures Degree(all, pending, c) == Degree(all, pending - {d}, c) + Listed(all, d, c)
  {
    CountRemove(all[c].depNames, pending - {c}, d);
    assert pending - {c} - {d} == pending - {d} - {c};
    if c == d {
      assert pending - {c} == pending - {d} - {c};
    }
  }

  lemma DegreeZero(all: map<string, Job>, pending: set<string>, c: string)
    requires c in all && pending <= all.Keys
    ensures Degree(all, pending, c) == 0 <==> Producers(all, c) !! pending
  {
    CountZero(all[c].depNames, pending - {c});
    if Degree(all, pending, c) == 0 {
      forall d | d in Producers(all, c)
        ensures d !in pending
      {}
    } else {
      var d :| d in all[c].depNames && d in pending - {c};
      assert d in Producers(all, c);
    }
  }

  // ---- the algorithm ----

  method IndexJobs(jobs: seq<Job>) returns (byName: map<string, Job>)
    ensures byName == ByName(jobs)
  {
    byName := map[];
    for i := 0 to |jobs|
      invariant byName == ByName(jobs[..i])
    {
      assert jobs[..i + 1][..i] == jobs[..i];
      byName := byName[jobs[i].name := jobs[i]];
    }
    assert jobs[..|jobs|] == jobs;
  }

  lemma CountOneMore(deps: seq<string>, i: nat, s: set<string>)
    requires i < |deps|
    ensures deps[..i + 1] == deps[..i] + [deps[i]]
    ensures CountIn(deps[..i + 1], s) == CountIn(deps[..i], s) + if deps[i] in s then 1 else 0
  {
    assert deps[..i + 1][..i] == deps[..i];
  }

  /** One job's pass over its dependency names: count the jobbed ones and
      register the job with each of them. */
  method RegisterJob(all: map<string, Job>, name: string, dependents: map<string, seq<string>>)
    returns (degree: nat, updated: map<string, seq<string>>)
    requires name in all
    ensures degree == Degree(all, all.Keys, name)
    ensures forall d, c ::
      Times(updated, d, c) == Times(dependents, d, c) + if c == name && d in all then Listed(all, d, name) else 0
  {
    var deps := all[name].depNames;
    degree, updated := 0, dependents;
    for i := 0 to |deps|
      invariant degree == CountIn(deps[..i], all.Keys - {name})
      invariant Registered(all, name, deps[..i], dependents, updated)
    {
      var dep := deps[i];
      CountOneMore(deps, i, all.Keys - {name});
      RegisterStep(all, name, deps[..i], dep, dependents, updated);
      if dep != name && dep in all {
        degree := degree + 1;
        updated := updated[dep := Consumers(updated, dep) + [name]];
      }
    }
    assert deps[..|deps|] == deps;
  }

  /** How often `name` has been registered with `d` when the names `seen` were passed. */
  ghost function Seen(all: map<string, Job>, name: string, seen: seq<string>, d: string, c: string): nat {
    if c == name && d in all && d != name then multiset(seen)[d] else 0
  }

  ghost predicate Registered(all: map<string, Job>, name: string, seen: seq<string>,
                             before: map<string, seq<string>>, after: map<string, seq<string>>) {
    forall d, c :: Times(after, d, c) == Times(before, d, c) + Seen(all, name, seen, d, c)
  }

  lemma RegisterStep(all: map<string, Job>, name: string, seen: seq<string>, dep: string,
                     before: map<string, seq<string>>, after: map<string, seq<string>>)
    requires Registered(all, name, seen, before, after)
    ensures Registered(all, name, seen + [dep], before,
      if dep != name && dep in all then after[dep := Consumers(after, dep) + [name]] else after)
  {
    AppendTimes(after, dep, name);
    forall d, c
      ensures var next := if dep != name && dep in all then after[dep := Consumers(after, dep) + [name]] else after;
        Times(next, d, c) == Times(before, d, c) + Seen(all, name, seen + [dep], d, c)
    {
      assert Times(after, d, c) == Times(before, d, c) + Seen(all, name, seen, d, c);
      assert multiset(seen + [dep])[d] == multiset(seen)[d] + if d == dep then 1 else 0;
    }
  }

  lemma AppendTimes(m: map<string, seq<string>>, dep: string, name: string)
    ensures forall d, c ::
      Times(m[dep := Consumers(m, dep) + [name]], d, c) == Times(m, d, c) + if d == dep && c == name then 1 else 0
  {
    assert multiset(Consumers(m, dep) + [name]) == multiset(Consumers(m, dep)) + multiset{name};
  }

  method BuildGraph(all: map<string, Job>) returns (inDegree: map<string, nat>, dependents: map<string, seq<string>>)
    ensures DegreesFor(all, all.Keys, inDegree)
    ensures DependentsFor(all, all.Keys, dependents)
  {
    inDegree, dependents := map[], map[];
    var todo := all.Keys;
    while todo != {}
      invariant todo <= all.Keys
      invariant inDegree.Keys == all.Keys - todo
      invariant forall c :: c in inDegree ==> inDegree[c] == Degree(all, all.Keys, c)
      invariant forall d, c :: d in all ==> Times(dependents, d, c) == if c in todo then 0 else Listed(all, d, c)
    {
      var name :| name in todo;
      var degree, updated := RegisterJob(all, name, dependents);
      inDegree, dependents := inDegree[name := degree], updated;
      todo := todo - {name};
    }
  }

  lemma SuffixCount(s: seq<string>, i: nat)
    requires i < |s|
    ensures forall c :: multiset(s[i..])[c] == multiset(s[i + 1..])[c] + if c == s[i] then 1 else 0
  {
    assert s[i..] == [s[i]] + s[i + 1..];
  }

  /** Release the consumers of a job that just ran.  The saturating decrement
      of the source is exact here: every listed occurrence is still counted. */
  method Release(consumers: seq<string>, inDegree: map<string, nat>, nextReady: seq<string>)
    returns (degrees: map<string, nat>, next: seq<string>)
    requires forall c :: c in consumers ==> c in inDegree
    requires forall c :: c in inDegree ==> multiset(consumers)[c] <= inDegree[c]
    requires NoRepeats(nextReady) && forall c :: c in nextReady ==> c in inDegree && inDegree[c] == 0
    ensures degrees.Keys == inDegree.Keys
    ensures forall c :: c in inDegree ==> degrees[c] == inDegree[c] - multiset(consumers)[c]
    ensures NoRepeats(next)
    ensures forall c :: c in next <==> c in nextReady || (c in inDegree && inDegree[c] > 0 && degrees[c] == 0)
  {
    degrees, next := inDegree, nextReady;
    for i := 0 to |consumers|
      invariant degrees.Keys == inDegree.Keys
      invariant forall c :: c in inDegree ==>
        degrees[c] == inDegree[c] - multiset(consumers)[c] + multiset(consumers[i..])[c]
      invariant NoRepeats(next)
      invariant forall c :: c in next <==> c in nextReady || (c in inDegree && inDegree[c] > 0 && degrees[c] == 0)
    {
      var consumer := consumers[i];
      SuffixCount(consumers, i);
      assert consumer in consumers;
      var degree := if degrees[consumer] > 0 then degrees[consumer] - 1 else 0;
      degrees := degrees[consumer := degree];
      if degree == 0 {
        next := next + [consumer];
      }
    }
  }

  /** `next` lists, once each, the names whose in-degree fell to zero since `start`. */
  ghost predicate Released(start: map<string, nat>, degrees: map<string, nat>, next: seq<string>) {
    && degrees.Keys == start.Keys
    && (forall c :: c in start && start[c] == 0 ==> degrees[c] == 0)
    && NoRepeats(next)
    && forall c :: c in next <==> c in start && start[c] > 0 && degrees[c] == 0
  }

  /** Take the job `name` out and release its consumers. */
  method RunOne(ghost all: map<string, Job>, name: string, byName: map<string, Job>,
                inDegree: map<string, nat>, dependents: map<string, seq<string>>, nextReady: seq<string>,
                ghost start: map<string, nat>)
    returns (left: map<string, Job>, degrees: map<string, nat>, waiting: map<string, seq<string>>, next: seq<string>)
    requires Kahn(all, byName, inDegree, dependents) && name in byName && inDegree[name] == 0
    requires Released(start, inDegree, nextReady)
    ensures left == byName - {name} && Kahn(all, left, degrees, waiting)
    ensures Released(start, degrees, next)
  {
    left := byName - {name};
    ghost var pending := byName.Keys;
    assert left.Keys == pending - {name};
    var consumers := Consumers(dependents, name);
    ConsumersAreCounted(all, pending, name, inDegree, dependents);
    degrees, next := Release(consumers, inDegree, nextReady);
    waiting := dependents - {name};
    ForgetDependents(all, pending, name, dependents);
  }

  /** Each listing of `c` among the dependents of `name` is one of the
      occurrences its in-degree still counts. */
  lemma ConsumersAreCounted(all: map<string, Job>, pending: set<string>, name: string,
                            inDegree: map<string, nat>, dependents: map<string, seq<string>>)
    requires name in pending && DegreesFor(all, pending, inDegree) && DependentsFor(all, pending, dependents)
    ensures var consumers := Consumers(dependents, name);
      && (forall c :: c in consumers ==> c in inDegree)
      && forall c :: c in all ==> inDegree[c] == Degree(all, pending - {name}, c) + multiset(consumers)[c]
  {
    var consumers := Consumers(dependents, name);
    forall c
      ensures multiset(consumers)[c] == Listed(all, name, c)
    {
      assert Times(dependents, name, c) == Listed(all, name, c);
    }
    forall c | c in all
      ensures inDegree[c] == Degree(all, pending - {name}, c) + multiset(consumers)[c]
    {
      DegreeDrop(all, pending, name, c);
    }
    forall c | c in consumers
      ensures c in inDegree
    {
      assert multiset(consumers)[c] > 0;
    }
  }

  lemma ForgetDependents(all: map<string, Job>, pending: set<string>, name: string,
                         dependents: map<string, seq<string>>)
    requires DependentsFor(all, pending, dependents)
    ensures DependentsFor(all, pending - {name}, dependents - {name})
  {
    var waiting := dependents - {name};
    forall d, c | d in pending - {name}
      ensures Times(waiting, d, c) == Listed(all, d, c)
    {
      assert Consumers(waiting, d) == Consumers(dependents, d);
      assert Times(dependents, d, c) == Listed(all, d, c);
    }
  }

  lemma ElementsGrow(s: seq<string>, i: nat)
    requires NoRepeats(s) && i < |s|
    ensures Elements(s[..i + 1]) == Elements(s[..i]) + {s[i]} && s[i] !in Elements(s[..i]) && s[i] in s
  {
    assert s[..i + 1] == s[..i] + [s[i]];
  }

  lemma RemoveOneMore(m: map<string, Job>, taken: set<string>, name: string)
    ensures m - taken - {name} == m - (taken + {name})
  {
  }

  /** Take every ready job out, releasing its consumers. */
  method DrainReady(ghost all: map<string, Job>, ready: seq<string>, byName: map<string, Job>,
                    inDegree: map<string, nat>, dependents: map<string, seq<string>>)
    returns (chunk: seq<Job>, next: seq<string>, left: map<string, Job>,
             degrees: map<string, nat>, waiting: map<string, seq<string>>)
    requires forall n :: n in all ==> all[n].name == n
    requires Kahn(all, byName, inDegree, dependents) && Ready(byName, inDegree, ready)
    ensures ChunkOf(all, chunk, Elements(ready)) && left == byName - Elements(ready)
    ensures Kahn(all, left, degrees, waiting) && Released(inDegree, degrees, next)
  {
    chunk, next, left, degrees, waiting := [], [], byName, inDegree, dependents;
    ghost var taken: set<string> := {};
    for i := 0 to |ready|
      invariant taken == Elements(ready[..i]) && left == byName - taken
      invariant ChunkOf(all, chunk, taken)
      invariant Kahn(all, left, degrees, waiting)
      invariant Released(inDegree, degrees, next)
    {
      var name := ready[i];
      ElementsGrow(ready, i);
      ChunkGrows(all, chunk, taken, name);
      chunk := chunk + [left[name]];
      left, degrees, waiting, next := RunOne(all, name, left, degrees, waiting, next, inDegree);
      RemoveOneMore(byName, taken, name);
      taken := taken + {name};
    }
    assert ready[..|ready|] == ready;
  }

  /** One round of the sort. */
  method RunRound(ghost all: map<string, Job>, ready: seq<string>, byName: map<string, Job>,
                  inDegree: map<string, nat>, dependents: map<string, seq<string>>)
    returns (chunk: seq<Job>, next: seq<string>, left: map<string, Job>,
             degrees: map<string, nat>, waiting: map<string, seq<string>>)
    requires forall n :: n in all ==> all[n].name == n
    requires Kahn(all, byName, inDegree, dependents) && Ready(byName, inDegree, ready)
    ensures ChunkOf(all, chunk, Elements(ready)) && left == byName - Elements(ready)
    ensures Kahn(all, left, degrees, waiting) && Ready(left, degrees, next)
  {
    chunk, next, left, degrees, waiting := DrainReady(all, ready, byName, inDegree, dependents);
    RoundEnds(all, byName, inDegree, dependents, ready, left, degrees, waiting, next);
  }

  /** The jobs released during a round are the pending ones of in-degree zero. */
  lemma RoundEnds(all: map<string, Job>, byName: map<string, Job>, inDegree: map<string, nat>,
                  dependents: map<string, seq<string>>, ready: seq<string>, left: map<string, Job>,
                  degrees: map<string, nat>, waiting: map<string, seq<string>>, next: seq<string>)
    requires Kahn(all, byName, inDegree, dependents) && Ready(byName, inDegree, ready)
    requires left.Keys == byName.Keys - Elements(ready) && Kahn(all, left, degrees, waiting)
    requires Released(inDegree, degrees, next)
    ensures Ready(left, degrees, next)
  {
  }

  lemma ChunkGrows(all: map<string, Job>, chunk: seq<Job>, names: set<string>, name: string)
    requires ChunkOf(all, chunk, names) && name in all && name !in names && all[name].name == name
    ensures ChunkOf(all, chunk + [all[name]], names + {name})
  {
    var longer := chunk + [all[name]];
    forall i | 0 <= i < |chunk|
      ensures longer[i].name in names
    {
      assert chunk[i].name in Names(chunk);
    }
    assert longer[|chunk|] == all[name];
    forall n | n in names
      ensures n in Names(longer)
    {
      var i :| 0 <= i < |chunk| && chunk[i].name == n;
      assert longer[i].name == n;
    }
  }

  /** The first layers are out, one chunk each; `pending` is what is left. */
  ghost predicate Progress(all: map<string, Job>, chunks: seq<seq<Job>>, pending: set<string>) {
    var g := JobGraph(all);
    && pending == all.Keys - Settled(g, |chunks|)
    && forall k :: 0 <= k < |chunks| ==> Layer(g, k) != {} && ChunkOf(all, chunks[k], Layer(g, k))
  }

  method TopologicalChunks(jobs: seq<Job>) returns (chunks: seq<seq<Job>>)
    ensures Layered(ByName(jobs), chunks)
  {
    var byName := IndexJobs(jobs);
    ghost var all := byName;
    var inDegree, dependents := BuildGraph(byName);
    chunks := [];
    var ready := InitiallyReady(inDegree);
    NothingSettlesInNoRounds(JobGraph(all));
    while ready != []
      invariant Progress(all, chunks, byName.Keys)
      invariant Kahn(all, byName, inDegree, dependents) && Ready(byName, inDegree, ready)
      decreases byName.Keys
    {
      var chunk, next, left, degrees, waiting := RunRound(all, ready, byName, inDegree, dependents);
      ReadyHasZeroDegree(all, byName, inDegree, dependents, ready);
      assert ready[0] in Elements(ready);
      NextLayer(all, chunks, byName.Keys, Elements(ready), chunk);
      chunks := chunks + [chunk];
      byName, inDegree, dependents, ready := left, degrees, waiting, next;
    }
    ReadyHasZeroDegree(all, byName, inDegree, dependents, ready);
    AllLayersOut(all, chunks, byName.Keys);
    var rest := CycleChunk(byName);
    LayersAndRest(all, chunks, byName.Keys, rest);
    if byName.Keys != {} {
      chunks := chunks + [rest];
    }
  }

  ghost predicate ZeroDegree(all: map<string, Job>, pending: set<string>, ready: set<string>) {
    pending <= all.Keys && forall c :: c in ready <==> c in pending && Degree(all, pending, c) == 0
  }

  lemma ReadyHasZeroDegree(all: map<string, Job>, byName: map<string, Job>, inDegree: map<string, nat>,
                           dependents: map<string, seq<string>>, ready: seq<string>)
    requires Kahn(all, byName, inDegree, dependents) && Ready(byName, inDegree, ready)
    ensures ZeroDegree(all, byName.Keys, Elements(ready))
  {
  }

  lemma NextLayer(all: map<string, Job>, chunks: seq<seq<Job>>, pending: set<string>, ready: set<string>,
                  chunk: seq<Job>)
    requires Progress(all, chunks, pending) && ZeroDegree(all, pending, ready)
    requires ChunkOf(all, chunk, ready) && ready != {}
    ensures Progress(all, chunks + [chunk], pending - ready)
  {
    ReadyIsLayer(all, |chunks|, pending, ready);
  }

  /** When nothing is ready, every layer is out and what is left never settles. */
  lemma AllLayersOut(all: map<string, Job>, chunks: seq<seq<Job>>, pending: set<string>)
    requires Progress(all, chunks, pending) && ZeroDegree(all, pending, {})
    ensures pending == Unsettled(JobGraph(all)) && Layer(JobGraph(all), |chunks|) == {}
  {
    ReadyIsLayer(all, |chunks|, pending, {});
    IdleRoundEnds(JobGraph(all), |chunks|);
  }

  lemma LayersAndRest(all: map<string, Job>, chunks: seq<seq<Job>>, pending: set<string>, rest: seq<Job>)
    requires Progress(all, chunks, pending) && ChunkOf(all, rest, pending)
    requires pending == Unsettled(JobGraph(all)) && Layer(JobGraph(all), |chunks|) == {}
    ensures Layered(all, if pending == {} then chunks else chunks + [rest])
  {
  }

  method InitiallyReady(inDegree: map<string, nat>) returns (ready: seq<string>)
    ensures NoRepeats(ready) && forall c :: c in ready <==> c in inDegree && inDegree[c] == 0
  {
    ready := [];
    var todo := inDegree.Keys;
    while todo != {}
      invariant todo <= inDegree.Keys
      invariant NoRepeats(ready) && forall c :: c in ready <==> c in inDegree.Keys - todo && inDegree[c] == 0
    {
      var name :| name in todo;
      todo := todo - {name};
      if inDegree[name] == 0 {
        ready := ready + [name];
      }
    }
  }

  method CycleChunk(byName: map<string, Job>) returns (rest: seq<Job>)
    requires forall n :: n in byName ==> byName[n].name == n
    ensures ChunkOf(byName, rest, byName.Keys)
  {
    var names := byName.Keys;
    rest := [];
    while names != {}
      invariant names <= byName.Keys
      invariant ChunkOf(byName, rest, byName.Keys - names)
    {
      var name :| name in names;
      ChunkGrows(byName, rest, byName.Keys - names, name);
      rest := rest + [byName[name]];
      names := names - {name};
      assert byName.Keys - names == byName.Keys - (names + {name}) + {name};
    }
  }

  /** The pending jobs of in-degree zero are exactly the next layer. */
  lemma ReadyIsLayer(all: map<string, Job>, k: nat, pending: set<string>, ready: set<string>)
    requires pending == all.Keys - Settled(JobGraph(all), k) && ZeroDegree(all, pending, ready)
    ensures ready == Layer(JobGraph(all), k)
    ensures pending - ready == all.Keys - Settled(JobGraph(all), k + 1)
  {
    var g := JobGraph(all);
    SettledMonotone(g, k, k + 1);
    forall c | c in pending
      ensures c in ready <==> c in Settled(g, k + 1)
    {
      SettlesNext(all, k, c, pending);
    }
    SetsSplit(all.Keys, Settled(g, k), Settled(g, k + 1), pending, ready);
  }

  lemma SetsSplit(all: set<string>, now: set<string>, soon: set<string>, left: set<string>, ready: set<string>)
    requires now <= soon <= all && left == all - now && ready <= left
    requires forall c :: c in left ==> (c in ready <==> c in soon)
    ensures ready == soon - now && left - ready == all - soon
  {
  }

  lemma SettlesNext(all: map<string, Job>, k: nat, c: string, pending: set<string>)
    requires c in pending && pending == all.Keys - Settled(JobGraph(all), k)
    ensures c in Settled(JobGraph(all), k + 1) <==> Degree(all, pending, c) == 0
  {
    DegreeZero(all, pending, c);
    assert JobGraph(all)[c] == Producers(all, c);
    SettledStep(JobGraph(all), c, k);
  }

  // ---- what a schedule promises ----

  /** `c` is put in chunk `k`. */
  ghost predicate InChunk(chunks: seq<seq<Job>>, k: int, c: string) {
    0 <= k < |chunks| && c in Names(chunks[k])
  }

  /** A job's layer index is one less than the most jobs on a chain of
      dependencies that starts at it. */
  lemma ChunkIsLongestChain(all: map<string, Job>, chunks: seq<seq<Job>>, k: nat, c: string)
    requires Layered(all, chunks) && k < LayerCount(all, chunks) && InChunk(chunks, k, c)
    ensures exists p :: Chain(JobGraph(all), c, p) && |p| == k + 1
    ensures forall p :: Chain(JobGraph(all), c, p) ==> |p| <= k + 1
  {
    var g := JobGraph(all);
    assert c in Layer(g, k);
    var p := UnsettledChain(g, c, k);
  }

  lemma InItsLayer(all: map<string, Job>, chunks: seq<seq<Job>>, k: int, c: string)
    requires Layered(all, chunks) && InChunk(chunks, k, c)
    ensures k < LayerCount(all, chunks) ==> c in Layer(JobGraph(all), k)
    ensures k >= LayerCount(all, chunks) ==> k == LayerCount(all, chunks) && c in Unsettled(JobGraph(all))
  {
  }

  /** Every scheduled name is placed, and in one chunk only. */
  lemma PlacedOnce(all: map<string, Job>, chunks: seq<seq<Job>>, c: string)
    requires Layered(all, chunks) && c in all
    ensures exists k :: InChunk(chunks, k, c)
    ensures forall j, k :: InChunk(chunks, j, c) && InChunk(chunks, k, c) ==> j == k
  {
    var g := JobGraph(all);
    var n := LayerCount(all, chunks);
    forall j, k | InChunk(chunks, j, c) && InChunk(chunks, k, c)
      ensures j == k
    {
      InItsLayer(all, chunks, j, c);
      InItsLayer(all, chunks, k, c);
      LayersDisjoint(g, c, j, k);
      LayersDisjoint(g, c, k, j);
    }
    if c in Unsettled(g) {
      assert InChunk(chunks, n, c);
    } else {
      var k := LayersCover(g, n, c);
      assert InChunk(chunks, k, c);
    }
  }

  /** A producer outside the cycle chunk runs in a chunk before its consumer;
      a consumer of an unordered producer is unordered too. */
  lemma ProducerFirst(all: map<string, Job>, chunks: seq<seq<Job>>, j: nat, k: nat, d: string, c: string)
    requires Layered(all, chunks) && InChunk(chunks, j, d) && InChunk(chunks, k, c)
    requires c in all && d in Producers(all, c)
    ensures j < k || (j == k == LayerCount(all, chunks))
  {
    var g := JobGraph(all);
    var n := LayerCount(all, chunks);
    assert Edge(g, c, d);
    if k < n {
      var i := LayerBelow(g, c, d, k);
      assert InChunk(chunks, i, d);
      PlacedOnce(all, chunks, d);
    }
  }

  /** A schedule: outside the cycle chunk each producer starts before its consumer. */
  ghost predicate Respects(all: map<string, Job>, start: map<string, nat>) {
    && start.Keys == all.Keys
    && forall u, v {:trigger Edge(JobGraph(all), u, v)} ::
        Edge(JobGraph(all), u, v) && v in all && u !in Unsettled(JobGraph(all)) ==> start[v] < start[u]
  }

  /** In every schedule a job outside the cycle chunk starts no earlier than its chunk,
      whatever the jobs that reach a cycle do: no schedule has fewer steps. */
  lemma NoScheduleIsShorter(all: map<string, Job>, chunks: seq<seq<Job>>, start: map<string, nat>)
    requires Layered(all, chunks) && Respects(all, start)
    ensures forall k: nat, c :: k < LayerCount(all, chunks) && InChunk(chunks, k, c) ==> c in all && start[c] >= k
  {
    forall k: nat, c | k < LayerCount(all, chunks) && InChunk(chunks, k, c)
      ensures c in all && start[c] >= k
    {
      assert c in Layer(JobGraph(all), k);
      LayerStartsLate(all, start, k, c);
    }
  }

  lemma LayerStartsLate(all: map<string, Job>, start: map<string, nat>, k: nat, c: string)
    requires Respects(all, start) && c in Layer(JobGraph(all), k)
    ensures start[c] >= k
  {
    var g := JobGraph(all);
    LayersDisjoint(g, c, k, k);
    UnsettledIffReachesCycle(g, c);
    var p := UnsettledChain(g, c, k);
    StartsDescend(all, start, p);
  }

  lemma {:induction false} StartsDescend(all: map<string, Job>, start: map<string, nat>, p: seq<string>)
    requires Respects(all, start)
    requires |p| > 0 && Chain(JobGraph(all), p[0], p) && !ReachesCycle(JobGraph(all), p[0])
    ensures start[p[0]] >= |p| - 1
    decreases |p|
  {
    if |p| > 1 {
      var g := JobGraph(all);
      PathTail(g, p);
      assert Edge(g, p[0], p[1]);
      UnsettledIffReachesCycle(g, p[0]);
      HeightFalls(g, p[0], p[1]);
      StartsDescend(all, start, p[1..]);
    }
  }

  /** Two runs over the same jobs agree on every chunk, whatever order the
      hash maps were iterated in. */
  lemma SchedulesAgree(all: map<string, Job>, left: seq<seq<Job>>, right: seq<seq<Job>>)
    requires Layered(all, left) && Layered(all, right)
    ensures |left| == |right| && forall k :: 0 <= k < |left| ==> Names(left[k]) == Names(right[k])
  {
    var g := JobGraph(all);
    var m, n := LayerCount(all, left), LayerCount(all, right);
    assert Layer(g, m) == {} && Layer(g, n) == {};
  }

  /** The cycle chunk: it is emitted exactly when some jobs depend on each
      other in a cycle, such a cycle has at least two names, and the chunk
      holds exactly the jobs from which one is reachable. */
  lemma CycleChunkMeansCycle(all: map<string, Job>, chunks: seq<seq<Job>>, c: string)
    requires Layered(all, chunks) && c in all
    ensures InChunk(chunks, LayerCount(all, chunks), c) <==> ReachesCycle(JobGraph(all), c)
    ensures LayerCount(all, chunks) < |chunks| <==> exists u :: OnCycle(JobGraph(all), u)
    ensures forall u, p :: PathBetween(JobGraph(all), u, u, p) && |p| >= 2 ==> p[1] != u
  {
    var g := JobGraph(all);
    UnsettledIffReachesCycle(g, c);
    if u :| OnCycle(g, u) {
      ReachesSelf(g, u);
      var p :| PathBetween(g, u, u, p) && |p| >= 2;
      assert Edge(g, p[0], p[1]);
      UnsettledIffReachesCycle(g, u);
    }
    if u :| u in Unsettled(g) {
      UnsettledIffReachesCycle(g, u);
    }
    forall u, p | PathBetween(g, u, u, p) && |p| >= 2
      ensures p[1] != u
    {
      assert Edge(g, p[0], p[1]);
    }
  }

  /** There is no cycle chunk exactly when every job can be given a start time after those of
      all its dependencies. */
  lemma NoCycleChunkIffSchedulable(all: map<string, Job>, chunks: seq<seq<Job>>)
    requires Layered(all, chunks)
    ensures LayerCount(all, chunks) == |chunks| <==> exists start :: Ranked(JobGraph(all), start)
  {
    var g := JobGraph(all);
    AcyclicIffRanked(g);
    if u :| u in Unsettled(g) {
      UnsettledIffReachesCycle(g, u);
    }
    if u :| OnCycle(g, u) {
      var p :| PathBetween(g, u, u, p) && |p| >= 2;
      assert Edge(g, p[0], p[1]);
      ReachesSelf(g, u);
      UnsettledIffReachesCycle(g, u);
    }
  }

  ghost predicate Scheduled(chunks: seq<seq<Job>>, job: Job) {
    exists k :: 0 <= k < |chunks| && job in chunks[k]
  }

  /** A job is scheduled exactly when it is the one its name stands for in the map, that is
      when it equals the last job of its name; so with distinct names every job is. */
  lemma ScheduledUnlessShadowed(jobs: seq<Job>, chunks: seq<seq<Job>>, job: Job)
    requires Layered(ByName(jobs), chunks) && job in jobs
    ensures Scheduled(chunks, job) <==> ByName(jobs)[job.name] == job
    ensures (forall i, j :: 0 <= i < j < |jobs| ==> jobs[i].name != jobs[j].name) ==> Scheduled(chunks, job)
  {
    var all := ByName(jobs);
    PlacedOnce(all, chunks, job.name);
    var k :| InChunk(chunks, k, job.name);
    ChunkHolds(all, chunks, k);
    if ByName(jobs)[job.name] == job {
      var i :| 0 <= i < |chunks[k]| && chunks[k][i].name == job.name;
      assert chunks[k][i] == job;
    }
    if Scheduled(chunks, job) {
      var m :| 0 <= m < |chunks| && job in chunks[m];
      ChunkHolds(all, chunks, m);
    }
  }

  /** Jobs of one name are equal. */
  predicate OneJobPerName(jobs: seq<Job>) {
    forall i, j :: 0 <= i < |jobs| && 0 <= j < |jobs| && jobs[i].name == jobs[j].name ==> jobs[i] == jobs[j]
  }

  lemma OneJobPerNameIff(jobs: seq<Job>)
    ensures OneJobPerName(jobs) <==> forall i :: 0 <= i < |jobs| ==> ByName(jobs)[jobs[i].name] == jobs[i]
  {
    forall i | 0 <= i < |jobs|
      ensures jobs[i].name in ByName(jobs) && exists j :: 0 <= j < |jobs| && jobs[j] == ByName(jobs)[jobs[i].name]
    {
      assert jobs[i] in jobs && ByName(jobs)[jobs[i].name] in jobs;
    }
  }

  /** Every job is scheduled if and only if jobs of one name are equal. */
  lemma AllScheduledIff(jobs: seq<Job>, chunks: seq<seq<Job>>)
    requires Layered(ByName(jobs), chunks)
    ensures (forall i :: 0 <= i < |jobs| ==> Scheduled(chunks, jobs[i])) <==> OneJobPerName(jobs)
  {
    OneJobPerNameIff(jobs);
    forall i | 0 <= i < |jobs|
      ensures Scheduled(chunks, jobs[i]) <==> ByName(jobs)[jobs[i].name] == jobs[i]
    {
      ScheduledUnlessShadowed(jobs, chunks, jobs[i]);
    }
  }

  lemma ChunkHolds(all: map<string, Job>, chunks: seq<seq<Job>>, k: nat)
    requires Layered(all, chunks) && k < |chunks|
    ensures ChunkOf(all, chunks[k], Names(chunks[k]))
  {
    assert k < LayerCount(all, chunks) || k == LayerCount(all, chunks);
  }

  /** Two jobs of one name: the first is not run. */
  lemma SharedNameLosesAJob() returns (jobs: seq<Job>)
    ensures |jobs| == 2 && jobs[0] != jobs[1]
    ensures forall chunks :: Layered(ByName(jobs), chunks) ==> !Scheduled(chunks, jobs[0])
  {
    var first, second := Job("esbuild", "/a/esbuild", []), Job("esbuild", "/b/esbuild", []);
    jobs := [first, second];
    assert jobs[..1] == [first];
    forall chunks | Layered(ByName(jobs), chunks)
      ensures !Scheduled(chunks, first)
    {
      assert ByName(jobs)["esbuild"] == second;
      ScheduledUnlessShadowed(jobs, chunks, first);
    }
  }

  // ---- the same in terms of the jobs alone ----

  /** `a` depends on `b`, and they are two names. */
  predicate Needs(a: Job, b: Job) {
    b.name in a.depNames && b.name != a.name
  }

  /** Whatever a job needs has a smaller rank: the dependencies among the jobs have no cycle. */
  ghost predicate RanksJobs(jobs: seq<Job>, rank: string -> nat) {
    forall a, b :: a in jobs && b in jobs && Needs(a, b) ==> rank(b.name) < rank(a.name)
  }

  /** What a job needs runs in an earlier chunk, unless both are in the last one; so always if
      the dependencies have no cycle. */
  lemma NeededRunsFirst(jobs: seq<Job>, chunks: seq<seq<Job>>, j: nat, k: nat, a: Job, b: Job)
    requires Layered(ByName(jobs), chunks) && j < |chunks| && k < |chunks|
    requires a in chunks[j] && b in chunks[k] && Needs(a, b)
    ensures k < j || (j == k == |chunks| - 1 && forall rank :: !RanksJobs(jobs, rank))
  {
    var all := ByName(jobs);
    ChunkNames(all, chunks, j, a);
    ChunkNames(all, chunks, k, b);
    ProducerFirst(all, chunks, k, j, b.name, a.name);
    if rank :| RanksJobs(jobs, rank) {
      RankedHasNoCycleChunk(jobs, chunks, rank);
    }
  }

  lemma ChunkNames(all: map<string, Job>, chunks: seq<seq<Job>>, k: nat, a: Job)
    requires Layered(all, chunks) && k < |chunks| && a in chunks[k]
    ensures InChunk(chunks, k, a.name) && a.name in all && all[a.name] == a
  {
    ChunkHolds(all, chunks, k);
  }

  lemma RankedHasNoCycleChunk(jobs: seq<Job>, chunks: seq<seq<Job>>, rank: string -> nat)
    requires Layered(ByName(jobs), chunks) && RanksJobs(jobs, rank)
    ensures LayerCount(ByName(jobs), chunks) == |chunks|
  {
    var all := ByName(jobs);
    var start := map n | n in all :: rank(n);
    forall u, v | Edge(JobGraph(all), u, v) && v in all
      ensures start[v] < start[u]
    {
      assert Needs(all[u], all[v]);
    }
    assert Ranked(JobGraph(all), start);
    NoCycleChunkIffSchedulable(all, chunks);
  }

  /** Without a cycle a job runs as early as it can: it needs a job of the chunk before. */
  lemma RunsAsSoonAsPossible(jobs: seq<Job>, chunks: seq<seq<Job>>, rank: string -> nat, k: nat, a: Job)
    returns (b: Job)
    requires Layered(ByName(jobs), chunks) && RanksJobs(jobs, rank)
    requires 0 < k < |chunks| && a in chunks[k]
    ensures b in chunks[k - 1] && Needs(a, b)
  {
    var all := ByName(jobs);
    var g := JobGraph(all);
    RankedHasNoCycleChunk(jobs, chunks, rank);
    ChunkNames(all, chunks, k, a);
    var d := LayerAbove(g, a.name, k);
    b := all[d];
    assert InChunk(chunks, k - 1, d);
    ChunkHolds(all, chunks, k - 1);
    var i :| 0 <= i < |chunks[k - 1]| && chunks[k - 1][i].name == d;
  }

  /** Nothing runs that was not asked for, and nothing runs twice. */
  lemma RunsOnlyJobs(jobs: seq<Job>, chunks: seq<seq<Job>>, j: nat, k: nat, a: Job, b: Job)
    requires Layered(ByName(jobs), chunks) && j < |chunks| && k < |chunks| && a in chunks[j] && b in chunks[k]
    ensures a in jobs && (a.name == b.name ==> j == k && a == b)
  {
    var all := ByName(jobs);
    ChunkNames(all, chunks, j, a);
    ChunkNames(all, chunks, k, b);
    PlacedOnce(all, chunks, a.name);
  }
}
