/** The walk over `node_modules` that collects lifecycle-script jobs
    (snpm-core/src/lifecycle/runner/walk.rs, `walk_node_modules` and
    `inspect_package`), over a fixed directory graph in which symlinks may
    form cycles. */
module Walk {
  import opened Wrappers
  import opened Digraph
  import opened Scheduler
  import opened Sequences

  /** A directory, named by its canonical path. */
  type Dir = string

  /** A directory entry; `target` is the directory it resolves to, if it is one. */
  datatype Entry = Entry(fileName: string, target: Option<Dir>)

  datatype Manifest =
    | Malformed
    | Manifest(name: Option<string>, version: Option<string>, hasLifecycle: bool, depNames: seq<string>)

  /** `listing` is None when the directory cannot be read, `manifest` is None
      when it has no `package.json`, `nested` is its `node_modules`. */
  datatype DirInfo = DirInfo(listing: Option<seq<Entry>>, manifest: Option<Manifest>, nested: Option<Dir>)

  datatype CacheLookup = NoEntry | Hit | Miss

  type FileSystem = map<Dir, DirInfo>

  ghost predicate Closed(fs: FileSystem) {
    forall d :: d in fs ==>
      && (fs[d].nested.Some? ==> fs[d].nested.value in fs)
      && (fs[d].listing.Some? ==> forall e :: e in fs[d].listing.value && e.target.Some? ==> e.target.value in fs)
  }

  /** The directories a scan of `entries` descends into. */
  function Targets(entries: seq<Entry>): set<Dir> {
    set e | e in entries && e.fileName != ".bin" && e.target.Some? :: e.target.value
  }

  /** Where the walk goes from `d`: a package leads to its own `node_modules`,
      any other directory to the directories it lists. */
  ghost function Next(info: DirInfo): set<Dir> {
    if info.manifest.Some? then (if info.nested.Some? then {info.nested.value} else {})
    else if info.listing.Some? then Targets(info.listing.value)
    else {}
  }

  ghost function WalkGraph(fs: FileSystem): Graph<Dir> {
    map d | d in fs :: Next(fs[d])
  }

  /** Where a scan may go from `d` at all, also as a `node_modules` that holds a
      `package.json` itself. */
  ghost function ScanGraph(fs: FileSystem): Graph<Dir> {
    map d | d in fs :: Next(fs[d].(manifest := None)) + Next(fs[d])
  }

  /** One step of the walk: from a package to its own `node_modules`, from another directory
      to what it lists, `.bin` apart. */
  lemma StepMeans(fs: FileSystem, d: Dir, next: Dir)
    ensures Edge(WalkGraph(fs), d, next) <==>
      && d in fs
      && if fs[d].manifest.Some? then fs[d].nested == Some(next)
         else exists entries, e: Entry :: fs[d].listing == Some(entries) && e in entries && e.target == Some(next)
                                   && e.fileName != ".bin"
    ensures Edge(ScanGraph(fs), d, next) <==>
      && d in fs
      && ((fs[d].manifest.Some? && fs[d].nested == Some(next))
          || exists entries, e: Entry :: fs[d].listing == Some(entries) && e in entries && e.target == Some(next)
                                  && e.fileName != ".bin")
  {
    if d in fs && fs[d].listing.Some? {
      var entries := fs[d].listing.value;
      assert next in Targets(entries) <==>
        exists e: Entry :: e in entries && e.target == Some(next) && e.fileName != ".bin";
    }
  }

  datatype Verdict = Skip | Blocked(name: string) | Run(job: Job) | Fail

  /** The two policies the walk consults: which names may run scripts, and
      what the side-effects cache answers for a package directory. */
  datatype Policy = Policy(allowed: string -> bool, lookup: Dir -> CacheLookup)

  ghost function Judge(p: Policy, d: Dir, m: Manifest): Verdict {
    if m.Malformed? then Fail
    else if m.name.GetOr("") == "" || !m.hasLifecycle then Skip
    else if !p.allowed(m.name.value) then Blocked(m.name.value)
    else if m.version.GetOr("") != "" && p.lookup(d).NoEntry? then Fail
    else if m.version.GetOr("") != "" && p.lookup(d).Hit? then Skip
    else Run(Job(m.name.value, d, m.depNames))
  }

  ghost predicate Readable(fs: FileSystem, p: Policy, d: Dir) {
    d in fs &&
    match fs[d].manifest
    case Some(m) => !Judge(p, d, m).Fail?
    case None => fs[d].listing.Some?
  }

  ghost predicate JobsMatch(fs: FileSystem, p: Policy, inspected: seq<Dir>, jobs: seq<Job>) {
    && (forall d :: d in inspected ==> d in fs && fs[d].manifest.Some?)
    && (forall i, j :: 0 <= i < j < |inspected| ==> inspected[i] != inspected[j])
    && (forall i, j :: 0 <= i < j < |jobs| ==> jobs[i].pkgRoot != jobs[j].pkgRoot)
    && (forall job :: job in jobs <==>
          job.pkgRoot in inspected && Judge(p, job.pkgRoot, fs[job.pkgRoot].manifest.value) == Run(job))
  }

  ghost predicate BlockedMatch(fs: FileSystem, p: Policy, inspected: seq<Dir>, blocked: seq<string>) {
    && (forall d :: d in inspected ==> d in fs && fs[d].manifest.Some?)
    && (forall i, j :: 0 <= i < j < |blocked| ==> blocked[i] != blocked[j])
    && (forall n :: n in blocked <==>
          exists d :: d in inspected && Judge(p, d, fs[d].manifest.value) == Blocked(n))
  }

  /** `after` extends `before` by directories reachable from `from`; outside
      `open` these are readable and lead only to visited directories. */
  ghost predicate Explored(fs: FileSystem, p: Policy, from: Dir, before: set<Dir>, after: set<Dir>, open: set<Dir>) {
    && before <= after
    && (forall d :: d in after && d !in before ==> Reaches(WalkGraph(fs), from, d))
    && (forall d :: d in after && d !in before && d !in open ==> Readable(fs, p, d) && Next(fs[d]) <= after)
  }

  /** `dir` has been entered, and the directories its first `n` entries lead to are explored. */
  ghost predicate ScannedTo(fs: FileSystem, p: Policy, dir: Dir, before: set<Dir>, after: set<Dir>,
                            entries: seq<Entry>, n: nat)
    requires n <= |entries|
  {
    dir in after && Explored(fs, p, dir, before, after, {dir}) && Targets(entries[..n]) <= after
  }

  ghost predicate Unreadable(fs: FileSystem, p: Policy, from: Dir) {
    exists d :: Reaches(WalkGraph(fs), from, d) && d in fs && !Readable(fs, p, d)
  }

  function JobsAfter(v: Verdict, jobs: seq<Job>): seq<Job> {
    if v.Run? then jobs + [v.job] else jobs
  }

  function BlockedAfter(v: Verdict, blocked: seq<string>): seq<string> {
    if v.Blocked? && v.name !in blocked then blocked + [v.name] else blocked
  }

  function SeenAfter(v: Verdict, seen: set<string>): set<string> {
    if v.Blocked? then seen + {v.name} else seen
  }

  /** What the walk has recorded fits the packages inspected so far. */
  ghost predicate Record(fs: FileSystem, p: Policy, visited: set<Dir>, inspected: seq<Dir>, jobs: seq<Job>,
                         blocked: seq<string>, seen: set<string>) {
    && Closed(fs) && visited <= fs.Keys
    && (forall d :: d in inspected ==> d in visited)
    && JobsMatch(fs, p, inspected, jobs)
    && BlockedMatch(fs, p, inspected, blocked)
    && seen == set n | n in blocked
  }

  ghost predicate ReachedFrom(g: Graph<Dir>, roots: seq<Dir>, d: Dir) {
    exists r :: r in roots && Reaches(g, r, d)
  }

  /** No package the walk comes to has a `node_modules` that holds a `package.json` itself. */
  ghost predicate PlainContainers(fs: FileSystem, roots: seq<Dir>) {
    forall d :: ReachedFrom(WalkGraph(fs), roots, d) && d in fs && fs[d].manifest.Some? && fs[d].nested.Some?
                && fs[d].nested.value in fs ==>
      fs[fs[d].nested.value].manifest.None?
  }

  /** The walk comes to `d`, and to plain containers only. */
  ghost predicate PlainlyAt(fs: FileSystem, roots: seq<Dir>, d: Dir) {
    PlainContainers(fs, roots) && ReachedFrom(WalkGraph(fs), roots, d)
  }

  /** All of `visited` can be reached by scans from the roots. */
  ghost predicate Scanned(fs: FileSystem, roots: seq<Dir>, visited: set<Dir>) {
    forall d :: d in visited ==> ReachedFrom(ScanGraph(fs), roots, d)
  }

  // ---- what the walk does, step by step ----

  /** What has been visited and recorded. */
  datatype Found = Found(visited: set<Dir>, jobs: seq<Job>, blocked: seq<string>)

  predicate Within(fs: FileSystem, f: Found, g: Found) {
    f.visited <= g.visited <= fs.Keys
  }

  ghost function AfterWalk(fs: FileSystem, p: Policy, dir: Dir, f: Found): (r: (Found, bool))
    requires Closed(fs) && dir in fs && Within(fs, f, f)
    ensures Within(fs, f, r.0)
    decreases fs.Keys - f.visited, 0, 0
  {
    var entered := f.(visited := f.visited + {dir});
    if dir in f.visited then (f, true)
    else if fs[dir].listing.None? then (entered, false)
    else AfterEntries(fs, p, fs[dir].listing.value, entered)
  }

  ghost predicate Followed(fs: FileSystem, entries: seq<Entry>) {
    forall e :: e in entries && e.target.Some? ==> e.target.value in fs
  }

  ghost function AfterEntries(fs: FileSystem, p: Policy, entries: seq<Entry>, f: Found): (r: (Found, bool))
    requires Closed(fs) && Followed(fs, entries) && Within(fs, f, f)
    ensures Within(fs, f, r.0)
    decreases fs.Keys - f.visited, 3, |entries|
  {
    if entries == [] then (f, true)
    else
      var (next, ok) := AfterEntry(fs, p, entries[0], f);
      if !ok then (next, false)
      else
        assert fs.Keys - next.visited <= fs.Keys - f.visited;
        AfterEntries(fs, p, entries[1..], next)
  }

  ghost function AfterEntry(fs: FileSystem, p: Policy, e: Entry, f: Found): (r: (Found, bool))
    requires Closed(fs) && Followed(fs, [e]) && Within(fs, f, f)
    ensures Within(fs, f, r.0)
    decreases fs.Keys - f.visited, 2, 0
  {
    assert e in [e];
    if e.target.None? || e.fileName == ".bin" then (f, true) else AfterVisit(fs, p, e.target.value, f)
  }

  ghost function AfterVisit(fs: FileSystem, p: Policy, d: Dir, f: Found): (r: (Found, bool))
    requires Closed(fs) && d in fs && Within(fs, f, f)
    ensures Within(fs, f, r.0)
    decreases fs.Keys - f.visited, 1, 0
  {
    if fs[d].manifest.None? then AfterWalk(fs, p, d, f)
    else if d in f.visited then (f, true)
    else
      var v := Judge(p, d, fs[d].manifest.value);
      var recorded := Found(f.visited + {d}, JobsAfter(v, f.jobs), BlockedAfter(v, f.blocked));
      if v.Fail? then (recorded, false)
      else if fs[d].nested.None? then (recorded, true)
      else AfterWalk(fs, p, fs[d].nested.value, recorded)
  }

  ghost function AfterRoots(fs: FileSystem, p: Policy, roots: seq<Dir>, f: Found): (r: (Found, bool))
    requires Closed(fs) && (forall d :: d in roots ==> d in fs) && Within(fs, f, f)
    ensures Within(fs, f, r.0)
  {
    if roots == [] then (f, true)
    else
      var (next, ok) := AfterWalk(fs, p, roots[0], f);
      if !ok then (next, false) else AfterRoots(fs, p, roots[1..], next)
  }

  const NOTHING := Found({}, [], [])

  class Walker {
    const fs: FileSystem
    const policy: Policy
    ghost const roots: seq<Dir>
    var visited: set<Dir>
    var jobs: seq<Job>
    var blocked: seq<string>
    var blockedSeen: set<string>
    ghost var inspected: seq<Dir>

    ghost predicate Valid()
      reads this
    {
      Record(fs, policy, visited, inspected, jobs, blocked, blockedSeen) && Scanned(fs, roots, visited)
    }

    ghost function Now(): Found
      reads this
    {
      Found(visited, jobs, blocked)
    }

    /** Every visited package has been inspected. */
    ghost predicate AllInspected()
      reads this
    {
      forall d :: d in visited && d in fs && fs[d].manifest.Some? ==> d in inspected
    }

    constructor (fs: FileSystem, policy: Policy, ghost roots: seq<Dir>)
      requires Closed(fs)
      ensures Valid() && AllInspected()
      ensures this.fs == fs && this.policy == policy && this.roots == roots
      ensures visited == {} && jobs == [] && blocked == []
    {
      this.fs, this.policy, this.roots := fs, policy, roots;
      visited, jobs, blocked, blockedSeen, inspected := {}, [], [], {}, [];
    }

    method InspectPackage(d: Dir, manifest: Manifest) returns (ok: bool)
      requires Valid() && d in visited && d !in inspected && fs[d].manifest == Some(manifest)
      modifies this`jobs, this`blocked, this`blockedSeen, this`inspected
      ensures Valid() && inspected == old(inspected) + [d]
      ensures var v := Judge(policy, d, manifest);
        jobs == JobsAfter(v, old(jobs)) && blocked == BlockedAfter(v, old(blocked))
      ensures ok <==> !Judge(policy, d, manifest).Fail?
    {
      JudgeOne(fs, policy, visited, inspected, d, jobs, blocked, blockedSeen);
      var verdict := Decide(d, manifest);
      inspected := inspected + [d];
      ok := !verdict.Fail?;
      match verdict {
        case Run(job) => jobs := jobs + [job];
        case Blocked(name) => Block(name);
        case Skip =>
        case Fail =>
      }
    }

    /** Whether to run the package's scripts: the checks in their order. */
    method Decide(d: Dir, manifest: Manifest) returns (verdict: Verdict)
      ensures verdict == Judge(policy, d, manifest)
    {
      if manifest.Malformed? {
        return Fail;
      }
      if manifest.name.GetOr("") == "" {
        return Skip;
      }
      var name := manifest.name.value;
      if !manifest.hasLifecycle {
        return Skip;
      }
      if !policy.allowed(name) {
        return Blocked(name);
      }
      if manifest.version.GetOr("") != "" {
        match policy.lookup(d)
        case NoEntry => return Fail;
        case Hit => return Skip;
        case Miss =>
      }
      return Run(Job(name, d, manifest.depNames));
    }

    /** Lists a name as blocked, once. */
    method Block(name: string)
      requires blockedSeen == set n | n in blocked
      modifies this`blocked, this`blockedSeen
      ensures blockedSeen == SeenAfter(Blocked(name), old(blockedSeen))
      ensures blocked == BlockedAfter(Blocked(name), old(blocked))
    {
      if name !in blockedSeen {
        blockedSeen := blockedSeen + {name};
        blocked := blocked + [name];
      }
    }

    method WalkNodeModules(dir: Dir) returns (ok: bool)
      requires Valid() && dir in fs && ReachedFrom(ScanGraph(fs), roots, dir)
      modifies this`visited, this`jobs, this`blocked, this`blockedSeen, this`inspected
      ensures Valid() && old(visited) <= visited
      ensures (Now(), ok) == AfterWalk(fs, policy, dir, old(Now()))
      ensures PlainlyAt(fs, roots, dir) && fs[dir].manifest.None? && old(AllInspected()) ==>
        && AllInspected()
        && (ok ==> dir in visited && Explored(fs, policy, dir, old(visited), visited, {}))
        && (!ok ==> Unreadable(fs, policy, dir))
      decreases fs.Keys - visited, 0
    {
      if dir in visited {
        return true;
      }
      visited := visited + {dir};
      if fs[dir].listing.None? {
        ReachesSelf(WalkGraph(fs), dir);
        return false;
      }
      var entries := fs[dir].listing.value;
      assert entries[0..] == entries;
      ScanBegins(fs, policy, dir, old(visited), entries);
      ghost var plainly := PlainlyAt(fs, roots, dir) && fs[dir].manifest.None? && old(AllInspected());
      ghost var start, whole := old(visited), AfterWalk(fs, policy, dir, old(Now()));
      for i := 0 to |entries|
        invariant Valid() && dir in visited && start <= visited && Followed(fs, entries[i..])
        invariant AfterEntries(fs, policy, entries[i..], Now()) == whole
        invariant plainly ==>
          AllInspected() && ScannedTo(fs, policy, dir, start, visited, entries, i)
      {
        assert entries[i..][1..] == entries[i + 1..] && entries[i..][0] == entries[i];
        ok := WalkEntry(dir, entries, i, start);
        if !ok {
          return;
        }
      }
      if plainly {
        ScanEnds(fs, policy, dir, start, visited, entries);
      }
      ok := true;
    }

    /** One iteration of the scan of `dir`. */
    method WalkEntry(dir: Dir, entries: seq<Entry>, i: nat, ghost before: set<Dir>) returns (ok: bool)
      requires Valid() && dir in visited && i < |entries| && fs[dir].listing == Some(entries)
      requires Followed(fs, [entries[i]])
      modifies this`visited, this`jobs, this`blocked, this`blockedSeen, this`inspected
      ensures Valid() && old(visited) <= visited
      ensures (Now(), ok) == AfterEntry(fs, policy, entries[i], old(Now()))
      ensures PlainlyAt(fs, roots, dir) && fs[dir].manifest.None? && old(AllInspected()) ==>
        && AllInspected()
        && (ok && ScannedTo(fs, policy, dir, before, old(visited), entries, i) ==>
              ScannedTo(fs, policy, dir, before, visited, entries, i + 1))
        && (!ok ==> Unreadable(fs, policy, dir))
      decreases fs.Keys - visited, 2
    {
      var entry := entries[i];
      TargetsGrow(entries, i);
      if entry.target.None? || entry.fileName == ".bin" {
        return true;
      }
      ghost var start := visited;
      ghost var target := entry.target.value;
      assert entry in entries;
      ScanGoesOn(fs, roots, dir, target);
      if fs[dir].manifest.None? {
        WalkGoesOn(fs, roots, dir, target);
      }
      ok := Visit(entry.target.value);
      if fs[dir].manifest.None? {
        EntryFollowed(fs, policy, dir, target, before, start, visited);
      }
    }

    /** Visit the directory an entry resolves to: a package or a container. */
    method Visit(visitPath: Dir) returns (ok: bool)
      requires Valid() && visitPath in fs && ReachedFrom(ScanGraph(fs), roots, visitPath)
      modifies this`visited, this`jobs, this`blocked, this`blockedSeen, this`inspected
      ensures Valid() && old(visited) <= visited
      ensures (Now(), ok) == AfterVisit(fs, policy, visitPath, old(Now()))
      ensures PlainlyAt(fs, roots, visitPath) && old(AllInspected()) ==>
        && AllInspected()
        && (ok ==> visitPath in visited && Explored(fs, policy, visitPath, old(visited), visited, {}))
        && (!ok ==> Unreadable(fs, policy, visitPath))
      decreases fs.Keys - visited, 1
    {
      if fs[visitPath].manifest.None? {
        ok := WalkNodeModules(visitPath);
        return;
      }
      if visitPath in visited {
        return true;
      }
      visited := visited + {visitPath};
      ghost var entered := visited;
      ReachesSelf(WalkGraph(fs), visitPath);
      ok := InspectPackage(visitPath, fs[visitPath].manifest.value);
      if !ok {
        return;
      }
      assert Readable(fs, policy, visitPath);
      var nested := fs[visitPath].nested;
      if nested.None? {
        PackageExplored(fs, policy, visitPath, old(visited), entered, visited);
        return;
      }
      ScanGoesOn(fs, roots, visitPath, nested.value);
      WalkGoesOn(fs, roots, visitPath, nested.value);
      ok := WalkNodeModules(nested.value);
      NestedReached(fs, policy, visitPath);
      if ok && nested.value in visited && Explored(fs, policy, nested.value, entered, visited, {}) {
        PackageExplored(fs, policy, visitPath, old(visited), entered, visited);
      }
    }
  }

  /** What a scanned directory lists, or has as its own `node_modules`, is scanned next. */
  lemma ScanGoesOn(fs: FileSystem, roots: seq<Dir>, d: Dir, next: Dir)
    requires d in fs && ReachedFrom(ScanGraph(fs), roots, d)
    requires next in Next(fs[d].(manifest := None)) + Next(fs[d])
    ensures ReachedFrom(ScanGraph(fs), roots, next)
  {
    assert Edge(ScanGraph(fs), d, next);
    ReachedOn(ScanGraph(fs), roots, d, next);
  }

  lemma WalkGoesOn(fs: FileSystem, roots: seq<Dir>, d: Dir, next: Dir)
    requires d in fs && next in Next(fs[d])
    ensures ReachedFrom(WalkGraph(fs), roots, d) ==> ReachedFrom(WalkGraph(fs), roots, next)
  {
    if ReachedFrom(WalkGraph(fs), roots, d) {
      assert Edge(WalkGraph(fs), d, next);
      ReachedOn(WalkGraph(fs), roots, d, next);
    }
  }

  lemma ReachedOn(g: Graph<Dir>, roots: seq<Dir>, d: Dir, next: Dir)
    requires ReachedFrom(g, roots, d) && Edge(g, d, next)
    ensures ReachedFrom(g, roots, next)
  {
    var r :| r in roots && Reaches(g, r, d);
    ReachesSelf(g, next);
    ReachesStep(g, d, next, next);
    ReachesTransitive(g, r, d, next);
  }

  lemma ScanBegins(fs: FileSystem, p: Policy, dir: Dir, before: set<Dir>, entries: seq<Entry>)
    ensures ScannedTo(fs, p, dir, before, before + {dir}, entries, 0)
  {
    ReachesSelf(WalkGraph(fs), dir);
  }

  lemma ScanEnds(fs: FileSystem, p: Policy, dir: Dir, before: set<Dir>, after: set<Dir>, entries: seq<Entry>)
    requires ScannedTo(fs, p, dir, before, after, entries, |entries|)
    requires dir in fs && fs[dir].manifest.None? && fs[dir].listing == Some(entries)
    ensures Explored(fs, p, dir, before, after, {})
  {
    assert entries[..|entries|] == entries;
  }

  lemma TargetsGrow(entries: seq<Entry>, i: nat)
    requires i < |entries|
    ensures var e := entries[i];
      Targets(entries[..i + 1])
        == Targets(entries[..i]) + if e.target.Some? && e.fileName != ".bin" then {e.target.value} else {}
  {
    PrefixGrows(entries, i);
  }

  /** What becomes of the target of an entry becomes of the directory that lists it. */
  lemma EntryFollowed(fs: FileSystem, p: Policy, dir: Dir, target: Dir, before: set<Dir>, start: set<Dir>,
                      after: set<Dir>)
    requires dir in fs && target in Next(fs[dir])
    ensures Unreadable(fs, p, target) ==> Unreadable(fs, p, dir)
    ensures Explored(fs, p, target, start, after, {}) && Explored(fs, p, dir, before, start, {dir}) ==>
      Explored(fs, p, dir, before, after, {dir})
  {
    var g := WalkGraph(fs);
    assert Edge(g, dir, target);
    ReachesSelf(g, target);
    ReachesStep(g, dir, target, target);
    if Unreadable(fs, p, target) {
      UnreadableVia(fs, p, dir, target);
    }
    if Explored(fs, p, target, start, after, {}) && Explored(fs, p, dir, before, start, {dir}) {
      ExploreVia(fs, p, dir, target, before, start, after);
    }
  }

  lemma ExploreVia(fs: FileSystem, p: Policy, from: Dir, mid: Dir, before: set<Dir>, start: set<Dir>, after: set<Dir>)
    requires Reaches(WalkGraph(fs), from, mid)
    requires Explored(fs, p, from, before, start, {from}) && Explored(fs, p, mid, start, after, {})
    ensures Explored(fs, p, from, before, after, {from})
  {
    forall d | d in after && d !in before
      ensures Reaches(WalkGraph(fs), from, d)
    {
      if d !in start {
        ReachesTransitive(WalkGraph(fs), from, mid, d);
      }
    }
  }

  lemma UnreadableVia(fs: FileSystem, p: Policy, from: Dir, mid: Dir)
    requires Reaches(WalkGraph(fs), from, mid) && Unreadable(fs, p, mid)
    ensures Unreadable(fs, p, from)
  {
    var d :| Reaches(WalkGraph(fs), mid, d) && d in fs && !Readable(fs, p, d);
    ReachesTransitive(WalkGraph(fs), from, mid, d);
  }

  lemma NestedReached(fs: FileSystem, p: Policy, pkg: Dir)
    requires pkg in fs && fs[pkg].manifest.Some? && fs[pkg].nested.Some?
    ensures Unreadable(fs, p, fs[pkg].nested.value) ==> Unreadable(fs, p, pkg)
  {
    var n := fs[pkg].nested.value;
    assert Edge(WalkGraph(fs), pkg, n);
    ReachesSelf(WalkGraph(fs), n);
    ReachesStep(WalkGraph(fs), pkg, n, n);
    if Unreadable(fs, p, n) {
      UnreadableVia(fs, p, pkg, n);
    }
  }

  lemma PackageExplored(fs: FileSystem, p: Policy, pkg: Dir, start: set<Dir>, entered: set<Dir>, after: set<Dir>)
    requires pkg in fs && fs[pkg].manifest.Some? && Readable(fs, p, pkg)
    requires entered == start + {pkg} && (fs[pkg].nested.Some? ==> fs[pkg].nested.value in after)
    requires Explored(fs, p, fs[pkg].nested.GetOr(pkg), entered, after, {})
    ensures Explored(fs, p, pkg, start, after, {})
  {
    ReachesSelf(WalkGraph(fs), pkg);
    forall d | d in after && d !in start
      ensures Reaches(WalkGraph(fs), pkg, d)
    {
      if d !in entered && fs[pkg].nested.Some? {
        assert Edge(WalkGraph(fs), pkg, fs[pkg].nested.value);
        ReachesStep(WalkGraph(fs), pkg, fs[pkg].nested.value, d);
      }
    }
  }

  // ---- the whole collection phase ----

  /** A package reachable from the roots on which the policies decide `v`. */
  ghost predicate Judged(g: Graph<Dir>, fs: FileSystem, p: Policy, roots: seq<Dir>, d: Dir, v: Verdict) {
    d in fs && ReachedFrom(g, roots, d) && fs[d].manifest.Some? && Judge(p, d, fs[d].manifest.value) == v
  }

  /** Each job and each refused name is there once, and was judged so at a package that
      scans from the roots reach. */
  ghost predicate OnlyJudged(fs: FileSystem, p: Policy, roots: seq<Dir>, jobs: seq<Job>, blocked: seq<string>) {
    && (forall i, j :: 0 <= i < j < |jobs| ==> jobs[i].pkgRoot != jobs[j].pkgRoot)
    && (forall i, j :: 0 <= i < j < |blocked| ==> blocked[i] != blocked[j])
    && (forall job :: job in jobs ==> Judged(ScanGraph(fs), fs, p, roots, job.pkgRoot, Run(job)))
    && (forall n :: n in blocked ==> exists d :: Judged(ScanGraph(fs), fs, p, roots, d, Blocked(n)))
  }

  /** It works out exactly when all that is reachable is readable; then the packages
      judged are exactly those reachable. */
  ghost predicate AllJudged(fs: FileSystem, p: Policy, roots: seq<Dir>, ok: bool, jobs: seq<Job>,
                            blocked: seq<string>) {
    && (ok <==> forall d :: ReachedFrom(WalkGraph(fs), roots, d) && d in fs ==> Readable(fs, p, d))
    && (ok ==> forall job :: job in jobs <==> Judged(WalkGraph(fs), fs, p, roots, job.pkgRoot, Run(job)))
    && (ok ==> forall n :: n in blocked <==> exists d :: Judged(WalkGraph(fs), fs, p, roots, d, Blocked(n)))
  }

  /** No container the walk comes to holds a manifest. */
  ghost predicate Plain(fs: FileSystem, roots: seq<Dir>) {
    PlainContainers(fs, roots) && forall r :: r in roots ==> r in fs && fs[r].manifest.None?
  }

  /** The manifest asks for scripts, under a name that is not empty. */
  ghost predicate AsksForScripts(m: Manifest, name: string) {
    m.Manifest? && m.name == Some(name) && name != "" && m.hasLifecycle
  }

  /** What the job of a package says is what its manifest says; its name is allowed, and if
      it has a version the cache had nothing for it. */
  ghost predicate MayRun(p: Policy, d: Dir, m: Manifest, job: Job) {
    && AsksForScripts(m, job.name) && job.pkgRoot == d && job.depNames == m.depNames
    && p.allowed(job.name)
    && forall version :: m.version == Some(version) && version != "" ==> p.lookup(d) == Miss
  }

  ghost predicate MustBlock(p: Policy, m: Manifest, name: string) {
    AsksForScripts(m, name) && !p.allowed(name)
  }

  /** It cannot be parsed, or it is allowed, has a version, and no cache entry can be made. */
  ghost predicate Breaks(p: Policy, d: Dir, m: Manifest) {
    m.Malformed? ||
      exists name, version :: AsksForScripts(m, name) && p.allowed(name) && m.version == Some(version) && version != ""
                              && p.lookup(d) == NoEntry
  }

  lemma JudgeMeans(p: Policy, d: Dir, m: Manifest)
    ensures forall job :: Judge(p, d, m) == Run(job) <==> MayRun(p, d, m, job)
    ensures forall name :: Judge(p, d, m) == Blocked(name) <==> MustBlock(p, m, name)
    ensures Judge(p, d, m).Fail? <==> Breaks(p, d, m)
  {
    if m.Manifest? && m.name.Some? && m.name.value != "" {
      assert m.hasLifecycle ==> AsksForScripts(m, m.name.value);
      if m.version.Some? && m.version.value != "" {
        assert p.lookup(d).NoEntry? || p.lookup(d).Hit? || p.lookup(d).Miss?;
      }
    }
  }

  ghost predicate RunFrom(g: Graph<Dir>, fs: FileSystem, p: Policy, roots: seq<Dir>, job: Job) {
    var d := job.pkgRoot;
    d in fs && ReachedFrom(g, roots, d) && exists m :: fs[d].manifest == Some(m) && MayRun(p, d, m, job)
  }

  ghost predicate BlockedFrom(g: Graph<Dir>, fs: FileSystem, p: Policy, roots: seq<Dir>, name: string) {
    exists d, m :: d in fs && ReachedFrom(g, roots, d) && fs[d].manifest == Some(m) && MustBlock(p, m, name)
  }

  lemma JudgedIsRun(g: Graph<Dir>, fs: FileSystem, p: Policy, roots: seq<Dir>, job: Job)
    ensures Judged(g, fs, p, roots, job.pkgRoot, Run(job)) <==> RunFrom(g, fs, p, roots, job)
  {
    var d := job.pkgRoot;
    if d in fs && fs[d].manifest.Some? {
      JudgeMeans(p, d, fs[d].manifest.value);
    }
  }

  lemma JudgedIsBlocked(g: Graph<Dir>, fs: FileSystem, p: Policy, roots: seq<Dir>, name: string)
    ensures (exists d :: Judged(g, fs, p, roots, d, Blocked(name))) <==> BlockedFrom(g, fs, p, roots, name)
  {
    forall d | d in fs && fs[d].manifest.Some?
      ensures Judge(p, d, fs[d].manifest.value) == Blocked(name) <==> MustBlock(p, fs[d].manifest.value, name)
    {
      JudgeMeans(p, d, fs[d].manifest.value);
    }
    if d, m :| d in fs && ReachedFrom(g, roots, d) && fs[d].manifest == Some(m) && MustBlock(p, m, name) {
      assert Judged(g, fs, p, roots, d, Blocked(name));
    }
  }

  /** Nothing is run or refused that should not be. */
  ghost predicate NothingWrong(fs: FileSystem, p: Policy, roots: seq<Dir>, jobs: seq<Job>, blocked: seq<string>) {
    && (forall job :: job in jobs ==> RunFrom(ScanGraph(fs), fs, p, roots, job))
    && (forall name :: name in blocked ==> BlockedFrom(ScanGraph(fs), fs, p, roots, name))
  }

  /** Something the walk comes to cannot be read: a directory that cannot be listed, or a
      package whose manifest breaks it. */
  ghost predicate Broken(fs: FileSystem, p: Policy, d: Dir)
    requires d in fs
  {
    match fs[d].manifest
    case None => fs[d].listing == None
    case Some(m) => Breaks(p, d, m)
  }

  /** It fails exactly if something is broken, and otherwise runs and refuses all that it should. */
  ghost predicate NothingMissed(fs: FileSystem, p: Policy, roots: seq<Dir>, ok: bool, jobs: seq<Job>,
                                blocked: seq<string>) {
    && (ok <==> forall d :: ReachedFrom(WalkGraph(fs), roots, d) && d in fs ==> !Broken(fs, p, d))
    && (ok ==> forall job :: job in jobs <==> RunFrom(WalkGraph(fs), fs, p, roots, job))
    && (ok ==> forall name :: name in blocked <==> BlockedFrom(WalkGraph(fs), fs, p, roots, name))
  }

  lemma JudgedMeansRight(fs: FileSystem, p: Policy, roots: seq<Dir>, jobs: seq<Job>, blocked: seq<string>)
    requires OnlyJudged(fs, p, roots, jobs, blocked)
    ensures NothingWrong(fs, p, roots, jobs, blocked)
  {
    forall job | job in jobs
      ensures RunFrom(ScanGraph(fs), fs, p, roots, job)
    {
      JudgedIsRun(ScanGraph(fs), fs, p, roots, job);
    }
    forall name | name in blocked
      ensures BlockedFrom(ScanGraph(fs), fs, p, roots, name)
    {
      JudgedIsBlocked(ScanGraph(fs), fs, p, roots, name);
    }
  }

  lemma ReadableIsNotBroken(fs: FileSystem, p: Policy, d: Dir)
    requires d in fs
    ensures Readable(fs, p, d) <==> !Broken(fs, p, d)
  {
    if fs[d].manifest.Some? {
      JudgeMeans(p, d, fs[d].manifest.value);
    }
  }

  lemma JudgedMeansAll(fs: FileSystem, p: Policy, roots: seq<Dir>, ok: bool, jobs: seq<Job>, blocked: seq<string>)
    requires AllJudged(fs, p, roots, ok, jobs, blocked)
    ensures NothingMissed(fs, p, roots, ok, jobs, blocked)
  {
    forall d | d in fs
      ensures Readable(fs, p, d) <==> !Broken(fs, p, d)
    {
      ReadableIsNotBroken(fs, p, d);
    }
    forall job: Job
      ensures Judged(WalkGraph(fs), fs, p, roots, job.pkgRoot, Run(job)) <==> RunFrom(WalkGraph(fs), fs, p, roots, job)
    {
      JudgedIsRun(WalkGraph(fs), fs, p, roots, job);
    }
    forall name: string
      ensures (exists d :: Judged(WalkGraph(fs), fs, p, roots, d, Blocked(name)))
         <==> BlockedFrom(WalkGraph(fs), fs, p, roots, name)
    {
      JudgedIsBlocked(WalkGraph(fs), fs, p, roots, name);
    }
  }

  /** Walk the `node_modules` of every project and report the jobs found and
      the names refused.  Whatever comes back was judged so; when no container
      holds a manifest, everything reachable was judged. */
  method CollectJobs(fs: FileSystem, policy: Policy, roots: seq<Dir>)
    returns (ok: bool, jobs: seq<Job>, blocked: seq<string>)
    requires Closed(fs) && forall r :: r in roots ==> r in fs
    ensures var r := AfterRoots(fs, policy, roots, NOTHING);
      ok == r.1 && jobs == r.0.jobs && blocked == r.0.blocked
    ensures OnlyJudged(fs, policy, roots, jobs, blocked)
    ensures Plain(fs, roots) ==> AllJudged(fs, policy, roots, ok, jobs, blocked)
    ensures NothingWrong(fs, policy, roots, jobs, blocked)
    ensures Plain(fs, roots) ==> NothingMissed(fs, policy, roots, ok, jobs, blocked)
  {
    ok, jobs, blocked := WalkRoots(fs, policy, roots);
    JudgedMeansRight(fs, policy, roots, jobs, blocked);
    if Plain(fs, roots) {
      JudgedMeansAll(fs, policy, roots, ok, jobs, blocked);
    }
  }

  /** The loop over the projects. */
  method WalkRoots(fs: FileSystem, policy: Policy, roots: seq<Dir>)
    returns (ok: bool, jobs: seq<Job>, blocked: seq<string>)
    requires Closed(fs) && forall r :: r in roots ==> r in fs
    ensures var r := AfterRoots(fs, policy, roots, NOTHING);
      ok == r.1 && jobs == r.0.jobs && blocked == r.0.blocked
    ensures OnlyJudged(fs, policy, roots, jobs, blocked)
    ensures Plain(fs, roots) ==> AllJudged(fs, policy, roots, ok, jobs, blocked)
  {
    var w := new Walker(fs, policy, roots);
    ok := true;
    assert roots[0..] == roots;
    for i := 0 to |roots|
      invariant w.Valid() && w.fs == fs && w.policy == policy && w.roots == roots && ok
      invariant AfterRoots(fs, policy, roots[i..], w.Now()) == AfterRoots(fs, policy, roots, NOTHING)
      invariant Plain(fs, roots) ==> w.AllInspected() && Swept(fs, policy, roots[..i], w.visited)
    {
      assert roots[i] in roots && roots[i..][0] == roots[i] && roots[i..][1..] == roots[i + 1..];
      RootIsReached(ScanGraph(fs), roots, roots[i]);
      RootIsReached(WalkGraph(fs), roots, roots[i]);
      ghost var start := w.visited;
      ok := w.WalkNodeModules(roots[i]);
      if !ok {
        if Plain(fs, roots) {
          UnreadableFails(fs, policy, roots, roots[i], w.jobs, w.blocked);
        }
        JudgedSome(fs, policy, roots, w.visited, w.inspected, w.jobs, w.blocked, w.blockedSeen);
        return false, w.jobs, w.blocked;
      }
      if Plain(fs, roots) {
        SweepOne(fs, policy, roots[..i], roots[i], start, w.visited);
        PrefixGrows(roots, i);
      }
    }
    assert roots[..|roots|] == roots;
    jobs, blocked := w.jobs, w.blocked;
    JudgedSome(fs, policy, roots, w.visited, w.inspected, jobs, blocked, w.blockedSeen);
    if Plain(fs, roots) {
      JudgedAll(fs, policy, roots, w.visited, w.inspected, jobs, blocked, w.blockedSeen);
    }
  }

  lemma RootIsReached(g: Graph<Dir>, roots: seq<Dir>, r: Dir)
    requires r in roots
    ensures ReachedFrom(g, roots, r)
  {
    ReachesSelf(g, r);
  }

  lemma UnreadableFails(fs: FileSystem, p: Policy, roots: seq<Dir>, r: Dir, jobs: seq<Job>, blocked: seq<string>)
    requires r in roots && Unreadable(fs, p, r)
    ensures AllJudged(fs, p, roots, false, jobs, blocked)
  {
    var d :| Reaches(WalkGraph(fs), r, d) && d in fs && !Readable(fs, p, d);
    ReachedVia(fs, roots, r, d);
  }

  /** Collect the jobs and cut them into chunks.  Whatever is scheduled was judged
      runnable; when no container holds a manifest, each name that some reachable
      package is to run scripts for is run for one such package, once. */
  method PlanInstallScripts(fs: FileSystem, policy: Policy, roots: seq<Dir>)
    returns (ok: bool, chunks: seq<seq<Job>>, blocked: seq<string>)
    requires Closed(fs) && forall r :: r in roots ==> r in fs
    ensures forall k, job :: 0 <= k < |chunks| && job in chunks[k] ==> RunFrom(ScanGraph(fs), fs, policy, roots, job)
    ensures ok && Plain(fs, roots) ==>
      && (forall k, job ::
          0 <= k < |chunks| && job in chunks[k] ==> RunFrom(WalkGraph(fs), fs, policy, roots, job))
      && (forall job: Job :: RunFrom(WalkGraph(fs), fs, policy, roots, job) ==>
            exists k :: InChunk(chunks, k, job.name))
    ensures forall name :: name in blocked ==> BlockedFrom(ScanGraph(fs), fs, policy, roots, name)
    ensures Plain(fs, roots) ==>
      && (ok <==> forall d :: ReachedFrom(WalkGraph(fs), roots, d) && d in fs ==> !Broken(fs, policy, d))
      && (ok ==> forall name :: name in blocked <==> BlockedFrom(WalkGraph(fs), fs, policy, roots, name))
    ensures forall c, j, k :: InChunk(chunks, j, c) && InChunk(chunks, k, c) ==> j == k
  {
    var jobs;
    ok, jobs, blocked := CollectJobs(fs, policy, roots);
    if !ok {
      return false, [], blocked;
    }
    chunks := TopologicalChunks(jobs);
    ghost var all := ByName(jobs);
    forall c | c in all
      ensures exists k :: InChunk(chunks, k, c)
      ensures forall j, k :: InChunk(chunks, j, c) && InChunk(chunks, k, c) ==> j == k
    {
      PlacedOnce(all, chunks, c);
    }
    forall k, job | 0 <= k < |chunks| && job in chunks[k]
      ensures job in jobs
    {
      ChunkHolds(all, chunks, k);
    }
    forall c, k | InChunk(chunks, k, c)
      ensures c in all
    {
      ChunkHolds(all, chunks, k);
    }
  }

  // ---- a container that holds a manifest ----

  /** A project that lists a package `p` and the directory `c`, a package too, that is the
      `node_modules` of `p`. */
  function Doubled(entries: seq<Entry>): FileSystem {
    map[
      "nm" := DirInfo(Some(entries), None, None),
      "p" := DirInfo(Some([]), Some(Manifest(Some("p"), None, false, [])), Some("c")),
      "c" := DirInfo(Some([]), Some(Manifest(Some("c"), None, true, [])), None)]
  }

  const P_ENTRY := Entry("p", Some("p"))
  const C_ENTRY := Entry("c", Some("c"))

  lemma DoubledIsClosed(entries: seq<Entry>)
    requires forall e :: e in entries ==> e in {P_ENTRY, C_ENTRY}
    ensures Closed(Doubled(entries)) && Doubled(entries)["nm"].listing == Some(entries)
    ensures Doubled(entries)["p"].nested == Some("c") && Doubled(entries)["p"].manifest.Some?
    ensures Doubled(entries)["c"].manifest.Some? && Doubled(entries)["c"].nested.None?
  {
    assert "nm" != "p" && "p"[0] != "c"[0] && "nm"[0] != "c"[0];
  }

  /** Where a directory is met as a container first it is never inspected; met as an entry
      first, it is: the order of listing decides whether its scripts run. */
  lemma OrderDecides(p: Policy)
    requires p.allowed("c")
    ensures var (first, last) := (Doubled([P_ENTRY, C_ENTRY]), Doubled([C_ENTRY, P_ENTRY]));
      && Closed(first) && Closed(last)
      && AfterRoots(first, p, ["nm"], NOTHING) == (Found({"nm", "p", "c"}, [], []), true)
      && AfterRoots(last, p, ["nm"], NOTHING) == (Found({"nm", "p", "c"}, [Job("c", "c", [])], []), true)
  {
    ContainerFirst(p);
    EntryFirst(p);
  }

  lemma ContainerFirst(p: Policy)
    ensures var fs := Doubled([P_ENTRY, C_ENTRY]);
      Closed(fs) && AfterRoots(fs, p, ["nm"], NOTHING) == (Found({"nm", "p", "c"}, [], []), true)
  {
    var entries := [P_ENTRY, C_ENTRY];
    var fs := Doubled(entries);
    DoubledIsClosed(entries);
    assert "p"[0] != "c"[0] && "nm"[0] != "p"[0] && "nm"[0] != "c"[0];
    var f0, f1, f2 := Found({"nm"}, [], []), Found({"nm", "p"}, [], []), Found({"nm", "p", "c"}, [], []);
    assert f0.visited + {"p"} == f1.visited && f1.visited + {"c"} == f2.visited;
    assert AfterWalk(fs, p, "c", f1) == (f2, true);
    assert AfterEntry(fs, p, P_ENTRY, f0) == (f2, true);
    assert AfterEntry(fs, p, C_ENTRY, f2) == (f2, true);
    assert entries[1..] == [C_ENTRY] && entries[1..][1..] == [];
    assert AfterEntries(fs, p, [C_ENTRY], f2) == (f2, true);
    assert AfterEntries(fs, p, entries, f0) == (f2, true);
    assert NOTHING.visited + {"nm"} == f0.visited;
  }

  lemma EntryFirst(p: Policy)
    requires p.allowed("c")
    ensures var fs := Doubled([C_ENTRY, P_ENTRY]);
      Closed(fs) && AfterRoots(fs, p, ["nm"], NOTHING) == (Found({"nm", "p", "c"}, [Job("c", "c", [])], []), true)
  {
    var entries := [C_ENTRY, P_ENTRY];
    var fs := Doubled(entries);
    DoubledIsClosed(entries);
    assert "p"[0] != "c"[0] && "nm"[0] != "p"[0] && "nm"[0] != "c"[0];
    var jobs := [Job("c", "c", [])];
    var f0, f1, f2 := Found({"nm"}, [], []), Found({"nm", "c"}, jobs, []), Found({"nm", "p", "c"}, jobs, []);
    assert f0.visited + {"c"} == f1.visited && f1.visited + {"p"} == f2.visited;
    assert Judge(p, "c", fs["c"].manifest.value) == Run(jobs[0]);
    assert JobsAfter(Run(jobs[0]), []) == jobs && fs["c"].nested.None?;
    assert AfterVisit(fs, p, "c", f0) == (f1, true);
    assert AfterWalk(fs, p, "c", f2) == (f2, true);
    assert AfterEntry(fs, p, P_ENTRY, f1) == (f2, true);
    assert entries[1..] == [P_ENTRY] && entries[1..][1..] == [];
    assert AfterEntries(fs, p, [P_ENTRY], f1) == (f2, true);
    assert AfterEntries(fs, p, entries, f0) == (f2, true);
    assert NOTHING.visited + {"nm"} == f0.visited;
  }

  lemma JudgedSome(fs: FileSystem, p: Policy, roots: seq<Dir>, visited: set<Dir>, inspected: seq<Dir>,
                   jobs: seq<Job>, blocked: seq<string>, seen: set<string>)
    requires Record(fs, p, visited, inspected, jobs, blocked, seen) && Scanned(fs, roots, visited)
    ensures OnlyJudged(fs, p, roots, jobs, blocked)
  {
    forall n | n in blocked
      ensures exists d :: Judged(ScanGraph(fs), fs, p, roots, d, Blocked(n))
    {
      var d :| d in inspected && Judge(p, d, fs[d].manifest.value) == Blocked(n);
      assert Judged(ScanGraph(fs), fs, p, roots, d, Blocked(n));
    }
  }

  lemma JudgedAll(fs: FileSystem, p: Policy, roots: seq<Dir>, visited: set<Dir>, inspected: seq<Dir>,
                  jobs: seq<Job>, blocked: seq<string>, seen: set<string>)
    requires Record(fs, p, visited, inspected, jobs, blocked, seen) && Swept(fs, p, roots, visited)
    requires forall d :: d in visited && d in fs && fs[d].manifest.Some? ==> d in inspected
    ensures AllJudged(fs, p, roots, true, jobs, blocked)
  {
    SweptIsReached(fs, p, roots, visited);
    forall n
      ensures n in blocked <==> exists d :: Judged(WalkGraph(fs), fs, p, roots, d, Blocked(n))
    {
      if n in blocked {
        var d :| d in inspected && Judge(p, d, fs[d].manifest.value) == Blocked(n);
        assert Judged(WalkGraph(fs), fs, p, roots, d, Blocked(n));
      }
    }
  }

  ghost predicate Settles(fs: FileSystem, p: Policy, visited: set<Dir>) {
    forall d :: d in visited ==> Readable(fs, p, d) && Next(fs[d]) <= visited
  }

  ghost predicate AllReached(fs: FileSystem, roots: seq<Dir>, visited: set<Dir>) {
    forall d :: d in visited ==> ReachedFrom(WalkGraph(fs), roots, d)
  }

  ghost predicate Swept(fs: FileSystem, p: Policy, roots: seq<Dir>, visited: set<Dir>) {
    (forall r :: r in roots ==> r in visited) && AllReached(fs, roots, visited) && Settles(fs, p, visited)
  }

  lemma SweepOne(fs: FileSystem, p: Policy, done: seq<Dir>, r: Dir, start: set<Dir>, after: set<Dir>)
    requires Swept(fs, p, done, start)
    requires r in after && Explored(fs, p, r, start, after, {})
    ensures Swept(fs, p, done + [r], after)
  {
    SweepReached(fs, done, r, start, after);
    SettlesOn(fs, p, r, start, after);
  }

  lemma SettlesOn(fs: FileSystem, p: Policy, r: Dir, start: set<Dir>, after: set<Dir>)
    requires Settles(fs, p, start) && Explored(fs, p, r, start, after, {})
    ensures Settles(fs, p, after)
  {
    forall d | d in after
      ensures Readable(fs, p, d) && Next(fs[d]) <= after
    {
      if d in start {
        assert Next(fs[d]) <= start;
      }
    }
  }

  lemma SweepReached(fs: FileSystem, roots: seq<Dir>, r: Dir, start: set<Dir>, after: set<Dir>)
    requires AllReached(fs, roots, start)
    requires forall d :: d in after && d !in start ==> Reaches(WalkGraph(fs), r, d)
    ensures AllReached(fs, roots + [r], after)
  {
    forall d | d in after
      ensures ReachedFrom(WalkGraph(fs), roots + [r], d)
    {
      if d in start {
        var q :| q in roots && Reaches(WalkGraph(fs), q, d);
        ReachedVia(fs, roots + [r], q, d);
      } else {
        ReachedVia(fs, roots + [r], r, d);
      }
    }
  }

  lemma ReachedVia(fs: FileSystem, roots: seq<Dir>, r: Dir, d: Dir)
    requires r in roots && Reaches(WalkGraph(fs), r, d)
    ensures ReachedFrom(WalkGraph(fs), roots, d)
  {
  }

  lemma SweptIsReached(fs: FileSystem, p: Policy, roots: seq<Dir>, visited: set<Dir>)
    requires Swept(fs, p, roots, visited)
    ensures forall d :: ReachedFrom(WalkGraph(fs), roots, d) <==> d in visited
    ensures forall d :: d in visited ==> Readable(fs, p, d)
  {
    forall d | ReachedFrom(WalkGraph(fs), roots, d)
      ensures d in visited
    {
      var r :| r in roots && Reaches(WalkGraph(fs), r, d);
      ClosedUnderReach(WalkGraph(fs), visited, r, d);
    }
  }

  /** Judging one more package: the job list and the refused names follow the verdict. */
  lemma JudgeOne(fs: FileSystem, p: Policy, visited: set<Dir>, inspected: seq<Dir>, d: Dir, jobs: seq<Job>,
                 blocked: seq<string>, seen: set<string>)
    requires Record(fs, p, visited, inspected, jobs, blocked, seen)
    requires d in visited && d in fs && fs[d].manifest.Some? && d !in inspected
    ensures var v := Judge(p, d, fs[d].manifest.value);
      Record(fs, p, visited, inspected + [d], JobsAfter(v, jobs), BlockedAfter(v, blocked), SeenAfter(v, seen))
  {
    RunOneMore(fs, p, inspected, d, jobs);
    BlockOne(fs, p, inspected, d, blocked);
  }

  lemma RunOneMore(fs: FileSystem, p: Policy, inspected: seq<Dir>, d: Dir, jobs: seq<Job>)
    requires JobsMatch(fs, p, inspected, jobs)
    requires d in fs && fs[d].manifest.Some? && d !in inspected
    ensures var v := Judge(p, d, fs[d].manifest.value);
      JobsMatch(fs, p, inspected + [d], JobsAfter(v, jobs))
  {
    var v := Judge(p, d, fs[d].manifest.value);
    NoJobAt(fs, p, inspected, d, jobs);
    if v.Run? {
      forall job
        ensures job in jobs + [v.job] <==>
          job.pkgRoot in inspected + [d] && Judge(p, job.pkgRoot, fs[job.pkgRoot].manifest.value) == Run(job)
      {
        assert job in jobs + [v.job] <==> job in jobs || job == v.job;
      }
    }
  }

  /** A directory that has not been inspected has no job yet. */
  lemma NoJobAt(fs: FileSystem, p: Policy, inspected: seq<Dir>, d: Dir, jobs: seq<Job>)
    requires JobsMatch(fs, p, inspected, jobs) && d !in inspected
    ensures forall i :: 0 <= i < |jobs| ==> jobs[i].pkgRoot != d
  {
    forall i | 0 <= i < |jobs|
      ensures jobs[i].pkgRoot != d
    {
      assert jobs[i] in jobs;
    }
  }

  lemma BlockOne(fs: FileSystem, p: Policy, inspected: seq<Dir>, d: Dir, blocked: seq<string>)
    requires BlockedMatch(fs, p, inspected, blocked)
    requires d in fs && fs[d].manifest.Some?
    ensures var v := Judge(p, d, fs[d].manifest.value);
      BlockedMatch(fs, p, inspected + [d], BlockedAfter(v, blocked))
  {
  }
}
