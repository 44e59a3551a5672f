/** Convergence of a project's root `node_modules` (snpm-core/src/linker/mod.rs,
    root.rs and hoist.rs): prune what is stale, link the root dependencies,
    hoist. */
module RootLinks {
  import opened Wrappers
  import opened PackageGraph
  import opened DirectoryEntries
  import opened Links
  import opened SharedStore
  import opened Text
  import opened Sequences

  datatype HoistingMode = NoHoisting | SingleVersion | All

  /** A symlink into one of the virtual-store directories. */
  predicate IsStoreLink(inStore: string -> bool, e: FsEntry) {
    e.Link? && inStore(e.target)
  }

  // ---- hoisting ----

  /** The package hoisted to `name`, if any: the only one of the name, or the
      first one in key order. */
  function HoistedId(mode: HoistingMode, order: seq<PackageId>, name: string): Option<PackageId> {
    var ids := Named(order, name);
    match mode
    case NoHoisting => None
    case SingleVersion => if |ids| == 1 then Some(ids[0]) else None
    case All => if |ids| > 0 then Some(ids[0]) else None
  }

  lemma HoistedIsNamed(mode: HoistingMode, order: seq<PackageId>, name: string)
    requires HoistedId(mode, order, name).Some?
    ensures HoistedId(mode, order, name).value in order && HoistedId(mode, order, name).value.name == name
  {
    assert Named(order, name)[0] in Named(order, name);
  }

  /** `id` is the first in order to have the name. */
  ghost predicate FirstNamed(order: seq<PackageId>, name: string, id: PackageId) {
    id.name == name && exists i :: FirstAt(order, name, id, i)
  }

  ghost predicate FirstAt(order: seq<PackageId>, name: string, id: PackageId, i: int) {
    0 <= i < |order| && order[i] == id && forall j :: 0 <= j < i ==> order[j].name != name
  }

  lemma {:induction false} NamedFirst(order: seq<PackageId>, name: string)
    ensures Named(order, name) == [] <==> forall id :: id in order ==> id.name != name
    ensures Named(order, name) != [] ==> FirstNamed(order, name, Named(order, name)[0])
    decreases |order|
  {
    if order != [] {
      var front, last := order[..|order| - 1], order[|order| - 1];
      assert order == front + [last];
      NamedFirst(front, name);
      if Named(front, name) != [] {
        var id := Named(front, name)[0];
        var i :| FirstAt(front, name, id, i);
        assert FirstAt(order, name, id, i);
      } else if last.name == name {
        assert forall j :: 0 <= j < |front| ==> order[j] in front;
        assert FirstAt(order, name, last, |front|);
      }
    }
  }

  ghost function Places(order: seq<PackageId>, name: string): set<int> {
    set i | 0 <= i < |order| && order[i].name == name
  }

  /** How many ids have the name. */
  ghost function Bearers(order: seq<PackageId>, name: string): nat {
    |Places(order, name)|
  }

  lemma OnePlaceMore(order: seq<PackageId>, name: string)
    requires order != []
    ensures var n := |order| - 1;
      Bearers(order, name) == Bearers(order[..n], name) + if order[n].name == name then 1 else 0
  {
    var n := |order| - 1;
    var before := Places(order[..n], name);
    assert n !in before;
    assert Places(order, name) == if order[n].name == name then before + {n} else before;
  }

  lemma NamedUnfolds(order: seq<PackageId>, name: string)
    requires order != []
    ensures var n := |order| - 1;
      |Named(order, name)| == |Named(order[..n], name)| + if order[n].name == name then 1 else 0
  {
  }

  lemma {:induction false} NamedCount(order: seq<PackageId>, name: string)
    ensures |Named(order, name)| == Bearers(order, name)
    decreases |order|
  {
    if order != [] {
      var n := |order| - 1;
      NamedCount(order[..n], name);
      OnePlaceMore(order, name);
      NamedUnfolds(order, name);
    } else {
      assert Places(order, name) == {};
    }
  }

  /** What is hoisted to a name: nothing, in one mode the only package of the name, in the
      other the first one in key order. */
  lemma HoistedMeans(mode: HoistingMode, order: seq<PackageId>, name: string, id: PackageId)
    ensures HoistedId(mode, order, name) == Some(id) <==>
      || (mode == SingleVersion && FirstNamed(order, name, id) && Bearers(order, name) == 1)
      || (mode == All && FirstNamed(order, name, id))
  {
    NamedFirst(order, name);
    NamedCount(order, name);
    if FirstNamed(order, name, id) {
      assert id in order && id.name == name;
      assert Named(order, name) != [];
      OneFirst(order, name, id, Named(order, name)[0]);
    }
  }

  lemma OneFirst(order: seq<PackageId>, name: string, a: PackageId, b: PackageId)
    requires FirstNamed(order, name, a) && FirstNamed(order, name, b)
    ensures a == b
  {
    var i :| FirstAt(order, name, a, i);
    var k :| FirstAt(order, name, b, k);
    assert i == k;
  }

  function NamesOf(order: seq<PackageId>): set<string> {
    set id | id in order :: id.name
  }

  function Hoisted(mode: HoistingMode, order: seq<PackageId>): (m: map<string, PackageId>)
    ensures forall n :: n in m <==> HoistedId(mode, order, n).Some?
    ensures forall n :: n in m ==> m[n] == HoistedId(mode, order, n).value
  {
    assert forall n :: HoistedId(mode, order, n).Some? ==> n in NamesOf(order) by {
      forall n | HoistedId(mode, order, n).Some?
        ensures n in NamesOf(order)
      {
        HoistedIsNamed(mode, order, n);
      }
    }
    map n | n in NamesOf(order) && HoistedId(mode, order, n).Some? :: HoistedId(mode, order, n).value
  }

  // ---- the specification of one link call ----

  /** The entries that are not links into a virtual store. */
  function UserEntries(inStore: string -> bool, m: Modules): Modules {
    map n | n in m && !IsStoreLink(inStore, m[n]) :: m[n]
  }

  function StoreLinks(inStore: string -> bool, m: Modules): Modules {
    map n | n in m && IsStoreLink(inStore, m[n]) :: m[n]
  }

  /** What a successful call leaves: the user's entries, overlaid with the root
      dependencies, overlaid with what is hoisted. */
  function Converged(inStore: string -> bool, before: Modules, roots: map<string, PackageId>,
                     hoisted: map<string, PackageId>, paths: map<PackageId, string>): Modules {
    UserEntries(inStore, before) + LinksTo(roots, paths) + LinksTo(hoisted, paths)
  }

  // ---- the calls ----

  class RootModules {
    const inStore: string -> bool
    var entries: Modules

    constructor (inStore: string -> bool, entries: Modules)
      ensures this.inStore == inStore && this.entries == entries
    {
      this.inStore, this.entries := inStore, entries;
    }

    /** Remove the links into a virtual store whose names are not kept. */
    method PruneStaleRootEntries(keep: set<string>)
      modifies this
      ensures entries == map n | n in old(entries) && (n in keep || !IsStoreLink(inStore, old(entries)[n])) ::
          old(entries)[n]
    {
      var todo := entries.Keys;
      ghost var start := entries;
      while todo != {}
        invariant todo <= start.Keys
        invariant entries == map n | n in start && (n in todo || n in keep || !IsStoreLink(inStore, start[n])) ::
            start[n]
      {
        var name :| name in todo;
        PruneEntryIfStale(name, keep);
        todo := todo - {name};
      }
    }

    method PruneEntryIfStale(name: string, keep: set<string>)
      requires name in entries
      modifies this
      ensures entries ==
        if name in keep || !IsStoreLink(inStore, old(entries)[name]) then old(entries) else old(entries) - {name}
    {
      if name in keep || !entries[name].Link? {
        return;
      }
      if inStore(entries[name].target) {
        entries := entries - {name};
      }
    }

    /** Link every claimed name, replacing whatever else is there.  Stops at
        the first package without a location. */
    method LinkAll(claims: map<string, PackageId>, paths: map<PackageId, string>) returns (ok: bool)
      modifies this
      ensures ok <==> Located(claims, paths)
      ensures ok ==> entries == old(entries) + LinksTo(claims, paths)
      ensures forall n ::
          n !in claims ==> (n in entries <==> n in old(entries)) && (n in entries ==> entries[n] == old(entries)[n])
    {
      var todo := claims.Keys;
      ghost var start := entries;
      while todo != {}
        invariant todo <= claims.Keys
        invariant Located(claims - todo, paths)
        invariant entries == start + LinksTo(claims - todo, paths)
      {
        var name :| name in todo;
        if claims[name] !in paths {
          return false;
        }
        LinkOneMore(start, claims, todo, name, paths);
        LinkPackage(name, paths[claims[name]]);
        todo := todo - {name};
      }
      assert claims - {} == claims;
      ok := true;
    }

    method LinkPackage(name: string, target: string)
      modifies this
      ensures entries == old(entries)[name := Link(target)]
    {
      if name in entries && entries[name] == Link(target) {
        return;
      }
      entries := entries - {name};
      entries := entries[name := Link(target)];
    }

    /** One install: prune, link the root dependencies, hoist. */
    method LinkProject(roots: map<string, PackageId>, mode: HoistingMode, order: seq<PackageId>,
                       paths: map<PackageId, string>)
      returns (ok: bool)
      modifies this
      ensures ok <==> Located(roots, paths) && Located(Hoisted(mode, order), paths)
      ensures ok ==> entries == Converged(inStore, old(entries), roots, Hoisted(mode, order), paths)
      ensures KeptOff(inStore, roots.Keys + Hoisted(mode, order).Keys, old(entries), entries)
    {
      ghost var before := entries;
      PruneStaleRootEntries(roots.Keys);
      ghost var pruned := entries;
      ok := LinkAll(roots, paths);
      if !ok {
        return;
      }
      PruneThenLink(inStore, before, pruned, roots, paths);
      if mode.NoHoisting? {
        assert Hoisted(mode, order) == map[];
        return;
      }
      ok := LinkAll(Hoisted(mode, order), paths);
    }
  }

  /** The user's entries at other names than `claimed` are as they were. */
  ghost predicate KeptOff(inStore: string -> bool, claimed: set<string>, before: Modules, after: Modules) {
    forall n :: n in before && !IsStoreLink(inStore, before[n]) && n !in claimed ==> n in after && after[n] == before[n]
  }

  /** Run one install on what is there. */
  method RunInstall(inStore: string -> bool, before: Modules, i: Install) returns (ok: bool, after: Modules)
    requires PathsInStore(inStore, i.paths)
    ensures ok <==> InstallLocated(i)
    ensures ok ==> LinkedBy(inStore, i, after)
    ensures KeptOff(inStore, Claimed(i), before, after)
  {
    var modules := new RootModules(inStore, before);
    ok := modules.LinkProject(i.roots, i.mode, i.order, i.paths);
    after := modules.entries;
    if ok {
      StoreLinksDependOnCallOnly(inStore, before, i.roots, Hoisted(i.mode, i.order), i.paths);
    }
  }

  /** Keeping the links that are about to be rewritten makes no difference. */
  lemma PruneThenLink(inStore: string -> bool, before: Modules, pruned: Modules, roots: map<string, PackageId>,
                      paths: map<PackageId, string>)
    requires Located(roots, paths)
    requires pruned == map n | n in before && (n in roots.Keys || !IsStoreLink(inStore, before[n])) :: before[n]
    ensures pruned + LinksTo(roots, paths) == UserEntries(inStore, before) + LinksTo(roots, paths)
  {
  }

  // ---- what convergence means ----

  ghost predicate PathsInStore(inStore: string -> bool, paths: map<PackageId, string>) {
    forall id :: id in paths ==> inStore(paths[id])
  }

  /** The links into the store afterwards depend only on the call, not on what
      was there before: the old ones are gone, the claimed ones are there. */
  lemma StoreLinksDependOnCallOnly(inStore: string -> bool, before: Modules, roots: map<string, PackageId>,
                                   hoisted: map<string, PackageId>, paths: map<PackageId, string>)
    requires PathsInStore(inStore, paths)
    ensures StoreLinks(inStore, Converged(inStore, before, roots, hoisted, paths)) ==
        LinksTo(roots, paths) + LinksTo(hoisted, paths)
  {
    var claims := LinksTo(roots, paths) + LinksTo(hoisted, paths);
    var user := UserEntries(inStore, before);
    OverlayTwice(user, LinksTo(roots, paths), LinksTo(hoisted, paths));
    ClaimsAreStoreLinks(inStore, roots, paths);
    ClaimsAreStoreLinks(inStore, hoisted, paths);
    LinksOverUser(inStore, user, claims);
  }

  lemma OverlayTwice(a: Modules, b: Modules, c: Modules)
    ensures a + b + c == a + (b + c)
  {
  }

  ghost predicate AllStoreLinks(inStore: string -> bool, m: Modules) {
    forall n :: n in m ==> IsStoreLink(inStore, m[n])
  }

  lemma ClaimsAreStoreLinks(inStore: string -> bool, claims: map<string, PackageId>, paths: map<PackageId, string>)
    requires PathsInStore(inStore, paths)
    ensures AllStoreLinks(inStore, LinksTo(claims, paths))
  {
  }

  lemma LinksOverUser(inStore: string -> bool, user: Modules, claims: Modules)
    requires AllStoreLinks(inStore, claims) && forall n :: n in user ==> !IsStoreLink(inStore, user[n])
    ensures StoreLinks(inStore, user + claims) == claims
  {
    forall n | n in user + claims
      ensures IsStoreLink(inStore, (user + claims)[n]) <==> n in claims
    {
    }
  }

  ghost predicate Distinct(order: seq<PackageId>) {
    forall i, j :: 0 <= i < j < |order| ==> order[i] != order[j]
  }

  /** The paths handed to the linker: every package of the graph at its place in the project's view. */
  ghost predicate ProjectView(store: string, paths: map<PackageId, string>) {
    forall id :: id in paths ==> paths[id] == LocalLocation(store, id) && Free(id.version, '/')
  }

  /** Hoisting leaves the link of a root dependency alone exactly when nothing
      else is hoisted to its name. */
  lemma RootLinkSurvivesIff(inStore: string -> bool, before: Modules, roots: map<string, PackageId>, mode: HoistingMode,
                            order: seq<PackageId>, store: string, paths: map<PackageId, string>, n: string)
    requires Located(roots, paths) && Located(Hoisted(mode, order), paths) && n in roots
    requires ProjectView(store, paths)
    ensures var after := Converged(inStore, before, roots, Hoisted(mode, order), paths);
      after[n] == Link(paths[roots[n]]) <==> HoistedId(mode, order, n) in {None, Some(roots[n])}
  {
    var hoisted := HoistedId(mode, order, n);
    if hoisted.Some? && paths[hoisted.value] == paths[roots[n]] {
      LocalLocationInjective(store, hoisted.value, roots[n]);
    }
  }

  /** In single-version mode a root dependency under its own name is safe; one
      under an alias is lost exactly when a single package of the graph really
      has that name. */
  lemma SingleVersionKeepsOwnNames(order: seq<PackageId>, id: PackageId, n: string)
    requires Distinct(order) && id in order
    ensures id.name == n ==> HoistedId(SingleVersion, order, n) in {None, Some(id)}
    ensures id.name != n ==> (HoistedId(SingleVersion, order, n) in {None, Some(id)} <==> |Named(order, n)| != 1)
  {
    if id.name == n && |Named(order, n)| == 1 {
      assert id in Named(order, n);
    }
    if id.name != n && |Named(order, n)| == 1 {
      assert Named(order, n)[0] in Named(order, n);
    }
  }

  function X(): PackageId { PackageId("x", "1.0.0") }

  function Y(): PackageId { PackageId("y", "1.0.0") }

  lemma NamedOfTwo()
    ensures X() != Y() && Named([X(), Y()], "x") == [X()] && Named([X(), Y()], "y") == [Y()]
  {
    assert "x"[0] != "y"[0];
    var order := [X(), Y()];
    assert order[..|order| - 1] == [X()] && [X()][..0] == [];
    assert Named([X()], "y") == [] && Named([X()], "x") == [X()];
  }

  /** What stands at a name after a successful call: what is hoisted to it, or else the root
      dependency, or else what the user had there. */
  lemma WhatIsThere(inStore: string -> bool, before: Modules, roots: map<string, PackageId>, mode: HoistingMode,
                    order: seq<PackageId>, paths: map<PackageId, string>, n: string)
    requires Located(roots, paths) && Located(Hoisted(mode, order), paths)
    ensures var after := Converged(inStore, before, roots, Hoisted(mode, order), paths);
      match HoistedId(mode, order, n)
      case Some(id) => id in paths && n in after && after[n] == Link(paths[id])
      case None =>
        if n in roots then n in after && after[n] == Link(paths[roots[n]])
        else
          && (n in after <==> n in before && !(before[n].Link? && inStore(before[n].target)))
          && (n in after ==> after[n] == before[n])
  {
  }

  /** A root dependency on `x` under the alias `y`, where a single package really is named
      `y`: hoisting puts that package in its place. */
  lemma AliasLosesItsLink(inStore: string -> bool, before: Modules, store: string)
    ensures var roots, order := map["y" := X()], [X(), Y()];
      var paths := map[X() := LocalLocation(store, X()), Y() := LocalLocation(store, Y())];
      && Distinct(order) && ProjectView(store, paths)
      && Located(roots, paths) && Located(Hoisted(SingleVersion, order), paths)
      && var after := Converged(inStore, before, roots, Hoisted(SingleVersion, order), paths);
         "y" in after && after["y"] != Link(paths[roots["y"]])
  {
    NamedOfTwo();
    var roots, order := map["y" := X()], [X(), Y()];
    var paths := map[X() := LocalLocation(store, X()), Y() := LocalLocation(store, Y())];
    assert Free("1.0.0", '/');
    assert HoistedId(SingleVersion, order, "y") == Some(Y());
    forall n | n in Hoisted(SingleVersion, order)
      ensures Hoisted(SingleVersion, order)[n] in order
    {
      HoistedIsNamed(SingleVersion, order, n);
    }
    RootLinkSurvivesIff(inStore, before, roots, SingleVersion, order, store, paths, "y");
  }

  datatype Install = Install(roots: map<string, PackageId>, mode: HoistingMode, order: seq<PackageId>,
                             paths: map<PackageId, string>)

  function Claimed(i: Install): set<string> {
    i.roots.Keys + Hoisted(i.mode, i.order).Keys
  }

  ghost predicate Unclaimed(installs: seq<Install>, n: string) {
    forall i :: 0 <= i < |installs| ==> n !in Claimed(installs[i])
  }

  /** The store links are exactly those the install asks for. */
  ghost predicate LinkedBy(inStore: string -> bool, i: Install, m: Modules) {
    StoreLinks(inStore, m) == LinksTo(i.roots, i.paths) + LinksTo(Hoisted(i.mode, i.order), i.paths)
  }

  /** The user's entries at names no install claimed are as they were. */
  ghost predicate UserKept(inStore: string -> bool, start: Modules, installs: seq<Install>, m: Modules) {
    forall n :: n in start && !IsStoreLink(inStore, start[n]) && Unclaimed(installs, n) ==> n in m && m[n] == start[n]
  }

  /** After any sequence of installs, failed ones included, what the user put at names no
      install claimed is still there; and if the last one succeeded, the store links are its own. */
  method InstallAll(inStore: string -> bool, start: Modules, installs: seq<Install>)
    returns (oks: seq<bool>, after: Modules)
    requires forall i :: 0 <= i < |installs| ==> PathsInStore(inStore, installs[i].paths)
    ensures InstallsDone(inStore, start, installs, oks, after)
  {
    oks, after := [], start;
    for k := 0 to |installs|
      invariant InstallsDone(inStore, start, installs[..k], oks, after)
    {
      var ok, next := RunInstall(inStore, after, installs[k]);
      OneInstallMore(inStore, start, installs[..k], oks, after, installs[k], ok, next);
      PrefixGrows(installs, k);
      oks, after := oks + [ok], next;
    }
    assert installs[..|installs|] == installs;
  }

  /** What holds after the installs: exactly those with every location succeeded, the user's entries
      are kept, and the store links are those of the last one if it succeeded. */
  ghost predicate InstallsDone(inStore: string -> bool, start: Modules, installs: seq<Install>, oks: seq<bool>,
                               after: Modules) {
    && |oks| == |installs|
    && (forall i :: 0 <= i < |installs| ==> (oks[i] <==> InstallLocated(installs[i])))
    && (installs != [] && oks[|installs| - 1] ==> LinkedBy(inStore, installs[|installs| - 1], after))
    && UserKept(inStore, start, installs, after)
  }

  lemma OneInstallMore(inStore: string -> bool, start: Modules, done: seq<Install>, oks: seq<bool>, before: Modules,
                       i: Install, ok: bool, after: Modules)
    requires InstallsDone(inStore, start, done, oks, before)
    requires ok <==> InstallLocated(i)
    requires (ok ==> LinkedBy(inStore, i, after)) && KeptOff(inStore, Claimed(i), before, after)
    ensures InstallsDone(inStore, start, done + [i], oks + [ok], after)
  {
    InstallKeepsUser(inStore, start, done, i, before, after);
  }

  /** Every package the install claims a name for has a location. */
  ghost predicate InstallLocated(i: Install) {
    Located(i.roots, i.paths) && Located(Hoisted(i.mode, i.order), i.paths)
  }

  lemma InstallKeepsUser(inStore: string -> bool, start: Modules, done: seq<Install>, i: Install, before: Modules,
                         after: Modules)
    requires UserKept(inStore, start, done, before) && KeptOff(inStore, Claimed(i), before, after)
    ensures UserKept(inStore, start, done + [i], after)
  {
    forall n | n in start && !IsStoreLink(inStore, start[n]) && Unclaimed(done + [i], n)
      ensures n in after && after[n] == start[n]
    {
      UnclaimedSoFar(done, i, n);
    }
  }

  lemma UnclaimedSoFar(done: seq<Install>, i: Install, n: string)
    requires Unclaimed(done + [i], n)
    ensures Unclaimed(done, n) && n !in Claimed(i)
  {
    var all := done + [i];
    assert all[|done|] == i;
    assert forall k :: 0 <= k < |done| ==> all[k] == done[k];
  }
}
