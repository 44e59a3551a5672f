/** Names linked to package locations: what both the entries of the shared store
    and the root of a project are made of. */
module Links {
  import opened PackageGraph
  import opened DirectoryEntries

  type Modules = map<string, FsEntry>

  ghost predicate Located(claims: map<string, PackageId>, paths: map<PackageId, string>) {
    forall n :: n in claims ==> claims[n] in paths
  }

  /** Each claimed name linked to the location of its package. */
  function LinksTo(claims: map<string, PackageId>, paths: map<PackageId, string>): (m: Modules)
    ensures m.Keys <= claims.Keys
  {
    map n | n in claims && claims[n] in paths :: Link(paths[claims[n]])
  }

  lemma LinkOneMore(base: Modules, claims: map<string, PackageId>, todo: set<string>, n: string,
                    paths: map<PackageId, string>)
    requires n in todo && n in claims && claims[n] in paths
    ensures (base + LinksTo(claims - todo, paths))[n := Link(paths[claims[n]])] ==
        base + LinksTo(claims - (todo - {n}), paths)
    ensures Located(claims - todo, paths) ==> Located(claims - (todo - {n}), paths)
  {
    forall k | k in claims - (todo - {n}) && Located(claims - todo, paths)
      ensures claims[k] in paths
    {
      assert k == n || k in claims - todo;
    }
  }
}
