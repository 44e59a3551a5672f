/** Copying a stored package, by its persisted shape or by a recursive scan
    (snpm-core/src/linker/fs/copy.rs, `copy_dir`). */
module TreeCopy {
  import opened Wrappers
  import opened Ordering
  import opened Sequences
  import opened PackageTree
  import opened TreeIndex

  /** Every directory on the way to an item is a directory of the tree. */
  ghost predicate TreeLike(tree: Flat) {
    [] !in tree && forall q :: q in tree && |q| > 1 ==> q[..|q| - 1] in tree && tree[q[..|q| - 1]] == DirItem
  }

  lemma FlattenIsTreeLike(es: seq<Entry>)
    requires WellNamed(es)
    ensures TreeLike(Flatten(es, []))
  {
    FlattenUnder(es, []);
    forall q | q in Flatten(es, []) && |q| > 1
      ensures q[..|q| - 1] in Flatten(es, []) && Flatten(es, [])[q[..|q| - 1]] == DirItem
    {
      ParentsAreDirectories(es, [], q);
    }
  }

  /** `part` agrees with `tree` wherever it has something. */
  ghost predicate PartOf(part: Flat, tree: Flat) {
    forall q :: q in part ==> q in tree && part[q] == tree[q]
  }

  ghost predicate NoLinks(tree: Flat) {
    forall q :: q in tree ==> tree[q] != LinkItem
  }

  /** A listed path, or one above it. */
  ghost predicate OnTheWay(shape: Shape, q: Path) {
    exists r :: (r in shape.directories || r in shape.files) && q <= r
  }

  /** Nothing is there but listed files and directories, and directories on the way to them. */
  ghost predicate Within(items: Flat, shape: Shape) {
    forall q :: q in items ==>
      OnTheWay(shape, q) && (items[q] == DirItem || (items[q].FileItem? && q in shape.files))
  }

  ghost predicate FilesIn(files: seq<Path>, source: Flat) {
    forall f :: f in files ==> f in source && source[f].FileItem?
  }

  /** `p` and every directory above it exist in the tree. */
  ghost predicate Directories(tree: Flat, p: Path) {
    forall k :: 0 < k <= |p| ==> p[..k] in tree && tree[p[..k]] == DirItem
  }

  ghost predicate DirsIn(ds: seq<Path>, items: Flat) {
    forall d :: d in ds ==> Directories(items, d)
  }

  /** `p` and everything above it is there. */
  ghost predicate Entered(p: Path, items: Flat) {
    forall k :: 0 < k <= |p| ==> p[..k] in items
  }

  ghost predicate AllIn(ps: seq<Path>, items: Flat) {
    forall p :: p in ps ==> Entered(p, items)
  }

  /** Nothing goes, and directories stay directories. */
  ghost predicate Grew(before: Flat, after: Flat) {
    forall q :: q in before ==> q in after && (before[q] == DirItem ==> after[q] == DirItem)
  }

  /** Every listed directory is one, every listed file is one, and every item is a listed
      file or a directory at or above a listed path. */
  ghost predicate Covers(shape: Shape, source: Flat) {
    && (forall d :: d in shape.directories ==> d == [] || (d in source && source[d] == DirItem))
    && FilesIn(shape.files, source)
    && Within(source, shape)
  }

  lemma {:induction false} AncestorsAreDirectories(tree: Flat, p: Path)
    requires TreeLike(tree) && (p == [] || (p in tree && tree[p] == DirItem))
    ensures Directories(tree, p)
    decreases |p|
  {
    if p != [] {
      var parent := p[..|p| - 1];
      AncestorsAreDirectories(tree, parent);
      assert p[..|p|] == p;
      forall k | 0 < k < |p|
        ensures p[..k] in tree && tree[p[..k]] == DirItem
      {
        assert parent[..k] == p[..k];
      }
    }
  }

  /** The destination of a copy; paths are relative to its root. */
  class Destination {
    var items: Flat

    constructor ()
      ensures items == map[]
    {
      items := map[];
    }

    /** `create_dir_all`: make the directory and every missing one above it. */
    method CreateDirAll(p: Path, ghost tree: Flat) returns (ok: bool)
      modifies this
      ensures Grew(old(items), items) && (ok ==> Directories(items, p))
      ensures PartOf(old(items), tree) && Directories(tree, p) ==> ok && PartOf(items, tree)
      ensures forall q :: q in items ==>
        (q in old(items) && items[q] == old(items)[q]) || (q <= p && items[q] == DirItem)
    {
      ok := true;
      for k := 1 to |p| + 1
        invariant Grew(old(items), items)
        invariant PartOf(old(items), tree) && Directories(tree, p) ==> PartOf(items, tree)
        invariant forall j :: 0 < j < k ==> p[..j] in items && items[p[..j]] == DirItem
        invariant forall q :: q in items ==>
          (q in old(items) && items[q] == old(items)[q]) || (q <= p && items[q] == DirItem)
      {
        if p[..k] in items && items[p[..k]] != DirItem {
          return false;
        }
        items := items[p[..k] := DirItem];
      }
    }

    method CopyFile(source: Flat, p: Path) returns (ok: bool)
      modifies this
      ensures ok <==> p in source && source[p].FileItem? && !(p in old(items) && old(items)[p] == DirItem)
      ensures items == if ok then old(items)[p := source[p]] else old(items)
    {
      ok := p in source && source[p].FileItem? && !(p in items && items[p] == DirItem);
      if ok {
        items := items[p := source[p]];
      }
    }

    /** The fast path: create the listed directories, then copy the listed files. */
    method CopyByShape(source: Flat, shape: Shape) returns (ok: bool)
      requires items == map[]
      modifies this
      ensures TreeLike(source) ==> (ok && items == source <==> Covers(shape, source))
      ensures ok ==> FilesIn(shape.files, source)
      ensures Within(items, shape)
    {
      ghost var fits := TreeLike(source) && Covers(shape, source);
      if fits {
        CoveredDirectories(shape, source);
      }
      ok := CreateListed(source, shape);
      if !ok {
        return;
      }
      ghost var made := items;
      ok := CopyListed(source, shape);
      if ok {
        DirsStay(shape.directories, made, items);
        CopiedCovers(shape, source, items);
      }
      if fits {
        EverythingCovered(shape, source, items);
      }
    }

    method CreateListed(ghost source: Flat, shape: Shape) returns (ok: bool)
      requires items == map[]
      modifies this
      ensures Within(items, shape)
      ensures ok ==> DirsIn(shape.directories, items)
      ensures DirsIn(shape.directories, source) ==> ok && PartOf(items, source)
    {
      for i := 0 to |shape.directories|
        invariant Within(items, shape) && DirsIn(shape.directories[..i], items)
        invariant DirsIn(shape.directories, source) ==> PartOf(items, source)
      {
        var p := shape.directories[i];
        ghost var before := items;
        assert p in shape.directories;
        ok := CreateDirAll(p, source);
        WithinGrows(before, items, shape, p);
        if !ok {
          return;
        }
        DirsInGrows(shape.directories, i, before, items);
      }
      assert shape.directories[..|shape.directories|] == shape.directories;
      ok := true;
    }

    method CopyListed(source: Flat, shape: Shape) returns (ok: bool)
      requires Within(items, shape)
      modifies this
      ensures Within(items, shape) && Grew(old(items), items)
      ensures ok ==> FilesIn(shape.files, source) && AllIn(shape.files, items)
      ensures TreeLike(source) && FilesIn(shape.files, source) && PartOf(old(items), source) ==>
        ok && PartOf(items, source)
    {
      ghost var fits := TreeLike(source) && FilesIn(shape.files, source) && PartOf(items, source);
      for i := 0 to |shape.files|
        invariant Within(items, shape) && Grew(old(items), items)
        invariant FilesIn(shape.files[..i], source) && AllIn(shape.files[..i], items)
        invariant fits ==> PartOf(items, source)
      {
        ghost var before := items;
        assert shape.files[i] in shape.files;
        ok := CopyInto(source, shape.files[i]);
        WithinGrows(before, items, shape, shape.files[i]);
        GrewOn(old(items), before, items);
        if !ok {
          return;
        }
        FilesInGrows(shape.files, i, source);
        AllInGrows(shape.files, i, before, items);
      }
      assert shape.files[..|shape.files|] == shape.files;
      ok := true;
    }

    /** Create the directories above a file, then copy it. */
    method CopyInto(source: Flat, file: Path) returns (ok: bool)
      modifies this
      ensures Grew(old(items), items)
      ensures forall q :: q in items ==>
        || (q in old(items) && items[q] == old(items)[q])
        || (q <= file && items[q] == DirItem)
        || (q == file && items[q].FileItem?)
      ensures ok ==> file in source && source[file].FileItem? && Entered(file, items)
      ensures TreeLike(source) && PartOf(old(items), source) && file in source && source[file].FileItem? ==>
        ok && PartOf(items, source)
    {
      ghost var fits := TreeLike(source) && PartOf(items, source) && file in source && source[file].FileItem?;
      if file != [] {
        var parent := file[..|file| - 1];
        if fits {
          AncestorsAreDirectories(source, parent);
        }
        ok := CreateDirAll(parent, source);
        if !ok {
          return;
        }
        forall k | 0 < k < |file|
          ensures file[..k] in items
        {
          assert parent[..k] == file[..k];
        }
        forall q | q in items
          ensures (q in old(items) && items[q] == old(items)[q]) || (q <= file && items[q] == DirItem)
        {
        }
      }
      ok := CopyFile(source, file);
      assert file[..|file|] == file;
    }

    /** The slow path: list every directory and copy what is in it. */
    method CopyByScan(es: seq<Entry>, at: Path) returns (ok: bool)
      requires WellNamed(es)
      modifies this
      ensures ok <==> NoLinks(Flatten(es, at))
      ensures ok ==> items == old(items) + Flatten(es, at)
      decreases es
    {
      for i := 0 to |es|
        invariant items == old(items) + Flatten(es[..i], at)
        invariant NoLinks(Flatten(es[..i], at))
      {
        PrefixWellNamed(es, i + 1);
        assert es[..i + 1][..i] == es[..i];
        ok := CopyEntry(es[i], at + [es[i].name]);
        LinksOfPrefix(es[..i + 1], at);
        if !ok {
          PrefixFlatten(es, at, i + 1);
          assert !NoLinks(Flatten(es[..i + 1], at));
          return;
        }
        Rebase(old(items), Flatten(es[..i], at), PackageTree.Below(es[i].node, at + [es[i].name]),
               at + [es[i].name], ItemOf(es[i].node));
      }
      assert es[..|es|] == es;
      ok := true;
    }

    method CopyEntry(e: Entry, p: Path) returns (ok: bool)
      requires e.node.Dir? ==> WellNamed(e.node.entries)
      modifies this
      ensures ok <==> !e.node.Symlink? && NoLinks(PackageTree.Below(e.node, p))
      ensures ok ==> items == (old(items) + Below(e.node, p))[p := ItemOf(e.node)]
      decreases e
    {
      match e.node {
        case Symlink =>
          return false;
        case File(content) =>
          items := items[p := FileItem(content)];
          assert old(items) + map[] == old(items);
          return true;
        case Dir(entries) =>
          items := items[p := DirItem];
          ok := CopyByScan(entries, p);
          FlattenUnder(entries, p);
          assert ok ==> items == (old(items) + Below(e.node, p))[p := DirItem];
      }
    }
  }

  lemma GrewOn(a: Flat, b: Flat, c: Flat)
    requires Grew(a, b) && Grew(b, c)
    ensures Grew(a, c)
  {
  }

  lemma DirsStay(ds: seq<Path>, before: Flat, after: Flat)
    requires DirsIn(ds, before) && Grew(before, after)
    ensures DirsIn(ds, after)
  {
  }

  lemma DirsInGrows(ds: seq<Path>, i: nat, before: Flat, after: Flat)
    requires i < |ds| && DirsIn(ds[..i], before) && Grew(before, after) && Directories(after, ds[i])
    ensures DirsIn(ds[..i + 1], after)
  {
    DirsStay(ds[..i], before, after);
    PrefixGrows(ds, i);
  }

  lemma AllInGrows(ps: seq<Path>, i: nat, before: Flat, after: Flat)
    requires i < |ps| && AllIn(ps[..i], before) && Grew(before, after) && Entered(ps[i], after)
    ensures AllIn(ps[..i + 1], after)
  {
    PrefixGrows(ps, i);
  }

  lemma FilesInGrows(ps: seq<Path>, i: nat, source: Flat)
    requires i < |ps| && FilesIn(ps[..i], source) && ps[i] in source && source[ps[i]].FileItem?
    ensures FilesIn(ps[..i + 1], source)
  {
    forall p | p in ps[..i + 1]
      ensures p in source && source[p].FileItem?
    {
      assert p == ps[i] || p in ps[..i];
    }
  }

  lemma WithinGrows(before: Flat, after: Flat, shape: Shape, p: Path)
    requires Within(before, shape) && (p in shape.directories || p in shape.files)
    requires forall q :: q in after ==>
      || (q in before && after[q] == before[q])
      || (q <= p && after[q] == DirItem)
      || (q == p && p in shape.files && after[q].FileItem?)
    ensures Within(after, shape)
  {
    forall q | q <= p
      ensures OnTheWay(shape, q)
    {
    }
  }

  lemma CoveredDirectories(shape: Shape, source: Flat)
    requires TreeLike(source) && Covers(shape, source)
    ensures DirsIn(shape.directories, source)
  {
    forall d | d in shape.directories
      ensures Directories(source, d)
    {
      AncestorsAreDirectories(source, d);
    }
  }

  /** A copy of everything a covering shape lists is the whole source ... */
  lemma EverythingCovered(shape: Shape, source: Flat, items: Flat)
    requires TreeLike(source) && Covers(shape, source) && PartOf(items, source)
    requires DirsIn(shape.directories, items) && AllIn(shape.files, items)
    ensures items == source
  {
    forall q | q in source
      ensures q in items
    {
      var r :| (r in shape.directories || r in shape.files) && q <= r;
      assert r[..|q|] == q && q != [];
    }
  }

  /** ... and if the copy is the whole source, the shape covers it. */
  lemma CopiedCovers(shape: Shape, source: Flat, items: Flat)
    requires DirsIn(shape.directories, items) && FilesIn(shape.files, source) && Within(items, shape)
    ensures items == source ==> Covers(shape, source)
  {
    forall d | d in shape.directories && d != []
      ensures d in items && items[d] == DirItem
    {
      assert Directories(items, d) && d[..|d|] == d;
    }
  }

  lemma ListsCovers(shape: Shape, source: Flat)
    requires Lists(shape, source)
    ensures Covers(shape, source)
  {
    forall q | q in source
      ensures OnTheWay(shape, q)
    {
      assert (q in shape.directories || q in shape.files) && q <= q;
    }
  }

  lemma PrefixWellNamed(es: seq<Entry>, n: nat)
    requires n <= |es| && WellNamed(es)
    ensures WellNamed(es[..n])
  {
  }

  lemma LinksOfPrefix(es: seq<Entry>, at: Path)
    requires es != [] && WellNamed(es)
    ensures var n := |es| - 1;
      var p := at + [es[n].name];
      NoLinks(Flatten(es, at)) <==>
        NoLinks(Flatten(es[..n], at)) && !es[n].node.Symlink? && NoLinks(Below(es[n].node, p))
  {
    var n := |es| - 1;
    var p := at + [es[n].name];
    FlattenCases(es, at, p);
    if NoLinks(Flatten(es, at)) {
      forall q | q in Flatten(es[..n], at)
        ensures Flatten(es[..n], at)[q] != LinkItem
      {
        FlattenCases(es, at, q);
      }
      forall q | q in Below(es[n].node, p)
        ensures Below(es[n].node, p)[q] != LinkItem
      {
        FlattenCases(es, at, q);
      }
    }
    if NoLinks(Flatten(es[..n], at)) && !es[n].node.Symlink? && NoLinks(Below(es[n].node, p)) {
      forall q | q in Flatten(es, at)
        ensures Flatten(es, at)[q] != LinkItem
      {
        FlattenCases(es, at, q);
      }
    }
  }

  lemma {:induction false} PrefixFlatten(es: seq<Entry>, at: Path, n: nat)
    requires n <= |es| && WellNamed(es)
    ensures forall q ::
        q in Flatten(es[..n], at) ==> q in Flatten(es, at) && Flatten(es, at)[q] == Flatten(es[..n], at)[q]
    decreases |es|
  {
    if n == |es| {
      assert es[..n] == es;
    } else {
      FrontWellNamed(es);
      assert es[..|es| - 1][..n] == es[..n];
      PrefixFlatten(es[..|es| - 1], at, n);
      forall q | q in Flatten(es[..n], at)
        ensures q in Flatten(es, at) && Flatten(es, at)[q] == Flatten(es[..n], at)[q]
      {
        FlattenCases(es, at, q);
      }
    }
  }

  lemma Rebase(base: Flat, front: Flat, below: Flat, p: Path, item: Item)
    ensures (base + front + below)[p := item] == base + (front + below)[p := item]
  {
  }

  /** Only a listed metadata file is on the way to a listed path with such a name in it. */
  lemma PrefixWithName(es: seq<Entry>, shape: Shape, q: Path, r: Path)
    requires ShapeOf(es, shape) && (r in shape.directories || r in shape.files) && q <= r && METADATA_FILE in q
    requires WellNamed(es)
    ensures q in MetadataPaths(es)
  {
    ScanMeaning(es, [], r);
    assert r[0..] == r;
    assert METADATA_FILE in r by {
      var k :| 0 <= k < |q| && q[k] == METADATA_FILE;
      assert r[k] == METADATA_FILE;
    }
    var d :| d in MetadataDirs(es) && r == d + [METADATA_FILE];
    DirVisible(es, d);
    MarkedPrefix(d, q);
  }

  lemma MarkedPrefix(d: Path, q: Path)
    requires METADATA_FILE !in d && q <= d + [METADATA_FILE] && METADATA_FILE in q
    ensures q == d + [METADATA_FILE]
  {
    var k :| 0 <= k < |q| && q[k] == METADATA_FILE;
    assert forall j :: 0 <= j < |d| ==> (d + [METADATA_FILE])[j] == d[j] && d[j] in d;
    assert k == |d|;
  }

  lemma DirVisible(es: seq<Entry>, d: Path)
    requires WellNamed(es) && d in MetadataDirs(es)
    ensures METADATA_FILE !in d
  {
    if d != [] {
      NestedMeaning(es, [], d);
      var m := d + [MANIFEST_FILE];
      ScanMeaning(es, [], m);
      assert m[0..] == m;
      assert forall x :: x in d ==> x in m;
    }
  }

  /** What `copy_dir` finds: the shape that is read from the metadata file of the root, if
      that is a file and holds one. */
  function StoredShape(source: Flat, read: string -> Option<Shape>): Option<Shape> {
    if [METADATA_FILE] in source && source[[METADATA_FILE]].FileItem? then read(source[[METADATA_FILE]].content)
    else None
  }

  /** The metadata of the root has been written: nothing is in its way and the write is done. */
  ghost predicate RootWritten(es: seq<Entry>, system: System) {
    && system([METADATA_FILE]) == Written
    && ([METADATA_FILE] in Flatten(es, []) ==> Flatten(es, [])[[METADATA_FILE]].FileItem?)
  }

  /** `copy_dir` of a stored package: by the shape where one is stored, else by a scan.  Where
      the root's metadata was written, it gives the package if and only if all metadata
      was in place and every nested metadata file is there; without a shape it gives the
      package unless there is a symlink in it. */
  method CopyDir(es: seq<Entry>, ghost qs: seq<Path>, ghost metadata: Path -> string, ghost system: System,
                 read: string -> Option<Shape>, stored: seq<Entry>, source: Flat)
    returns (copy: Option<Flat>)
    requires WellNamed(es) && !MeetsLinks(es) && MetadataOrder(es, qs) && qs != [] && qs[0] == [METADATA_FILE]
    requires WellNamed(stored) && source == Flatten(stored, []) == Persisted(es, qs, metadata, system)
    requires forall q :: q in qs[1..] ==> q != [METADATA_FILE]
    requires read(metadata([METADATA_FILE])).Some? && ShapeOf(es, read(metadata([METADATA_FILE])).value)
    ensures RootWritten(es, system) ==>
      (copy == Some(source) <==> MetadataInPlace(es) && AllThere(es, qs, system))
    ensures match StoredShape(source, read)
      case None => copy == if NoLinks(source) then Some(source) else None
      case Some(shape) =>
        && (copy == Some(source) <==> Covers(shape, source))
        && (copy.Some? ==> FilesIn(shape.files, source) && Within(copy.value, shape))
  {
    var shape := StoredShape(source, read);
    if shape.None? {
      copy := CopyScanned(stored, source);
    } else {
      FlattenIsTreeLike(stored);
      copy := CopyIndexed(source, shape.value);
    }
    if RootWritten(es, system) {
      RootIsStored(es, qs, metadata, system, source);
      InPlaceIffCovered(es, qs, metadata, system, shape.value, source);
    }
  }

  /** The indexed copy gives the package if and only if all metadata was in place and every
      metadata file is there; the scan gives it unless there is a symlink in it. */
  method CopyBothWays(es: seq<Entry>, ghost qs: seq<Path>, ghost metadata: Path -> string, ghost system: System,
                      stored: seq<Entry>, source: Flat, shape: Shape)
    returns (indexed: Option<Flat>, scanned: Option<Flat>)
    requires WellNamed(es) && !MeetsLinks(es) && MetadataOrder(es, qs) && ShapeOf(es, shape)
    requires WellNamed(stored) && source == Flatten(stored, []) == Persisted(es, qs, metadata, system)
    ensures indexed == Some(source) <==> MetadataInPlace(es) && AllThere(es, qs, system)
    ensures scanned == if NoLinks(source) then Some(source) else None
    ensures MetadataInPlace(es) && AllThere(es, qs, system) ==> indexed == scanned == Some(source)
  {
    FlattenIsTreeLike(stored);
    indexed := CopyIndexed(source, shape);
    InPlaceIffCovered(es, qs, metadata, system, shape, source);
    scanned := CopyScanned(stored, source);
  }

  /** Once written, the metadata of the root stays what was written. */
  lemma RootIsStored(es: seq<Entry>, qs: seq<Path>, metadata: Path -> string, system: System, source: Flat)
    requires qs != [] && qs[0] == [METADATA_FILE] && (forall q :: q in qs[1..] ==> q != [METADATA_FILE])
    requires RootWritten(es, system) && source == Persisted(es, qs, metadata, system)
    ensures [METADATA_FILE] in source && source[[METADATA_FILE]] == FileItem(metadata([METADATA_FILE]))
  {
    var tree := WriteFile(Flatten(es, []), qs[0], metadata(qs[0]));
    WriteAllFrame(tree, qs[1..], metadata, system, [METADATA_FILE]);
  }

  /** The shape of a stored package covers it exactly if all metadata was in place and is there. */
  lemma InPlaceIffCovered(es: seq<Entry>, qs: seq<Path>, metadata: Path -> string, system: System, shape: Shape,
                          source: Flat)
    requires WellNamed(es) && !MeetsLinks(es) && MetadataOrder(es, qs) && ShapeOf(es, shape)
    requires source == Persisted(es, qs, metadata, system)
    ensures Covers(shape, source) <==> MetadataInPlace(es) && AllThere(es, qs, system)
    ensures Covers(shape, source) ==> NoLinks(source)
  {
    ShapeListsTree(es, qs, metadata, system, shape);
    if Covers(shape, source) {
      CopiedMeansInPlace(es, qs, metadata, system, shape, source);
    }
    if Lists(shape, source) {
      ListsCovers(shape, source);
    }
  }

  lemma CopiedMeansInPlace(es: seq<Entry>, qs: seq<Path>, metadata: Path -> string, system: System, shape: Shape,
                           source: Flat)
    requires WellNamed(es) && !MeetsLinks(es) && MetadataOrder(es, qs) && ShapeOf(es, shape)
    requires source == Persisted(es, qs, metadata, system) && FilesIn(shape.files, source) && Within(source, shape)
    ensures MetadataInPlace(es) && AllThere(es, qs, system)
  {
    forall q | q in Flatten(es, []) && METADATA_FILE in q
      ensures q in MetadataPaths(es) && Flatten(es, [])[q].FileItem?
    {
      WriteAllFrame(Flatten(es, []), qs, metadata, system, q);
      var r :| (r in shape.directories || r in shape.files) && q <= r;
      PrefixWithName(es, shape, q, r);
    }
    forall q | q in qs
      ensures q in Flatten(es, []) || q in qs[..Puts(Flatten(es, []), qs, system)]
    {
      assert q in shape.files;
      WriteAllFrame(Flatten(es, []), qs, metadata, system, q);
    }
  }

  method CopyIndexed(source: Flat, shape: Shape) returns (copy: Option<Flat>)
    ensures TreeLike(source) ==> (copy == Some(source) <==> Covers(shape, source))
    ensures copy.Some? ==> FilesIn(shape.files, source) && Within(copy.value, shape)
  {
    var d := new Destination();
    var ok := d.CopyByShape(source, shape);
    copy := if ok then Some(d.items) else None;
  }

  method CopyScanned(stored: seq<Entry>, source: Flat) returns (copy: Option<Flat>)
    requires WellNamed(stored) && source == Flatten(stored, [])
    ensures copy == if NoLinks(source) then Some(source) else None
  {
    var d := new Destination();
    var ok := d.CopyByScan(stored, []);
    assert map[] + source == source;
    copy := if ok then Some(d.items) else None;
  }
}
