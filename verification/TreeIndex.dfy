/** The precomputed list of a package's directories and files
    (snpm-core/src/store/metadata.rs, `collect_package_tree_index` and
    `persist_package_metadata`). */
module TreeIndex {
  import opened Ordering
  import opened PackageTree

  const METADATA_FILE := ".snpm-package-metadata.json"
  const MANIFEST_FILE := "package.json"

  datatype Shape = Shape(directories: seq<Path>, files: seq<Path>)

  // ---- what the scan collects ----

  function DirsBelow(e: Entry, p: Path): seq<Path>
    decreases e
  {
    if e.name == METADATA_FILE || !e.node.Dir? then [] else [p] + DirsOf(e.node.entries, p)
  }

  function DirsOf(es: seq<Entry>, at: Path): seq<Path>
    decreases es
  {
    if es == [] then []
    else DirsOf(es[..|es| - 1], at) + DirsBelow(es[|es| - 1], at + [es[|es| - 1].name])
  }

  function FilesBelow(e: Entry, p: Path): seq<Path>
    decreases e
  {
    if e.name == METADATA_FILE || e.node.Symlink? then []
    else if e.node.Dir? then FilesOf(e.node.entries, p)
    else [p]
  }

  function FilesOf(es: seq<Entry>, at: Path): seq<Path>
    decreases es
  {
    if es == [] then []
    else FilesOf(es[..|es| - 1], at) + FilesBelow(es[|es| - 1], at + [es[|es| - 1].name])
  }

  /** Directories below the root that hold a manifest. */
  function NestedBelow(e: Entry, at: Path): set<Path>
    decreases e
  {
    if e.node.Dir? && e.name != METADATA_FILE then NestedOf(e.node.entries, at + [e.name])
    else if e.node.File? && e.name == MANIFEST_FILE && at != [] then {at}
    else {}
  }

  function NestedOf(es: seq<Entry>, at: Path): set<Path>
    decreases es
  {
    if es == [] then {} else NestedOf(es[..|es| - 1], at) + NestedBelow(es[|es| - 1], at)
  }

  /** A symlink the scan comes across. */
  predicate MeetsLink(e: Entry)
    decreases e
  {
    e.name != METADATA_FILE && (e.node.Symlink? || (e.node.Dir? && MeetsLinks(e.node.entries)))
  }

  predicate MeetsLinks(es: seq<Entry>)
    decreases es
  {
    es != [] && (MeetsLinks(es[..|es| - 1]) || MeetsLink(es[|es| - 1]))
  }

  class Index {
    var directories: seq<Path>
    var files: seq<Path>
    var nestedRoots: set<Path>

    constructor ()
      ensures directories == [] && files == [] && nestedRoots == {}
    {
      directories, files, nestedRoots := [], [], {};
    }

    /** Scan one directory, entries in name order. */
    method CollectDirectoryShape(es: seq<Entry>, at: Path) returns (ok: bool)
      modifies this
      ensures ok <==> !MeetsLinks(es)
      ensures ok ==> directories == old(directories) + DirsOf(es, at)
      ensures ok ==> files == old(files) + FilesOf(es, at)
      ensures ok ==> nestedRoots == old(nestedRoots) + NestedOf(es, at)
      decreases es
    {
      for i := 0 to |es|
        invariant !MeetsLinks(es[..i])
        invariant directories == old(directories) + DirsOf(es[..i], at)
        invariant files == old(files) + FilesOf(es[..i], at)
        invariant nestedRoots == old(nestedRoots) + NestedOf(es[..i], at)
      {
        assert es[..i + 1][..i] == es[..i];
        ok := CollectEntry(es[i], at);
        if !ok {
          MeetsLinksGrows(es, i + 1);
          return;
        }
      }
      assert es[..|es|] == es;
      ok := true;
    }

    method CollectEntry(e: Entry, at: Path) returns (ok: bool)
      modifies this
      ensures ok <==> !MeetsLink(e)
      ensures ok ==> directories == old(directories) + DirsBelow(e, at + [e.name])
      ensures ok ==> files == old(files) + FilesBelow(e, at + [e.name])
      ensures ok ==> nestedRoots == old(nestedRoots) + NestedBelow(e, at)
      decreases e
    {
      ok := true;
      if e.name == METADATA_FILE {
        return;
      }
      var p := at + [e.name];
      match e.node {
        case Symlink =>
          return false;
        case Dir(entries) =>
          directories := directories + [p];
          ok := CollectDirectoryShape(entries, p);
        case File(_) =>
          files := files + [p];
          if e.name == MANIFEST_FILE && at != [] {
            nestedRoots := nestedRoots + {at};
          }
      }
    }
  }

  lemma {:induction false} MeetsLinksGrows(es: seq<Entry>, i: nat)
    requires i <= |es| && MeetsLinks(es[..i])
    ensures MeetsLinks(es)
    decreases |es|
  {
    if i == |es| {
      assert es[..i] == es;
    } else {
      assert es[..|es| - 1][..i] == es[..i];
      MeetsLinksGrows(es[..|es| - 1], i);
    }
  }

  // ---- sorting ----

  ghost predicate StrictlySorted(ps: seq<Path>) {
    forall i, j :: 0 <= i < j < |ps| ==> PathLess(ps[i], ps[j])
  }

  /** Insert into a sorted list without repeats. */
  function Insert(p: Path, ps: seq<Path>): (r: seq<Path>)
    requires StrictlySorted(ps)
    ensures StrictlySorted(r)
    ensures forall q :: q in r <==> q == p || q in ps
  {
    if ps == [] then [p]
    else if ps[0] == p then ps
    else if PathLess(p, ps[0]) then
      BeforeAll(p, ps);
      [p] + ps
    else
      PathLessTotal(p, ps[0]);
      var rest := Insert(p, ps[1..]);
      AfterHead(p, ps, rest);
      [ps[0]] + rest
  }

  lemma AfterHead(p: Path, ps: seq<Path>, rest: seq<Path>)
    requires StrictlySorted(ps) && ps != [] && PathLess(ps[0], p) && StrictlySorted(rest)
    requires forall q :: q in rest <==> q == p || q in ps[1..]
    ensures StrictlySorted([ps[0]] + rest) && forall q :: q in [ps[0]] + rest <==> q == p || q in ps
  {
    forall k | 0 <= k < |rest|
      ensures PathLess(ps[0], rest[k])
    {
      if rest[k] != p {
        assert rest[k] in rest;
        var i :| 0 <= i < |ps[1..]| && ps[1..][i] == rest[k];
        assert ps[i + 1] == rest[k];
      }
    }
    assert forall q :: q in ps <==> q == ps[0] || q in ps[1..];
  }

  lemma BeforeAll(p: Path, ps: seq<Path>)
    requires StrictlySorted(ps) && ps != [] && PathLess(p, ps[0])
    ensures forall i :: 0 <= i < |ps| ==> PathLess(p, ps[i])
  {
    forall i | 0 < i < |ps|
      ensures PathLess(p, ps[i])
    {
      PathLessTransitive(p, ps[0], ps[i]);
    }
  }

  /** `sort` and `dedup`. */
  function SortedDistinct(ps: seq<Path>): (r: seq<Path>)
    ensures StrictlySorted(r)
    ensures forall q :: q in r <==> q in ps
  {
    if ps == [] then []
    else
      assert ps == ps[..|ps| - 1] + [ps[|ps| - 1]];
      Insert(ps[|ps| - 1], SortedDistinct(ps[..|ps| - 1]))
  }

  lemma SortedHoldsOnce(ps: seq<Path>, i: nat, j: nat)
    requires StrictlySorted(ps) && i < |ps| && j < |ps| && ps[i] == ps[j]
    ensures i == j
  {
    PathLessIrreflexive(ps[i]);
  }

  // ---- what the lists mean ----

  /** No component of `q` after the first `n` is a metadata file's name. */
  ghost predicate Visible(q: Path, n: nat) {
    n <= |q| && METADATA_FILE !in q[n..]
  }

  lemma VisibleBelow(at: Path, name: string, q: Path)
    requires Under(at + [name], q)
    ensures Visible(q, |at|) <==> name != METADATA_FILE && Visible(q, |at| + 1)
  {
    var p := at + [name];
    assert q[..|p|][|at|] == p[|at|] == name;
    assert q[|at|..] == [name] + q[|at| + 1..];
  }

  lemma VisibleHere(at: Path, name: string)
    ensures Visible(at + [name], |at|) <==> name != METADATA_FILE
  {
    assert (at + [name])[|at|..] == [name];
  }

  /** The scan lists exactly the visible directories, the visible files, and
      meets a symlink exactly when a visible one exists. */
  lemma {:induction false} ScanMeaning(es: seq<Entry>, at: Path, q: Path)
    requires WellNamed(es)
    ensures q in DirsOf(es, at) <==> q in Flatten(es, at) && Flatten(es, at)[q] == DirItem && Visible(q, |at|)
    ensures q in FilesOf(es, at) <==> q in Flatten(es, at) && Flatten(es, at)[q].FileItem? && Visible(q, |at|)
    ensures q in Flatten(es, at) && Flatten(es, at)[q] == LinkItem && Visible(q, |at|) ==> MeetsLinks(es)
    decreases es, 1
  {
    if es != [] {
      var n := |es| - 1;
      var p := at + [es[n].name];
      FrontWellNamed(es);
      FlattenCases(es, at, q);
      ScanMeaning(es[..n], at, q);
      EntryMeaning(es[n], at, q);
    }
  }

  /** The entry at `p` is, or contains, `item` at `q`. */
  ghost predicate Shows(e: Entry, p: Path, q: Path, item: Item) {
    (q == p && ItemOf(e.node) == item) || (q in Below(e.node, p) && Below(e.node, p)[q] == item)
  }

  ghost predicate ShowsFile(e: Entry, p: Path, q: Path) {
    (q == p && e.node.File?) || (q in Below(e.node, p) && Below(e.node, p)[q].FileItem?)
  }

  lemma {:induction false} EntryMeaning(e: Entry, at: Path, q: Path)
    requires e.node.Dir? ==> WellNamed(e.node.entries)
    ensures q in DirsBelow(e, at + [e.name]) <==> Visible(q, |at|) && Shows(e, at + [e.name], q, DirItem)
    ensures q in FilesBelow(e, at + [e.name]) <==> Visible(q, |at|) && ShowsFile(e, at + [e.name], q)
    ensures Visible(q, |at|) && Shows(e, at + [e.name], q, LinkItem) ==> MeetsLink(e)
    decreases e, 0
  {
    var p := at + [e.name];
    VisibleHere(at, e.name);
    if e.node.Dir? {
      ScanMeaning(e.node.entries, p, q);
      FlattenUnder(e.node.entries, p);
      if q in Flatten(e.node.entries, p) {
        VisibleBelow(at, e.name, q);
      }
    }
  }

  /** A scan that fails has met a symlink that is there. */
  lemma {:induction false} MeetsRealLink(es: seq<Entry>, at: Path) returns (q: Path)
    requires WellNamed(es) && MeetsLinks(es)
    ensures q in Flatten(es, at) && Flatten(es, at)[q] == LinkItem && Visible(q, |at|)
    decreases es
  {
    var n := |es| - 1;
    var p := at + [es[n].name];
    FrontWellNamed(es);
    if MeetsLinks(es[..n]) {
      q := MeetsRealLink(es[..n], at);
    } else if es[n].node.Symlink? {
      q := p;
      VisibleHere(at, es[n].name);
    } else {
      q := MeetsRealLink(es[n].node.entries, p);
      FlattenUnder(es[n].node.entries, p);
      VisibleBelow(at, es[n].name, q);
    }
    FlattenCases(es, at, q);
  }

  /** The nested roots are the directories below the root with a visible manifest. */
  lemma {:induction false} NestedMeaning(es: seq<Entry>, at: Path, d: Path)
    ensures d in NestedOf(es, at) <==> d != [] && d + [MANIFEST_FILE] in FilesOf(es, at)
    decreases es
  {
    if es != [] {
      var n := |es| - 1;
      var p := at + [es[n].name];
      NestedMeaning(es[..n], at, d);
      assert MANIFEST_FILE != METADATA_FILE by {
        assert MANIFEST_FILE[0] != METADATA_FILE[0];
      }
      if es[n].node.Dir? && es[n].name != METADATA_FILE {
        NestedMeaning(es[n].node.entries, p, d);
      } else if es[n].node.File? && es[n].name == MANIFEST_FILE {
        if d + [MANIFEST_FILE] == at + [MANIFEST_FILE] {
          assert (d + [MANIFEST_FILE])[..|d|] == d && (at + [MANIFEST_FILE])[..|at|] == at;
        }
      } else if es[n].node.File? && es[n].name != METADATA_FILE {
        assert d + [MANIFEST_FILE] != p by {
          assert (d + [MANIFEST_FILE])[|d|] == MANIFEST_FILE && p[|at|] == es[n].name;
        }
      }
    }
  }

  // ---- the persisted shape and the tree on disk afterwards ----

  /** The directories that get a metadata file: the root and every nested root. */
  function MetadataDirs(es: seq<Entry>): set<Path> {
    NestedOf(es, []) + {[]}
  }

  function MetadataPaths(es: seq<Entry>): set<Path> {
    set d | d in MetadataDirs(es) :: d + [METADATA_FILE]
  }

  method ListMetadataPaths(dirs: set<Path>, before: seq<Path>) returns (files: seq<Path>)
    ensures forall q :: q in files <==> q in before || exists d :: d in dirs && q == d + [METADATA_FILE]
  {
    files := before;
    var todo := dirs;
    while todo != {}
      invariant todo <= dirs
      invariant forall q :: q in files <==> q in before || exists d ::
          d in dirs && d !in todo && q == d + [METADATA_FILE]
    {
      var d :| d in todo;
      files := files + [d + [METADATA_FILE]];
      todo := todo - {d};
    }
  }

  /** Scan the package, add the metadata files about to be written, sort. */
  method CollectPackageTreeIndex(es: seq<Entry>) returns (ok: bool, shape: Shape, nestedRoots: set<Path>)
    ensures ok <==> !MeetsLinks(es)
    ensures ok ==> nestedRoots == NestedOf(es, [])
    ensures ok ==> StrictlySorted(shape.directories) && StrictlySorted(shape.files)
    ensures ok ==> forall q :: q in shape.directories <==> q in DirsOf(es, [])
    ensures ok ==> forall q :: q in shape.files <==> q in FilesOf(es, []) || q in MetadataPaths(es)
  {
    var index := new Index();
    ok := index.CollectDirectoryShape(es, []);
    shape, nestedRoots := Shape([], []), index.nestedRoots;
    if ok {
      var files := ListMetadataPaths({[]} + nestedRoots, index.files);
      shape := Shape(SortedDistinct(index.directories), SortedDistinct(files));
    }
  }

  /** What comes of a write where no directory is in the way: done, refused without a
      change, or broken off with part of the content in the file. */
  datatype Outcome = Written | Refused | CutShort(content: string)

  type System = Path -> Outcome

  predicate DirectoryAt(tree: Flat, q: Path) {
    q in tree && tree[q] == DirItem
  }

  /** Writing goes through a symlink of the name, which stays. */
  function WriteFile(tree: Flat, q: Path, content: string): Flat {
    if q in tree && tree[q] == LinkItem then tree else tree[q := FileItem(content)]
  }

  /** Writing the metadata files in order, up to the first write that fails; it fails on
      a directory of the name, and whenever the system says so. */
  function WriteAll(tree: Flat, qs: seq<Path>, metadata: Path -> string, system: System): (r: (Flat, bool))
    decreases |qs|
  {
    if qs == [] then (tree, true)
    else if DirectoryAt(tree, qs[0]) then (tree, false)
    else
      match system(qs[0])
      case Written => WriteAll(WriteFile(tree, qs[0], metadata(qs[0])), qs[1..], metadata, system)
      case Refused => (tree, false)
      case CutShort(content) => (WriteFile(tree, qs[0], content), false)
  }

  /** How many of the files have been put there, the last one perhaps cut short. */
  function Puts(tree: Flat, qs: seq<Path>, system: System): (n: nat)
    ensures n <= |qs|
    decreases |qs|
  {
    if qs == [] || DirectoryAt(tree, qs[0]) then 0
    else
      match system(qs[0])
      case Written => 1 + Puts(tree, qs[1..], system)
      case Refused => 0
      case CutShort(_) => 1
  }

  /** `qs` are the metadata files to write, in any order. */
  ghost predicate MetadataOrder(es: seq<Entry>, qs: seq<Path>) {
    forall q :: q in qs <==> q in MetadataPaths(es)
  }

  /** The tree on disk when `persist_package_metadata` returns, successful or not. */
  ghost function Persisted(es: seq<Entry>, qs: seq<Path>, metadata: Path -> string, system: System): Flat {
    WriteAll(Flatten(es, []), qs, metadata, system).0
  }

  /** The item is of the same kind; of the same content unless it is a file. */
  predicate SameKind(a: Item, b: Item) {
    a == b || (a.FileItem? && b.FileItem?)
  }

  lemma PutsAfterWrite(tree: Flat, q: Path, content: string, qs: seq<Path>, system: System)
    requires !DirectoryAt(tree, q)
    ensures Puts(WriteFile(tree, q, content), qs, system) == Puts(tree, qs, system)
    decreases |qs|
  {
    if qs != [] {
      assert DirectoryAt(WriteFile(tree, q, content), qs[0]) <==> DirectoryAt(tree, qs[0]);
      PutsAfterWrite(tree, q, content, qs[1..], system);
    }
  }

  /** Nothing is lost or changes its kind, only the listed paths are written, and what is
      new are exactly the files put. */
  lemma {:induction false} WriteAllFrame(tree: Flat, qs: seq<Path>, metadata: Path -> string, system: System, q: Path)
    ensures var after := WriteAll(tree, qs, metadata, system).0;
      && (q in tree ==> q in after && SameKind(tree[q], after[q]))
      && (q !in qs && q in tree ==> after[q] == tree[q])
      && (q !in tree && q in after ==> after[q].FileItem?)
      && (q in after <==> q in tree || q in qs[..Puts(tree, qs, system)])
    decreases |qs|
  {
    if qs != [] && !DirectoryAt(tree, qs[0]) {
      var n := Puts(tree, qs, system);
      match system(qs[0]) {
        case Written =>
          WriteAllFrame(WriteFile(tree, qs[0], metadata(qs[0])), qs[1..], metadata, system, q);
          PutsAfterWrite(tree, qs[0], metadata(qs[0]), qs[1..], system);
          assert qs[..n] == [qs[0]] + qs[1..][..n - 1];
        case Refused =>
        case CutShort(_) =>
          assert qs[..n] == [qs[0]];
      }
    }
  }

  /** It fails exactly when a directory has the name of a file to write, or the system
      does not do a write. */
  lemma {:induction false} WriteAllFails(tree: Flat, qs: seq<Path>, metadata: Path -> string, system: System)
    ensures WriteAll(tree, qs, metadata, system).1 <==>
      forall q :: q in qs ==> !DirectoryAt(tree, q) && system(q) == Written
    ensures WriteAll(tree, qs, metadata, system).1 ==> Puts(tree, qs, system) == |qs|
    decreases |qs|
  {
    if qs != [] && !DirectoryAt(tree, qs[0]) && system(qs[0]) == Written {
      var next := WriteFile(tree, qs[0], metadata(qs[0]));
      WriteAllFails(next, qs[1..], metadata, system);
      PutsAfterWrite(tree, qs[0], metadata(qs[0]), qs[1..], system);
      assert forall q :: DirectoryAt(tree, q) <==> DirectoryAt(next, q);
      assert forall q :: q in qs <==> q == qs[0] || q in qs[1..];
    }
  }

  method PersistMetadata(tree: Flat, qs: seq<Path>, metadata: Path -> string, system: System)
    returns (after: Flat, ok: bool)
    ensures (after, ok) == WriteAll(tree, qs, metadata, system)
  {
    after := tree;
    assert qs[0..] == qs;
    for i := 0 to |qs|
      invariant WriteAll(after, qs[i..], metadata, system) == WriteAll(tree, qs, metadata, system)
    {
      assert qs[i..][1..] == qs[i + 1..];
      if DirectoryAt(after, qs[i]) {
        return after, false;
      }
      match system(qs[i]) {
        case Written =>
          after := WriteFile(after, qs[i], metadata(qs[i]));
        case Refused =>
          return after, false;
        case CutShort(content) =>
          return WriteFile(after, qs[i], content), false;
      }
    }
    ok := true;
  }

  /** The shape lists exactly the directories and files of the tree, which
      holds nothing else. */
  ghost predicate Lists(shape: Shape, tree: Flat) {
    && (forall q :: q in shape.directories <==> q in tree && tree[q] == DirItem)
    && (forall q :: q in shape.files <==> q in tree && tree[q].FileItem?)
    && (forall q :: q in tree ==> tree[q] != LinkItem)
  }

  /** Whatever has the name of a metadata file, or lies below one, is a file where one is (re)written. */
  ghost predicate MetadataInPlace(es: seq<Entry>) {
    forall q :: q in Flatten(es, []) && METADATA_FILE in q ==> q in MetadataPaths(es) && Flatten(es, [])[q].FileItem?
  }

  /** The shape that the scan of `es` leads to. */
  ghost predicate ShapeOf(es: seq<Entry>, shape: Shape) {
    && (forall q :: q in shape.directories <==> q in DirsOf(es, []))
    && (forall q :: q in shape.files <==> q in FilesOf(es, []) || q in MetadataPaths(es))
  }

  /** Every metadata file was there before, or has been put there. */
  ghost predicate AllThere(es: seq<Entry>, qs: seq<Path>, system: System) {
    var tree := Flatten(es, []);
    forall q :: q in qs ==> q in tree || q in qs[..Puts(tree, qs, system)]
  }

  /** Off the metadata names shape and tree agree; at them the shape lists what is to be written. */
  lemma ShapeAt(es: seq<Entry>, qs: seq<Path>, metadata: Path -> string, system: System, shape: Shape, q: Path)
    requires WellNamed(es) && !MeetsLinks(es) && MetadataOrder(es, qs) && ShapeOf(es, shape)
    ensures var tree := Persisted(es, qs, metadata, system);
      if METADATA_FILE in q then q !in shape.directories && (q in shape.files <==> q in MetadataPaths(es))
      else
        && (q in shape.directories <==> q in tree && tree[q] == DirItem)
        && (q in shape.files <==> q in tree && tree[q].FileItem?)
        && (q in tree ==> tree[q] != LinkItem)
  {
    ScanMeaning(es, [], q);
    assert q[0..] == q;
    if q in MetadataPaths(es) {
      HasMetadataName(es, q);
    }
    WriteAllFrame(Flatten(es, []), qs, metadata, system, q);
    assert q in qs[..Puts(Flatten(es, []), qs, system)] ==> q in qs;
  }

  /** The persisted shape describes the tree that is on disk afterwards, whether or not
      every write succeeded, if and only if everything with the name of a metadata file is
      a file where one is written, and every such file is there. */
  lemma ShapeListsTree(es: seq<Entry>, qs: seq<Path>, metadata: Path -> string, system: System, shape: Shape)
    requires WellNamed(es) && !MeetsLinks(es) && MetadataOrder(es, qs) && ShapeOf(es, shape)
    ensures Lists(shape, Persisted(es, qs, metadata, system)) <==> MetadataInPlace(es) && AllThere(es, qs, system)
  {
    var before, tree := Flatten(es, []), Persisted(es, qs, metadata, system);
    forall q
      ensures q in qs[..Puts(before, qs, system)] ==> q in qs
    {
    }
    if MetadataInPlace(es) && AllThere(es, qs, system) {
      forall q
        ensures (q in shape.directories <==> q in tree && tree[q] == DirItem)
        ensures (q in shape.files <==> q in tree && tree[q].FileItem?)
        ensures q in tree ==> tree[q] != LinkItem
      {
        ShapeAt(es, qs, metadata, system, shape, q);
        WriteAllFrame(before, qs, metadata, system, q);
      }
    } else if !MetadataInPlace(es) {
      var q :| q in before && METADATA_FILE in q && !(q in MetadataPaths(es) && before[q].FileItem?);
      ShapeAt(es, qs, metadata, system, shape, q);
      WriteAllFrame(before, qs, metadata, system, q);
    } else {
      var q :| q in qs && q !in before && q !in qs[..Puts(before, qs, system)];
      HasMetadataName(es, q);
      ShapeAt(es, qs, metadata, system, shape, q);
      WriteAllFrame(before, qs, metadata, system, q);
    }
  }

  /** With all metadata in place and every write done, none fails and every file is there. */
  lemma InPlaceSucceeds(es: seq<Entry>, qs: seq<Path>, metadata: Path -> string, system: System)
    requires MetadataOrder(es, qs) && MetadataInPlace(es) && forall q :: q in qs ==> system(q) == Written
    ensures WriteAll(Flatten(es, []), qs, metadata, system).1 && AllThere(es, qs, system)
  {
    forall q | q in qs
      ensures !DirectoryAt(Flatten(es, []), q)
    {
      HasMetadataName(es, q);
    }
    WriteAllFails(Flatten(es, []), qs, metadata, system);
    assert qs[..|qs|] == qs;
  }

  // ---- a package where it is not in place ----

  /** A nested package that holds a directory of the metadata name. */
  function BlockedInner(): seq<Entry> {
    [Entry(MANIFEST_FILE, File("{}")), Entry(METADATA_FILE, Dir([]))]
  }

  function BlockedPackage(): seq<Entry> {
    [Entry("sub", Dir(BlockedInner()))]
  }

  const BLOCKED := ["sub", METADATA_FILE]

  lemma NamesDiffer()
    ensures MANIFEST_FILE != METADATA_FILE && "sub" != METADATA_FILE && "sub" != MANIFEST_FILE
  {
    assert MANIFEST_FILE[0] != METADATA_FILE[0] && "sub"[0] != METADATA_FILE[0] && "sub"[0] != MANIFEST_FILE[0];
  }

  lemma BlockedScan()
    ensures WellNamed(BlockedPackage()) && !MeetsLinks(BlockedPackage())
  {
    NamesDiffer();
    var inner, es := BlockedInner(), BlockedPackage();
    assert inner[..1][..0] == [] && es[..0] == [];
    assert |inner| == 2 && inner[..|inner| - 1] == inner[..1] && inner[1].name == METADATA_FILE;
    assert !MeetsLink(inner[0]) && !MeetsLink(inner[1]) && !MeetsLinks(inner[..1]);
    assert !MeetsLinks(inner);
    assert es[0].node.entries == inner && !MeetsLink(es[0]);
  }

  lemma BlockedPaths()
    ensures MetadataPaths(BlockedPackage()) == {[METADATA_FILE], BLOCKED}
  {
    NamesDiffer();
    var inner, es := BlockedInner(), BlockedPackage();
    assert inner[..1][..0] == [] && es[..0] == [] && [] + ["sub"] == ["sub"];
    assert |inner| == 2 && inner[..|inner| - 1] == inner[..1] && inner[1].name == METADATA_FILE;
    assert NestedBelow(inner[1], ["sub"]) == {} && NestedOf(inner[..1], ["sub"]) == {["sub"]};
    assert NestedOf(inner, ["sub"]) == {["sub"]};
    assert NestedOf(es, []) == {["sub"]};
    assert ["sub"] + [METADATA_FILE] == BLOCKED && [] + [METADATA_FILE] == [METADATA_FILE];
  }

  lemma BlockedIsDirectory()
    ensures BLOCKED in Flatten(BlockedPackage(), []) && Flatten(BlockedPackage(), [])[BLOCKED] == DirItem
  {
    BlockedScan();
    var inner, es := BlockedInner(), BlockedPackage();
    assert ["sub"] + [METADATA_FILE] == BLOCKED && [] + ["sub"] == ["sub"];
    assert Flatten(inner, ["sub"])[BLOCKED] == DirItem;
    FlattenCases(es, [], BLOCKED);
  }

  /** There the nested write fails, and the shape written before it lists a directory as a file. */
  lemma DirectoryInTheWay(qs: seq<Path>, metadata: Path -> string, system: System, shape: Shape)
    requires MetadataOrder(BlockedPackage(), qs) && ShapeOf(BlockedPackage(), shape)
    ensures WellNamed(BlockedPackage()) && !MeetsLinks(BlockedPackage())
    ensures !WriteAll(Flatten(BlockedPackage(), []), qs, metadata, system).1
    ensures var tree := Persisted(BlockedPackage(), qs, metadata, system);
      BLOCKED in shape.files && BLOCKED in tree && tree[BLOCKED] == DirItem && !Lists(shape, tree)
  {
    BlockedScan();
    BlockedPaths();
    BlockedIsDirectory();
    WriteAllFails(Flatten(BlockedPackage(), []), qs, metadata, system);
    WriteAllFrame(Flatten(BlockedPackage(), []), qs, metadata, system, BLOCKED);
  }

  lemma HasMetadataName(es: seq<Entry>, q: Path)
    requires q in MetadataPaths(es)
    ensures METADATA_FILE in q
  {
    var d :| d in MetadataDirs(es) && q == d + [METADATA_FILE];
    assert q[|d|] == METADATA_FILE;
  }
}
