/** The directory tree of a stored package, and the same tree as a map from
    paths to items. */
module PackageTree {
  import opened Ordering
  import opened Wrappers

  datatype Node = File(content: string) | Dir(entries: seq<Entry>) | Symlink

  datatype Entry = Entry(name: string, node: Node)

  datatype Item = FileItem(content: string) | DirItem | LinkItem

  type Flat = map<Path, Item>

  /** No directory lists a name twice. */
  ghost predicate WellNamed(es: seq<Entry>)
    decreases es
  {
    && (forall i, j :: 0 <= i < j < |es| ==> es[i].name != es[j].name)
    && (forall i :: 0 <= i < |es| && es[i].node.Dir? ==> WellNamed(es[i].node.entries))
  }

  ghost function ItemOf(node: Node): Item {
    match node
    case File(content) => FileItem(content)
    case Dir(_) => DirItem
    case Symlink => LinkItem
  }

  /** What lies strictly below an entry at path `p`. */
  ghost function Below(node: Node, p: Path): Flat
    decreases node
  {
    if node.Dir? then Flatten(node.entries, p) else map[]
  }

  /** Everything listed by `es`, a directory at path `at`. */
  ghost function Flatten(es: seq<Entry>, at: Path): Flat
    decreases es
  {
    if es == [] then map[]
    else
      var last := es[|es| - 1];
      var p := at + [last.name];
      (Flatten(es[..|es| - 1], at) + Below(last.node, p))[p := ItemOf(last.node)]
  }

  ghost predicate Under(at: Path, q: Path) {
    |at| < |q| && q[..|at|] == at
  }

  lemma {:induction false} FlattenUnder(es: seq<Entry>, at: Path)
    ensures forall q :: q in Flatten(es, at) ==> Under(at, q) && exists e :: e in es && e.name == q[|at|]
    decreases es
  {
    if es != [] {
      var n := |es| - 1;
      var last := es[n];
      var p := at + [last.name];
      FlattenUnder(es[..n], at);
      assert last in es;
      if last.node.Dir? {
        FlattenUnder(last.node.entries, p);
        forall q | q in Flatten(last.node.entries, p)
          ensures Under(at, q) && q[|at|] == last.name
        {
          assert q[..|p|] == p;
          assert q[..|at|] == p[..|at|] == at;
          assert q[|at|] == p[|at|];
        }
      }
    }
  }

  /** The last entry and the entries before it share no path. */
  lemma FlattenCases(es: seq<Entry>, at: Path, q: Path)
    requires es != [] && WellNamed(es)
    ensures var n := |es| - 1;
      var p := at + [es[n].name];
      && (q in Flatten(es, at) <==> q in Flatten(es[..n], at) || q == p || q in Below(es[n].node, p))
      && (q in Flatten(es[..n], at) ==>
          q != p && q !in Below(es[n].node, p) && Flatten(es, at)[q] == Flatten(es[..n], at)[q])
      && (q == p ==> q !in Below(es[n].node, p) && Flatten(es, at)[q] == ItemOf(es[n].node))
      && (q in Below(es[n].node, p) ==> Flatten(es, at)[q] == Below(es[n].node, p)[q])
  {
    if q in Flatten(es[..|es| - 1], at) {
      FrontHasOtherNames(es, at, q);
    }
    LastHasItsName(es, at, q);
  }

  lemma FrontHasOtherNames(es: seq<Entry>, at: Path, q: Path)
    requires es != [] && WellNamed(es) && q in Flatten(es[..|es| - 1], at)
    ensures |q| > |at| && q[|at|] != es[|es| - 1].name
  {
    var front := es[..|es| - 1];
    FlattenUnder(front, at);
    var e :| e in front && e.name == q[|at|];
    var i :| 0 <= i < |front| && front[i] == e;
    assert es[i].name != es[|es| - 1].name;
  }

  lemma LastHasItsName(es: seq<Entry>, at: Path, q: Path)
    requires es != []
    ensures var p := at + [es[|es| - 1].name];
      && (q == p ==> |q| > |at| && q[|at|] == es[|es| - 1].name)
      && (q in Below(es[|es| - 1].node, p) ==> |q| > |p| && q[|at|] == es[|es| - 1].name)
  {
    var p := at + [es[|es| - 1].name];
    if q in Below(es[|es| - 1].node, p) {
      var sub := es[|es| - 1].node.entries;
      assert q in Flatten(sub, p);
      FlattenUnder(sub, p);
      assert Under(p, q);
      assert q[..|p|][|at|] == p[|at|];
    }
  }

  lemma FrontWellNamed(es: seq<Entry>)
    requires es != [] && WellNamed(es)
    ensures WellNamed(es[..|es| - 1]) && (es[|es| - 1].node.Dir? ==> WellNamed(es[|es| - 1].node.entries))
  {
  }

  /** Whatever lies deeper than `at` lies in a directory of the tree. */
  lemma {:induction false} ParentsAreDirectories(es: seq<Entry>, at: Path, q: Path)
    requires WellNamed(es) && q in Flatten(es, at) && |q| > |at| + 1
    ensures var parent := q[..|q| - 1];
      parent in Flatten(es, at) && Flatten(es, at)[parent] == DirItem
    decreases es
  {
    var n := |es| - 1;
    var p := at + [es[n].name];
    var parent := q[..|q| - 1];
    FrontWellNamed(es);
    FlattenCases(es, at, q);
    FlattenCases(es, at, parent);
    if q in Flatten(es[..n], at) {
      ParentsAreDirectories(es[..n], at, q);
    } else if q in Below(es[n].node, p) {
      FlattenUnder(es[n].node.entries, p);
      if |q| > |p| + 1 {
        ParentsAreDirectories(es[n].node.entries, p, q);
      } else {
        assert parent == q[..|p|] == p;
      }
    }
  }

  // ---- what stands at a path ----

  /** The node found by going down the names of the path. */
  ghost function NodeAt(es: seq<Entry>, q: Path): Option<Node>
    decreases |q|, |es|
  {
    if es == [] || q == [] then None
    else
      var last := es[|es| - 1];
      if last.name != q[0] then NodeAt(es[..|es| - 1], q)
      else if |q| == 1 then Some(last.node)
      else if last.node.Dir? then NodeAt(last.node.entries, q[1..])
      else None
  }

  /** The flat tree holds at each path the kind, and for a file the content, of what is found there. */
  lemma {:induction false} FlattenMeans(es: seq<Entry>, at: Path, q: Path)
    requires WellNamed(es) && q != []
    ensures at + q in Flatten(es, at) <==> NodeAt(es, q).Some?
    ensures NodeAt(es, q).Some? ==> Flatten(es, at)[at + q] == ItemOf(NodeAt(es, q).value)
    decreases |q|, |es|
  {
    if es != [] {
      var n := |es| - 1;
      var last := es[n];
      var p := at + [last.name];
      FrontWellNamed(es);
      FlattenCases(es, at, at + q);
      LastHasItsName(es, at, at + q);
      assert (at + q)[|at|] == q[0];
      if q[0] != last.name {
        FlattenMeans(es[..n], at, q);
      } else {
        NotInFront(es, at, at + q);
        assert at + q == p + q[1..];
        if |q| == 1 {
          assert at + q == p;
        } else {
          assert |at + q| > |p|;
          if last.node.Dir? {
            FlattenMeans(last.node.entries, p, q[1..]);
          }
        }
      }
    }
  }

  lemma NotInFront(es: seq<Entry>, at: Path, q: Path)
    requires es != [] && WellNamed(es) && |q| > |at| && q[|at|] == es[|es| - 1].name
    ensures q !in Flatten(es[..|es| - 1], at)
  {
    if q in Flatten(es[..|es| - 1], at) {
      FrontHasOtherNames(es, at, q);
    }
  }
}
