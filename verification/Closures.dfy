/** What a package is wired to, unfolded into a tree, and its recursive hash. */
module Closures {
  import opened PackageGraph
  import opened Text
  import opened EntryHash

  /** A package with everything it is wired to, unfolded; `Absent` is an id
      the graph does not contain, `Again` one that was met while it was being hashed. */
  datatype Tree =
    | Absent(id: PackageId)
    | Again(id: PackageId)
    | Node(id: PackageId, tarball: string, integrity: string, deps: seq<Branch>, peers: seq<Branch>)

  datatype Branch = Branch(name: string, tree: Tree)

  predicate Below(t: Tree, bs: seq<Branch>) {
    t.Node? && (bs == t.deps || bs == t.peers)
  }

  function Records(h: Hasher, t: Tree, bs: seq<Branch>): (r: seq<Record>)
    requires Below(t, bs)
    ensures |r| == |bs|
    decreases t, 0
  {
    seq(|bs|, i requires 0 <= i < |bs| => Record(bs[i].name, bs[i].tree.id, TreeHash(h, bs[i].tree)))
  }

  function TreeStream(h: Hasher, t: Tree): string
    decreases t, 1
  {
    match t
    case Absent(id) => MissingStream(id)
    case Again(id) => CycleStream(id)
    case Node(id, tarball, integrity, deps, peers) =>
      EntryStream(id, tarball, integrity, Records(h, t, deps), Records(h, t, peers))
  }

  /** The plain recursive hash: no memo, no stack. */
  function TreeHash(h: Hasher, t: Tree): ShortHash
    decreases t, 2
  {
    h(TreeStream(h, t))
  }

  /** `s` is one of the streams hashed on the way to the hash of `t`. */
  ghost predicate IsInput(h: Hasher, t: Tree, s: string) {
    || s == TreeStream(h, t)
    || (t.Node? && exists i :: 0 <= i < |t.deps| && IsInput(h, t.deps[i].tree, s))
    || (t.Node? && exists i :: 0 <= i < |t.peers| && IsInput(h, t.peers[i].tree, s))
  }

  /** Two different streams, each hashed for one of the two closures, with one hash. */
  ghost predicate Collision(h: Hasher, t1: Tree, t2: Tree) {
    exists s1, s2 :: IsInput(h, t1, s1) && IsInput(h, t2, s2) && s1 != s2 && h(s1) == h(s2)
  }

  predicate Clean(t: Tree) {
    && CleanId(t.id)
    && (t.Node? ==>
          && Free(t.tarball, NUL) && Free(t.integrity, NUL)
          && (forall i :: 0 <= i < |t.deps| ==> Free(t.deps[i].name, NUL) && Clean(t.deps[i].tree))
          && (forall i :: 0 <= i < |t.peers| ==> Free(t.peers[i].name, NUL) && Clean(t.peers[i].tree)))
  }

  lemma RecordsClean(h: Hasher, t: Tree, bs: seq<Branch>)
    requires Below(t, bs) && Clean(t)
    ensures CleanRecords(Records(h, t, bs))
  {
  }

  /** Equal hashes mean equal closures, down to the leaves, or a collision
      among the streams that were hashed. */
  lemma {:induction false} EqualHashEqualClosure(h: Hasher, t1: Tree, t2: Tree)
    requires Clean(t1) && Clean(t2) && TreeHash(h, t1) == TreeHash(h, t2)
    ensures t1 == t2 || Collision(h, t1, t2)
    decreases t1, 1
  {
    var s1, s2 := TreeStream(h, t1), TreeStream(h, t2);
    if s1 != s2 {
      assert IsInput(h, t1, s1) && IsInput(h, t2, s2);
    } else {
      EqualStreams(h, t1, t2);
      if t1.Node? {
        EqualBranches(h, t1, t1.deps, t2, t2.deps);
        EqualBranches(h, t1, t1.peers, t2, t2.peers);
      }
    }
  }

  lemma EqualStreams(h: Hasher, t1: Tree, t2: Tree)
    requires Clean(t1) && Clean(t2) && TreeStream(h, t1) == TreeStream(h, t2)
    ensures t1.id == t2.id && (t1.Node? <==> t2.Node?) && (t1.Again? <==> t2.Again?)
    ensures t1.Node? && t2.Node? ==>
      && t1.tarball == t2.tarball && t1.integrity == t2.integrity
      && Records(h, t1, t1.deps) == Records(h, t2, t2.deps)
      && Records(h, t1, t1.peers) == Records(h, t2, t2.peers)
  {
    if t1.Node? {
      RecordsClean(h, t1, t1.deps);
      RecordsClean(h, t1, t1.peers);
    }
    if t2.Node? {
      RecordsClean(h, t2, t2.deps);
      RecordsClean(h, t2, t2.peers);
    }
    if t1.Again? || t2.Again? {
      EqualWithCycle(h, t1, t2);
    } else if t1.Node? && t2.Node? {
      EntryStreamInjective(t1.id, t1.tarball, t1.integrity, Records(h, t1, t1.deps), Records(h, t1, t1.peers),
                           t2.id, t2.tarball, t2.integrity, Records(h, t2, t2.deps), Records(h, t2, t2.peers));
    } else if t1.Node? {
      MissingIsNoEntry(t2.id, t1.id, t1.tarball, t1.integrity, Records(h, t1, t1.deps), Records(h, t1, t1.peers));
    } else if t2.Node? {
      MissingIsNoEntry(t1.id, t2.id, t2.tarball, t2.integrity, Records(h, t2, t2.deps), Records(h, t2, t2.peers));
    } else {
      MissingStreamInjective(t1.id, t2.id);
    }
  }

  /** The fields in the stream of a tree, for all but a stub. */
  function FieldsOf(h: Hasher, t: Tree): (f: seq<string>)
    requires !t.Again?
    ensures f != [] && TreeStream(h, t) == TAG + Encode(f)
  {
    if t.Absent? then IdFields(t.id)
    else EntryFields(t.id, t.tarball, t.integrity, Records(h, t, t.deps), Records(h, t, t.peers))
  }

  lemma EqualWithCycle(h: Hasher, t1: Tree, t2: Tree)
    requires Clean(t1) && Clean(t2) && TreeStream(h, t1) == TreeStream(h, t2) && (t1.Again? || t2.Again?)
    ensures t1 == t2
  {
    if t1.Again? && t2.Again? {
      CycleStreamInjective(t1.id, t2.id);
    } else if t1.Again? {
      CycleIsNoOther(t1.id, FieldsOf(h, t2));
      assert false;
    } else {
      CycleIsNoOther(t2.id, FieldsOf(h, t1));
      assert false;
    }
  }

  lemma {:induction false} EqualBranches(h: Hasher, t1: Tree, b1: seq<Branch>, t2: Tree, b2: seq<Branch>)
    requires Clean(t1) && Clean(t2) && Below(t1, b1) && Below(t2, b2)
    requires Records(h, t1, b1) == Records(h, t2, b2)
    ensures b1 == b2 || Collision(h, t1, t2)
    decreases t1, 0
  {
    assert |Records(h, t1, b1)| == |b1| && |Records(h, t2, b2)| == |b2|;
    forall i | 0 <= i < |b1|
      ensures b1[i] == b2[i] || Collision(h, t1, t2)
    {
      assert Records(h, t1, b1)[i] == Records(h, t2, b2)[i];
      EqualHashEqualClosure(h, b1[i].tree, b2[i].tree);
      if Collision(h, b1[i].tree, b2[i].tree) {
        var s1, s2 :| IsInput(h, b1[i].tree, s1) && IsInput(h, b2[i].tree, s2) && s1 != s2 && h(s1) == h(s2);
        InputOfBranch(h, t1, b1, i, s1);
        InputOfBranch(h, t2, b2, i, s2);
      }
    }
  }

  lemma InputOfBranch(h: Hasher, t: Tree, bs: seq<Branch>, i: nat, s: string)
    requires Below(t, bs) && i < |bs| && IsInput(h, bs[i].tree, s)
    ensures IsInput(h, t, s)
  {
  }
}
