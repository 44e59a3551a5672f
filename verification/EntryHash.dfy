/** Identity of shared virtual-store entries: the byte stream fed to the hasher,
    the recursive hash of a package's closure, and the location it names
    (snpm-core/src/linker/virtual_store.rs, lines 694-858). */
module EntryHash {
  import opened PackageGraph
  import opened Text

  predicate IsHex(c: char) {
    '0' <= c <= '9' || 'a' <= c <= 'f'
  }

  lemma HexDigitsAre(c: char)
    ensures IsHex(c) <==> c in "0123456789abcdef"
  {
  }

  /** The first sixteen hex digits of a digest. */
  type ShortHash = s: string | |s| == 16 && forall c :: c in s ==> IsHex(c) witness "0000000000000000"

  /** The digest of a finished stream, shortened; nothing else is known of it. */
  type Hasher = string -> ShortHash

  const NUL: char := '\0'
  const TAG := "snpm-global-virtual-store-v2"
  const PEER := "peer"
  const CYCLE := "cycle"

  // ---- NUL-terminated fields ----

  function Encode(fields: seq<string>): string {
    if fields == [] then [] else fields[0] + [NUL] + Encode(fields[1..])
  }

  function Decode(s: string): seq<string> {
    if s == [] then []
    else
      var i := Cut(s, NUL);
      if i == |s| then [s] else [s[..i]] + Decode(s[i + 1..])
  }

  /** Decoding gives the fields back, so distinct field lists have distinct encodings. */
  lemma {:induction false} DecodeEncode(fields: seq<string>)
    requires forall f :: f in fields ==> Free(f, NUL)
    ensures Decode(Encode(fields)) == fields
  {
    if fields != [] {
      assert forall f :: f in fields[1..] ==> f in fields;
      DecodeEncode(fields[1..]);
      DecodeStep(fields[0], Encode(fields[1..]));
      assert fields == [fields[0]] + fields[1..];
    }
  }

  lemma DecodeStep(field: string, rest: string)
    requires Free(field, NUL)
    ensures Decode(field + [NUL] + rest) == [field] + Decode(rest)
  {
    CutAtFirst(field, NUL, rest);
  }

  lemma {:induction false} EncodeConcat(a: seq<string>, b: seq<string>)
    ensures Encode(a + b) == Encode(a) + Encode(b)
  {
    if a == [] {
      assert a + b == b;
    } else {
      assert (a + b)[1..] == a[1..] + b;
      EncodeConcat(a[1..], b);
    }
  }

  // ---- dependency and peer records ----

  /** What one edge adds to the stream: its name, its target and the target's hash. */
  datatype Record = Record(name: string, id: PackageId, hash: ShortHash)

  function DepField(r: Record, k: int): string {
    if k == 0 then r.name else if k == 1 then r.id.name else if k == 2 then r.id.version else r.hash
  }

  function PeerField(r: Record, k: int): string {
    if k == 0 then PEER else DepField(r, k - 1)
  }

  /** Four fields a dependency. */
  function DepFields(records: seq<Record>): (f: seq<string>)
    ensures |f| == 4 * |records|
  {
    seq(4 * |records|, k requires 0 <= k < 4 * |records| => DepField(records[k / 4], k % 4))
  }

  /** Five fields a peer, the first of them the tag. */
  function PeerFields(records: seq<Record>): (f: seq<string>)
    ensures |f| == 5 * |records|
  {
    seq(5 * |records|, k requires 0 <= k < 5 * |records| => PeerField(records[k / 5], k % 5))
  }

  lemma DepFieldsAt(records: seq<Record>, i: nat, k: nat)
    requires i < |records| && k < 4
    ensures DepFields(records)[4 * i + k] == DepField(records[i], k)
  {
    assert (4 * i + k) / 4 == i && (4 * i + k) % 4 == k;
  }

  lemma PeerFieldsAt(records: seq<Record>, i: nat, k: nat)
    requires i < |records| && k < 5
    ensures PeerFields(records)[5 * i + k] == PeerField(records[i], k)
  {
    assert (5 * i + k) / 5 == i && (5 * i + k) % 5 == k;
  }

  lemma DepFieldsGrow(records: seq<Record>, r: Record)
    ensures DepFields(records + [r]) == DepFields(records) + [r.name, r.id.name, r.id.version, r.hash]
  {
    var longer := DepFields(records + [r]);
    var tail := [r.name, r.id.name, r.id.version, r.hash];
    forall k | 0 <= k < |longer|
      ensures longer[k] == (DepFields(records) + tail)[k]
    {
      if k >= 4 * |records| {
        DepFieldsAt(records + [r], |records|, k - 4 * |records|);
      }
    }
  }

  lemma PeerFieldsGrow(records: seq<Record>, r: Record)
    ensures PeerFields(records + [r]) == PeerFields(records) + [PEER, r.name, r.id.name, r.id.version, r.hash]
  {
    var longer := PeerFields(records + [r]);
    var tail := [PEER, r.name, r.id.name, r.id.version, r.hash];
    forall k | 0 <= k < |longer|
      ensures longer[k] == (PeerFields(records) + tail)[k]
    {
      if k >= 5 * |records| {
        PeerFieldsAt(records + [r], |records|, k - 5 * |records|);
      }
    }
  }

  lemma DepFieldsInjective(a: seq<Record>, b: seq<Record>)
    requires DepFields(a) == DepFields(b)
    ensures a == b
  {
    assert 4 * |a| == 4 * |b|;
    forall i | 0 <= i < |a|
      ensures a[i] == b[i]
    {
      forall k: nat | k < 4
        ensures DepField(a[i], k) == DepField(b[i], k)
      {
        DepFieldsAt(a, i, k);
        DepFieldsAt(b, i, k);
      }
      SameRecord(a[i], b[i]);
    }
  }

  lemma SameRecord(a: Record, b: Record)
    requires forall k: nat :: k < 4 ==> DepField(a, k) == DepField(b, k)
    ensures a == b
  {
    assert DepField(a, 0) == DepField(b, 0) && DepField(a, 1) == DepField(b, 1);
    assert DepField(a, 2) == DepField(b, 2) && DepField(a, 3) == DepField(b, 3);
  }

  lemma PeerFieldsInjective(a: seq<Record>, b: seq<Record>)
    requires PeerFields(a) == PeerFields(b)
    ensures a == b
  {
    assert 5 * |a| == 5 * |b|;
    forall i | 0 <= i < |a|
      ensures a[i] == b[i]
    {
      forall k: nat | k < 4
        ensures DepField(a[i], k) == DepField(b[i], k)
      {
        PeerFieldsAt(a, i, k + 1);
        PeerFieldsAt(b, i, k + 1);
      }
      SameRecord(a[i], b[i]);
    }
  }

  /** The dependency list and the peer list can be told apart in the fields,
      although neither is preceded by its length and a dependency may itself
      be called "peer": if the split were ambiguous, the tag of the fourth
      peer record would have to be a sixteen-digit hash. */
  lemma RecordsInjective(d1: seq<Record>, p1: seq<Record>, d2: seq<Record>, p2: seq<Record>)
    requires DepFields(d1) + PeerFields(p1) == DepFields(d2) + PeerFields(p2)
    ensures d1 == d2 && p1 == p2
  {
    NoShift(d1, p1, d2, p2);
    NoShift(d2, p2, d1, p1);
    SplitSame(DepFields(d1), PeerFields(p1), DepFields(d2), PeerFields(p2));
    DepFieldsInjective(d1, d2);
    PeerFieldsInjective(p1, p2);
  }

  lemma NoShift(d1: seq<Record>, p1: seq<Record>, d2: seq<Record>, p2: seq<Record>)
    requires DepFields(d1) + PeerFields(p1) == DepFields(d2) + PeerFields(p2)
    ensures |d1| <= |d2|
  {
    if |d1| > |d2| {
      assert |DepFields(d1) + PeerFields(p1)| == |DepFields(d2) + PeerFields(p2)|;
      LengthsShift(|d1|, |p1|, |d2|, |p2|);
      DepFieldsAt(d1, |d2| + 3, 3);
      PeerFieldsAt(p2, 3, 0);
      PeerIsNoHash(d1[|d2| + 3].hash);
      Overlap(DepFields(d1), PeerFields(p1), DepFields(d2), PeerFields(p2), 4 * (|d2| + 3) + 3);
    }
  }

  lemma PeerIsNoHash(h: ShortHash)
    ensures h != PEER
  {
    assert |PEER| == 4;
  }

  lemma LengthsShift(d1: nat, p1: nat, d2: nat, p2: nat)
    requires 4 * d1 + 5 * p1 == 4 * d2 + 5 * p2 && d1 > d2
    ensures d1 >= d2 + 5 && p2 >= 4
  {
    assert (d1 - d2) % 5 == 0;
  }

  lemma Overlap(a: seq<string>, b: seq<string>, c: seq<string>, d: seq<string>, k: nat)
    requires a + b == c + d && |c| <= k < |a|
    ensures k - |c| < |d| && a[k] == d[k - |c|]
  {
    assert (a + b)[k] == (c + d)[k];
  }

  // ---- the stream of one entry ----

  function IdFields(id: PackageId): seq<string> {
    [id.name, id.version]
  }

  function EntryFields(id: PackageId, tarball: string, integrity: string,
                       deps: seq<Record>, peers: seq<Record>): seq<string> {
    [id.name, id.version, tarball, integrity] + (DepFields(deps) + PeerFields(peers))
  }

  /** What is hashed for a package of the graph; an absent integrity and an
      empty one are hashed alike. */
  function EntryStream(id: PackageId, tarball: string, integrity: string,
                       deps: seq<Record>, peers: seq<Record>): string {
    TAG + Encode(EntryFields(id, tarball, integrity, deps, peers))
  }

  /** What is hashed for an id the graph does not contain. */
  function MissingStream(id: PackageId): string {
    TAG + Encode(IdFields(id))
  }

  /** What is hashed for an id met again while it is being hashed. */
  function CycleStream(id: PackageId): string {
    TAG + Encode(IdFields(id)) + CYCLE
  }

  predicate CleanId(id: PackageId) {
    Free(id.name, NUL) && Free(id.version, NUL)
  }

  predicate CleanRecords(records: seq<Record>) {
    forall r :: r in records ==> Free(r.name, NUL) && CleanId(r.id)
  }

  lemma HashIsClean(h: ShortHash)
    ensures Free(h, NUL)
  {
    assert !IsHex(NUL);
  }

  lemma FieldsAreClean(deps: seq<Record>, peers: seq<Record>)
    requires CleanRecords(deps) && CleanRecords(peers)
    ensures forall f :: f in DepFields(deps) + PeerFields(peers) ==> Free(f, NUL)
  {
    forall k | 0 <= k < 4 * |deps|
      ensures Free(DepFields(deps)[k], NUL)
    {
      assert deps[k / 4] in deps;
      HashIsClean(deps[k / 4].hash);
    }
    forall k | 0 <= k < 5 * |peers|
      ensures Free(PeerFields(peers)[k], NUL)
    {
      assert peers[k / 5] in peers;
      HashIsClean(peers[k / 5].hash);
    }
  }

  lemma EncodeInjective(a: seq<string>, b: seq<string>)
    requires forall f :: f in a ==> Free(f, NUL)
    requires forall f :: f in b ==> Free(f, NUL)
    requires Encode(a) == Encode(b)
    ensures a == b
  {
    DecodeEncode(a);
    DecodeEncode(b);
  }

  lemma EntryFieldsClean(id: PackageId, tarball: string, integrity: string, deps: seq<Record>, peers: seq<Record>)
    requires CleanId(id) && Free(tarball, NUL) && Free(integrity, NUL) && CleanRecords(deps) && CleanRecords(peers)
    ensures forall f :: f in EntryFields(id, tarball, integrity, deps, peers) ==> Free(f, NUL)
  {
    FieldsAreClean(deps, peers);
  }

  /** The stream of an entry determines everything that went into it. */
  lemma EntryStreamInjective(id1: PackageId, t1: string, i1: string, d1: seq<Record>, p1: seq<Record>,
                             id2: PackageId, t2: string, i2: string, d2: seq<Record>, p2: seq<Record>)
    requires CleanId(id1) && Free(t1, NUL) && Free(i1, NUL) && CleanRecords(d1) && CleanRecords(p1)
    requires CleanId(id2) && Free(t2, NUL) && Free(i2, NUL) && CleanRecords(d2) && CleanRecords(p2)
    requires EntryStream(id1, t1, i1, d1, p1) == EntryStream(id2, t2, i2, d2, p2)
    ensures id1 == id2 && t1 == t2 && i1 == i2 && d1 == d2 && p1 == p2
  {
    EntryFieldsClean(id1, t1, i1, d1, p1);
    EntryFieldsClean(id2, t2, i2, d2, p2);
    var f1, f2 := EntryFields(id1, t1, i1, d1, p1), EntryFields(id2, t2, i2, d2, p2);
    SplitSame(TAG, Encode(f1), TAG, Encode(f2));
    EncodeInjective(f1, f2);
    SplitSame([id1.name, id1.version, t1, i1], DepFields(d1) + PeerFields(p1),
              [id2.name, id2.version, t2, i2], DepFields(d2) + PeerFields(p2));
    var h1, h2 := [id1.name, id1.version, t1, i1], [id2.name, id2.version, t2, i2];
    assert h1[0] == h2[0] && h1[1] == h2[1] && h1[2] == h2[2] && h1[3] == h2[3];
    RecordsInjective(d1, p1, d2, p2);
  }

  /** An entry of the graph and an id outside it never share a stream. */
  lemma MissingIsNoEntry(id1: PackageId, id2: PackageId, t: string, i: string, d: seq<Record>, p: seq<Record>)
    requires CleanId(id1) && CleanId(id2) && Free(t, NUL) && Free(i, NUL) && CleanRecords(d) && CleanRecords(p)
    ensures MissingStream(id1) != EntryStream(id2, t, i, d, p)
  {
    if MissingStream(id1) == EntryStream(id2, t, i, d, p) {
      EntryFieldsClean(id2, t, i, d, p);
      SplitSame(TAG, Encode(IdFields(id1)), TAG, Encode(EntryFields(id2, t, i, d, p)));
      EncodeInjective(IdFields(id1), EntryFields(id2, t, i, d, p));
    }
  }

  lemma {:induction false} EncodeEndsInNul(fields: seq<string>)
    requires fields != []
    ensures Encode(fields) != [] && Encode(fields)[|Encode(fields)| - 1] == NUL
  {
    if |fields| == 1 {
      assert Encode(fields[1..]) == [];
    } else {
      EncodeEndsInNul(fields[1..]);
    }
  }

  /** The stream of an id on the stack ends in no NUL, so it is that of nothing else. */
  lemma CycleIsNoOther(id: PackageId, fields: seq<string>)
    requires fields != []
    ensures CycleStream(id) != TAG + Encode(fields)
  {
    EncodeEndsInNul(fields);
    var cycle, other := CycleStream(id), TAG + Encode(fields);
    assert cycle[|cycle| - 1] == CYCLE[4] && other[|other| - 1] == NUL;
  }

  lemma CycleStreamInjective(id1: PackageId, id2: PackageId)
    requires CleanId(id1) && CleanId(id2) && CycleStream(id1) == CycleStream(id2)
    ensures id1 == id2
  {
    assert |MissingStream(id1)| == |MissingStream(id2)|;
    SplitSame(MissingStream(id1), CYCLE, MissingStream(id2), CYCLE);
    MissingStreamInjective(id1, id2);
  }

  lemma MissingStreamInjective(id1: PackageId, id2: PackageId)
    requires CleanId(id1) && CleanId(id2) && MissingStream(id1) == MissingStream(id2)
    ensures id1 == id2
  {
    SplitSame(TAG, Encode(IdFields(id1)), TAG, Encode(IdFields(id2)));
    EncodeInjective(IdFields(id1), IdFields(id2));
    assert IdFields(id1)[0] == IdFields(id2)[0] && IdFields(id1)[1] == IdFields(id2)[1];
  }
}
