/** The cache of built package directories: saving, restoring, and recognizing
    what was restored (snpm-core/src/lifecycle/runner/cache.rs). No remote. */
module SideEffects {
  import opened Wrappers
  import opened Ordering
  import opened Text

  datatype Node = File(content: string) | Dir(entries: Listing) | Link(target: string)
  datatype Entry = Entry(name: string, node: Node)

  /** A directory, as listed in the order of names. */
  type Listing = seq<Entry>

  const MARKER := ".snpm-side-effects-cache"

  // ---- the marker ----

  predicate IsHexDigit(c: char) {
    '0' <= c <= '9' || 'a' <= c <= 'f' || 'A' <= c <= 'F'
  }

  function LowerHex(c: char): char {
    if 'A' <= c <= 'F' then c - 'A' + 'a' else c
  }

  /** Ten digits, and six letters in either case that become lower case. */
  lemma HexDigitsAre(c: char)
    ensures IsHexDigit(c) <==> c in "0123456789abcdefABCDEF"
    ensures c in "0123456789abcdef" ==> LowerHex(c) == c
    ensures forall i :: 0 <= i < 6 ==> LowerHex("ABCDEF"[i]) == "abcdef"[i]
  {
  }

  function Lowered(s: string): (r: string)
    ensures |r| == |s| && forall i :: 0 <= i < |s| ==> r[i] == LowerHex(s[i])
  {
    if s == [] then [] else [LowerHex(s[0])] + Lowered(s[1..])
  }

  /** A digest as the program writes one: 128 lower-case hex digits. */
  predicate IsDigest(s: string) {
    |s| == 128 && forall i :: 0 <= i < |s| ==> IsHexDigit(s[i]) && LowerHex(s[i]) == s[i]
  }

  function Lookup(es: Listing, name: string): Option<Node> {
    if es == [] then None
    else if es[0].name == name then Some(es[0].node)
    else Lookup(es[1..], name)
  }

  function ReadMarker(es: Listing): (r: Option<string>)
    ensures r.Some? ==> IsDigest(r.value)
  {
    match Lookup(es, MARKER)
    case Some(File(content)) =>
      var text := Trim(content);
      if |text| == 128 && (forall i :: 0 <= i < |text| ==> IsHexDigit(text[i])) then Some(Lowered(text)) else None
    case _ => None
  }

  /** Writes a file of the name, over one that is there or in the order of names. */
  function Put(es: Listing, name: string, content: string): Listing {
    if es == [] then [Entry(name, File(content))]
    else if es[0].name == name then [Entry(name, File(content))] + es[1..]
    else if TextLess(name, es[0].name) then [Entry(name, File(content))] + es
    else [es[0]] + Put(es[1..], name, content)
  }

  /** `write_marker`; it fails when the name stands for something that is no file. */
  function WriteMarker(es: Listing, hash: string): Option<Listing> {
    match Lookup(es, MARKER)
    case None => Some(Put(es, MARKER, hash))
    case Some(File(_)) => Some(Put(es, MARKER, hash))
    case _ => None
  }

  /** The marker can be written exactly if its name stands for nothing yet, or for a file. */
  lemma MarkerIsWritten(es: Listing, hash: string)
    ensures WriteMarker(es, hash).Some? <==>
      Lookup(es, MARKER) == None || exists content :: Lookup(es, MARKER) == Some(File(content))
  {
    match Lookup(es, MARKER) {
      case Some(File(content)) => assert Lookup(es, MARKER) == Some(File(content));
      case _ =>
    }
  }

  lemma {:induction false} TrimDigest(s: string)
    requires IsDigest(s)
    ensures Trim(s) == s && Lowered(s) == s
  {
    assert !IsSpace(s[0]) && !IsSpace(s[|s| - 1]);
  }

  /** The first characters of a digest, as far as a write got. */
  function Start(hash: string, n: nat): (t: string)
    ensures t <= hash && (n < |hash| ==> |t| == n)
  {
    if n < |hash| then hash[..n] else hash
  }

  lemma NothingToTrim(s: string)
    requires forall i :: 0 <= i < |s| ==> !IsSpace(s[i])
    ensures Trim(s) == s
  {
  }

  /** The start of a digest is no marker. */
  lemma PartIsNoMarker(es: Listing, hash: string, n: nat)
    requires IsDigest(hash) && n < |hash|
    ensures ReadMarker(Put(es, MARKER, Start(hash, n))).None?
  {
    PutIsFound(es, MARKER, Start(hash, n));
    NothingToTrim(Start(hash, n));
  }

  lemma {:induction false} PutIsFound(es: Listing, name: string, content: string)
    ensures Lookup(Put(es, name, content), name) == Some(File(content))
  {
    if es != [] && es[0].name != name && !TextLess(name, es[0].name) {
      PutIsFound(es[1..], name, content);
    }
  }

  lemma {:induction false} PutKeepsOthers(es: Listing, name: string, content: string, other: string)
    requires other != name
    ensures Lookup(Put(es, name, content), other) == Lookup(es, other)
  {
    if es != [] && es[0].name != name && !TextLess(name, es[0].name) {
      PutKeepsOthers(es[1..], name, content, other);
    }
  }

  /** A written marker is read back, and nothing else in the directory changes. */
  lemma MarkerIsRead(es: Listing, hash: string)
    requires IsDigest(hash) && WriteMarker(es, hash).Some?
    ensures ReadMarker(WriteMarker(es, hash).value) == Some(hash)
    ensures forall other :: other != MARKER ==>
              Lookup(WriteMarker(es, hash).value, other) == Lookup(es, other)
  {
    PutIsFound(es, MARKER, hash);
    TrimDigest(hash);
    forall other | other != MARKER
      ensures Lookup(WriteMarker(es, hash).value, other) == Lookup(es, other)
    {
      PutKeepsOthers(es, MARKER, hash, other);
    }
  }

  // ---- copying a directory ----

  /** How many files, links and directories there are. */
  function Size(es: Listing): nat
    decreases es
  {
    if es == [] then 0
    else 1 + (if es[0].node.Dir? then Size(es[0].node.entries) else 0) + Size(es[1..])
  }

  datatype Copying = Copying(copied: Listing, left: nat, ok: bool)

  /** What a copy leaves behind when the system lets it create `budget` entries and
      then fails: entries in the order of names, a directory before its content. */
  function Copied(es: Listing, budget: nat): Copying
    decreases es
  {
    if es == [] then Copying([], budget, true)
    else if budget == 0 then Copying([], 0, false)
    else
      match es[0].node
      case Dir(sub) =>
        var inner := Copied(sub, budget - 1);
        var here := [Entry(es[0].name, Dir(inner.copied))];
        if inner.ok then After(here, Copied(es[1..], inner.left)) else Copying(here, inner.left, false)
      case _ => After([es[0]], Copied(es[1..], budget - 1))
  }

  function After(first: Listing, rest: Copying): Copying {
    rest.(copied := first + rest.copied)
  }

  /** With room for everything the copy is the directory, and only then does it succeed. */
  lemma {:induction false} CopyIsWhole(es: Listing, budget: nat)
    ensures Copied(es, budget).ok <==> Size(es) <= budget
    ensures Copied(es, budget).ok ==> Copied(es, budget).copied == es && Copied(es, budget).left == budget - Size(es)
    decreases es
  {
    if es != [] && budget > 0 {
      assert es == [es[0]] + es[1..];
      if es[0].node.Dir? {
        var sub := es[0].node.entries;
        CopyIsWhole(sub, budget - 1);
        if Copied(sub, budget - 1).ok {
          CopyIsWhole(es[1..], Copied(sub, budget - 1).left);
        }
      } else {
        CopyIsWhole(es[1..], budget - 1);
      }
    }
  }

  lemma AfterAfter(a: Listing, b: Listing, rest: Copying)
    ensures After(a, After(b, rest)) == After(a + b, rest)
  {
    assert a + (b + rest.copied) == (a + b) + rest.copied;
  }

  /** `copied` was made from the first `i` entries, and `left` remains for the others. */
  ghost predicate CopiedSoFar(es: Listing, budget: nat, i: nat, copied: Listing, left: nat) {
    i <= |es| && Copied(es, budget) == After(copied, Copied(es[i..], left))
  }

  lemma CopyStart(es: Listing, budget: nat)
    ensures CopiedSoFar(es, budget, 0, [], budget)
  {
    assert es[0..] == es;
    assert [] + Copied(es, budget).copied == Copied(es, budget).copied;
  }

  lemma CopyOneMore(es: Listing, budget: nat, i: nat, copied: Listing, left: nat)
    requires i < |es| && CopiedSoFar(es, budget, i, copied, left)
    ensures left == 0 ==> Copied(es, budget) == Copying(copied, 0, false)
    ensures left > 0 && !es[i].node.Dir? ==> CopiedSoFar(es, budget, i + 1, copied + [es[i]], left - 1)
    ensures left > 0 && es[i].node.Dir? ==>
              var inner := Copied(es[i].node.entries, left - 1);
              var next := copied + [Entry(es[i].name, Dir(inner.copied))];
              if inner.ok then CopiedSoFar(es, budget, i + 1, next, inner.left)
              else Copied(es, budget) == Copying(next, inner.left, false)
  {
    var here := es[i..];
    assert here[0] == es[i] && here[1..] == es[i + 1..];
    assert copied + [] == copied;
    if left > 0 {
      if es[i].node.Dir? {
        var inner := Copied(es[i].node.entries, left - 1);
        AfterAfter(copied, [Entry(es[i].name, Dir(inner.copied))], Copied(here[1..], inner.left));
      } else {
        AfterAfter(copied, [es[i]], Copied(here[1..], left - 1));
      }
    }
  }

  lemma CopyEnds(es: Listing, budget: nat, copied: Listing, left: nat)
    requires CopiedSoFar(es, budget, |es|, copied, left)
    ensures Copied(es, budget) == Copying(copied, left, true)
  {
    assert es[|es|..] == [];
    assert copied + [] == copied;
  }

  method CopyDirInner(es: Listing, budget: nat) returns (copied: Listing, left: nat, ok: bool)
    ensures Copying(copied, left, ok) == Copied(es, budget)
    decreases es
  {
    copied, left := [], budget;
    CopyStart(es, budget);
    for i := 0 to |es|
      invariant CopiedSoFar(es, budget, i, copied, left)
    {
      CopyOneMore(es, budget, i, copied, left);
      if left == 0 {
        return copied, 0, false;
      }
      match es[i].node {
        case Dir(sub) =>
          var inner, rest, done := CopyDirInner(sub, left - 1);
          copied, left := copied + [Entry(es[i].name, Dir(inner))], rest;
          if !done {
            return copied, left, false;
          }
        case _ =>
          copied, left := copied + [es[i]], left - 1;
      }
    }
    CopyEnds(es, budget, copied, left);
    ok := true;
  }

  // ---- the cache ----

  /** Where an artifact is kept. */
  datatype Slot = Slot(platform: string, nameAndVersion: string, hash: string)

  datatype CacheEntry = CacheEntry(inputHash: string, slot: Slot)

  datatype Restore = Miss | Restored | AlreadyApplied

  /** Before a copy the old directory is removed and a new one made: that works, or the
      removal leaves something behind, or no new directory can be made. */
  datatype Clearing = Cleared | Stuck(left: Listing) | Gone

  /** The fragment of a platform's name that tells the Node major, if it is known. */
  function EngineTag(major: Option<nat>): string {
    if major.Some? then "node" + Decimal(major.value) else "node-unknown"
  }

  function Platform(os: string, arch: string, major: Option<nat>): string {
    os + "-" + arch + "-" + EngineTag(major)
  }

  lemma PlatformNames()
    ensures Platform("linux", "x64", Some(20)) == "linux-x64-node20"
    ensures Platform("linux", "x64", None) == "linux-x64-node-unknown"
  {
    assert Decimal(20) == Decimal(2) + ['0'] == "20";
  }

  function SafeName(name: string): string {
    if name == [] then []
    else (if name[0] == '/' then "__" else [name[0]]) + SafeName(name[1..])
  }

  /** What comes of writing the marker: a write that is cut short leaves its first characters. */
  datatype Marking = Marked | NotMarked | PartlyMarked(written: nat)

  /** Whom a slot belongs to: a package version, built for a platform. */
  datatype Owner = Owner(platform: string, nameAndVersion: string)

  function SlotOf(o: Owner, hash: string): Slot {
    Slot(o.platform, o.nameAndVersion, hash)
  }

  function OwnerOf(platform: string, name: string, version: string): Owner {
    Owner(platform, SafeName(name) + "@" + version)
  }

  lemma DecimalInjective(m: nat, n: nat)
    requires Decimal(m) == Decimal(n)
    ensures m == n
  {
    NumberOfDecimal(m);
    NumberOfDecimal(n);
  }

  lemma EngineTagInjective(m: Option<nat>, n: Option<nat>)
    requires EngineTag(m) == EngineTag(n)
    ensures m == n
  {
    var unknown := "node-unknown";
    if m.Some? {
      assert EngineTag(m)[4..] == Decimal(m.value) && EngineTag(m)[4] == Decimal(m.value)[0];
    }
    if n.Some? {
      assert EngineTag(n)[4..] == Decimal(n.value) && EngineTag(n)[4] == Decimal(n.value)[0];
    }
    assert unknown[4] == '-';
    if m.Some? && n.Some? {
      DecimalInjective(m.value, n.value);
    }
  }

  /** Where a slot lies, as one text. */
  function SlotPath(slot: Slot): seq<string> {
    [slot.platform, slot.nameAndVersion, slot.hash]
  }

  /** On one machine, artifacts for two Node majors, two versions or two digests never share
      a slot. */
  lemma SlotsApart(os: string, arch: string, major1: Option<nat>, name1: string, version1: string, hash1: string,
                   major2: Option<nat>, name2: string, version2: string, hash2: string)
    requires Free(version1, '@') && Free(version2, '@')
    requires SlotPath(SlotOf(OwnerOf(Platform(os, arch, major1), name1, version1), hash1))
          == SlotPath(SlotOf(OwnerOf(Platform(os, arch, major2), name2, version2), hash2))
    ensures major1 == major2 && version1 == version2 && hash1 == hash2 && SafeName(name1) == SafeName(name2)
    ensures (Free(name1, '/') && Free(name2, '/')) || (Free(name1, '_') && Free(name2, '_')) ==> name1 == name2
  {
    var p1 := SlotPath(SlotOf(OwnerOf(Platform(os, arch, major1), name1, version1), hash1));
    var p2 := SlotPath(SlotOf(OwnerOf(Platform(os, arch, major2), name2, version2), hash2));
    assert p1[0] == p2[0] && p1[1] == p2[1] && p1[2] == p2[2];
    SplitSame(os + "-" + arch + "-", EngineTag(major1), os + "-" + arch + "-", EngineTag(major2));
    EngineTagInjective(major1, major2);
    SplitAtLast(SafeName(name1), version1, SafeName(name2), version2);
    if Free(name1, '/') && Free(name2, '/') {
      SafeNameKeeps(name1);
      SafeNameKeeps(name2);
    } else if Free(name1, '_') && Free(name2, '_') {
      SafeNameInjective(name1, name2);
    }
  }

  lemma SplitAtLast(a: string, x: string, b: string, y: string)
    requires Free(x, '@') && Free(y, '@') && a + "@" + x == b + "@" + y
    ensures a == b && x == y
  {
    var s := a + "@" + x;
    assert s[|a|] == '@' && s[|b|] == '@';
    Behind(a, x, |b|);
    Behind(b, y, |a|);
    SplitSame(a + "@", x, b + "@", y);
    SplitSame(a, "@", b, "@");
  }

  lemma Behind(a: string, x: string, i: nat)
    ensures var s := a + "@" + x; |a| < i < |s| ==> s[i] in x
  {
    var s := a + "@" + x;
    if |a| < i < |s| {
      assert s[i] == x[i - |a| - 1];
    }
  }

  lemma {:induction false} SafeNameKeeps(name: string)
    requires Free(name, '/')
    ensures SafeName(name) == name
  {
    if name != [] {
      SafeNameKeeps(name[1..]);
    }
  }

  lemma {:induction false} SafeNameInjective(a: string, b: string)
    requires Free(a, '_') && Free(b, '_') && SafeName(a) == SafeName(b)
    ensures a == b
  {
    if a != [] && b != [] {
      assert SafeName(a)[0] == SafeName(b)[0];
      assert a[0] == b[0];
      var front := if a[0] == '/' then "__" else [a[0]];
      SplitSame(front, SafeName(a[1..]), front, SafeName(b[1..]));
      SafeNameInjective(a[1..], b[1..]);
      assert a == [a[0]] + a[1..] && b == [b[0]] + b[1..];
    }
  }

  /** The entry for a package directory: its marker names the slot if it has one,
      otherwise the digest of its content. */
  function EntryFor(digest: Listing -> string, platform: string, name: string, version: string,
                    es: Listing): CacheEntry {
    var hash := ReadMarker(es).GetOr(digest(es));
    CacheEntry(hash, SlotOf(OwnerOf(platform, name, version), hash))
  }

  predicate GoodEntry(e: CacheEntry) {
    IsDigest(e.inputHash) && e.slot.hash == e.inputHash
  }

  lemma EntriesAreGood(digest: Listing -> string, platform: string, name: string, version: string, es: Listing)
    requires IsDigest(digest(es))
    ensures GoodEntry(EntryFor(digest, platform, name, version, es))
  {
  }

  /** All slots, and all package directories by path. */
  datatype State = State(slots: map<Slot, Listing>, packages: map<string, Listing>)

  /** Every slot holds the marker that names it. */
  ghost predicate SlotsMarked(slots: map<Slot, Listing>) {
    forall s :: s in slots ==> ReadMarker(slots[s]) == Some(s.hash)
  }

  predicate MarkerMatches(s: State, dir: string, hash: string) {
    dir in s.packages && ReadMarker(s.packages[dir]) == Some(hash)
  }

  class Disk {
    var slots: map<Slot, Listing>
    var packages: map<string, Listing>

    ghost function Now(): State
      reads this
    {
      State(slots, packages)
    }

    constructor ()
      ensures Now() == State(map[], map[])
    {
      slots, packages := map[], map[];
    }

    /** `restore_if_available` without a remote. `clearing` is what comes of making room
        for the copy; `budget` is the number of entries the system lets the
        copy create. Nothing is returned when the call fails. */
    method RestoreIfAvailable(e: CacheEntry, dir: string, clearing: Clearing, budget: nat)
      returns (result: Option<Restore>)
      modifies this
      ensures (Now(), result) == AfterRestore(old(Now()), e, dir, clearing, budget)
    {
      if dir in packages && ReadMarker(packages[dir]) == Some(e.inputHash) && e.slot in slots {
        return Some(AlreadyApplied);
      }
      if e.slot in slots && dir in packages && clearing.Stuck? {
        packages := packages[dir := clearing.left];
        return None;
      }
      if e.slot in slots && clearing.Gone? {
        packages := packages - {dir};
        return None;
      }
      if e.slot in slots {
        var copied, left, ok := CopyDirInner(slots[e.slot], budget);
        packages := packages[dir := copied];
        return if ok then Some(Restored) else None;
      }
      result := Some(Miss);
    }

    /** `save`: mark the package, copy it beside the slot and rename the copy. `marking`
        is what the system makes of the marker's write. */
    method Save(e: CacheEntry, dir: string, marking: Marking, budget: nat) returns (ok: bool)
      modifies this
      ensures (Now(), ok) == AfterSave(old(Now()), e, dir, marking, budget)
    {
      if dir !in packages {
        return false;
      }
      var there := e.slot in slots;
      var marked := WriteMarker(packages[dir], e.inputHash);
      if marked.None? || marking.NotMarked? {
        return false;
      }
      if marking.PartlyMarked? {
        packages := packages[dir := Put(packages[dir], MARKER, Start(e.inputHash, marking.written))];
        return false;
      }
      packages := packages[dir := marked.value];
      if there {
        return true;
      }
      var staged, left, copied := CopyDirInner(packages[dir], budget);
      if !copied {
        return false;
      }
      slots := slots[e.slot := staged];
      ok := true;
    }
  }

  function AfterRestore(s: State, e: CacheEntry, dir: string, clearing: Clearing, budget: nat)
    : (State, Option<Restore>)
  {
    if MarkerMatches(s, dir, e.inputHash) && e.slot in s.slots then (s, Some(AlreadyApplied))
    else if e.slot !in s.slots then (s, Some(Miss))
    else if clearing.Stuck? && dir in s.packages then (s.(packages := s.packages[dir := clearing.left]), None)
    else if clearing.Gone? then (s.(packages := s.packages - {dir}), None)
    else
      var copy := Copied(s.slots[e.slot], budget);
      (s.(packages := s.packages[dir := copy.copied]), if copy.ok then Some(Restored) else None)
  }

  function AfterSave(s: State, e: CacheEntry, dir: string, marking: Marking, budget: nat): (State, bool) {
    if dir !in s.packages || WriteMarker(s.packages[dir], e.inputHash).None? || marking.NotMarked? then (s, false)
    else if marking.PartlyMarked? then
      (s.(packages := s.packages[dir := Put(s.packages[dir], MARKER, Start(e.inputHash, marking.written))]), false)
    else
      var marked := WriteMarker(s.packages[dir], e.inputHash).value;
      var s1 := s.(packages := s.packages[dir := marked]);
      if e.slot in s.slots then (s1, true)
      else if !Copied(marked, budget).ok then (s1, false)
      else (s1.(slots := s.slots[e.slot := Copied(marked, budget).copied]), true)
  }

  // ---- every run ----

  /** One call, or anything else that happens to a package directory in between. */
  datatype Step =
    | RestoreStep(entry: CacheEntry, dir: string, clearing: Clearing, budget: nat)
    | SaveStep(entry: CacheEntry, dir: string, marking: Marking, budget: nat)
    | Edit(dir: string, content: Listing)
    | Remove(dir: string)

  /** A write that is cut short has not written everything. */
  predicate CutShort(marking: Marking, hash: string) {
    marking.PartlyMarked? ==> marking.written < |hash|
  }

  predicate GoodStep(t: Step) {
    match t
    case RestoreStep(e, _, _, _) => GoodEntry(e)
    case SaveStep(e, _, marking, _) => GoodEntry(e) && CutShort(marking, e.inputHash)
    case _ => true
  }

  function Apply(s: State, t: Step): State {
    match t
    case RestoreStep(e, dir, clearing, budget) => AfterRestore(s, e, dir, clearing, budget).0
    case SaveStep(e, dir, marking, budget) => AfterSave(s, e, dir, marking, budget).0
    case Edit(dir, content) => s.(packages := s.packages[dir := content])
    case Remove(dir) => s.(packages := s.packages - {dir})
  }

  function Run(s: State, steps: seq<Step>): State
    decreases |steps|
  {
    if steps == [] then s else Run(Apply(s, steps[0]), steps[1..])
  }

  /** No slot is lost or changed. */
  ghost predicate Grown(before: map<Slot, Listing>, after: map<Slot, Listing>) {
    forall slot :: slot in before ==> slot in after && after[slot] == before[slot]
  }

  lemma StepKeepsSlots(s: State, t: Step)
    requires SlotsMarked(s.slots) && GoodStep(t)
    ensures SlotsMarked(Apply(s, t).slots) && Grown(s.slots, Apply(s, t).slots)
  {
    match t {
      case SaveStep(e, dir, marking, budget) => SaveKeepsSlots(s, e, dir, marking, budget);
      case RestoreStep(e, dir, clearing, budget) => RestoreKeepsSlots(s, e, dir, clearing, budget);
      case Edit(_, _) =>
      case Remove(_) =>
    }
  }

  lemma RestoreKeepsSlots(s: State, e: CacheEntry, dir: string, clearing: Clearing, budget: nat)
    ensures AfterRestore(s, e, dir, clearing, budget).0.slots == s.slots
  {
  }

  /** A save leaves the slots alone or adds the marked directory as a new one. */
  lemma SaveAddsAtMost(s: State, e: CacheEntry, dir: string, marking: Marking, budget: nat)
    ensures var after := AfterSave(s, e, dir, marking, budget).0.slots;
      after == s.slots ||
        (e.slot !in s.slots && dir in s.packages && WriteMarker(s.packages[dir], e.inputHash).Some?
         && after == s.slots[e.slot := WriteMarker(s.packages[dir], e.inputHash).value])
  {
    if dir in s.packages && WriteMarker(s.packages[dir], e.inputHash).Some? {
      CopyIsWhole(WriteMarker(s.packages[dir], e.inputHash).value, budget);
    }
  }

  lemma NewSlotIsMarked(slots: map<Slot, Listing>, slot: Slot, tree: Listing)
    requires SlotsMarked(slots) && slot !in slots && ReadMarker(tree) == Some(slot.hash)
    ensures SlotsMarked(slots[slot := tree]) && Grown(slots, slots[slot := tree])
  {
  }

  lemma SaveKeepsSlots(s: State, e: CacheEntry, dir: string, marking: Marking, budget: nat)
    requires SlotsMarked(s.slots) && GoodEntry(e)
    ensures var after := AfterSave(s, e, dir, marking, budget).0.slots;
      SlotsMarked(after) && Grown(s.slots, after)
  {
    SaveAddsAtMost(s, e, dir, marking, budget);
    if AfterSave(s, e, dir, marking, budget).0.slots != s.slots {
      MarkerIsRead(s.packages[dir], e.inputHash);
      NewSlotIsMarked(s.slots, e.slot, WriteMarker(s.packages[dir], e.inputHash).value);
    }
  }

  /** Over every run, failed calls and edits included, a slot that exists never changes
      and always holds the marker naming it. */
  lemma {:induction false} SlotsNeverChange(s: State, steps: seq<Step>)
    requires SlotsMarked(s.slots) && forall i :: 0 <= i < |steps| ==> GoodStep(steps[i])
    ensures SlotsMarked(Run(s, steps).slots) && Grown(s.slots, Run(s, steps).slots)
    decreases |steps|
  {
    if steps != [] {
      StepKeepsSlots(s, steps[0]);
      SlotsNeverChange(Apply(s, steps[0]), steps[1..]);
    }
  }

  /** What a restore answers: applied if the marker names the slot, a miss without a slot, and
      otherwise a copy, which needs the directory cleared and room for all of the slot. */
  lemma RestoreMeans(s: State, e: CacheEntry, dir: string, clearing: Clearing, budget: nat)
    ensures var (s', result) := AfterRestore(s, e, dir, clearing, budget);
      var applied := e.slot in s.slots && dir in s.packages && ReadMarker(s.packages[dir]) == Some(e.inputHash);
      var cleared := clearing == Cleared || (clearing.Stuck? && dir !in s.packages);
      && (result == Some(AlreadyApplied) <==> applied)
      && (result == Some(Miss) <==> e.slot !in s.slots)
      && (result == Some(Restored) <==> !applied && e.slot in s.slots && cleared && Size(s.slots[e.slot]) <= budget)
      && (result == Some(Restored) ==> s'.packages == s.packages[dir := s.slots[e.slot]])
      && (result in {Some(AlreadyApplied), Some(Miss)} ==> s' == s)
      && (forall d :: d != dir ==> (d in s'.packages <==> d in s.packages)
                                   && (d in s.packages ==> s'.packages[d] == s.packages[d]))
  {
    if e.slot in s.slots {
      CopyIsWhole(s.slots[e.slot], budget);
    }
  }

  /** What a save does: it marks the directory, and if the slot is new copies it there, which
      needs room for all of it. */
  lemma SaveMeans(s: State, e: CacheEntry, dir: string, marking: Marking, budget: nat)
    ensures var (s', ok) := AfterSave(s, e, dir, marking, budget);
      var marks := dir in s.packages && WriteMarker(s.packages[dir], e.inputHash).Some? && marking == Marked;
      && (marks ==> s'.packages == s.packages[dir := WriteMarker(s.packages[dir], e.inputHash).value])
      && (ok <==> marks && (e.slot in s.slots || Size(s'.packages[dir]) <= budget))
      && s'.slots == if ok && e.slot !in s.slots then s.slots[e.slot := s'.packages[dir]] else s.slots
  {
    if dir in s.packages && WriteMarker(s.packages[dir], e.inputHash).Some? {
      CopyIsWhole(WriteMarker(s.packages[dir], e.inputHash).value, budget);
    }
  }

  ghost predicate IsMarkerText(text: string, hash: string) {
    |text| == |hash| == 128 && forall i :: 0 <= i < 128 ==> IsHexDigit(text[i]) && hash[i] == LowerHex(text[i])
  }

  /** Which markers are read: 128 hexadecimal digits, with blanks around them perhaps, in
      lower case or not; what is read is in lower case. */
  lemma MarkerMeans(es: Listing, hash: string)
    ensures ReadMarker(es) == Some(hash) <==>
      exists content :: Lookup(es, MARKER) == Some(File(content)) && IsMarkerText(Trim(content), hash)
  {
    match Lookup(es, MARKER) {
      case Some(File(content)) =>
        var text := Trim(content);
        if |text| == 128 && |hash| == 128 && forall i :: 0 <= i < 128 ==> hash[i] == LowerHex(text[i]) {
          assert Lowered(text) == hash;
        }
      case _ =>
    }
  }

  /** A restore that succeeds leaves exactly what was saved, and a fresh entry with the
      same name, version and platform then finds it already applied. */
  lemma RestoredIsRecognized(digest: Listing -> string, platform: string, name: string, version: string,
                             s: State, e: CacheEntry, dir: string, clearing: Clearing, budget: nat)
    requires SlotsMarked(s.slots) && GoodEntry(e)
    requires e.slot == SlotOf(OwnerOf(platform, name, version), e.inputHash)
    requires AfterRestore(s, e, dir, clearing, budget).1 == Some(Restored)
    ensures var s' := AfterRestore(s, e, dir, clearing, budget).0;
      && s'.slots == s.slots
      && s'.packages == s.packages[dir := s.slots[e.slot]]
      && EntryFor(digest, platform, name, version, s'.packages[dir]) == e
      && forall left, again :: AfterRestore(s', e, dir, left, again) == (s', Some(AlreadyApplied))
  {
    CopyIsWhole(s.slots[e.slot], budget);
  }

  /** Saving, any run after it, then restoring anywhere gives back the tree that was saved. */
  lemma SaveThenRestore(s: State, e: CacheEntry, dir: string, marking: Marking, budget: nat,
                        steps: seq<Step>, target: string, clearing: Clearing, room: nat)
    requires SlotsMarked(s.slots) && GoodEntry(e) && CutShort(marking, e.inputHash) && e.slot !in s.slots
    requires AfterSave(s, e, dir, marking, budget).1
    requires forall i :: 0 <= i < |steps| ==> GoodStep(steps[i])
    ensures var saved := AfterSave(s, e, dir, marking, budget).0;
      var restored := AfterRestore(Run(saved, steps), e, target, clearing, room);
      && saved.packages[dir] == WriteMarker(s.packages[dir], e.inputHash).value
      && restored.1 != Some(Miss)
      && (restored.1 == Some(Restored) ==> restored.0.packages[target] == saved.packages[dir])
      && (Size(saved.packages[dir]) <= room && clearing.Cleared? ==> restored.1.Some?)
  {
    var saved := AfterSave(s, e, dir, marking, budget).0;
    StepKeepsSlots(s, SaveStep(e, dir, marking, budget));
    SlotsNeverChange(saved, steps);
    CopyIsWhole(saved.packages[dir], budget);
    CopyIsWhole(saved.packages[dir], room);
  }

  // ---- copies that stop midway ----

  /** Where the first entry of the name stands. */
  function Position(es: Listing, name: string): (i: nat)
    ensures i <= |es|
  {
    if es == [] || es[0].name == name then 0 else 1 + Position(es[1..], name)
  }

  /** How much has to be created before the marker's turn comes. */
  function BeforeMarker(es: Listing): nat {
    Size(es[..Position(es, MARKER)])
  }

  lemma SizeOfPrefix(es: Listing, n: nat)
    requires 0 < n <= |es|
    ensures Size(es[..n]) == Size(es[..1]) + Size(es[1..][..n - 1])
  {
    assert es[..n][0] == es[..1][0] == es[0] && es[..n][1..] == es[1..][..n - 1] && es[..1][1..] == [];
  }

  /** A copy has the file of a name if and only if it could create more than comes before it. */
  lemma {:induction false} CopiedHas(es: Listing, budget: nat, name: string)
    requires Lookup(es, name).Some? && !Lookup(es, name).value.Dir?
    ensures Lookup(Copied(es, budget).copied, name)
         == if Size(es[..Position(es, name)]) < budget then Lookup(es, name) else None
    decreases |es|
  {
    if es[0].name == name {
      assert es[..0] == [];
    } else {
      SizeOfPrefix(es, Position(es, name));
      if budget > 0 {
        CopiedFirst(es, budget, name);
        var first := Copied(es[..1], budget);
        if first.ok {
          CopiedHas(es[1..], first.left, name);
        }
      }
    }
  }

  /** The copy of the first entry, and what that leaves for the others. */
  lemma CopiedFirst(es: Listing, budget: nat, name: string)
    requires es != [] && es[0].name != name
    ensures var first := Copied(es[..1], budget);
      && (first.ok <==> Size(es[..1]) <= budget) && (first.ok ==> first.left == budget - Size(es[..1]))
      && Lookup(Copied(es, budget).copied, name) ==
           if first.ok then Lookup(Copied(es[1..], first.left).copied, name) else None
  {
    var first := Copied(es[..1], budget);
    CopyIsWhole(es[..1], budget);
    assert es[..1][1..] == [];
    if budget > 0 {
      match es[0].node {
        case Dir(sub) =>
          var inner := Copied(sub, budget - 1);
          if inner.ok {
            LookupPast([Entry(es[0].name, Dir(inner.copied))], Copied(es[1..], inner.left).copied, name);
          }
        case _ =>
          LookupPast([es[0]], Copied(es[1..], budget - 1).copied, name);
      }
    }
  }

  lemma LookupPast(first: Listing, rest: Listing, name: string)
    requires |first| == 1 && first[0].name != name
    ensures Lookup(first + rest, name) == Lookup(rest, name)
  {
    assert (first + rest)[1..] == rest;
  }

  lemma {:induction false} MarkerCopiedIff(es: Listing, budget: nat)
    requires ReadMarker(es).Some?
    ensures ReadMarker(Copied(es, budget).copied) == if BeforeMarker(es) < budget then ReadMarker(es) else None
  {
    CopiedHas(es, budget, MARKER);
  }

  lemma {:induction false} BrokenCopyDiffers(es: Listing, budget: nat)
    requires !Copied(es, budget).ok
    ensures Copied(es, budget).copied != es
    decreases es
  {
    if budget > 0 {
      match es[0].node {
        case Dir(sub) =>
          if Copied(sub, budget - 1).ok {
            BrokenCopyDiffers(es[1..], Copied(sub, budget - 1).left);
            assert Copied(es, budget).copied[1..] == Copied(es[1..], Copied(sub, budget - 1).left).copied;
          } else {
            BrokenCopyDiffers(sub, budget - 1);
            assert Copied(es, budget).copied[0] != es[0];
          }
        case _ =>
          BrokenCopyDiffers(es[1..], budget - 1);
          assert Copied(es, budget).copied[1..] == Copied(es[1..], budget - 1).copied;
      }
    }
  }

  /** However many entries a failing copy could create, it has left the marker out. */
  ghost predicate SafeToBreak(es: Listing) {
    forall budget: nat :: !Copied(es, budget).ok ==> ReadMarker(Copied(es, budget).copied).None?
  }

  lemma {:induction false} SizeSplits(es: Listing, n: nat)
    requires n <= |es|
    ensures Size(es) == Size(es[..n]) + Size(es[n..])
    decreases n
  {
    if n == 0 {
      assert es[0..] == es && es[..0] == [];
    } else {
      SizeSplits(es[1..], n - 1);
      SizeOfPrefix(es, n);
      SizeOfPrefix(es, |es|);
      assert es[..|es|] == es && es[1..][..|es| - 1] == es[1..] && es[1..][n - 1..] == es[n..];
    }
  }

  lemma {:induction false} PositionIsFound(es: Listing, name: string)
    requires Lookup(es, name).Some?
    ensures Position(es, name) < |es| && es[Position(es, name)].node == Lookup(es, name).value
  {
    if es[0].name != name {
      PositionIsFound(es[1..], name);
    }
  }

  lemma SizeAround(es: Listing, i: nat)
    requires i < |es| && !es[i].node.Dir?
    ensures Size(es) == Size(es[..i]) + 1 + Size(es[i + 1..])
    ensures Size(es[i + 1..]) == 0 <==> i == |es| - 1
  {
    SizeSplits(es, i);
    assert es[i..][0] == es[i] && es[i..][1..] == es[i + 1..];
  }

  lemma MarkerIsFile(es: Listing)
    requires ReadMarker(es).Some?
    ensures Lookup(es, MARKER).Some? && !Lookup(es, MARKER).value.Dir?
  {
  }

  lemma NamedSize(es: Listing, name: string)
    requires Lookup(es, name).Some? && !Lookup(es, name).value.Dir?
    ensures var i := Position(es, name); i < |es| && Size(es) == Size(es[..i]) + 1 + Size(es[i + 1..])
    ensures Size(es[Position(es, name) + 1..]) == 0 <==> Position(es, name) == |es| - 1
  {
    PositionIsFound(es, name);
    SizeAround(es, Position(es, name));
  }

  lemma MarkerSize(es: Listing)
    requires ReadMarker(es).Some?
    ensures var i := Position(es, MARKER); i < |es| && Size(es) == BeforeMarker(es) + 1 + Size(es[i + 1..])
    ensures Size(es[Position(es, MARKER) + 1..]) == 0 <==> Position(es, MARKER) == |es| - 1
  {
    MarkerIsFile(es);
    NamedSize(es, MARKER);
  }

  /** A slot can be restored without that risk if and only if its marker is its last entry. */
  lemma SafeIffMarkerLast(es: Listing)
    requires ReadMarker(es).Some?
    ensures SafeToBreak(es) <==> Position(es, MARKER) == |es| - 1
  {
    MarkerSize(es);
    forall budget: nat
      ensures !Copied(es, budget).ok && ReadMarker(Copied(es, budget).copied).Some?
         <==> BeforeMarker(es) < budget < Size(es)
    {
      CopyIsWhole(es, budget);
      MarkerCopiedIff(es, budget);
    }
    if Position(es, MARKER) != |es| - 1 {
      var budget := BeforeMarker(es) + 1;
      assert !Copied(es, budget).ok && ReadMarker(Copied(es, budget).copied).Some?;
    }
  }

  // ---- directories taken for an artifact they are not ----

  /** The marker names an existing slot of the owner, but the slot's tree is another. */
  predicate Differs(o: Owner, slots: map<Slot, Listing>, es: Listing) {
    var marker := ReadMarker(es);
    marker.Some? && SlotOf(o, marker.value) in slots && es != slots[SlotOf(o, marker.value)]
  }

  predicate Mistaken(o: Owner, s: State, dir: string) {
    dir in s.packages && Differs(o, s.slots, s.packages[dir])
  }

  /** Exactly then an install finds the artifact already applied although it is not there. */
  lemma MistakenMeans(digest: Listing -> string, platform: string, name: string, version: string,
                      s: State, dir: string, clearing: Clearing, budget: nat)
    requires dir in s.packages
    ensures var e := EntryFor(digest, platform, name, version, s.packages[dir]);
      Mistaken(OwnerOf(platform, name, version), s, dir) <==>
        AfterRestore(s, e, dir, clearing, budget).1 == Some(AlreadyApplied) && s.packages[dir] != s.slots[e.slot]
  {
  }

  /** The steps after which a directory is newly mistaken, told from the state before. */
  predicate Misleads(o: Owner, s: State, t: Step, dir: string) {
    match t
    case RestoreStep(e, d, clearing, budget) =>
      && d == dir && e.slot in s.slots && !MarkerMatches(s, dir, e.inputHash)
      && if clearing.Stuck? && dir in s.packages then Differs(o, s.slots, clearing.left)
         else !clearing.Gone? && RestoreMisleads(o, s.slots, e, budget)
    case SaveStep(e, d, marking, budget) =>
      marking.Marked? && d in s.packages && WriteMarker(s.packages[d], e.inputHash).Some? &&
      var marked := WriteMarker(s.packages[d], e.inputHash).value;
      var home := SlotOf(o, e.inputHash);
      if d == dir then home in s.slots && marked != s.slots[home]
      else
        && e.slot == home && home !in s.slots && Size(marked) <= budget
        && MarkerMatches(s, dir, e.inputHash) && s.packages[dir] != marked
    case Edit(d, content) => d == dir && Differs(o, s.slots, content)
    case Remove(_) => false
  }

  /** The copy gets as far as the marker, and stops before the end or comes from
      another owner's slot with a different tree. */
  predicate RestoreMisleads(o: Owner, slots: map<Slot, Listing>, e: CacheEntry, budget: nat)
    requires e.slot in slots
  {
    var slot, home := slots[e.slot], SlotOf(o, e.inputHash);
    && BeforeMarker(slot) < budget && home in slots
    && if home == e.slot then budget < Size(slot) else Copied(slot, budget).copied != slots[home]
  }

  lemma RestoreMisleadsIff(o: Owner, slots: map<Slot, Listing>, e: CacheEntry, budget: nat)
    requires SlotsMarked(slots) && GoodEntry(e) && e.slot in slots
    ensures Differs(o, slots, Copied(slots[e.slot], budget).copied) <==> RestoreMisleads(o, slots, e, budget)
  {
    var slot := slots[e.slot];
    MarkerCopiedIff(slot, budget);
    CopyIsWhole(slot, budget);
    if budget < Size(slot) {
      BrokenCopyDiffers(slot, budget);
    }
  }

  lemma RestoreStepMisleadsIff(o: Owner, s: State, e: CacheEntry, d: string, clearing: Clearing, budget: nat,
                               dir: string)
    requires SlotsMarked(s.slots) && GoodEntry(e) && !Mistaken(o, s, dir)
    ensures Mistaken(o, AfterRestore(s, e, d, clearing, budget).0, dir)
       <==> Misleads(o, s, RestoreStep(e, d, clearing, budget), dir)
  {
    if d == dir && e.slot in s.slots {
      RestoreMisleadsIff(o, s.slots, e, budget);
    }
  }

  lemma SaveMisleadsIff(o: Owner, s: State, e: CacheEntry, d: string, marking: Marking, budget: nat, dir: string)
    requires SlotsMarked(s.slots) && GoodEntry(e) && CutShort(marking, e.inputHash) && !Mistaken(o, s, dir)
    ensures Mistaken(o, AfterSave(s, e, d, marking, budget).0, dir)
       <==> Misleads(o, s, SaveStep(e, d, marking, budget), dir)
  {
    if d in s.packages && WriteMarker(s.packages[d], e.inputHash).Some? {
      if marking.PartlyMarked? {
        PartlyMarkedIsNotMistaken(o, s, e, d, marking, budget);
      } else {
        var marked := WriteMarker(s.packages[d], e.inputHash).value;
        MarkerIsRead(s.packages[d], e.inputHash);
        CopyIsWhole(marked, budget);
      }
    }
  }

  /** A marker whose write was cut short names nothing. */
  lemma PartlyMarkedIsNotMistaken(o: Owner, s: State, e: CacheEntry, d: string, marking: Marking, budget: nat)
    requires GoodEntry(e) && marking.PartlyMarked? && CutShort(marking, e.inputHash)
    requires d in s.packages && WriteMarker(s.packages[d], e.inputHash).Some?
    ensures var (s', ok) := AfterSave(s, e, d, marking, budget);
      && !ok && !Mistaken(o, s', d) && s'.slots == s.slots
      && forall dir :: dir != d ==> (Mistaken(o, s', dir) <==> Mistaken(o, s, dir))
  {
    PartIsNoMarker(s.packages[d], e.inputHash, marking.written);
  }

  /** A directory that was not mistaken becomes so by exactly these steps: a restore that
      stops between the marker and the end, or brings in the artifact of another owner
      whose digest has a slot of this owner too; a save onto a slot with a different
      tree, or one elsewhere that creates the slot this directory's marker names; and
      edits, and removals that fail, that leave such a tree. */
  lemma StepMisleadsIff(o: Owner, s: State, t: Step, dir: string)
    requires SlotsMarked(s.slots) && GoodStep(t) && !Mistaken(o, s, dir)
    ensures Mistaken(o, Apply(s, t), dir) <==> Misleads(o, s, t, dir)
  {
    match t {
      case RestoreStep(e, d, clearing, budget) => RestoreStepMisleadsIff(o, s, e, d, clearing, budget, dir);
      case SaveStep(e, d, marking, budget) => SaveMisleadsIff(o, s, e, d, marking, budget, dir);
      case Edit(_, _) =>
      case Remove(_) =>
    }
  }

  /** Over every run: a mistaken directory was so at the start, or some step misled. */
  lemma {:induction false} MistakenFromAStep(o: Owner, s: State, steps: seq<Step>, dir: string) returns (i: nat)
    requires SlotsMarked(s.slots) && forall j :: 0 <= j < |steps| ==> GoodStep(steps[j])
    requires !Mistaken(o, s, dir) && Mistaken(o, Run(s, steps), dir)
    ensures i < |steps| && !Mistaken(o, Run(s, steps[..i]), dir) && Misleads(o, Run(s, steps[..i]), steps[i], dir)
    decreases |steps|
  {
    var next := Apply(s, steps[0]);
    StepKeepsSlots(s, steps[0]);
    StepMisleadsIff(o, s, steps[0], dir);
    if Mistaken(o, next, dir) {
      i := 0;
    } else {
      var j := MistakenFromAStep(o, next, steps[1..], dir);
      i := j + 1;
      assert steps[..i][0] == steps[0] && steps[..i][1..] == steps[1..][..j];
    }
  }

  /** A restore that fails midway never leaves the artifact, and the next install takes it
      for applied if and only if the copy got past the marker. */
  lemma BrokenRestoreLooksApplied(digest: Listing -> string, platform: string, name: string, version: string,
                                  s: State, e: CacheEntry, dir: string, budget: nat)
    requires SlotsMarked(s.slots) && GoodEntry(e)
    requires e.slot == SlotOf(OwnerOf(platform, name, version), e.inputHash)
    requires AfterRestore(s, e, dir, Cleared, budget).1.None?
    ensures var s' := AfterRestore(s, e, dir, Cleared, budget).0;
      var anew := EntryFor(digest, platform, name, version, s'.packages[dir]);
      && s'.packages[dir] != s.slots[e.slot]
      && (AfterRestore(s', anew, dir, Cleared, budget).1 == Some(AlreadyApplied) <==>
            BeforeMarker(s.slots[e.slot]) < budget)
  {
    var slot := s.slots[e.slot];
    CopyIsWhole(slot, budget);
    BrokenCopyDiffers(slot, budget);
    MarkerCopiedIff(slot, budget);
    FreshEntryApplies(digest, platform, name, version, AfterRestore(s, e, dir, Cleared, budget).0, dir, budget);
  }

  /** A fresh entry is applied exactly if the directory has a marker that names a slot. */
  lemma FreshEntryApplies(digest: Listing -> string, platform: string, name: string, version: string,
                          s: State, dir: string, budget: nat)
    requires dir in s.packages
    ensures var marker := ReadMarker(s.packages[dir]);
      var anew := EntryFor(digest, platform, name, version, s.packages[dir]);
      (AfterRestore(s, anew, dir, Cleared, budget).1 == Some(AlreadyApplied)) <==>
        (marker.Some? && SlotOf(OwnerOf(platform, name, version), marker.value) in s.slots)
  {
  }

  /** After a restore that failed midway the scripts run all the same and the result is saved:
      the marker goes in, so the directory is mistaken unless it is now the slot's tree. */
  lemma SaveAfterBrokenRestore(o: Owner, s: State, e: CacheEntry, dir: string, budget: nat, room: nat)
    requires SlotsMarked(s.slots) && GoodEntry(e) && e.slot == SlotOf(o, e.inputHash)
    requires AfterRestore(s, e, dir, Cleared, budget).1.None?
    ensures var s1 := AfterRestore(s, e, dir, Cleared, budget).0;
      WriteMarker(s1.packages[dir], e.inputHash).Some? ==>
        && AfterSave(s1, e, dir, Marked, room).1
        && (Mistaken(o, AfterSave(s1, e, dir, Marked, room).0, dir) <==>
              WriteMarker(s1.packages[dir], e.inputHash).value != s.slots[e.slot])
  {
    var s1 := AfterRestore(s, e, dir, Cleared, budget).0;
    if WriteMarker(s1.packages[dir], e.inputHash).Some? {
      MarkerIsRead(s1.packages[dir], e.inputHash);
    }
  }

  // ---- they happen ----

  /** A built package, with the marker as its first name. */
  function Built(hash: string, output: string): Listing {
    [Entry(MARKER, File(hash)), Entry("built.js", File(output))]
  }

  function EntryOf(o: Owner, hash: string): CacheEntry {
    CacheEntry(hash, SlotOf(o, hash))
  }

  lemma BuiltIsMarked(hash: string, output: string)
    requires IsDigest(hash)
    ensures ReadMarker(Built(hash, output)) == Some(hash)
    ensures Position(Built(hash, output), MARKER) == 0 && BeforeMarker(Built(hash, output)) == 0
  {
    TrimDigest(hash);
    assert Built(hash, output)[..0] == [];
  }

  lemma BuiltCopies(hash: string, output: string)
    ensures Size(Built(hash, output)) == 2
    ensures Copied(Built(hash, output), 0) == Copying([], 0, false)
    ensures Copied(Built(hash, output), 1) == Copying([Entry(MARKER, File(hash))], 0, false)
  {
    var es := Built(hash, output);
    assert es[1..][1..] == [] && Size(es[1..]) == 1;
    assert Copied(es[1..], 0) == Copying([], 0, false);
    assert [es[0]] + [] == [es[0]];
  }

  /** What one slot of `o` holds. */
  function OneSlot(o: Owner, hash: string): State {
    State(map[SlotOf(o, hash) := Built(hash, "x")], map[])
  }

  /** A restore that could create one entry leaves only the marker, and is taken for complete. */
  lemma MarkerAloneIsMistaken(o: Owner, hash: string, dir: string)
    requires IsDigest(hash)
    ensures var (s', result) := AfterRestore(OneSlot(o, hash), EntryOf(o, hash), dir, Cleared, 1);
      && SlotsMarked(OneSlot(o, hash).slots) && GoodEntry(EntryOf(o, hash)) && result.None?
      && s'.packages[dir] == [Entry(MARKER, File(hash))] && Mistaken(o, s', dir)
  {
    BuiltIsMarked(hash, "x");
    BuiltCopies(hash, "x");
    RestoreMisleadsIff(o, OneSlot(o, hash).slots, EntryOf(o, hash), 1);
  }

  lemma EmptyIsMarked(hash: string)
    ensures ReadMarker([]).None? && WriteMarker([], hash) == Some([Entry(MARKER, File(hash))])
  {
  }

  /** A restore that could create nothing leaves no marker; the save that follows writes it. */
  lemma SavedEmptinessIsMistaken(o: Owner, hash: string, dir: string, room: nat)
    requires IsDigest(hash)
    ensures var (s1, result) := AfterRestore(OneSlot(o, hash), EntryOf(o, hash), dir, Cleared, 0);
      && SlotsMarked(OneSlot(o, hash).slots) && result.None? && s1.packages[dir] == []
      && var (s2, saved) := AfterSave(s1, EntryOf(o, hash), dir, Marked, room);
         saved && Mistaken(o, s2, dir)
  {
    BuiltIsMarked(hash, "x");
    BuiltCopies(hash, "x");
    EmptyIsMarked(hash);
    assert |Built(hash, "x")| == 2;
    SaveAfterBrokenRestore(o, OneSlot(o, hash), EntryOf(o, hash), dir, 0, room);
  }

  function TwoSlots(mine: Owner, other: Owner, hash: string): State {
    State(map[SlotOf(mine, hash) := Built(hash, "mine"), SlotOf(other, hash) := Built(hash, "other")], map[])
  }

  lemma BuiltDiffer(hash: string)
    ensures Built(hash, "mine") != Built(hash, "other")
  {
    assert "mine"[0] != "other"[0];
    assert Built(hash, "mine")[1] != Built(hash, "other")[1];
  }

  /** The marker does not tell platforms apart: a complete restore for one platform is
      taken for the artifact of another one that has a slot under the same digest. */
  lemma OtherPlatformIsMistaken(mine: Owner, other: Owner, hash: string, dir: string)
    requires mine != other && IsDigest(hash)
    ensures var (s', result) := AfterRestore(TwoSlots(mine, other, hash), EntryOf(other, hash), dir, Cleared, 2);
      && SlotsMarked(TwoSlots(mine, other, hash).slots) && result == Some(Restored)
      && s'.packages[dir] == Built(hash, "other") && Mistaken(mine, s', dir)
  {
    BuiltIsMarked(hash, "mine");
    BuiltIsMarked(hash, "other");
    BuiltCopies(hash, "other");
    CopyIsWhole(Built(hash, "other"), 2);
    BuiltDiffer(hash);
  }
}
