/** Materializing one shared entry while any number of processes may do the
    same (snpm-core/src/linker/virtual_store.rs, `materialize_one_package`,
    `virtual_package_ready`).  A state machine over the file-system steps of the
    calls; every step of every process may be interleaved with any other. */
module Materialize {
  import opened Ordering
  import opened Wrappers

  type Pid = nat

  /** A directory by the paths of its entries, files and directories alike; what an
      entry is, and what is in a file, is fixed by the store package. */
  datatype Slot = Absent | Dir(entries: set<Path>)

  /** Where a process stands in its call.  `Linking` remembers the entries this
      call has made. */
  datatype Pc =
    | Idle | Checking | Inspecting | Removing | InspectingStaging | RemovingStaging
    | Creating | Linking(written: set<Path>) | LinkFailed
    | Renaming | RenameFailed | Rechecking | Done(ok: bool) | Crashed

  datatype State = State(location: Slot, staging: map<Pid, Slot>, pcs: map<Pid, Pc>)

  /** One step of process `pid`.  `ok` says whether the system call works. */
  datatype Action =
    | Begin(pid: Pid)
    | Check(pid: Pid)
    | Inspect(pid: Pid)
    | Remove(pid: Pid, ok: bool)
    | RemoveEntry(pid: Pid, entry: Path)
    | InspectStaging(pid: Pid)
    | RemoveStaging(pid: Pid, ok: bool)
    | RemoveStagingEntry(pid: Pid, entry: Path)
    | Create(pid: Pid)
    | LinkEntry(pid: Pid, entry: Path)
    | LinkFails(pid: Pid)
    | LinkDone(pid: Pid)
    | CleanAfterLink(pid: Pid, ok: bool)
    | Rename(pid: Pid, ok: bool)
    | CleanAfterRename(pid: Pid, ok: bool)
    | Recheck(pid: Pid)
    | Crash(pid: Pid)

  const METADATA_FILE := ".snpm-package-metadata.json"

  /** The metadata file is there, or the directory has any entry. */
  predicate Ready(slot: Slot) {
    slot.Dir? && ([METADATA_FILE] in slot.entries || slot.entries != {})
  }

  /** The directory an entry lies in is there; the root always is. */
  predicate HasParent(entries: set<Path>, e: Path) {
    e != [] && (|e| == 1 || e[..|e| - 1] in entries)
  }

  /** Every entry lies in a directory of the tree. */
  predicate IsTree(entries: set<Path>) {
    forall e :: e in entries ==> HasParent(entries, e)
  }

  /** Nothing lies in the entry: a file, or an empty directory. */
  predicate IsLeaf(entries: set<Path>, e: Path) {
    e in entries && forall c :: c in entries && c != [] ==> c[..|c| - 1] != e
  }

  function PcOf(s: State, p: Pid): Pc {
    if p in s.pcs then s.pcs[p] else Idle
  }

  function StagingOf(s: State, p: Pid): Slot {
    if p in s.staging then s.staging[p] else Absent
  }

  function Goto(s: State, p: Pid, pc: Pc): State {
    s.(pcs := s.pcs[p := pc])
  }

  function SetStaging(s: State, p: Pid, slot: Slot): State {
    s.(staging := s.staging[p := slot])
  }

  /** A directory moves onto an absent path or an empty directory only. */
  predicate RenameWorks(target: Slot) {
    target.Absent? || target.entries == {}
  }

  /** Whether the step can happen when the store package has the entries `full`;
      with `atomic`, removing a directory is one step.  Otherwise entries may go one by
      one, what lies in a directory before the directory; they are always made after it. */
  predicate Enabled(full: set<Path>, atomic: bool, s: State, a: Action) {
    var pc := PcOf(s, a.pid);
    match a
    case Begin(_) => pc.Idle? || pc.Done?
    case Check(_) => pc.Checking?
    case Inspect(_) => pc.Inspecting?
    case Remove(_, _) => pc.Removing?
    case RemoveEntry(_, e) => !atomic && pc.Removing? && s.location.Dir? && IsLeaf(s.location.entries, e)
    case InspectStaging(_) => pc.InspectingStaging?
    case RemoveStaging(_, _) => pc.RemovingStaging?
    case RemoveStagingEntry(_, e) =>
      && !atomic && (pc.RemovingStaging? || pc.LinkFailed? || pc.RenameFailed?)
      && StagingOf(s, a.pid).Dir? && IsLeaf(StagingOf(s, a.pid).entries, e)
    case Create(_) => pc.Creating?
    case LinkEntry(_, e) => pc.Linking? && e in full && e !in pc.written && HasParent(pc.written, e)
    case LinkFails(_) => pc.Creating? || pc.Linking?
    case LinkDone(_) => pc.Linking? && pc.written == full
    case CleanAfterLink(_, _) => pc.LinkFailed?
    case Rename(_, ok) => pc.Renaming? && (ok ==> RenameWorks(s.location))
    case CleanAfterRename(_, _) => pc.RenameFailed?
    case Recheck(_) => pc.Rechecking?
    case Crash(_) => !pc.Crashed?
  }

  function Apply(s: State, a: Action): State {
    var p := a.pid;
    match a
    case Begin(_) => Goto(s, p, Checking)
    case Check(_) => Goto(s, p, if Ready(s.location) then Done(true) else Inspecting)
    case Inspect(_) => Goto(s, p, if s.location.Dir? then Removing else InspectingStaging)
    case Remove(_, ok) => Goto(if ok then s.(location := Absent) else s, p, InspectingStaging)
    case RemoveEntry(_, e) => if s.location.Dir? then s.(location := Dir(s.location.entries - {e})) else s
    case InspectStaging(_) => Goto(s, p, if StagingOf(s, p).Dir? then RemovingStaging else Creating)
    case RemoveStaging(_, ok) => Goto(if ok then SetStaging(s, p, Absent) else s, p, Creating)
    case RemoveStagingEntry(_, e) =>
      if StagingOf(s, p).Dir? then SetStaging(s, p, Dir(StagingOf(s, p).entries - {e})) else s
    case Create(_) =>
      Goto(if StagingOf(s, p).Dir? then s else SetStaging(s, p, Dir({})), p, Linking({}))
    case LinkEntry(_, e) =>
      if PcOf(s, p).Linking? && StagingOf(s, p).Dir?
      then Goto(SetStaging(s, p, Dir(StagingOf(s, p).entries + {e})), p, Linking(PcOf(s, p).written + {e}))
      else s
    case LinkFails(_) => Goto(s, p, LinkFailed)
    case LinkDone(_) => Goto(s, p, Renaming)
    case CleanAfterLink(_, ok) => Goto(if ok then SetStaging(s, p, Absent) else s, p, Done(false))
    case Rename(_, ok) =>
      if ok then Goto(SetStaging(s.(location := StagingOf(s, p)), p, Absent), p, Done(true))
      else Goto(s, p, RenameFailed)
    case CleanAfterRename(_, ok) => Goto(if ok then SetStaging(s, p, Absent) else s, p, Rechecking)
    case Recheck(_) => Goto(s, p, Done(Ready(s.location)))
    case Crash(_) => Goto(s, p, Crashed)
  }

  /** No process has started and the location is absent. */
  const START := State(Absent, map[], map[])

  function Exec(s: State, run: seq<Action>): State {
    if run == [] then s else Apply(Exec(s, run[..|run| - 1]), run[|run| - 1])
  }

  predicate Possible(full: set<Path>, atomic: bool, s: State, run: seq<Action>) {
    run == [] || (Possible(full, atomic, s, run[..|run| - 1]) &&
                  Enabled(full, atomic, Exec(s, run[..|run| - 1]), run[|run| - 1]))
  }

  // ---- safety ----

  predicate AbsentOrFull(full: set<Path>, slot: Slot) {
    slot == Absent || slot == Dir(full)
  }

  /** What a process has staged fits the point it has reached. */
  predicate StagedRight(full: set<Path>, slot: Slot, pc: Pc) {
    && (slot.Dir? ==> slot.entries <= full)
    && (pc.Linking? ==> slot.Dir? && pc.written <= slot.entries)
    && (pc.Renaming? ==> slot == Dir(full))
  }

  ghost predicate Invariant(full: set<Path>, s: State) {
    AbsentOrFull(full, s.location) && forall p: Pid :: StagedRight(full, StagingOf(s, p), PcOf(s, p))
  }

  lemma StepKeepsInvariant(full: set<Path>, s: State, a: Action)
    requires Invariant(full, s) && Enabled(full, true, s, a)
    ensures Invariant(full, Apply(s, a))
  {
    var s' := Apply(s, a);
    assert StagedRight(full, StagingOf(s, a.pid), PcOf(s, a.pid));
    forall p: Pid
      ensures StagedRight(full, StagingOf(s', p), PcOf(s', p))
    {
      assert StagedRight(full, StagingOf(s, p), PcOf(s, p));
      if p != a.pid {
        assert StagingOf(s', p) == StagingOf(s, p) && PcOf(s', p) == PcOf(s, p);
      }
    }
  }

  /** After any interleaving of any number of calls, failed system calls and
      crashes included, the location is absent or a full copy of the package. */
  lemma {:induction false} AlwaysAbsentOrFull(full: set<Path>, run: seq<Action>)
    requires Possible(full, true, START, run)
    ensures Invariant(full, Exec(START, run)) && AbsentOrFull(full, Exec(START, run).location)
    decreases |run|
  {
    if run != [] {
      AlwaysAbsentOrFull(full, run[..|run| - 1]);
      StepKeepsInvariant(full, Exec(START, run[..|run| - 1]), run[|run| - 1]);
    }
  }

  /** The step with which a call returns Ok has a full copy at the location
      right before or right after it. */
  lemma OkSawItComplete(full: set<Path>, run: seq<Action>, a: Action)
    requires Possible(full, true, START, run) && Enabled(full, true, Exec(START, run), a)
    requires PcOf(Exec(START, run), a.pid) != Done(true)
    requires PcOf(Apply(Exec(START, run), a), a.pid) == Done(true)
    ensures Exec(START, run).location == Dir(full) || Apply(Exec(START, run), a).location == Dir(full)
  {
    AlwaysAbsentOrFull(full, run);
    var s := Exec(START, run);
    assert StagedRight(full, StagingOf(s, a.pid), PcOf(s, a.pid));
  }

  /** The location only ever goes from absent to full by a rename and back by
      a removal: no other step changes it. */
  lemma OnlyRenameAndRemoveMoveIt(full: set<Path>, run: seq<Action>, a: Action)
    requires Possible(full, true, START, run) && Enabled(full, true, Exec(START, run), a)
    ensures var before, after := Exec(START, run).location, Apply(Exec(START, run), a).location;
      before != after ==>
        || (a.Rename? && before == Absent && after == Dir(full))
        || (a.Remove? && before == Dir(full) && after == Absent)
  {
    AlwaysAbsentOrFull(full, run);
    var s := Exec(START, run);
    assert StagedRight(full, StagingOf(s, a.pid), PcOf(s, a.pid));
  }

  // ---- the order of the system calls, and what each does ----

  function LastStep(run: seq<Action>, p: Pid): Option<Action> {
    if run == [] then None
    else if run[|run| - 1].pid == p then Some(run[|run| - 1])
    else LastStep(run[..|run| - 1], p)
  }

  /** Which step of a process may come after which, None being its start. */
  predicate MayFollow(last: Option<Action>, a: Action) {
    match last
    case None => a.Begin? || a.Crash?
    case Some(b) => ComesAfter(a, b)
  }

  predicate ComesAfter(a: Action, b: Action) {
    match a
    case Begin(_) => b.Check? || b.CleanAfterLink? || b.Recheck? || (b.Rename? && b.ok)
    case Check(_) => b.Begin?
    case Inspect(_) => b.Check?
    case Remove(_, _) => b.Inspect? || b.RemoveEntry?
    case RemoveEntry(_, _) => b.Inspect? || b.RemoveEntry?
    case InspectStaging(_) => b.Inspect? || b.Remove?
    case RemoveStaging(_, _) => b.InspectStaging? || b.RemoveStagingEntry?
    case RemoveStagingEntry(_, _) =>
      b.InspectStaging? || b.LinkFails? || (b.Rename? && !b.ok) || b.RemoveStagingEntry?
    case Create(_) => b.InspectStaging? || b.RemoveStaging?
    case LinkEntry(_, _) => b.Create? || b.LinkEntry?
    case LinkFails(_) => b.InspectStaging? || b.RemoveStaging? || b.Create? || b.LinkEntry?
    case LinkDone(_) => b.Create? || b.LinkEntry?
    case CleanAfterLink(_, _) => b.LinkFails? || b.RemoveStagingEntry?
    case Rename(_, _) => b.LinkDone?
    case CleanAfterRename(_, _) => (b.Rename? && !b.ok) || b.RemoveStagingEntry?
    case Recheck(_) => b.CleanAfterRename?
    case Crash(_) => !b.Crash?
  }

  /** What the last step of a process was, told from where it stands. */
  predicate StandsAfter(pc: Pc, last: Option<Action>) {
    match last
    case None => pc.Idle?
    case Some(b) => LeadsHere(b, pc)
  }

  predicate LeadsHere(b: Action, pc: Pc) {
    match pc
    case Idle => false
    case Checking => b.Begin?
    case Inspecting => b.Check?
    case Removing => b.Inspect? || b.RemoveEntry?
    case InspectingStaging => b.Inspect? || b.Remove?
    case RemovingStaging => b.InspectStaging? || b.RemoveStagingEntry?
    case Creating => b.InspectStaging? || b.RemoveStaging?
    case Linking(_) => b.Create? || b.LinkEntry?
    case LinkFailed => b.LinkFails? || b.RemoveStagingEntry?
    case Renaming => b.LinkDone?
    case RenameFailed => (b.Rename? && !b.ok) || b.RemoveStagingEntry?
    case Rechecking => b.CleanAfterRename?
    case Done(_) => b.Check? || b.CleanAfterLink? || b.Recheck? || (b.Rename? && b.ok)
    case Crashed => b.Crash?
  }

  lemma {:induction false} WhereItStands(full: set<Path>, atomic: bool, run: seq<Action>, p: Pid)
    requires Possible(full, atomic, START, run)
    ensures StandsAfter(PcOf(Exec(START, run), p), LastStep(run, p))
    decreases |run|
  {
    if run != [] {
      var before, a := run[..|run| - 1], run[|run| - 1];
      WhereItStands(full, atomic, before, p);
      NextStands(full, atomic, Exec(START, before), a, p, LastStep(before, p));
    }
  }

  lemma NextStands(full: set<Path>, atomic: bool, s: State, a: Action, p: Pid, last: Option<Action>)
    requires Enabled(full, atomic, s, a) && StandsAfter(PcOf(s, p), last)
    ensures StandsAfter(PcOf(Apply(s, a), p), if a.pid == p then Some(a) else last)
  {
  }

  /** Every process makes its system calls in the order of the program. */
  lemma InOrder(full: set<Path>, atomic: bool, run: seq<Action>, a: Action)
    requires Possible(full, atomic, START, run) && Enabled(full, atomic, Exec(START, run), a)
    ensures MayFollow(LastStep(run, a.pid), a)
  {
    WhereItStands(full, atomic, run, a.pid);
  }

  /** A process can stop at any point where it has not stopped, and linking can fail from the
      creation of the staging directory on. */
  lemma MayStop(full: set<Path>, atomic: bool, run: seq<Action>, p: Pid)
    requires Possible(full, atomic, START, run)
    ensures LastStep(run, p).None? || !LastStep(run, p).value.Crash? ==>
      Enabled(full, atomic, Exec(START, run), Crash(p))
    ensures LastStep(run, p).Some? && (LastStep(run, p).value.LinkEntry? || LastStep(run, p).value.Create?) ==>
      Enabled(full, atomic, Exec(START, run), LinkFails(p))
  {
    WhereItStands(full, atomic, run, p);
  }

  /** What a step does to the location and to the staging directories: each call what it is
      for, and nothing where it fails. */
  lemma EffectOf(full: set<Path>, atomic: bool, run: seq<Action>, a: Action)
    requires Possible(full, atomic, START, run) && Enabled(full, atomic, Exec(START, run), a)
    ensures var (s, s') := (Exec(START, run), Exec(START, run + [a]));
      var (staged, staged') := (StagingOf(s, a.pid), StagingOf(s', a.pid));
      && (forall q :: q != a.pid ==> StagingOf(s', q) == StagingOf(s, q))
      && s'.location == (match a
           case Remove(_, true) => Absent
           case Rename(_, true) => staged
           case RemoveEntry(_, e) => if s.location.Dir? then Dir(s.location.entries - {e}) else s.location
           case _ => s.location)
      && staged' == (match a
           case RemoveStaging(_, true) => Absent
           case CleanAfterLink(_, true) => Absent
           case CleanAfterRename(_, true) => Absent
           case Rename(_, true) => Absent
           case Create(_) => if staged.Dir? then staged else Dir({})
           case LinkEntry(_, e) => if staged.Dir? then Dir(staged.entries + {e}) else staged
           case RemoveStagingEntry(_, e) => if staged.Dir? then Dir(staged.entries - {e}) else staged
           case _ => staged)
  {
    ExecStep(run, a);
  }

  /** Every entry comes with all the directories above it. */
  ghost predicate Rooted(slot: Slot) {
    slot.Dir? ==> forall e :: e in slot.entries ==> e != [] && forall k :: 0 < k < |e| ==> e[..k] in slot.entries
  }

  ghost predicate RootedAt(s: State, p: Pid) {
    Rooted(StagingOf(s, p)) && (PcOf(s, p).Linking? ==> Rooted(Dir(PcOf(s, p).written)))
  }

  ghost predicate AllRooted(s: State) {
    Rooted(s.location) && forall p: Pid :: RootedAt(s, p)
  }

  lemma AddRooted(entries: set<Path>, part: set<Path>, e: Path)
    requires Rooted(Dir(entries)) && Rooted(Dir(part)) && part <= entries && HasParent(part, e)
    ensures Rooted(Dir(entries + {e}))
  {
    forall k | 0 < k < |e|
      ensures e[..k] in entries
    {
      var parent := e[..|e| - 1];
      assert e[..k] == if k < |parent| then parent[..k] else parent;
    }
  }

  lemma DropRooted(entries: set<Path>, leaf: Path)
    requires Rooted(Dir(entries)) && IsLeaf(entries, leaf)
    ensures Rooted(Dir(entries - {leaf}))
  {
    forall e, k | e in entries - {leaf} && 0 < k < |e|
      ensures e[..k] in entries - {leaf}
    {
      NoLeafAbove(entries, e, k);
    }
  }

  lemma NoLeafAbove(entries: set<Path>, e: Path, k: nat)
    requires Rooted(Dir(entries)) && e in entries && 0 < k < |e|
    ensures !IsLeaf(entries, e[..k])
  {
    var child := e[..k + 1];
    assert k + 1 == |e| ==> child == e;
    assert child in entries && child[..|child| - 1] == e[..k];
  }

  /** However the calls are interleaved and wherever they stop, with removal entry by entry
      too, there is never an entry without the directories above it. */
  lemma {:induction false} AlwaysRooted(full: set<Path>, atomic: bool, run: seq<Action>)
    requires Possible(full, atomic, START, run)
    ensures LooseInvariant(full, Exec(START, run)) && AllRooted(Exec(START, run))
    decreases |run|
  {
    if run != [] {
      AlwaysRooted(full, atomic, run[..|run| - 1]);
      StepKeepsRooted(full, atomic, Exec(START, run[..|run| - 1]), run[|run| - 1]);
    }
  }

  lemma StepKeepsRooted(full: set<Path>, atomic: bool, s: State, a: Action)
    requires LooseInvariant(full, s) && AllRooted(s) && Enabled(full, atomic, s, a)
    ensures LooseInvariant(full, Apply(s, a)) && AllRooted(Apply(s, a))
  {
    StepKeepsLooseInvariant(full, atomic, s, a);
    OwnStaysRooted(full, atomic, s, a);
    forall p: Pid
      ensures RootedAt(Apply(s, a), p)
    {
      assert RootedAt(s, p);
      if p != a.pid {
        OthersStay(s, a, p);
      }
    }
  }

  lemma OthersStay(s: State, a: Action, q: Pid)
    requires q != a.pid
    ensures StagingOf(Apply(s, a), q) == StagingOf(s, q) && PcOf(Apply(s, a), q) == PcOf(s, q)
  {
  }

  lemma OwnStaysRooted(full: set<Path>, atomic: bool, s: State, a: Action)
    requires LooseInvariant(full, s) && AllRooted(s) && Enabled(full, atomic, s, a)
    ensures Rooted(Apply(s, a).location) && RootedAt(Apply(s, a), a.pid)
  {
    var slot := StagingOf(s, a.pid);
    assert RootedAt(s, a.pid) && StagedRight(full, slot, PcOf(s, a.pid));
    match a {
      case RemoveEntry(_, e) => DropRooted(s.location.entries, e);
      case RemoveStagingEntry(_, e) => DropRooted(slot.entries, e);
      case LinkEntry(_, e) =>
        AddRooted(slot.entries, PcOf(s, a.pid).written, e);
        AddRooted(PcOf(s, a.pid).written, PcOf(s, a.pid).written, e);
      case _ =>
    }
  }

  // ---- when a call returns Ok, and when it fails ----

  /** The last step of `p` so far is `a`. */
  ghost predicate LastOf(run: seq<Action>, p: Pid, a: Action) {
    exists j :: 0 <= j < |run| && run[j] == a && forall k :: j < k < |run| ==> run[k].pid != p
  }

  /** The last two steps of `p` so far are a rename that failed and the cleanup after it. */
  ghost predicate LostRename(run: seq<Action>, p: Pid) {
    exists j, k :: 0 <= j < k < |run| && run[j] == Rename(p, false) && run[k].CleanAfterRename? && run[k].pid == p
                   && forall i :: j < i < |run| && i != k ==> run[i].pid != p
  }

  lemma LastOfGrows(run: seq<Action>, p: Pid, a: Action, next: Action)
    ensures LastOf(run, p, a) && next.pid != p ==> LastOf(run + [next], p, a)
    ensures a.pid == p ==> LastOf(run + [a], p, a)
    ensures LostRename(run, p) && next.pid != p ==> LostRename(run + [next], p)
    ensures LastOf(run, p, Rename(p, false)) && next.CleanAfterRename? && next.pid == p ==> LostRename(run + [next], p)
  {
    var longer := run + [next];
    if j :| 0 <= j < |run| && run[j] == a && forall k :: j < k < |run| ==> run[k].pid != p {
      assert longer[j] == a;
    }
    assert (run + [a])[|run|] == a;
    if j :| 0 <= j < |run| && run[j] == Rename(p, false) && forall k :: j < k < |run| ==> run[k].pid != p {
      assert longer[j] == Rename(p, false) && longer[|run|] == next;
    }
    if j, k :| 0 <= j < k < |run| && run[j] == Rename(p, false) && run[k].CleanAfterRename? && run[k].pid == p
               && forall i :: j < i < |run| && i != k ==> run[i].pid != p {
      assert longer[j] == Rename(p, false) && longer[k] == run[k];
    }
  }

  /** How a process got to the points where its call is about to fail. */
  lemma {:induction false} HowItGotThere(full: set<Path>, run: seq<Action>, p: Pid)
    requires Possible(full, true, START, run)
    ensures PcOf(Exec(START, run), p) == LinkFailed ==> LastOf(run, p, LinkFails(p))
    ensures PcOf(Exec(START, run), p) == RenameFailed ==> LastOf(run, p, Rename(p, false))
    ensures PcOf(Exec(START, run), p) == Rechecking ==> LostRename(run, p)
    decreases |run|
  {
    if run != [] {
      var before, a := run[..|run| - 1], run[|run| - 1];
      assert run == before + [a];
      HowItGotThere(full, before, p);
      LastOfGrows(before, p, LinkFails(p), a);
      LastOfGrows(before, p, Rename(p, false), a);
      PointsOf(full, Exec(START, before), a, p);
    }
  }

  /** The steps that lead to those points. */
  lemma PointsOf(full: set<Path>, s: State, a: Action, p: Pid)
    requires Enabled(full, true, s, a)
    ensures var (before, after) := (PcOf(s, p), PcOf(Apply(s, a), p));
      && (a.pid != p ==> after == before)
      && (a.pid == p && after == LinkFailed ==> a == LinkFails(p))
      && (a.pid == p && after == RenameFailed ==> a == Rename(p, false))
      && (a.pid == p && after == Rechecking ==> a.CleanAfterRename? && before == RenameFailed)
  {
  }

  lemma ExecStep(run: seq<Action>, a: Action)
    ensures Exec(START, run + [a]) == Apply(Exec(START, run), a)
  {
    assert (run + [a])[..|run|] == run;
  }

  /** The step with which a call fails is the cleanup after a link that failed, or the second
      look after a rename that failed, and there is no full copy then either. */
  lemma FailsOnlySo(full: set<Path>, run: seq<Action>, a: Action)
    requires full != {} && Possible(full, true, START, run) && Enabled(full, true, Exec(START, run), a)
    requires PcOf(Exec(START, run), a.pid) != Done(false)
    requires PcOf(Exec(START, run + [a]), a.pid) == Done(false)
    ensures || (a.CleanAfterLink? && LastOf(run, a.pid, LinkFails(a.pid)))
            || (a.Recheck? && LostRename(run, a.pid) && Exec(START, run).location == Absent)
    ensures Exec(START, run + [a]).location == Exec(START, run).location
    ensures a.CleanAfterLink? && a.ok ==> StagingOf(Exec(START, run + [a]), a.pid) == Absent
  {
    ExecStep(run, a);
    AlwaysAbsentOrFull(full, run);
    HowItGotThere(full, run, a.pid);
  }

  /** So a call returns Ok when its rename works, and when it finds a full copy at first or
      after its rename failed; and it takes nothing away then. */
  lemma OkWhenComplete(full: set<Path>, run: seq<Action>, a: Action)
    requires full != {} && Possible(full, true, START, run) && Enabled(full, true, Exec(START, run), a)
    ensures a.Rename? && a.ok ==>
      && Exec(START, run).location == Absent && Exec(START, run + [a]).location == Dir(full)
      && PcOf(Exec(START, run + [a]), a.pid) == Done(true) && StagingOf(Exec(START, run + [a]), a.pid) == Absent
    ensures (a.Check? || a.Recheck?) && Exec(START, run).location == Dir(full) ==>
      PcOf(Exec(START, run + [a]), a.pid) == Done(true) && Exec(START, run + [a]).location == Dir(full)
  {
    ExecStep(run, a);
    AlwaysAbsentOrFull(full, run);
    assert StagedRight(full, StagingOf(Exec(START, run), a.pid), PcOf(Exec(START, run), a.pid));
  }

  /** All steps are of `p`, and every system call in them works. */
  ghost predicate AllWork(run: seq<Action>, p: Pid) {
    forall i :: 0 <= i < |run| ==> run[i].pid == p && Works(run[i])
  }

  predicate Works(a: Action) {
    match a
    case Remove(_, ok) => ok
    case RemoveStaging(_, ok) => ok
    case CleanAfterLink(_, ok) => ok
    case Rename(_, ok) => ok
    case CleanAfterRename(_, ok) => ok
    case LinkFails(_) => false
    case Crash(_) => false
    case _ => true
  }

  /** Run one more step of `p` that works, from `start`. */
  lemma DoWorking(full: set<Path>, start: State, p: Pid, run: seq<Action>, s: State, a: Action)
    returns (longer: seq<Action>, s': State)
    requires Possible(full, true, start, run) && Exec(start, run) == s && Enabled(full, true, s, a)
    requires AllWork(run, p) && a.pid == p && Works(a)
    ensures s' == Apply(s, a)
    ensures Possible(full, true, start, longer) && Exec(start, longer) == s' && AllWork(longer, p)
  {
    longer, s' := run + [a], Apply(s, a);
    assert longer[..|run|] == run;
  }

  lemma {:induction false} LinkAllOf(full: set<Path>, todo: set<Path>, start: State, p: Pid, run: seq<Action>, s: State)
      returns (longer: seq<Action>, s': State)
    requires Possible(full, true, start, run) && Exec(start, run) == s && AllWork(run, p)
    requires todo <= full && IsTree(full) && s.location == Absent
    requires PcOf(s, p) == Linking(full - todo) && StagingOf(s, p) == Dir(full - todo)
    ensures Possible(full, true, start, longer) && Exec(start, longer) == s' && AllWork(longer, p)
    ensures s'.location == Absent && PcOf(s', p) == Linking(full) && StagingOf(s', p) == Dir(full)
    decreases todo
  {
    if todo == {} {
      longer, s' := run, s;
      assert full - todo == full;
    } else {
      var e := NearestEntry(todo);
      ParentIsDone(full, todo, e);
      longer, s' := DoWorking(full, start, p, run, s, LinkEntry(p, e));
      assert full - todo + {e} == full - (todo - {e});
      longer, s' := LinkAllOf(full, todo - {e}, start, p, longer, s');
    }
  }

  /** From any state in which the location is absent or full, a call that has the place to
      itself and whose system calls all work ends with Ok and the full copy. */
  lemma Completes(full: set<Path>, start: State, p: Pid) returns (run: seq<Action>)
    requires full != {} && IsTree(full) && AbsentOrFull(full, start.location)
    requires PcOf(start, p).Idle? || PcOf(start, p).Done?
    ensures Possible(full, true, start, run) && AllWork(run, p)
    ensures PcOf(Exec(start, run), p) == Done(true) && Exec(start, run).location == Dir(full)
  {
    var s := start;
    run := [];
    run, s := DoWorking(full, start, p, run, s, Begin(p));
    run, s := DoWorking(full, start, p, run, s, Check(p));
    if start.location == Absent {
      run, s := BuildsFrom(full, start, p, run, s);
    }
  }

  /** The rest of such a call, once it has seen that nothing is there. */
  lemma BuildsFrom(full: set<Path>, start: State, p: Pid, before: seq<Action>, now: State)
    returns (run: seq<Action>, s: State)
    requires Possible(full, true, start, before) && Exec(start, before) == now && AllWork(before, p)
    requires IsTree(full) && now.location == Absent && PcOf(now, p) == Inspecting
    ensures Possible(full, true, start, run) && Exec(start, run) == s && AllWork(run, p)
    ensures PcOf(s, p) == Done(true) && s.location == Dir(full)
  {
    run, s := DoWorking(full, start, p, before, now, Inspect(p));
    run, s := DoWorking(full, start, p, run, s, InspectStaging(p));
    if StagingOf(s, p).Dir? {
      run, s := DoWorking(full, start, p, run, s, RemoveStaging(p, true));
    }
    run, s := DoWorking(full, start, p, run, s, Create(p));
    assert full - full == {};
    run, s := LinkAllOf(full, full, start, p, run, s);
    run, s := DoWorking(full, start, p, run, s, LinkDone(p));
    run, s := DoWorking(full, start, p, run, s, Rename(p, true));
  }

  // ---- why removal has to be one step ----

  /** Run one more step. */
  lemma Do(full: set<Path>, run: seq<Action>, s: State, a: Action) returns (longer: seq<Action>, s': State)
    requires Possible(full, false, START, run) && Exec(START, run) == s && Enabled(full, false, s, a)
    ensures longer == run + [a] && s' == Apply(s, a)
    ensures Possible(full, false, START, longer) && Exec(START, longer) == s'
  {
    longer, s' := run + [a], Apply(s, a);
    assert longer[..|run|] == run;
  }

  /** A call returns Ok although there is no full copy right before or right after that step. */
  predicate UnsafeOk(full: set<Path>, s: State, a: Action) {
    && Enabled(full, false, s, a)
    && PcOf(s, a.pid) != Done(true) && PcOf(Apply(s, a), a.pid) == Done(true)
    && s.location != Dir(full) && Apply(s, a).location != Dir(full)
  }

  ghost predicate CanBeUnsafe(full: set<Path>) {
    exists run, a :: Possible(full, false, START, run) && UnsafeOk(full, Exec(START, run), a)
  }

  /** One call finds the location absent and pauses; another is ready to link. */
  lemma PausedWhileOtherLinks(full: set<Path>) returns (run: seq<Action>, s: State)
    ensures Possible(full, false, START, run) && Exec(START, run) == s
    ensures s.location == Absent && PcOf(s, 1) == Inspecting && PcOf(s, 3) == Idle
    ensures PcOf(s, 2) == Linking({}) && StagingOf(s, 2) == Dir({})
  {
    run, s := Do(full, [], START, Begin(1));
    run, s := Do(full, run, s, Check(1));
    run, s := Do(full, run, s, Begin(2));
    run, s := Do(full, run, s, Check(2));
    run, s := Do(full, run, s, Inspect(2));
    run, s := Do(full, run, s, InspectStaging(2));
    run, s := Do(full, run, s, Create(2));
  }

  /** Of the entries that are left, one is as near to the root as any. */
  lemma {:induction false} NearestEntry(todo: set<Path>) returns (e: Path)
    requires todo != {}
    ensures e in todo && forall x :: x in todo ==> |e| <= |x|
    decreases todo
  {
    e :| e in todo;
    if todo != {e} {
      var x := NearestEntry(todo - {e});
      e := if |x| < |e| then x else e;
    }
  }

  /** And one is as far from it as any; so nothing lies in it. */
  lemma {:induction false} FarthestEntry(todo: set<Path>) returns (e: Path)
    requires todo != {}
    ensures e in todo && forall x :: x in todo ==> |x| <= |e|
    decreases todo
  {
    e :| e in todo;
    if todo != {e} {
      var x := FarthestEntry(todo - {e});
      e := if |x| > |e| then x else e;
    }
  }

  lemma ParentIsDone(full: set<Path>, todo: set<Path>, e: Path)
    requires IsTree(full) && todo <= full && e in todo && forall x :: x in todo ==> |e| <= |x|
    ensures HasParent(full - todo, e)
  {
    assert HasParent(full, e);
  }

  /** The other call makes the entries that are left, directories before what lies in them. */
  lemma {:induction false} LinkRest(full: set<Path>, todo: set<Path>, run: seq<Action>, s: State)
      returns (longer: seq<Action>, s': State)
    requires Possible(full, false, START, run) && Exec(START, run) == s && todo <= full && IsTree(full)
    requires s.location == Absent && PcOf(s, 1) == Inspecting && PcOf(s, 3) == Idle
    requires PcOf(s, 2) == Linking(full - todo) && StagingOf(s, 2) == Dir(full - todo)
    ensures Possible(full, false, START, longer) && Exec(START, longer) == s'
    ensures s'.location == Absent && PcOf(s', 1) == Inspecting && PcOf(s', 3) == Idle
    ensures PcOf(s', 2) == Linking(full) && StagingOf(s', 2) == Dir(full)
    decreases todo
  {
    if todo == {} {
      longer, s' := run, s;
      assert full - todo == full;
    } else {
      var e := NearestEntry(todo);
      ParentIsDone(full, todo, e);
      longer, s' := Do(full, run, s, LinkEntry(2, e));
      assert full - todo + {e} == full - (todo - {e});
      longer, s' := LinkRest(full, todo - {e}, longer, s');
    }
  }

  lemma PausedWhileOtherWins(full: set<Path>) returns (run: seq<Action>, s: State)
    requires IsTree(full)
    ensures Possible(full, false, START, run) && Exec(START, run) == s
    ensures s.location == Dir(full) && PcOf(s, 1) == Inspecting && PcOf(s, 3) == Idle
  {
    run, s := PausedWhileOtherLinks(full);
    assert full - full == {};
    run, s := LinkRest(full, full, run, s);
    run, s := Do(full, run, s, LinkDone(2));
    run, s := Do(full, run, s, Rename(2, true));
  }

  /** The paused call starts to remove the copy the other one completed, and a third
      call takes what is left for ready: any entry, an empty directory too. */
  lemma PartialRemovalIsUnsafe(full: set<Path>, a: Path, b: Path)
    requires IsTree(full) && IsLeaf(full, a) && b in full && a != b
    ensures CanBeUnsafe(full)
  {
    var run, s := PausedWhileOtherWins(full);
    run, s := Do(full, run, s, Inspect(1));
    run, s := Do(full, run, s, RemoveEntry(1, a));
    assert a !in s.location.entries && b in s.location.entries;
    run, s := Do(full, run, s, Begin(3));
    assert UnsafeOk(full, s, Check(3));
  }

  /** What still holds when entries are removed one by one. */
  ghost predicate LooseInvariant(full: set<Path>, s: State) {
    (s.location.Dir? ==> s.location.entries <= full) && forall p: Pid :: StagedRight(full, StagingOf(s, p), PcOf(s, p))
  }

  lemma StepKeepsLooseInvariant(full: set<Path>, atomic: bool, s: State, a: Action)
    requires LooseInvariant(full, s) && Enabled(full, atomic, s, a)
    ensures LooseInvariant(full, Apply(s, a))
  {
    var s' := Apply(s, a);
    assert StagedRight(full, StagingOf(s, a.pid), PcOf(s, a.pid));
    forall p: Pid
      ensures StagedRight(full, StagingOf(s', p), PcOf(s', p))
    {
      assert StagedRight(full, StagingOf(s, p), PcOf(s, p));
      if p != a.pid {
        assert StagingOf(s', p) == StagingOf(s, p) && PcOf(s', p) == PcOf(s, p);
      }
    }
  }

  lemma {:induction false} AlwaysPart(full: set<Path>, run: seq<Action>)
    requires Possible(full, false, START, run)
    ensures LooseInvariant(full, Exec(START, run))
    decreases |run|
  {
    if run != [] {
      AlwaysPart(full, run[..|run| - 1]);
      StepKeepsLooseInvariant(full, false, Exec(START, run[..|run| - 1]), run[|run| - 1]);
    }
  }

  lemma LeafAndOther(full: set<Path>) returns (a: Path, b: Path)
    requires |full| >= 2 && IsTree(full)
    ensures IsLeaf(full, a) && b in full && a != b
  {
    a := FarthestEntry(full);
    assert |full - {a}| >= 1;
    b :| b in full - {a};
  }

  lemma NonEmptyPartOfOne(full: set<Path>, part: set<Path>)
    requires |full| < 2 && part <= full && part != {}
    ensures part == full
  {
    var x :| x in part;
    assert |full - {x}| == 0;
    forall y | y in full
      ensures y in part
    {
      assert y == x || y in full - {x};
    }
  }

  /** With removal entry by entry some interleaving lets a call succeed without a full copy
      if and only if the package has at least two entries, files or directories. */
  lemma UnsafeIffTwoEntries(full: set<Path>)
    requires IsTree(full)
    ensures CanBeUnsafe(full) <==> |full| >= 2
  {
    if |full| >= 2 {
      var a, b := LeafAndOther(full);
      PartialRemovalIsUnsafe(full, a, b);
    } else {
      forall run, a | Possible(full, false, START, run)
        ensures !UnsafeOk(full, Exec(START, run), a)
      {
        AlwaysPart(full, run);
        var s := Exec(START, run);
        assert StagedRight(full, StagingOf(s, a.pid), PcOf(s, a.pid));
        if s.location.Dir? && s.location.entries != {} {
          NonEmptyPartOfOne(full, s.location.entries);
        }
      }
    }
  }

  /** The metadata file beside an empty directory: one file, and yet a call can succeed
      on the directory alone. */
  lemma EmptyDirectoryIsUnsafe()
    ensures CanBeUnsafe({[METADATA_FILE], ["lib"]})
  {
    assert METADATA_FILE[0] != "lib"[0];
    assert [METADATA_FILE][0] != ["lib"][0];
    PartialRemovalIsUnsafe({[METADATA_FILE], ["lib"]}, [METADATA_FILE], ["lib"]);
  }
}
