/** What is remembered about link primitives that failed between two file systems. */
module Capabilities {
  import opened Wrappers

  datatype Primitive = Reflink | Hardlink
  datatype Probe = Untested | Capable | Incapable
  datatype Known = Known(reflink: Probe, hardlink: Probe)

  type Devices = (nat, nat)

  /** One attempt on a device pair that could be read. */
  datatype Attempt = Attempt(primitive: Primitive, devices: Devices, succeeded: bool)

  /** The latest attempt with the primitive on the pair failed. */
  predicate LatestFailed(history: seq<Attempt>, p: Primitive, d: Devices) {
    if history == [] then false
    else
      var last := history[|history| - 1];
      if last.primitive == p && last.devices == d then !last.succeeded
      else LatestFailed(history[..|history| - 1], p, d)
  }

  predicate AnyFailed(history: seq<Attempt>, p: Primitive) {
    exists i :: 0 <= i < |history| && history[i].primitive == p && !history[i].succeeded
  }

  lemma {:induction false} LatestAmongAny(history: seq<Attempt>, p: Primitive, d: Devices)
    requires LatestFailed(history, p, d)
    ensures AnyFailed(history, p)
  {
    var n := |history| - 1;
    if history[n].primitive != p || history[n].devices != d {
      LatestAmongAny(history[..n], p, d);
      var i :| 0 <= i < n && history[..n][i].primitive == p && !history[..n][i].succeeded;
      assert history[i] == history[..n][i];
    }
  }

  /** Attempt `i` failed on the pair, and none after it succeeded there. */
  predicate FailedSince(history: seq<Attempt>, p: Primitive, d: Devices, i: nat) {
    && i < |history| && history[i] == Attempt(p, d, false)
    && forall j :: i < j < |history| ==> history[j] != Attempt(p, d, true)
  }

  lemma FailedSinceStep(history: seq<Attempt>, a: Attempt, p: Primitive, d: Devices, i: nat)
    requires i < |history|
    ensures FailedSince(history + [a], p, d, i) <==> FailedSince(history, p, d, i) && a != Attempt(p, d, true)
  {
    var more := history + [a];
    assert more[|history|] == a;
    assert forall j :: 0 <= j < |history| ==> more[j] == history[j];
  }

  /** A failure stays the latest until a later attempt on the same pair succeeds. */
  lemma {:induction false} LatestFailedMeaning(history: seq<Attempt>, p: Primitive, d: Devices)
    ensures LatestFailed(history, p, d) <==> exists i :: 0 <= i < |history| && FailedSince(history, p, d, i)
  {
    if history != [] {
      var n := |history| - 1;
      var front := history[..n];
      assert history == front + [history[n]];
      LatestFailedMeaning(front, p, d);
      forall i | 0 <= i < n
        ensures FailedSince(history, p, d, i) <==> FailedSince(front, p, d, i) && history[n] != Attempt(p, d, true)
      {
        FailedSinceStep(front, history[n], p, d, i);
      }
      assert FailedSince(history, p, d, n) <==> history[n] == Attempt(p, d, false);
    }
  }

  function ProbeOf(known: Known, p: Primitive): Probe {
    if p.Reflink? then known.reflink else known.hardlink
  }

  function Remembered(cache: map<Devices, Known>, p: Primitive, d: Devices): Probe {
    if d in cache then ProbeOf(cache[d], p) else Untested
  }

  /** The cache answers for the primitive as the whole history would. */
  ghost predicate Faithful(cache: map<Devices, Known>, flag: bool, history: seq<Attempt>, p: Primitive) {
    && (flag <==> AnyFailed(history, p))
    && forall d :: Remembered(cache, p, d) == Incapable <==> LatestFailed(history, p, d)
  }

  lemma AnyFailedStep(history: seq<Attempt>, a: Attempt, p: Primitive)
    ensures AnyFailed(history + [a], p) <==> AnyFailed(history, p) || (a.primitive == p && !a.succeeded)
  {
    var more := history + [a];
    if AnyFailed(history, p) {
      var i :| 0 <= i < |history| && history[i].primitive == p && !history[i].succeeded;
      assert more[i] == history[i];
    }
    assert more[|history|] == a;
  }

  lemma LatestFailedStep(history: seq<Attempt>, a: Attempt, p: Primitive, d: Devices)
    ensures LatestFailed(history + [a], p, d)
         == if a.primitive == p && a.devices == d then !a.succeeded else LatestFailed(history, p, d)
  {
    assert (history + [a])[..|history|] == history;
  }

  /** The attempt is written down for its own pair and primitive, except that a
      success is dropped while nothing has failed. */
  ghost predicate Updated(before: map<Devices, Known>, after: map<Devices, Known>, a: Attempt, p: Primitive,
                          flag: bool) {
    forall d ::
      (Remembered(after, p, d)
         == if a.primitive == p && d == a.devices && (flag || !a.succeeded)
            then (if a.succeeded then Capable else Incapable)
            else Remembered(before, p, d))
  }

  /** Recording an outcome of `a.primitive` keeps the cache faithful: either it is
      written down, or it is a success and nothing had failed yet. */
  lemma RecordKeeps(cache: map<Devices, Known>, flag: bool, cache': map<Devices, Known>, flag': bool,
                    history: seq<Attempt>, a: Attempt, p: Primitive)
    requires Faithful(cache, flag, history, p)
    requires Updated(cache, cache', a, p, flag)
    requires flag' == (flag || (a.primitive == p && !a.succeeded))
    ensures Faithful(cache', flag', history + [a], p)
  {
    AnyFailedStep(history, a, p);
    forall d ensures Remembered(cache', p, d) == Incapable <==> LatestFailed(history + [a], p, d) {
      LatestFailedStep(history, a, p, d);
      if LatestFailed(history, p, d) {
        LatestAmongAny(history, p, d);
      }
    }
  }

  /** The process-wide memory. */
  class LinkMemory {
    var anyReflinkFailure: bool
    var anyHardlinkFailure: bool
    var cache: map<Devices, Known>
    /** The attempts recorded so far on readable pairs. */
    ghost var history: seq<Attempt>

    ghost predicate Valid()
      reads this
    {
      Faithful(cache, anyReflinkFailure, history, Reflink) && Faithful(cache, anyHardlinkFailure, history, Hardlink)
    }

    constructor ()
      ensures Valid() && history == []
    {
      anyReflinkFailure := false;
      anyHardlinkFailure := false;
      cache := map[];
      history := [];
    }

    /** `devices` is absent when a path cannot be examined. */
    method ReflinkLikely(devices: Option<Devices>) returns (likely: bool)
      requires Valid()
      ensures likely <==> devices.None? || !LatestFailed(history, Reflink, devices.value)
    {
      if !anyReflinkFailure {
        if devices.Some? && LatestFailed(history, Reflink, devices.value) {
          LatestAmongAny(history, Reflink, devices.value);
        }
        return true;
      }
      match devices {
        case Some(key) => likely := key !in cache || cache[key].reflink != Incapable;
        case None => likely := true;
      }
      assert devices.Some? ==> (likely <==> Remembered(cache, Reflink, devices.value) != Incapable);
    }

    method HardlinkLikely(devices: Option<Devices>) returns (likely: bool)
      requires Valid()
      ensures likely <==> devices.None? || !LatestFailed(history, Hardlink, devices.value)
    {
      if !anyHardlinkFailure {
        if devices.Some? && LatestFailed(history, Hardlink, devices.value) {
          LatestAmongAny(history, Hardlink, devices.value);
        }
        return true;
      }
      match devices {
        case Some(key) => likely := key !in cache || cache[key].hardlink != Incapable;
        case None => likely := true;
      }
      assert devices.Some? ==> (likely <==> Remembered(cache, Hardlink, devices.value) != Incapable);
    }

    method RecordReflinkOutcome(devices: Option<Devices>, succeeded: bool)
      requires Valid()
      modifies this
      ensures Valid()
      ensures history == old(history) + (if devices.Some? then [Attempt(Reflink, devices.value, succeeded)] else [])
      ensures anyHardlinkFailure == old(anyHardlinkFailure)
      ensures forall d :: Remembered(cache, Hardlink, d) == Remembered(old(cache), Hardlink, d)
    {
      if succeeded && !anyReflinkFailure {
        if devices.Some? {
          Note(Attempt(Reflink, devices.value, true), cache, anyReflinkFailure, anyHardlinkFailure);
        }
        return;
      }
      if devices.None? {
        return;
      }
      ghost var before, flag := cache, anyReflinkFailure;
      if !succeeded {
        anyReflinkFailure := true;
      }
      var key := devices.value;
      var known := if key in cache then cache[key] else Known(Untested, Untested);
      cache := cache[key := known.(reflink := if succeeded then Capable else Incapable)];
      Note(Attempt(Reflink, key, succeeded), before, flag, anyHardlinkFailure);
    }

    method RecordHardlinkOutcome(devices: Option<Devices>, succeeded: bool)
      requires Valid()
      modifies this
      ensures Valid()
      ensures history == old(history) + (if devices.Some? then [Attempt(Hardlink, devices.value, succeeded)] else [])
      ensures anyReflinkFailure == old(anyReflinkFailure)
      ensures forall d :: Remembered(cache, Reflink, d) == Remembered(old(cache), Reflink, d)
    {
      if succeeded && !anyHardlinkFailure {
        if devices.Some? {
          Note(Attempt(Hardlink, devices.value, true), cache, anyReflinkFailure, anyHardlinkFailure);
        }
        return;
      }
      if devices.None? {
        return;
      }
      ghost var before, flag := cache, anyHardlinkFailure;
      if !succeeded {
        anyHardlinkFailure := true;
      }
      var key := devices.value;
      var known := if key in cache then cache[key] else Known(Untested, Untested);
      cache := cache[key := known.(hardlink := if succeeded then Capable else Incapable)];
      Note(Attempt(Hardlink, key, succeeded), before, anyReflinkFailure, flag);
    }

    /** Adds an attempt to the history once the memory is up to date with it. */
    ghost method Note(a: Attempt, before: map<Devices, Known>, reflinkBefore: bool, hardlinkBefore: bool)
      requires Faithful(before, reflinkBefore, history, Reflink) && Faithful(before, hardlinkBefore, history, Hardlink)
      requires Updated(before, cache, a, Reflink, reflinkBefore)
      requires Updated(before, cache, a, Hardlink, hardlinkBefore)
      requires anyReflinkFailure == (reflinkBefore || (a.primitive == Reflink && !a.succeeded))
      requires anyHardlinkFailure == (hardlinkBefore || (a.primitive == Hardlink && !a.succeeded))
      modifies this`history
      ensures Valid() && history == old(history) + [a]
    {
      RecordKeeps(before, reflinkBefore, cache, anyReflinkFailure, history, a, Reflink);
      RecordKeeps(before, hardlinkBefore, cache, anyHardlinkFailure, history, a, Hardlink);
      history := history + [a];
    }
  }
}
