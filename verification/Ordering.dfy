/** The orders the sorted maps and lists of the program rely on: text by
    character, and paths component by component. */
module Ordering {
  predicate TextLess(a: string, b: string) {
    if b == [] then false
    else if a == [] then true
    else a[0] < b[0] || (a[0] == b[0] && TextLess(a[1..], b[1..]))
  }

  lemma {:induction false} TextLessIrreflexive(a: string)
    ensures !TextLess(a, a)
  {
    if a != [] {
      TextLessIrreflexive(a[1..]);
    }
  }

  lemma {:induction false} TextLessTransitive(a: string, b: string, c: string)
    requires TextLess(a, b) && TextLess(b, c)
    ensures TextLess(a, c)
  {
    if a != [] && a[0] == b[0] == c[0] {
      TextLessTransitive(a[1..], b[1..], c[1..]);
    }
  }

  lemma {:induction false} TextLessTotal(a: string, b: string)
    ensures a == b || TextLess(a, b) || TextLess(b, a)
  {
    if a != [] && b != [] && a[0] == b[0] {
      TextLessTotal(a[1..], b[1..]);
      assert a == [a[0]] + a[1..] && b == [b[0]] + b[1..];
    }
  }

  /** Both go on the same for `n` elements, and `b` beyond that. */
  ghost predicate SameUpTo<T>(a: seq<T>, b: seq<T>, n: nat) {
    n <= |a| && n < |b| && a[..n] == b[..n]
  }

  lemma SameUpToTail<T>(a: seq<T>, b: seq<T>, n: nat)
    requires a != [] && b != [] && a[0] == b[0]
    ensures SameUpTo(a[1..], b[1..], n) <==> SameUpTo(a, b, n + 1)
  {
    if n + 1 <= |a| && n + 1 < |b| {
      assert a[..n + 1] == [a[0]] + a[1..][..n] && b[..n + 1] == [b[0]] + b[1..][..n];
      assert a[..n + 1][1..] == a[1..][..n] && b[..n + 1][1..] == b[1..][..n];
    }
  }

  lemma SameUpToFirst<T>(a: seq<T>, b: seq<T>, n: nat)
    requires SameUpTo(a, b, n)
    ensures n > 0 ==> a != [] && a[0] == b[0]
  {
    if n > 0 {
      assert a[..n][0] == a[0] && b[..n][0] == b[0];
    }
  }

  /** Text comes before another one if it ends first or has the smaller character where
      the two first differ. */
  lemma {:induction false} TextLessMeans(a: string, b: string)
    ensures TextLess(a, b) <==> exists n: nat :: SameUpTo(a, b, n) && (n == |a| || a[n] < b[n])
  {
    if b != [] && (a == [] || a[0] < b[0]) {
      assert SameUpTo(a, b, 0);
    } else if a != [] && b != [] && a[0] == b[0] {
      TextLessMeans(a[1..], b[1..]);
      if n: nat :| SameUpTo(a[1..], b[1..], n) && (n == |a| - 1 || a[1..][n] < b[1..][n]) {
        SameUpToTail(a, b, n);
      }
      if n: nat :| SameUpTo(a, b, n) && (n == |a| || a[n] < b[n]) {
        SameUpToTail(a, b, n - 1);
      }
    } else {
      forall n: nat | SameUpTo(a, b, n)
        ensures n == 0
      {
        SameUpToFirst(a, b, n);
      }
    }
  }

  type Path = seq<string>

  predicate PathLess(a: Path, b: Path) {
    if b == [] then false
    else if a == [] then true
    else TextLess(a[0], b[0]) || (a[0] == b[0] && PathLess(a[1..], b[1..]))
  }

  /** The same for paths, with the components in the order of text. */
  lemma {:induction false} PathLessMeans(a: Path, b: Path)
    ensures PathLess(a, b) <==> exists n: nat :: SameUpTo(a, b, n) && (n == |a| || TextLess(a[n], b[n]))
  {
    if b != [] && (a == [] || TextLess(a[0], b[0])) {
      assert SameUpTo(a, b, 0);
    } else if a != [] && b != [] && a[0] == b[0] {
      PathLessMeans(a[1..], b[1..]);
      if n: nat :| SameUpTo(a[1..], b[1..], n) && (n == |a| - 1 || TextLess(a[1..][n], b[1..][n])) {
        SameUpToTail(a, b, n);
      }
      if n: nat :| SameUpTo(a, b, n) && (n == |a| || TextLess(a[n], b[n])) {
        SameUpToTail(a, b, n - 1);
      }
    } else {
      forall n: nat | SameUpTo(a, b, n)
        ensures n == 0
      {
        SameUpToFirst(a, b, n);
      }
    }
  }

  lemma {:induction false} PathLessIrreflexive(a: Path)
    ensures !PathLess(a, a)
  {
    if a != [] {
      TextLessIrreflexive(a[0]);
      PathLessIrreflexive(a[1..]);
    }
  }

  lemma {:induction false} PathLessTransitive(a: Path, b: Path, c: Path)
    requires PathLess(a, b) && PathLess(b, c)
    ensures PathLess(a, c)
  {
    if a != [] {
      if TextLess(a[0], b[0]) && TextLess(b[0], c[0]) {
        TextLessTransitive(a[0], b[0], c[0]);
      } else if a[0] == b[0] == c[0] {
        PathLessTransitive(a[1..], b[1..], c[1..]);
      }
    }
  }

  lemma {:induction false} PathLessTotal(a: Path, b: Path)
    ensures a == b || PathLess(a, b) || PathLess(b, a)
  {
    if a != [] && b != [] {
      TextLessTotal(a[0], b[0]);
      if a[0] == b[0] {
        PathLessTotal(a[1..], b[1..]);
        assert a == [a[0]] + a[1..] && b == [b[0]] + b[1..];
      }
    }
  }
}
