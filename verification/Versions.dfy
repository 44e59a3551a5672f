/** Package versions and their precedence, section 11 of Semantic Versioning 2.0.0. */
module Versions {
  import opened Ordering

  datatype Identifier = Numeric(n: nat) | Alpha(text: string)

  datatype Version = Version(major: nat, minor: nat, patch: nat, pre: seq<Identifier>)

  predicate IdentifierLess(a: Identifier, b: Identifier) {
    match (a, b)
    case (Numeric(m), Numeric(n)) => m < n
    case (Numeric(_), Alpha(_)) => true
    case (Alpha(_), Numeric(_)) => false
    case (Alpha(s), Alpha(t)) => TextLess(s, t)
  }

  /** Identifiers compare left to right; a longer list follows its own prefix. */
  predicate IdentifiersLess(a: seq<Identifier>, b: seq<Identifier>) {
    if b == [] then false
    else if a == [] then true
    else IdentifierLess(a[0], b[0]) || (a[0] == b[0] && IdentifiersLess(a[1..], b[1..]))
  }

  /** A pre-release precedes the release it leads to. */
  predicate PreLess(a: seq<Identifier>, b: seq<Identifier>) {
    if a == [] then false
    else if b == [] then true
    else IdentifiersLess(a, b)
  }

  predicate Less(a: Version, b: Version) {
    if a.major != b.major then a.major < b.major
    else if a.minor != b.minor then a.minor < b.minor
    else if a.patch != b.patch then a.patch < b.patch
    else PreLess(a.pre, b.pre)
  }

  lemma {:induction false} IdentifiersLessIrreflexive(a: seq<Identifier>)
    ensures !IdentifiersLess(a, a)
  {
    if a != [] {
      if a[0].Alpha? {
        TextLessIrreflexive(a[0].text);
      }
      IdentifiersLessIrreflexive(a[1..]);
    }
  }

  lemma {:induction false} IdentifiersLessTransitive(a: seq<Identifier>, b: seq<Identifier>, c: seq<Identifier>)
    requires IdentifiersLess(a, b) && IdentifiersLess(b, c)
    ensures IdentifiersLess(a, c)
  {
    if a != [] {
      if IdentifierLess(a[0], b[0]) && IdentifierLess(b[0], c[0]) {
        if a[0].Alpha? {
          TextLessTransitive(a[0].text, b[0].text, c[0].text);
        }
      } else if a[0] == b[0] == c[0] {
        IdentifiersLessTransitive(a[1..], b[1..], c[1..]);
      }
    }
  }

  lemma {:induction false} IdentifiersLessTotal(a: seq<Identifier>, b: seq<Identifier>)
    ensures a == b || IdentifiersLess(a, b) || IdentifiersLess(b, a)
  {
    if a != [] && b != [] {
      if a[0].Alpha? && b[0].Alpha? {
        TextLessTotal(a[0].text, b[0].text);
      }
      if a[0] == b[0] {
        IdentifiersLessTotal(a[1..], b[1..]);
        assert a == [a[0]] + a[1..] && b == [b[0]] + b[1..];
      }
    }
  }

  /** The order of one identifier and another: numbers by value, before any text. */
  ghost predicate Precedes(a: Identifier, b: Identifier) {
    || (a.Numeric? && b.Numeric? && a.n < b.n)
    || (a.Numeric? && b.Alpha?)
    || (a.Alpha? && b.Alpha? && TextLess(a.text, b.text))
  }

  /** A list comes first if it ends first or has the smaller identifier where they first differ. */
  ghost predicate ListPrecedes(a: seq<Identifier>, b: seq<Identifier>) {
    exists n: nat :: SameUpTo(a, b, n) && (n == |a| || Precedes(a[n], b[n]))
  }

  lemma {:induction false} IdentifiersLessMeans(a: seq<Identifier>, b: seq<Identifier>)
    ensures IdentifiersLess(a, b) <==> ListPrecedes(a, b)
  {
    if b != [] && (a == [] || IdentifierLess(a[0], b[0])) {
      assert SameUpTo(a, b, 0);
    } else if a != [] && b != [] && a[0] == b[0] {
      IdentifiersLessMeans(a[1..], b[1..]);
      if n: nat :| SameUpTo(a[1..], b[1..], n) && (n == |a| - 1 || Precedes(a[1..][n], b[1..][n])) {
        SameUpToTail(a, b, n);
      }
      if n: nat :| SameUpTo(a, b, n) && (n == |a| || Precedes(a[n], b[n])) {
        SameUpToTail(a, b, n - 1);
      }
    } else {
      forall n: nat | SameUpTo(a, b, n)
        ensures n == 0
      {
        SameUpToFirst(a, b, n);
      }
    }
  }

  /** Precedence: major, minor and patch number in turn, then a pre-release before its
      release, then the identifiers. */
  lemma LessMeans(a: Version, b: Version)
    ensures Less(a, b) <==>
      || a.major < b.major
      || (a.major == b.major && a.minor < b.minor)
      || (a.major == b.major && a.minor == b.minor && a.patch < b.patch)
      || (a.major == b.major && a.minor == b.minor && a.patch == b.patch && a.pre != []
          && (b.pre == [] || ListPrecedes(a.pre, b.pre)))
  {
    IdentifiersLessMeans(a.pre, b.pre);
  }

  /** Precedence is a strict total order on versions. */
  lemma LessIsStrictTotal(a: Version, b: Version, c: Version)
    ensures !Less(a, a)
    ensures Less(a, b) && Less(b, c) ==> Less(a, c)
    ensures a == b || Less(a, b) || Less(b, a)
  {
    IdentifiersLessIrreflexive(a.pre);
    IdentifiersLessTotal(a.pre, b.pre);
    if IdentifiersLess(a.pre, b.pre) && IdentifiersLess(b.pre, c.pre) {
      IdentifiersLessTransitive(a.pre, b.pre, c.pre);
    }
  }
}
