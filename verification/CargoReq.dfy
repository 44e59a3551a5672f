/** Cargo version requirements as the `semver` crate reads and matches them,
    for numeric comparators (no pre-release or build parts) and release versions. */
module CargoReq {
  import opened Wrappers
  import opened Text

  datatype Op = Exact | Greater | GreaterEq | Less | LessEq | Tilde | Caret

  /** A release version. */
  datatype Release = Release(major: nat, minor: nat, patch: nat)

  /** One to three numbers; a missing one is `None`. */
  datatype Comparator = Comparator(op: Op, major: nat, minor: Option<nat>, patch: Option<nat>)

  const U64_LIMIT := 0x1_0000_0000_0000_0000
  const MAX_COMPARATORS := 32

  // ---- matching ----

  predicate MatchesExact(c: Comparator, v: Release) {
    && v.major == c.major
    && (c.minor.Some? ==> v.minor == c.minor.value)
    && (c.patch.Some? ==> v.patch == c.patch.value)
  }

  predicate MatchesGreater(c: Comparator, v: Release) {
    if v.major != c.major then v.major > c.major
    else if c.minor.None? then false
    else if v.minor != c.minor.value then v.minor > c.minor.value
    else if c.patch.None? then false
    else v.patch > c.patch.value
  }

  predicate MatchesLess(c: Comparator, v: Release) {
    if v.major != c.major then v.major < c.major
    else if c.minor.None? then false
    else if v.minor != c.minor.value then v.minor < c.minor.value
    else if c.patch.None? then false
    else v.patch < c.patch.value
  }

  predicate MatchesTilde(c: Comparator, v: Release) {
    && v.major == c.major
    && (c.minor.Some? ==> v.minor == c.minor.value)
    && (c.patch.Some? ==> v.patch >= c.patch.value)
  }

  predicate MatchesCaret(c: Comparator, v: Release) {
    if v.major != c.major then false
    else if c.minor.None? then true
    else if c.patch.None? then
      if c.major > 0 then v.minor >= c.minor.value else v.minor == c.minor.value
    else if c.major > 0 then
      v.minor > c.minor.value || (v.minor == c.minor.value && v.patch >= c.patch.value)
    else if c.minor.value > 0 then v.minor == c.minor.value && v.patch >= c.patch.value
    else v.minor == c.minor.value && v.patch == c.patch.value
  }

  predicate MatchesComparator(c: Comparator, v: Release) {
    match c.op
    case Exact => MatchesExact(c, v)
    case Greater => MatchesGreater(c, v)
    case GreaterEq => MatchesExact(c, v) || MatchesGreater(c, v)
    case Less => MatchesLess(c, v)
    case LessEq => MatchesExact(c, v) || MatchesLess(c, v)
    case Tilde => MatchesTilde(c, v)
    case Caret => MatchesCaret(c, v)
  }

  /** A requirement is a conjunction of comparators. */
  type Requirement = seq<Comparator>

  predicate Matches(r: Requirement, v: Release) {
    forall i :: 0 <= i < |r| ==> MatchesComparator(r[i], v)
  }

  // ---- reading ----

  /** The operator at the start of the text, and how long it is; without one
      the comparator is a caret. */
  function ReadOp(s: string): (r: (Op, nat))
    ensures r.1 <= |s|
  {
    if s == [] then (Caret, 0)
    else if s[0] == '=' then (Exact, 1)
    else if s[0] == '>' then (if |s| > 1 && s[1] == '=' then (GreaterEq, 2) else (Greater, 1))
    else if s[0] == '<' then (if |s| > 1 && s[1] == '=' then (LessEq, 2) else (Less, 1))
    else if s[0] == '~' then (Tilde, 1)
    else if s[0] == '^' then (Caret, 1)
    else (Caret, 0)
  }

  function SkipBlanks(s: string): (r: string)
    ensures |r| <= |s|
  {
    if s != [] && s[0] == ' ' then SkipBlanks(s[1..]) else s
  }

  function DigitCount(s: string): (n: nat)
    ensures n <= |s| && AllDigits(s[..n]) && (n < |s| ==> !IsDigit(s[n]))
  {
    if s == [] || !IsDigit(s[0]) then 0
    else
      var n := DigitCount(s[1..]) + 1;
      assert forall i :: 0 < i < n ==> s[..n][i] == s[1..][..n - 1][i - 1];
      n
  }

  /** A number without leading zeros that fits 64 bits, and the rest. */
  function ReadNumber(s: string): (r: Option<(nat, string)>)
    ensures r.Some? ==> |r.value.1| < |s|
  {
    var n := DigitCount(s);
    if n == 0 || (n > 1 && s[0] == '0') || Number(s[..n]) >= U64_LIMIT then None
    else Some((Number(s[..n]), s[n..]))
  }

  predicate IsWildcard(c: char) {
    c == '*' || c == 'x' || c == 'X'
  }

  /** What stands behind a dot. */
  datatype Part = Missing | Wild | Given(n: nat)

  function ValueOf(p: Part): Option<nat> {
    if p.Given? then Some(p.n) else None
  }

  /** `.number` or a dot and a wildcard, if a dot comes next. */
  function ReadPart(s: string): (r: Option<(Part, string)>)
    ensures r.Some? ==> |r.value.1| <= |s|
  {
    if s == [] || s[0] != '.' then Some((Missing, s))
    else if |s| > 1 && IsWildcard(s[1]) then Some((Wild, s[2..]))
    else
      match ReadNumber(s[1..])
      case Some((n, rest)) => Some((Given(n), rest))
      case None => None
  }

  /** The rest of a comparator; no number follows a wildcard, and without an
      operator a wildcard makes the comparison exact. */
  function ReadAfterMajor(op: Op, default: bool, major: nat, s: string): (r: Option<(Comparator, string)>)
    ensures r.Some? ==> |r.value.1| <= |s|
  {
    match ReadPart(s)
    case None => None
    case Some((minor, s2)) =>
      if minor.Missing? then Some((Comparator(op, major, None, None), SkipBlanks(s2)))
      else
        match ReadPart(s2)
        case None => None
        case Some((patch, s3)) =>
          if minor.Wild? && patch.Given? then None
          else
            var exact := default && (minor.Wild? || patch.Wild?);
            Some((Comparator(if exact then Exact else op, major, ValueOf(minor), ValueOf(patch)), SkipBlanks(s3)))
  }

  /** The numbers of a comparator, and the blanks after them. */
  function ReadVersion(op: Op, default: bool, s: string): (r: Option<(Comparator, string)>)
    ensures r.Some? ==> |r.value.1| < |s|
  {
    match ReadNumber(s)
    case None => None
    case Some((major, rest)) => ReadAfterMajor(op, default, major, rest)
  }

  function ReadComparator(s: string): (r: Option<(Comparator, string)>)
    ensures r.Some? ==> |r.value.1| < |s|
  {
    ReadVersion(ReadOp(s).0, ReadOp(s).1 == 0, SkipBlanks(s[ReadOp(s).1..]))
  }

  /** The list that `more` reads as, with `c` before it. */
  function Before(c: Comparator, more: Option<Requirement>): Option<Requirement> {
    match more
    case None => None
    case Some(cs) => Some([c] + cs)
  }

  /** Comma-separated comparators, at most 32 of them; `count` were read before. */
  function ReadList(s: string, count: nat): Option<Requirement>
    decreases |s|
  {
    match ReadComparator(s)
    case None => None
    case Some((c, rest)) =>
      if rest == [] then Some([c])
      else if rest[0] != ',' || count + 1 == MAX_COMPARATORS then None
      else
        Before(c, ReadList(SkipBlanks(rest[1..]), count + 1))
  }

  /** `VersionReq::parse`; a lone wildcard is the empty conjunction. */
  function ReadRequirement(s: string): Option<Requirement> {
    var t := SkipBlanks(s);
    if t != [] && IsWildcard(t[0]) then (if SkipBlanks(t[1..]) == [] then Some([]) else None)
    else ReadList(t, 0)
  }

  // ---- writing ----

  /** A comparator as written: `bare` leaves the operator out (a caret),
      `spaced` puts a blank after it, `wild` are the wildcards after the numbers. */
  datatype Written = Written(op: Op, bare: bool, spaced: bool, parts: seq<nat>, wild: string)

  predicate AllWild(wild: string) {
    forall i :: 0 <= i < |wild| ==> IsWildcard(wild[i])
  }

  predicate WellWritten(w: Written) {
    && 1 <= |w.parts| && |w.parts| + |w.wild| <= 3
    && Fits(w.parts) && AllWild(w.wild)
    && (w.bare ==> w.op.Caret? && !w.spaced)
  }

  function OpText(op: Op): string {
    match op
    case Exact => "="
    case Greater => ">"
    case GreaterEq => ">="
    case Less => "<"
    case LessEq => "<="
    case Tilde => "~"
    case Caret => "^"
  }

  function Dotted(parts: seq<nat>): string {
    if parts == [] then []
    else if |parts| == 1 then Decimal(parts[0])
    else Decimal(parts[0]) + ['.'] + Dotted(parts[1..])
  }

  function Tail(wild: string): string {
    if wild == [] then [] else ['.', wild[0]] + Tail(wild[1..])
  }

  /** A version with wildcards in its last places. */
  function VersionText(parts: seq<nat>, wild: string): string {
    Dotted(parts) + Tail(wild)
  }

  function Prefix(w: Written): string {
    (if w.bare then "" else OpText(w.op)) + (if w.spaced then " " else "")
  }

  function WrittenText(w: Written): string {
    Prefix(w) + VersionText(w.parts, w.wild)
  }

  function ListText(ws: seq<Written>): string {
    if ws == [] then []
    else if |ws| == 1 then WrittenText(ws[0])
    else WrittenText(ws[0]) + ", " + ListText(ws[1..])
  }

  predicate Fits(parts: seq<nat>) {
    forall i :: 0 <= i < |parts| ==> parts[i] < U64_LIMIT
  }

  /** The comparator an operator and its numbers stand for. */
  function Comparing(op: Op, parts: seq<nat>): Comparator
    requires 1 <= |parts| <= 3
  {
    Comparator(op, parts[0], if |parts| > 1 then Some(parts[1]) else None,
               if |parts| > 2 then Some(parts[2]) else None)
  }

  function Meaning(w: Written): Comparator
    requires WellWritten(w)
  {
    Comparing(if w.bare && w.wild != "" then Exact else w.op, w.parts)
  }

  // ---- reading back what was written ----

  /** The text goes on with something that is no digit. */
  predicate NoDigitFirst(rest: string) {
    rest == [] || !IsDigit(rest[0])
  }

  lemma {:induction false} DigitCountOf(d: string, rest: string)
    requires AllDigits(d) && NoDigitFirst(rest)
    ensures DigitCount(d + rest) == |d|
    decreases |d|
  {
    if d == [] {
      assert d + rest == rest;
    } else {
      assert (d + rest)[1..] == d[1..] + rest;
      DigitCountOf(d[1..], rest);
    }
  }

  lemma ReadDecimal(n: nat, rest: string)
    requires n < U64_LIMIT && NoDigitFirst(rest)
    ensures ReadNumber(Decimal(n) + rest) == Some((n, rest))
  {
    DigitCountOf(Decimal(n), rest);
    NumberOfDecimal(n);
    var s := Decimal(n) + rest;
    assert s[..|Decimal(n)|] == Decimal(n) && s[|Decimal(n)|..] == rest;
  }

  lemma ReadDottedPart(n: nat, rest: string)
    requires n < U64_LIMIT && NoDigitFirst(rest)
    ensures ReadPart(['.'] + (Decimal(n) + rest)) == Some((Given(n), rest))
  {
    var s := ['.'] + (Decimal(n) + rest);
    assert s[1..] == Decimal(n) + rest && s[1] == Decimal(n)[0];
    ReadDecimal(n, rest);
  }

  lemma ReadWildPart(c: char, rest: string)
    requires IsWildcard(c)
    ensures ReadPart(['.', c] + rest) == Some((Wild, rest))
  {
    assert (['.', c] + rest)[2..] == rest;
  }

  /** What follows a comparator in a list: nothing, or a comma. */
  predicate AtBoundary(rest: string) {
    rest == [] || rest[0] == ','
  }

  lemma BoundaryEnds(rest: string)
    requires AtBoundary(rest)
    ensures NoDigitFirst(rest) && SkipBlanks(rest) == rest && ReadPart(rest) == Some((Missing, rest))
  {
  }

  lemma DottedTwo(a: nat, b: nat, rest: string)
    ensures Dotted([a, b]) + rest == Decimal(a) + (['.'] + (Decimal(b) + rest))
  {
    assert [a, b][1..] == [b];
    Regroup(Decimal(a), ['.'], Decimal(b), rest);
  }

  lemma DottedThree(a: nat, b: nat, c: nat, rest: string)
    ensures Dotted([a, b, c]) + rest == Decimal(a) + (['.'] + (Decimal(b) + (['.'] + (Decimal(c) + rest))))
  {
    assert [a, b, c][1..] == [b, c];
    DottedTwo(b, c, rest);
    Regroup(Decimal(a), ['.'], Dotted([b, c]), rest);
  }

  lemma TailStart(wild: string, rest: string)
    requires AtBoundary(rest)
    ensures NoDigitFirst(Tail(wild) + rest)
    ensures wild != "" ==> Tail(wild) + rest == ['.', wild[0]] + (Tail(wild[1..]) + rest)
    ensures wild == "" ==> Tail(wild) + rest == rest
  {
    if wild == "" {
      Concat(Tail(wild), rest, []);
    } else {
      Concat(['.', wild[0]], Tail(wild[1..]), rest);
      assert Tail(wild) == ['.', wild[0]] + Tail(wild[1..]);
    }
  }

  /** What the numbers and wildcards of a comparator are read as. */
  function Expected(op: Op, default: bool, parts: seq<nat>, wild: string): Comparator
    requires 1 <= |parts| <= 3
  {
    Comparing(if default && wild != "" then Exact else op, parts)
  }

  lemma ReadOne(op: Op, default: bool, a: nat, wild: string, rest: string)
    requires |wild| <= 2 && AllWild(wild) && AtBoundary(rest)
    ensures ReadAfterMajor(op, default, a, Tail(wild) + rest) == Some((Expected(op, default, [a], wild), rest))
  {
    BoundaryEnds(rest);
    TailStart(wild, rest);
    if wild != "" {
      var t := Tail(wild[1..]) + rest;
      ReadWildPart(wild[0], t);
      ReadLastWild(wild[1..], rest);
      AfterWild(op, default, a, Tail(wild) + rest, t, rest);
    }
  }

  /** A wildcard, and nothing or another one behind it. */
  lemma AfterWild(op: Op, default: bool, a: nat, s: string, t: string, rest: string)
    requires ReadPart(s) == Some((Wild, t)) && AtBoundary(rest)
    requires ReadPart(t) == Some((Missing, rest)) || ReadPart(t) == Some((Wild, rest))
    ensures ReadAfterMajor(op, default, a, s) == Some((Comparing(if default then Exact else op, [a]), rest))
  {
    BoundaryEnds(rest);
  }

  /** At most one more wildcard. */
  lemma ReadLastWild(wild: string, rest: string)
    requires |wild| <= 1 && AllWild(wild) && AtBoundary(rest)
    ensures ReadPart(Tail(wild) + rest) == Some((if wild == "" then Missing else Wild, rest))
  {
    BoundaryEnds(rest);
    TailStart(wild, rest);
    if wild != "" {
      ReadWildPart(wild[0], Tail(wild[1..]) + rest);
      TailStart(wild[1..], rest);
    }
  }

  lemma ReadTwo(op: Op, default: bool, a: nat, b: nat, wild: string, rest: string)
    requires b < U64_LIMIT && |wild| <= 1 && AllWild(wild) && AtBoundary(rest)
    ensures ReadAfterMajor(op, default, a, ['.'] + (Decimal(b) + (Tail(wild) + rest)))
         == Some((Expected(op, default, [a, b], wild), rest))
  {
    BoundaryEnds(rest);
    TailStart(wild, rest);
    ReadDottedPart(b, Tail(wild) + rest);
    ReadLastWild(wild, rest);
  }

  lemma ReadThree(op: Op, default: bool, a: nat, b: nat, c: nat, rest: string)
    requires b < U64_LIMIT && c < U64_LIMIT && AtBoundary(rest)
    ensures ReadAfterMajor(op, default, a, ['.'] + (Decimal(b) + (['.'] + (Decimal(c) + rest))))
         == Some((Comparing(op, [a, b, c]), rest))
  {
    BoundaryEnds(rest);
    ReadDottedPart(b, ['.'] + (Decimal(c) + rest));
    ReadDottedPart(c, rest);
  }

  lemma ReadMajor(op: Op, default: bool, a: nat, t: string)
    requires a < U64_LIMIT && NoDigitFirst(t)
    ensures ReadVersion(op, default, Decimal(a) + t) == ReadAfterMajor(op, default, a, t)
  {
    ReadDecimal(a, t);
  }

  lemma ReadNumbersOne(op: Op, default: bool, parts: seq<nat>, wild: string, rest: string)
    requires |parts| == 1 && |wild| <= 2 && Fits(parts) && AllWild(wild) && AtBoundary(rest)
    ensures ReadVersion(op, default, Dotted(parts) + (Tail(wild) + rest)) ==
        Some((Expected(op, default, parts, wild), rest))
  {
    TailStart(wild, rest);
    ReadMajor(op, default, parts[0], Tail(wild) + rest);
    ReadOne(op, default, parts[0], wild, rest);
    assert parts == [parts[0]];
  }

  lemma ReadNumbersTwo(op: Op, default: bool, parts: seq<nat>, wild: string, rest: string)
    requires |parts| == 2 && |wild| <= 1 && Fits(parts) && AllWild(wild) && AtBoundary(rest)
    ensures ReadVersion(op, default, Dotted(parts) + (Tail(wild) + rest)) ==
        Some((Expected(op, default, parts, wild), rest))
  {
    var t := Tail(wild) + rest;
    assert parts == [parts[0], parts[1]];
    DottedTwo(parts[0], parts[1], t);
    ReadMajor(op, default, parts[0], ['.'] + (Decimal(parts[1]) + t));
    ReadTwo(op, default, parts[0], parts[1], wild, rest);
  }

  lemma ReadNumbersThree(op: Op, default: bool, parts: seq<nat>, rest: string)
    requires |parts| == 3 && Fits(parts) && AtBoundary(rest)
    ensures ReadVersion(op, default, Dotted(parts) + rest) == Some((Comparing(op, parts), rest))
  {
    assert parts == [parts[0], parts[1], parts[2]];
    DottedThree(parts[0], parts[1], parts[2], rest);
    ReadMajor(op, default, parts[0], ['.'] + (Decimal(parts[1]) + (['.'] + (Decimal(parts[2]) + rest))));
    ReadThree(op, default, parts[0], parts[1], parts[2], rest);
  }

  lemma ReadNumbers(op: Op, default: bool, parts: seq<nat>, wild: string, rest: string)
    requires 1 <= |parts| && |parts| + |wild| <= 3 && Fits(parts) && AllWild(wild) && AtBoundary(rest)
    ensures ReadVersion(op, default, Dotted(parts) + (Tail(wild) + rest)) ==
        Some((Expected(op, default, parts, wild), rest))
  {
    if |parts| == 1 {
      ReadNumbersOne(op, default, parts, wild, rest);
    } else if |parts| == 2 {
      ReadNumbersTwo(op, default, parts, wild, rest);
    } else {
      TailStart(wild, rest);
      ReadNumbersThree(op, default, parts, rest);
    }
  }

  lemma DottedStartsWithDigit(parts: seq<nat>)
    requires parts != []
    ensures Dotted(parts) != [] && IsDigit(Dotted(parts)[0])
  {
    assert Decimal(parts[0]) != [] && IsDigit(Decimal(parts[0])[0]);
    assert |parts| > 1 ==> Dotted(parts)[0] == Decimal(parts[0])[0];
  }

  lemma VersionStartsWithDigit(parts: seq<nat>, wild: string)
    requires parts != []
    ensures VersionText(parts, wild) != [] && IsDigit(VersionText(parts, wild)[0])
  {
    DottedStartsWithDigit(parts);
    assert VersionText(parts, wild)[0] == Dotted(parts)[0];
  }

  lemma ReadOpText(op: Op, tail: string)
    requires tail != [] && tail[0] != '='
    ensures ReadOp(OpText(op) + tail) == (op, |OpText(op)|) && (OpText(op) + tail)[|OpText(op)|..] == tail
  {
    var s := OpText(op) + tail;
    assert s[0] == OpText(op)[0] && s[1] == if |OpText(op)| == 1 then tail[0] else '=';
  }

  lemma ReadPrefix(w: Written, rest: string)
    requires WellWritten(w)
    ensures var s := WrittenText(w) + rest;
      && ReadOp(s).0 == w.op && (ReadOp(s).1 == 0 <==> w.bare)
      && SkipBlanks(s[ReadOp(s).1..]) == VersionText(w.parts, w.wild) + rest
  {
    VersionStartsWithDigit(w.parts, w.wild);
    var numbers := VersionText(w.parts, w.wild) + rest;
    var tail := (if w.spaced then " " else "") + numbers;
    assert SkipBlanks(numbers) == numbers;
    assert w.spaced ==> tail[1..] == numbers;
    if w.bare {
      assert WrittenText(w) + rest == numbers && numbers[0..] == numbers;
    } else {
      assert WrittenText(w) + rest == OpText(w.op) + tail;
      ReadOpText(w.op, tail);
    }
  }

  lemma ReadWritten(w: Written, rest: string)
    requires WellWritten(w) && AtBoundary(rest)
    ensures ReadComparator(WrittenText(w) + rest) == Some((Meaning(w), rest))
  {
    ReadPrefix(w, rest);
    assert VersionText(w.parts, w.wild) + rest == Dotted(w.parts) + (Tail(w.wild) + rest);
    ReadNumbers(w.op, w.bare, w.parts, w.wild, rest);
  }

  predicate AllWellWritten(ws: seq<Written>) {
    forall i :: 0 <= i < |ws| ==> WellWritten(ws[i])
  }

  function Meanings(ws: seq<Written>): Requirement
    requires AllWellWritten(ws)
  {
    if ws == [] then [] else [Meaning(ws[0])] + Meanings(ws[1..])
  }

  lemma WrittenStart(w: Written)
    requires WellWritten(w)
    ensures WrittenText(w) != [] && WrittenText(w)[0] != ' ' && !IsWildcard(WrittenText(w)[0])
  {
    VersionStartsWithDigit(w.parts, w.wild);
    assert w.bare ==> WrittenText(w)[0] == VersionText(w.parts, w.wild)[0];
    assert !w.bare ==> WrittenText(w)[0] == OpText(w.op)[0];
  }

  lemma ListStart(ws: seq<Written>)
    requires ws != [] && AllWellWritten(ws)
    ensures ListText(ws) != [] && ListText(ws)[0] != ' ' && !IsWildcard(ListText(ws)[0])
  {
    WrittenStart(ws[0]);
    assert ListText(ws)[0] == WrittenText(ws[0])[0];
  }

  lemma ReadPastComma(s: string, c: Comparator, next: string, count: nat)
    requires ReadComparator(s) == Some((c, ", " + next)) && next != [] && next[0] != ' '
    ensures ReadList(s, count) == if count + 1 == MAX_COMPARATORS then None else Before(c, ReadList(next, count + 1))
  {
    var rest := ", " + next;
    assert rest[1..] == [' '] + next;
    assert rest[1..][1..] == next;
    assert SkipBlanks(rest[1..]) == SkipBlanks(next) == next;
  }

  lemma ReadStep(w: Written, next: string, count: nat)
    requires WellWritten(w) && next != [] && next[0] != ' '
    ensures ReadList(WrittenText(w) + ", " + next, count)
         == if count + 1 == MAX_COMPARATORS then None else Before(Meaning(w), ReadList(next, count + 1))
  {
    ReadWritten(w, ", " + next);
    assert WrittenText(w) + ", " + next == WrittenText(w) + (", " + next);
    ReadPastComma(WrittenText(w) + ", " + next, Meaning(w), next, count);
  }

  /** Reading a written list gives its comparators back, as long as there are
      at most 32 of them; a longer list is refused. */
  lemma {:induction false} ReadWrittenList(ws: seq<Written>, count: nat)
    requires ws != [] && AllWellWritten(ws) && count < MAX_COMPARATORS
    ensures ReadList(ListText(ws), count) == if count + |ws| <= MAX_COMPARATORS then Some(Meanings(ws)) else None
    decreases |ws|
  {
    if |ws| == 1 {
      ReadWritten(ws[0], []);
      assert WrittenText(ws[0]) + [] == WrittenText(ws[0]);
      assert Meanings(ws) == [Meaning(ws[0])];
    } else {
      ListStart(ws[1..]);
      ReadStep(ws[0], ListText(ws[1..]), count);
      if count + 1 < MAX_COMPARATORS {
        ReadWrittenList(ws[1..], count + 1);
      }
    }
  }

  lemma ReadIsList(s: string)
    requires s != [] && s[0] != ' ' && !IsWildcard(s[0])
    ensures ReadRequirement(s) == ReadList(s, 0)
  {
  }

  /** An operator needs a number behind it. */
  lemma NoNumberIsRefused(op: Op, tail: string)
    requires tail != [] && tail[0] != '=' && tail[0] != ' ' && !IsDigit(tail[0])
    ensures ReadRequirement(OpText(op) + tail).None?
  {
    var s := OpText(op) + tail;
    ReadOpText(op, tail);
    assert SkipBlanks(tail) == tail && ReadNumber(tail).None?;
    assert ReadComparator(s).None?;
    assert s[0] == OpText(op)[0];
    ReadIsList(s);
  }

  lemma RequirementOf(ws: seq<Written>)
    requires ws != [] && AllWellWritten(ws)
    ensures ReadRequirement(ListText(ws)) == if |ws| <= MAX_COMPARATORS then Some(Meanings(ws)) else None
  {
    ListStart(ws);
    ReadIsList(ListText(ws));
    ReadWrittenList(ws, 0);
  }

  /** Written comparators, each followed by a comma. */
  function Front(ws: seq<Written>): string {
    if ws == [] then [] else WrittenText(ws[0]) + ", " + Front(ws[1..])
  }

  lemma FrontStep(ws: seq<Written>, bad: string)
    requires ws != [] && AllWellWritten(ws) && bad != [] && bad[0] != ' '
    ensures var next := Front(ws[1..]) + bad;
      next != [] && next[0] != ' ' && Front(ws) + bad == WrittenText(ws[0]) + ", " + next
  {
    Concat(WrittenText(ws[0]) + ", ", Front(ws[1..]), bad);
    if |ws| > 1 {
      WrittenStart(ws[1]);
      var more := Front(ws[1..]);
      assert more != [] && more[0] == WrittenText(ws[1])[0];
    }
  }

  /** If no comparator can be read behind others, the whole list is refused. */
  lemma {:induction false} BadBehindFront(ws: seq<Written>, bad: string, count: nat)
    requires AllWellWritten(ws) && bad != [] && bad[0] != ' ' && ReadComparator(bad).None?
    ensures ReadList(Front(ws) + bad, count).None?
    decreases |ws|
  {
    if ws == [] {
      assert Front(ws) + bad == bad;
    } else {
      FrontStep(ws, bad);
      BadBehindFront(ws[1..], bad, count + 1);
      ReadStep(ws[0], Front(ws[1..]) + bad, count);
    }
  }

  /** A wildcard alone is no comparator: the one at the start must be all there is. */
  lemma WildcardIsRefused(ws: seq<Written>, c: char, rest: string)
    requires AllWellWritten(ws) && IsWildcard(c) && (ws == [] ==> SkipBlanks(rest) != [])
    ensures ReadRequirement(Front(ws) + ([c] + rest)).None?
  {
    var bad := [c] + rest;
    var s := Front(ws) + bad;
    assert bad[0] == c && bad[1..] == rest;
    if ws == [] {
      assert s == bad;
      assert SkipBlanks(s) == s && SkipBlanks(s[1..]) != [];
    } else {
      assert ReadOp(bad) == (Caret, 0) && bad[0..] == bad && SkipBlanks(bad) == bad;
      assert ReadComparator(bad).None?;
      WrittenStart(ws[0]);
      assert s[0] == WrittenText(ws[0])[0];
      ReadIsList(s);
      BadBehindFront(ws, bad, 0);
    }
  }
}
