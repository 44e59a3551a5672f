/** What npm means by a range: version intervals, written down without
    looking at how the ranges are translated. Release versions only. */
module NpmRanges {
  import opened Wrappers
  import opened CargoReq

  predicate Below(a: Release, b: Release) {
    if a.major != b.major then a.major < b.major
    else if a.minor != b.minor then a.minor < b.minor
    else a.patch < b.patch
  }

  predicate AtLeast(v: Release, low: Release) {
    !Below(v, low)
  }

  /** Half-open: `low` belongs to it, `high` does not. */
  predicate Between(v: Release, low: Release, high: Release) {
    AtLeast(v, low) && Below(v, high)
  }

  /** One to three numbers. */
  predicate Partial(parts: seq<nat>) {
    1 <= |parts| <= 3
  }

  /** The least version that begins with the numbers. */
  function Floor(parts: seq<nat>): Release
    requires Partial(parts)
  {
    Release(parts[0], if |parts| > 1 then parts[1] else 0, if |parts| > 2 then parts[2] else 0)
  }

  /** The least version above all those that begin with the numbers. */
  function Next(parts: seq<nat>): Release
    requires Partial(parts)
  {
    if |parts| == 1 then Release(parts[0] + 1, 0, 0)
    else if |parts| == 2 then Release(parts[0], parts[1] + 1, 0)
    else Release(parts[0], parts[1], parts[2] + 1)
  }

  /** The least version that changes the leftmost non-zero number given. */
  function CaretEnd(parts: seq<nat>): Release
    requires Partial(parts)
  {
    if parts[0] > 0 || |parts| == 1 then Next(parts[..1])
    else if parts[1] > 0 || |parts| == 2 then Next(parts[..2])
    else Next(parts)
  }

  /** A version or partial version on its own: all that begin with it. */
  predicate BeginsWith(parts: seq<nat>, v: Release)
    requires Partial(parts)
  {
    Between(v, Floor(parts), Next(parts))
  }

  predicate Compares(op: Op, parts: seq<nat>, v: Release)
    requires Partial(parts)
  {
    match op
    case Exact => BeginsWith(parts, v)
    case GreaterEq => AtLeast(v, Floor(parts))
    case Greater => AtLeast(v, Next(parts))
    case Less => Below(v, Floor(parts))
    case LessEq => Below(v, Next(parts))
    case Tilde => Between(v, Floor(parts), if |parts| == 1 then Next(parts) else Next(parts[..2]))
    case Caret => Between(v, Floor(parts), CaretEnd(parts))
  }

  /** `low - high`, both ends included. */
  predicate Spans(low: seq<nat>, high: seq<nat>, v: Release)
    requires Partial(low) && Partial(high)
  {
    Between(v, Floor(low), Next(high))
  }

  // ---- Cargo's comparators mean the same ----

  /** Every comparator with an operator has one meaning for npm and for Cargo. */
  lemma ComparatorsAgree(op: Op, parts: seq<nat>, v: Release)
    requires Partial(parts)
    ensures MatchesComparator(Comparing(op, parts), v) <==> Compares(op, parts, v)
  {
  }

  /** Where a version on its own would not change meaning if read as a caret. */
  predicate CaretIsExact(parts: seq<nat>)
    requires Partial(parts)
  {
    |parts| == 1 || (parts[0] == 0 && (|parts| == 2 || parts[1] == 0))
  }

  /** Exactly then: otherwise the next minor or patch version tells them apart. */
  lemma BareCaretIff(parts: seq<nat>)
    requires Partial(parts)
    ensures CaretIsExact(parts)
       <==> forall v :: MatchesComparator(Comparing(Caret, parts), v) <==> BeginsWith(parts, v)
  {
    if CaretIsExact(parts) {
      forall v ensures MatchesComparator(Comparing(Caret, parts), v) <==> BeginsWith(parts, v) {
      }
    } else {
      var v := Next(parts);
      assert MatchesComparator(Comparing(Caret, parts), v) && !BeginsWith(parts, v);
    }
  }

  // ---- whole ranges ----

  /** A comparator in a list; `op.None?` is a version on its own. `spaced` puts a blank
      after the operator, `v` is the letter some people write before a version, `wild`
      are the wildcards in its last places. */
  datatype Term = Term(op: Option<Op>, spaced: bool, v: string, parts: seq<nat>, wild: string)

  datatype Piece =
    | Any(words: seq<string>)
    | Bare(v: string, parts: seq<nat>, wild: string)
    | Hyphen(v1: string, low: seq<nat>, lowWild: string, v2: string, high: seq<nat>, highWild: string)
    | Every(terms: seq<Term>)

  /** Wildcards stand for any number, so the numbers before them say it all. */
  predicate Admits(t: Term, v: Release)
    requires Partial(t.parts)
  {
    match t.op
    case None => BeginsWith(t.parts, v)
    case Some(op) => Compares(op, t.parts, v)
  }

  const LARGEST := U64_LIMIT - 1

  predicate Numbers(parts: seq<nat>) {
    Partial(parts) && forall i :: 0 <= i < |parts| ==> parts[i] < LARGEST
  }

  /** Numbers and then wildcards, three places at most. */
  predicate XRange(parts: seq<nat>, wild: string) {
    Numbers(parts) && AllWild(wild) && |parts| + |wild| <= 3
  }

  predicate Prefixed(v: string) {
    v == "" || v == "v" || v == "V"
  }

  predicate GoodTerm(t: Term) {
    && XRange(t.parts, t.wild) && Prefixed(t.v)
    && (t.op.None? ==> !t.spaced)
  }

  // ---- what a list is read as ----

  /** The operator a term of a list is read with: without one it is a caret, or exact
      where there is a wildcard. */
  function ReadingOp(t: Term): Op {
    t.op.GetOr(if t.wild == "" then Caret else Exact)
  }

  /** The least version that compares so. */
  function LowEnd(op: Op, parts: seq<nat>): Release
    requires Partial(parts)
  {
    match op
    case Less => Release(0, 0, 0)
    case LessEq => Release(0, 0, 0)
    case Greater => Next(parts)
    case _ => Floor(parts)
  }

  /** The least version above all that compare so, if there is one. */
  function HighEnd(op: Op, parts: seq<nat>): Option<Release>
    requires Partial(parts)
  {
    match op
    case Exact => Some(Next(parts))
    case Greater => None
    case GreaterEq => None
    case Less => Some(Floor(parts))
    case LessEq => Some(Next(parts))
    case Tilde => Some(if |parts| == 1 then Next(parts) else Next(parts[..2]))
    case Caret => Some(CaretEnd(parts))
  }

  predicate BelowEnd(v: Release, high: Option<Release>) {
    high.Some? ==> Below(v, high.value)
  }

  lemma ComparesBetweenEnds(op: Op, parts: seq<nat>, v: Release)
    requires Partial(parts)
    ensures Compares(op, parts, v) <==> AtLeast(v, LowEnd(op, parts)) && BelowEnd(v, HighEnd(op, parts))
  {
  }

  function Later(a: Release, b: Release): Release {
    if Below(a, b) then b else a
  }

  function Earlier(a: Option<Release>, b: Option<Release>): Option<Release> {
    if a.None? || (b.Some? && Below(b.value, a.value)) then b else a
  }

  predicate AllPartial(terms: seq<Term>) {
    forall i :: 0 <= i < |terms| ==> Partial(terms[i].parts)
  }

  /** The lower end of what a list is read as. */
  function ListLow(terms: seq<Term>): Release
    requires AllPartial(terms)
  {
    if terms == [] then Release(0, 0, 0)
    else Later(LowEnd(ReadingOp(terms[0]), terms[0].parts), ListLow(terms[1..]))
  }

  /** The upper end, if there is one. */
  function ListHigh(terms: seq<Term>): Option<Release>
    requires AllPartial(terms)
  {
    if terms == [] then None
    else Earlier(HighEnd(ReadingOp(terms[0]), terms[0].parts), ListHigh(terms[1..]))
  }

  /** What is read for a term. */
  predicate Reading(t: Term, v: Release)
    requires Partial(t.parts)
  {
    Compares(ReadingOp(t), t.parts, v)
  }

  lemma {:induction false} ListIsInterval(terms: seq<Term>, v: Release)
    requires AllPartial(terms)
    ensures (forall i :: 0 <= i < |terms| ==> Reading(terms[i], v))
       <==> AtLeast(v, ListLow(terms)) && BelowEnd(v, ListHigh(terms))
  {
    if terms != [] {
      ListIsInterval(terms[1..], v);
      ComparesBetweenEnds(ReadingOp(terms[0]), terms[0].parts, v);
      FirstAndRest(terms, v);
    }
  }

  lemma FirstAndRest(terms: seq<Term>, v: Release)
    requires terms != [] && AllPartial(terms)
    ensures (forall i :: 0 <= i < |terms| ==> Reading(terms[i], v))
       <==> Reading(terms[0], v) && forall i :: 0 <= i < |terms[1..]| ==> Reading(terms[1..][i], v)
  {
    forall i | 0 < i < |terms|
      ensures Reading(terms[i], v) <==> Reading(terms[1..][i - 1], v)
    {
    }
  }

  /** A version on its own that a caret does not leave alone. */
  predicate Loose(t: Term)
    requires Partial(t.parts)
  {
    t.op.None? && t.wild == "" && !CaretIsExact(t.parts)
  }

  /** What is read for the list goes beyond the versions that begin with the term. */
  predicate GoesBeyond(terms: seq<Term>, t: Term)
    requires AllPartial(terms) && Partial(t.parts)
  {
    BelowEnd(Later(ListLow(terms), Next(t.parts)), ListHigh(terms))
  }

  /** No version on its own is read as more than it says, as far as the other
      comparators leave anything of that: a comparison of their ends. */
  predicate KeepsMeaning(terms: seq<Term>)
    requires AllPartial(terms)
  {
    forall i :: 0 <= i < |terms| && Loose(terms[i]) ==> !GoesBeyond(terms, terms[i])
  }

  predicate AllAdmit(terms: seq<Term>, v: Release)
    requires AllPartial(terms)
  {
    forall i :: 0 <= i < |terms| ==> Admits(terms[i], v)
  }

  predicate AllRead(terms: seq<Term>, v: Release)
    requires AllPartial(terms)
  {
    forall i :: 0 <= i < |terms| ==> Reading(terms[i], v)
  }

  /** A term is read as what it says, except that a loose one reaches up to its caret. */
  lemma ReadingOfTerm(t: Term, v: Release)
    requires Partial(t.parts)
    ensures Admits(t, v) ==> Reading(t, v)
    ensures Reading(t, v) && !Admits(t, v) ==> Loose(t) && AtLeast(v, Next(t.parts))
  {
    if t.op.None? && t.wild == "" {
      CaretReaches(t.parts, v);
    }
  }

  lemma CaretReaches(parts: seq<nat>, v: Release)
    requires Partial(parts)
    ensures BeginsWith(parts, v) ==> Compares(Caret, parts, v)
    ensures Compares(Caret, parts, v) && !BeginsWith(parts, v) ==> !CaretIsExact(parts) && AtLeast(v, Next(parts))
  {
    if |parts| == 1 {
      assert parts[..1] == parts;
    } else if |parts| == 2 {
      assert parts[..2] == parts;
    }
  }

  /** A list is read as npm means it if and only if it keeps its meaning. */
  lemma ReadAsMeantIff(terms: seq<Term>)
    requires AllPartial(terms)
    ensures KeepsMeaning(terms) <==> forall v :: AllRead(terms, v) <==> AllAdmit(terms, v)
  {
    if KeepsMeaning(terms) {
      forall v ensures AllRead(terms, v) <==> AllAdmit(terms, v) {
        KeptAt(terms, v);
      }
    } else {
      var i :| 0 <= i < |terms| && Loose(terms[i]) && GoesBeyond(terms, terms[i]);
      var v := Later(ListLow(terms), Next(terms[i].parts));
      ListIsInterval(terms, v);
      assert AllRead(terms, v) && !Admits(terms[i], v);
    }
  }

  lemma KeptAt(terms: seq<Term>, v: Release)
    requires AllPartial(terms) && KeepsMeaning(terms)
    ensures AllRead(terms, v) <==> AllAdmit(terms, v)
  {
    ListIsInterval(terms, v);
    forall i | 0 <= i < |terms|
      ensures Admits(terms[i], v) ==> Reading(terms[i], v)
      ensures AllRead(terms, v) ==> Admits(terms[i], v)
    {
      ReadingOfTerm(terms[i], v);
      if AllRead(terms, v) && !Admits(terms[i], v) {
        BeyondAt(terms, terms[i], v);
      }
    }
  }

  lemma BeyondAt(terms: seq<Term>, t: Term, v: Release)
    requires AllPartial(terms) && Partial(t.parts)
    requires AtLeast(v, ListLow(terms)) && BelowEnd(v, ListHigh(terms)) && AtLeast(v, Next(t.parts))
    ensures GoesBeyond(terms, t)
  {
  }

  predicate GoodTerms(terms: seq<Term>) {
    forall i :: 0 <= i < |terms| ==> GoodTerm(terms[i])
  }

  /** An end of a hyphen range: of two places, the second must be a number. */
  predicate HyphenEnd(parts: seq<nat>, wild: string) {
    XRange(parts, wild) && !(|parts| == 1 && |wild| == 1)
  }

  predicate Good(p: Piece) {
    match p
    case Any(words) => words == [] || words == ["latest"] || words == ["*"] || words == ["x"] || words == ["X"]
    case Bare(v, parts, wild) => Prefixed(v) && XRange(parts, wild)
    case Hyphen(v1, low, lowWild, v2, high, highWild) =>
      Prefixed(v1) && Prefixed(v2) && HyphenEnd(low, lowWild) && HyphenEnd(high, highWild)
    case Every(terms) =>
      && 1 <= |terms| <= MAX_COMPARATORS && GoodTerms(terms)
      && (|terms| == 1 ==> terms[0].op.Some?)
      && KeepsMeaning(terms)
  }

  predicate Denotes(p: Piece, v: Release)
    requires Good(p)
  {
    match p
    case Any(_) => true
    case Bare(_, parts, _) => BeginsWith(parts, v)
    case Hyphen(_, low, _, _, high, _) => Spans(low, high, v)
    case Every(terms) => AllAdmit(terms, v)
  }

  function TermWords(t: Term): seq<string> {
    var version := t.v + VersionText(t.parts, t.wild);
    match t.op
    case None => [version]
    case Some(op) => if t.spaced then [OpText(op), version] else [OpText(op) + version]
  }

  function TermsWords(terms: seq<Term>): seq<string> {
    if terms == [] then [] else TermWords(terms[0]) + TermsWords(terms[1..])
  }

  /** The words a piece is written with. */
  function PieceWords(p: Piece): seq<string> {
    match p
    case Any(words) => words
    case Bare(v, parts, wild) => [v + VersionText(parts, wild)]
    case Hyphen(v1, low, lowWild, v2, high, highWild) =>
      [v1 + VersionText(low, lowWild), "-", v2 + VersionText(high, highWild)]
    case Every(terms) => TermsWords(terms)
  }
}
