/** A range written with npm's pieces, read by way of Cargo requirements,
    matches exactly the versions the pieces denote. */
module RangeAgreement {
  import opened Wrappers
  import opened Text
  import opened CargoReq
  import opened NpmRanges
  import opened Ranges
  import opened RangeTokens
  import opened RangeMeaning

  // ---- the comparators of one piece ----

  /** What a piece other than `Any` is rewritten to. */
  function Rewritten(p: Piece): seq<Written>
    requires Good(p) && !p.Any?
  {
    match p
    case Bare(_, parts, wild) => BareList(parts, wild)
    case Hyphen(_, low, lowWild, _, high, highWild) => HyphenList(low, lowWild, high, highWild)
    case Every(terms) => Writings(terms)
  }

  lemma WritingsAre(terms: seq<Term>)
    requires GoodTerms(terms)
    ensures |Writings(terms)| == |terms| && AllWellWritten(Writings(terms))
    ensures forall i :: 0 <= i < |terms| ==> Writings(terms)[i] == Writing(terms[i])
  {
    if terms != [] {
      WritingsAre(terms[1..]);
    }
  }

  lemma RewrittenIsWritten(p: Piece)
    requires Good(p) && !p.Any?
    ensures 1 <= |Rewritten(p)| <= MAX_COMPARATORS && AllWellWritten(Rewritten(p))
  {
    if p.Every? {
      WritingsAre(p.terms);
    }
  }

  lemma MeaningsAre(ws: seq<Written>)
    requires AllWellWritten(ws)
    ensures |Meanings(ws)| == |ws|
    ensures forall i :: 0 <= i < |ws| ==> Meanings(ws)[i] == Meaning(ws[i])
  {
    if ws != [] {
      MeaningsAre(ws[1..]);
    }
  }

  predicate AllMatch(ws: seq<Written>, v: Release)
    requires AllWellWritten(ws)
  {
    forall i :: 0 <= i < |ws| ==> MatchesComparator(Meaning(ws[i]), v)
  }

  lemma LowerAgrees(low: seq<nat>, wild: string, v: Release)
    requires HyphenEnd(low, wild)
    ensures WellWritten(LowerEnd(low, wild))
    ensures MatchesComparator(Meaning(LowerEnd(low, wild)), v) <==> AtLeast(v, Floor(low))
  {
    ComparatorsAgree(GreaterEq, Filled(low), v);
    ComparatorsAgree(GreaterEq, low, v);
    assert Floor(Filled(low)) == Floor(low);
  }

  lemma UpperAgrees(high: seq<nat>, wild: string, v: Release)
    requires HyphenEnd(high, wild)
    ensures WellWritten(UpperEnd(high, wild))
    ensures MatchesComparator(Meaning(UpperEnd(high, wild)), v) <==> NpmRanges.Below(v, Next(high))
  {
    ComparatorsAgree(Upper(high).op, Upper(high).parts, v);
    ComparatorsAgree(LessEq, high, v);
  }

  lemma HyphenAgrees(low: seq<nat>, lowWild: string, high: seq<nat>, highWild: string, v: Release)
    requires HyphenEnd(low, lowWild) && HyphenEnd(high, highWild)
    ensures AllWellWritten(HyphenList(low, lowWild, high, highWild))
    ensures AllMatch(HyphenList(low, lowWild, high, highWild), v) <==> Spans(low, high, v)
  {
    LowerAgrees(low, lowWild, v);
    UpperAgrees(high, highWild, v);
    var ws := HyphenList(low, lowWild, high, highWild);
    assert AllMatch(ws, v) <==> MatchesComparator(Meaning(ws[0]), v) && MatchesComparator(Meaning(ws[1]), v);
  }

  lemma BareAgrees(parts: seq<nat>, wild: string, v: Release)
    requires XRange(parts, wild)
    ensures AllWellWritten(BareList(parts, wild))
    ensures AllMatch(BareList(parts, wild), v) <==> BeginsWith(parts, v)
  {
    if wild == "" && |parts| == 2 {
      HyphenAgrees(parts, "", parts, "", v);
    } else {
      var w := BareList(parts, wild)[0];
      ComparatorsAgree(Meaning(w).op, parts, v);
      assert BareList(parts, wild) == [w];
      if |parts| == 1 {
        assert parts[..1] == parts;
      }
    }
  }

  lemma TermReads(t: Term, v: Release)
    requires GoodTerm(t)
    ensures MatchesComparator(Meaning(Writing(t)), v) <==> Reading(t, v)
  {
    ComparatorsAgree(ReadingOp(t), t.parts, v);
  }

  lemma ListReads(terms: seq<Term>, v: Release)
    requires GoodTerms(terms)
    ensures AllWellWritten(Writings(terms)) && (AllMatch(Writings(terms), v) <==> AllRead(terms, v))
  {
    WritingsAre(terms);
    forall i | 0 <= i < |terms|
      ensures MatchesComparator(Meaning(Writings(terms)[i]), v) <==> Reading(terms[i], v)
    {
      TermReads(terms[i], v);
    }
  }

  lemma RewrittenAgrees(p: Piece, v: Release)
    requires Good(p) && !p.Any?
    ensures AllWellWritten(Rewritten(p)) && (AllMatch(Rewritten(p), v) <==> Denotes(p, v))
  {
    RewrittenIsWritten(p);
    match p {
      case Bare(_, parts, wild) => BareAgrees(parts, wild, v);
      case Hyphen(_, low, lowWild, _, high, highWild) => HyphenAgrees(low, lowWild, high, highWild, v);
      case Every(terms) =>
        ListReads(terms, v);
        KeptAt(terms, v);
    }
  }

  // ---- the text of one part ----

  /** A word that begins no `latest`, alias or scope. */
  predicate VersionWord(w: string) {
    w != [] && (IsDigit(w[0]) || IsOpChar(w[0]) || w[0] == 'v' || w[0] == 'V' || IsWildcard(w[0]))
  }

  lemma TermsStart(terms: seq<Term>)
    requires terms != [] && GoodTerms(terms)
    ensures TermsWords(terms) != [] && VersionWord(TermsWords(terms)[0])
  {
    VersionStartsWithDigit(terms[0].parts, terms[0].wild);
  }

  lemma PieceStart(p: Piece)
    requires Good(p) && !p.Any?
    ensures PieceWords(p) != [] && VersionWord(PieceWords(p)[0])
  {
    match p {
      case Bare(v, parts, wild) =>
        VersionStartsWithDigit(parts, wild);
      case Hyphen(v1, low, lowWild, _, _, _) =>
        VersionStartsWithDigit(low, lowWild);
      case Every(terms) =>
        TermsStart(terms);
    }
  }

  /** A part that begins with a version or operator is only trimmed. */
  lemma BodyIsTrimmed(part: string)
    requires Words(part) != [] && VersionWord(Words(part)[0])
    ensures PartBody(part) == Trim(part) && !IsLatest(PartBody(part)) && Words(PartBody(part)) == Words(part)
  {
    TrimBeginsWithWord(part);
    WordsTrim(part);
  }

  lemma TokensOfTerms(terms: seq<Term>)
    requires terms != [] && GoodTerms(terms)
    ensures TermsWords(terms) != []
    ensures |TermsWords(terms)| > 1 ==> TermsWords(terms)[1] != "-"
  {
    NoDash(terms);
    assert TermWords(terms[0]) != [];
    assert |TermsWords(terms)| > 1 ==> TermsWords(terms)[1] in TermsWords(terms);
  }

  lemma EveryNormalized(terms: seq<Term>, body: string)
    requires terms != [] && GoodTerms(terms) && Words(body) == TermsWords(terms)
    ensures NormalizedAnd(body) == ListText(Writings(terms))
  {
    StripTerms(terms);
    JoinTerms(terms);
    PlainTermsGood(terms);
    TokensOfTerms(PlainTerms(terms));
    NormalizedIsJoined(body);
  }

  lemma NormalizedIsJoined(body: string)
    requires var tokens := StripAll(Words(body)); tokens != [] && (|tokens| > 1 ==> tokens[1] != "-")
    ensures NormalizedAnd(body) == Joined(StripAll(Words(body)))
  {
  }

  lemma PlainTermsGood(terms: seq<Term>)
    requires GoodTerms(terms)
    ensures GoodTerms(PlainTerms(terms))
  {
    if terms != [] {
      PlainTermsGood(terms[1..]);
    }
  }

  lemma BareNormalized(v: string, version: string, body: string)
    requires Prefixed(v) && DigitFirst(version) && Words(body) == [v + version]
    ensures NormalizedAnd(body) == version
  {
    StripVersion(v, version);
  }

  lemma StripThree(a: string, b: string, c: string)
    ensures StripAll([a, b, c]) == [StripV(a), StripV(b), StripV(c)]
  {
    assert [a, b, c][1..] == [b, c] && [b, c][1..] == [c] && [c][1..] == [];
    assert StripAll([c]) == [StripV(c)] && StripAll([b, c]) == [StripV(b)] + [StripV(c)];
  }

  lemma NormalizedIsExpanded(body: string, low: string, high: string)
    requires StripAll(Words(body)) == [low, "-", high]
    ensures NormalizedAnd(body) == ExpandHyphenRange(low, high)
  {
  }

  lemma HyphenNormalized(v1: string, low: string, v2: string, high: string, body: string)
    requires Prefixed(v1) && Prefixed(v2) && DigitFirst(low) && DigitFirst(high)
    requires Words(body) == [v1 + low, "-", v2 + high]
    ensures NormalizedAnd(body) == ExpandHyphenRange(low, high)
  {
    StripVersion(v1, low);
    StripVersion(v2, high);
    assert StripV("-") == "-";
    StripThree(v1 + low, "-", v2 + high);
    NormalizedIsExpanded(body, low, high);
  }

  lemma ListIsRead(part: string, terms: seq<Term>)
    requires GoodTerms(terms) && terms != [] && (|terms| == 1 ==> terms[0].op.Some?)
    requires Words(part) == TermsWords(terms)
    ensures AdjustNodeDefault(NormalizedPart(part)) == ListText(Writings(terms)) && NormalizedPart(part) != ""
  {
    TermsStart(terms);
    BodyIsTrimmed(part);
    EveryNormalized(terms, PartBody(part));
    WritingsAre(terms);
    ListStart(Writings(terms));
    ListHasMark(Writings(terms));
    MarkedIsKept(ListText(Writings(terms)));
  }

  /** The text Cargo is given for a part that is written as the piece. */
  lemma PartRewrites(part: string, p: Piece)
    requires Good(p) && !p.Any? && Words(part) == PieceWords(p)
    ensures AdjustNodeDefault(NormalizedPart(part)) == ListText(Rewritten(p))
    ensures NormalizedPart(part) != ""
  {
    PieceStart(p);
    BodyIsTrimmed(part);
    var body := PartBody(part);
    match p {
      case Bare(v, parts, wild) =>
        VersionStartsWithDigit(parts, wild);
        BareNormalized(v, VersionText(parts, wild), body);
        BareRewrites(parts, wild);
      case Hyphen(v1, low, lowWild, v2, high, highWild) =>
        VersionStartsWithDigit(low, lowWild);
        VersionStartsWithDigit(high, highWild);
        HyphenNormalized(v1, VersionText(low, lowWild), v2, VersionText(high, highWild), body);
        HyphenRewrites(low, lowWild, high, highWild);
      case Every(terms) =>
        ListIsRead(part, terms);
    }
  }

  ghost predicate Fulfils(r: Option<Requirement>, p: Piece)
    requires Good(p)
  {
    r.Some? && forall v :: Matches(r.value, v) <==> Denotes(p, v)
  }

  lemma WildcardAdjusted(s: string)
    requires |s| == 1 && IsWildcard(s[0])
    ensures AdjustNodeDefault(s) == s && ReadRequirement(s) == Some([])
  {
    assert multiset(s)['.'] == 0;
    OddIsNotExpanded(s, 0);
    assert s[1..] == [];
  }

  lemma StripWildcard(s: string)
    requires |s| == 1 && IsWildcard(s[0])
    ensures StripAll([s]) == [s]
  {
  }

  /** A part that is one wildcard. */
  lemma LoneWildcard(part: string, w: string)
    requires Words(part) == [w] && |w| == 1 && IsWildcard(w[0])
    ensures NormalizedPart(part) == w && PartRequirement(part) == Some([])
  {
    TrimOfOneWord(part);
    WordsTrim(part);
    assert PartBody(part) == w;
    StripWildcard(w);
    WildcardAdjusted(w);
  }

  lemma BlankOrLatest(part: string)
    requires Words(part) == [] || Words(part) == ["latest"]
    ensures NormalizedPart(part) == "*" && PartRequirement(part) == Some([])
  {
    TrimOfOneWord(part);
    WildcardAdjusted("*");
  }

  lemma AnyMeaning(part: string, p: Piece)
    requires Good(p) && p.Any? && Words(part) == PieceWords(p)
    ensures NormalizedPart(part) != "" && Fulfils(PartRequirement(part), p)
  {
    if p.words == [] || p.words == ["latest"] {
      BlankOrLatest(part);
    } else {
      LoneWildcard(part, p.words[0]);
    }
  }

  lemma PartMeaning(part: string, p: Piece)
    requires Good(p) && Words(part) == PieceWords(p)
    ensures NormalizedPart(part) != "" && Fulfils(PartRequirement(part), p)
  {
    if p.Any? {
      AnyMeaning(part, p);
    } else {
      PartRewrites(part, p);
      RewrittenIsWritten(p);
      var ws := Rewritten(p);
      RequirementOf(ws);
      MeaningsAre(ws);
      forall v ensures Matches(Meanings(ws), v) <==> Denotes(p, v) {
        RewrittenAgrees(p, v);
      }
    }
  }

  // ---- whole ranges ----

  predicate AllGood(pieces: seq<Piece>) {
    forall i :: 0 <= i < |pieces| ==> Good(pieces[i])
  }

  function AllWords(pieces: seq<Piece>): (r: seq<seq<string>>)
    ensures |r| == |pieces|
  {
    if pieces == [] then [] else [PieceWords(pieces[0])] + AllWords(pieces[1..])
  }

  predicate SomeDenotes(pieces: seq<Piece>, v: Release)
    requires AllGood(pieces)
  {
    exists i :: 0 <= i < |pieces| && Denotes(pieces[i], v)
  }

  predicate SomeMatches(rs: seq<Requirement>, v: Release) {
    exists i :: 0 <= i < |rs| && Matches(rs[i], v)
  }

  lemma SomeMatchesStep(r: Requirement, rs: seq<Requirement>, v: Release)
    ensures SomeMatches([r] + rs, v) <==> Matches(r, v) || SomeMatches(rs, v)
  {
    var all := [r] + rs;
    assert all[0] == r && all[1..] == rs;
    if SomeMatches(rs, v) {
      var i :| 0 <= i < |rs| && Matches(rs[i], v);
      assert all[i + 1] == rs[i];
    }
    if SomeMatches(all, v) && !Matches(r, v) {
      var i :| 0 <= i < |all| && Matches(all[i], v);
      assert all[i] == rs[i - 1];
    }
  }

  lemma SomeDenotesStep(pieces: seq<Piece>, v: Release)
    requires pieces != [] && AllGood(pieces)
    ensures AllGood(pieces[1..])
    ensures SomeDenotes(pieces, v) <==> Denotes(pieces[0], v) || SomeDenotes(pieces[1..], v)
  {
    var rest := pieces[1..];
    if SomeDenotes(rest, v) {
      var i :| 0 <= i < |rest| && Denotes(rest[i], v);
      assert pieces[i + 1] == rest[i];
    }
    if SomeDenotes(pieces, v) && !Denotes(pieces[0], v) {
      var i :| 0 <= i < |pieces| && Denotes(pieces[i], v);
      assert pieces[i] == rest[i - 1];
    }
  }

  ghost predicate Realizes(rs: Option<seq<Requirement>>, pieces: seq<Piece>)
    requires AllGood(pieces)
  {
    rs.Some? && |rs.value| == |pieces| && forall v :: SomeMatches(rs.value, v) <==> SomeDenotes(pieces, v)
  }

  lemma {:induction false} PartsMeaning(parts: seq<string>, pieces: seq<Piece>)
    requires AllGood(pieces) && WordsOf(parts) == AllWords(pieces)
    ensures Realizes(PartRequirements(parts), pieces)
  {
    if parts != [] {
      assert WordsOf(parts)[0] == AllWords(pieces)[0] && WordsOf(parts)[1..] == AllWords(pieces)[1..];
      PartMeaning(parts[0], pieces[0]);
      PartsMeaning(parts[1..], pieces[1..]);
      var r, more := PartRequirement(parts[0]).value, PartRequirements(parts[1..]).value;
      assert Outcomes(parts)[1..] == Outcomes(parts[1..]) && OutcomeOf(parts[0]) == Read(r);
      assert PartRequirements(parts) == Some([r] + more);
      forall v ensures SomeMatches([r] + more, v) <==> SomeDenotes(pieces, v) {
        SomeMatchesStep(r, more, v);
        SomeDenotesStep(pieces, v);
      }
    }
  }

  // ---- the source text ----

  lemma TrimmedStart(s: string)
    requires Trim(s) != []
    ensures !IsSpace(Trim(s)[0])
  {
    TrimStartFirst(s);
    if TrimStart(s) != [] {
      TrimEndFirst(TrimStart(s));
    }
  }

  /** A text that begins with a letter puts that letter at the start of its first part's first word. */
  lemma FirstPartStart(s: string)
    requires s != [] && !IsSpace(s[0]) && s[0] != '|'
    ensures WordsOf(SplitOr(s))[0] != [] && WordsOf(SplitOr(s))[0][0] != []
    ensures WordsOf(SplitOr(s))[0][0][0] == s[0]
  {
    var i := BarBar(s);
    assert i > 0;
    var part := SplitOr(s)[0];
    assert part == s[..i] && part[0] == s[0];
  }

  lemma NotAnAlias(s: string, pieces: seq<Piece>)
    requires AllGood(pieces) && pieces != [] && s != [] && !IsSpace(s[0])
    requires WordsOf(SplitOr(s)) == AllWords(pieces)
    ensures s[0] != 'n' && s[0] != 'j'
  {
    if s[0] != '|' {
      FirstPartStart(s);
      assert WordsOf(SplitOr(s))[0] == PieceWords(pieces[0]);
      if !pieces[0].Any? {
        PieceStart(pieces[0]);
      }
    }
  }

  lemma LatestIsOnePart(s: string)
    requires IsLatest(s)
    ensures SplitOr(s) == [s]
  {
    assert BarBar("") == 0;
    assert BarBar("latest") == 6 by {
      assert NoBarBar("latest");
      WithoutBarBar("latest");
    }
  }

  predicate NoBarBar(s: string) {
    forall i :: 0 <= i < |s| ==> s[i] != '|'
  }

  lemma {:induction false} WithoutBarBar(s: string)
    requires NoBarBar(s)
    ensures BarBar(s) == |s|
    decreases |s|
  {
    if s != [] {
      WithoutBarBar(s[1..]);
    }
  }

  lemma LoneLatest(s: string, pieces: seq<Piece>)
    requires AllGood(pieces) && IsLatest(s) && WordsOf(SplitOr(s)) == AllWords(pieces)
    ensures |pieces| == 1 && pieces[0].Any?
  {
    LatestIsOnePart(s);
    assert |pieces| == |SplitOr(s)| == 1;
    assert AllWords(pieces)[0] == PieceWords(pieces[0]) == Words(s);
    if s != "" {
      FirstWord(s);
    }
    if !pieces[0].Any? {
      PieceStart(pieces[0]);
    }
  }

  /** A range `p1 || p2 || …` of good pieces always parses, and the result
      matches a release exactly when one of the pieces denotes it. */
  lemma RangeMeansPieces(original: string, pieces: seq<Piece>)
    requires AllGood(pieces) && WordsOf(SplitOr(original)) == AllWords(pieces)
    ensures Parsed(original).Ok? && Parsed(original).value.original == original
    ensures forall v :: SetMatches(Parsed(original).value, v) <==> SomeDenotes(pieces, v)
  {
    var trimmed := Trim(original);
    SplitTrim(original);
    if IsLatest(trimmed) {
      LoneLatest(trimmed, pieces);
      var any := [Any(["*"])];
      StarSplit();
      assert AllWords(any) == [["*"]];
      PartsMeaning(SplitOr("*"), any);
      forall v ensures SomeDenotes(any, v) && SomeDenotes(pieces, v) {
        assert Denotes(any[0], v) && Denotes(pieces[0], v);
      }
    } else {
      TrimmedStart(original);
      NotAnAlias(trimmed, pieces);
      PartsMeaning(SplitOr(trimmed), pieces);
    }
    var rs := PartRequirements(SplitOr(Source(original))).value;
    assert rs != [];
    forall v ensures SetMatches(Parsed(original).value, v) <==> SomeMatches(rs, v) {
    }
  }

  lemma StarSplit()
    ensures WordsOf(SplitOr("*")) == [["*"]]
  {
    assert WordLength("*") == 1;
    assert "*"[..1] == "*" && "*"[1..] == [];
    assert Words("*") == ["*"];
  }

  // ---- versions on their own in a list ----

  /** Every list of comparators is read term by term: a version on its own without wildcards
      as a caret, whether or not npm's meaning is that. */
  lemma ListReadsCarets(part: string, terms: seq<Term>)
    requires GoodTerms(terms) && 1 <= |terms| <= MAX_COMPARATORS && (|terms| == 1 ==> terms[0].op.Some?)
    requires Words(part) == TermsWords(terms)
    ensures PartRequirement(part).Some?
    ensures forall v :: Matches(PartRequirement(part).value, v) <==> AllRead(terms, v)
  {
    ListIsRead(part, terms);
    var ws := Writings(terms);
    WritingsAre(terms);
    RequirementOf(ws);
    MeaningsAre(ws);
    forall v ensures Matches(Meanings(ws), v) <==> AllRead(terms, v) {
      ListReads(terms, v);
    }
  }

  lemma TooManyAreRefused(part: string, terms: seq<Term>)
    requires GoodTerms(terms) && |terms| > MAX_COMPARATORS && Words(part) == TermsWords(terms)
    ensures PartRequirement(part).None?
  {
    ListIsRead(part, terms);
    WritingsAre(terms);
    RequirementOf(Writings(terms));
  }

  /** Any list matches exactly the versions npm means if and only if it keeps its meaning. */
  lemma ListMeansIff(part: string, terms: seq<Term>)
    requires GoodTerms(terms) && 1 <= |terms| <= MAX_COMPARATORS && (|terms| == 1 ==> terms[0].op.Some?)
    requires Words(part) == TermsWords(terms)
    ensures PartRequirement(part).Some?
    ensures (forall v :: Matches(PartRequirement(part).value, v) <==> AllAdmit(terms, v)) <==> KeepsMeaning(terms)
  {
    ListReadsCarets(part, terms);
    ReadAsMeantIff(terms);
    if forall v :: Matches(PartRequirement(part).value, v) <==> AllAdmit(terms, v) {
      forall v ensures AllRead(terms, v) <==> AllAdmit(terms, v) {
      }
    }
  }

  /** An operator comparator and a version on its own. */
  function Beside(op: Op, bound: seq<nat>, parts: seq<nat>): seq<Term> {
    [Term(Some(op), false, "", bound, ""), Term(None, false, "", parts, "")]
  }

  /** `>=0 V` keeps npm's meaning exactly if a caret leaves `V` alone, while `<=V V` always does. */
  lemma BareBesideOperatorIff(parts: seq<nat>)
    requires Partial(parts)
    ensures KeepsMeaning(Beside(GreaterEq, [0], parts)) <==> CaretIsExact(parts)
    ensures KeepsMeaning(Beside(LessEq, parts, parts))
  {
    BesideEnds(GreaterEq, [0], parts);
    BesideEnds(LessEq, parts, parts);
    BareCaretIff(parts);
  }

  lemma BesideEnds(op: Op, bound: seq<nat>, parts: seq<nat>)
    requires Partial(bound) && Partial(parts)
    ensures var terms := Beside(op, bound, parts);
      && ListLow(terms) == Later(LowEnd(op, bound), Later(Floor(parts), Release(0, 0, 0)))
      && ListHigh(terms) == Earlier(HighEnd(op, bound), Some(CaretEnd(parts)))
      && (KeepsMeaning(terms) <==> CaretIsExact(parts) || !GoesBeyond(terms, terms[1]))
  {
    var terms := Beside(op, bound, parts);
    assert terms[1..] == [terms[1]] && terms[1..][1..] == [];
    assert ReadingOp(terms[0]) == op && ReadingOp(terms[1]) == Caret;
    assert ListLow(terms[1..][1..]) == Release(0, 0, 0);
    assert ListLow(terms[1..]) == Later(Floor(parts), Release(0, 0, 0));
    assert ListHigh(terms[1..]) == Some(CaretEnd(parts));
    assert Loose(terms[1]) <==> !CaretIsExact(parts);
  }

  // ---- a wildcard on its own in a list ----

  /** What is joined for comparators with more tokens behind them. */
  lemma {:induction false} JoinFront(terms: seq<Term>, rest: seq<string>)
    requires GoodTerms(terms) && rest != []
    ensures Joined(TermsWords(PlainTerms(terms)) + rest) == Front(Writings(terms)) + Joined(rest)
    decreases |terms|
  {
    if terms == [] {
      assert [] + rest == rest && "" + Joined(rest) == Joined(rest);
    } else {
      var first, more := Plain(terms[0]), terms[1..];
      var tokens := TermsWords(PlainTerms(more)) + rest;
      assert PlainTerms(terms) == [first] + PlainTerms(more);
      assert TermsWords(PlainTerms(terms)) + rest == TermWords(first) + tokens;
      JoinTerm(first, tokens);
      JoinFront(more, rest);
      assert Writing(first) == Writing(terms[0]);
      Concat(WrittenText(Writing(first)) + ", ", Front(Writings(more)), Joined(rest));
    }
  }

  /** The words of a part with a wildcard on its own among others. */
  predicate WildcardAmong(words: seq<string>, terms: seq<Term>, c: char, after: seq<string>) {
    words == TermsWords(terms) + ([[c]] + after) && |words| > 1
  }

  lemma WildcardTokens(words: seq<string>, terms: seq<Term>, c: char, after: seq<string>)
    requires GoodTerms(terms) && IsWildcard(c) && WildcardAmong(words, terms, c, after)
    ensures StripAll(words) == TermsWords(PlainTerms(terms)) + ([[c]] + StripAll(after))
    ensures VersionWord(words[0])
    ensures terms != [] ==> StripAll(words)[1] != "-"
  {
    StripAllConcat(TermsWords(terms), [[c]] + after);
    StripTerms(terms);
    assert StripAll([[c]] + after) == [[c]] + StripAll(after) by {
      assert ([[c]] + after)[1..] == after && StripV([c]) == [c];
    }
    if terms != [] {
      TermsStart(terms);
      PlainTermsGood(terms);
      TokensOfTerms(PlainTerms(terms));
      assert |[c]| == 1 && [c][0] != '-';
    }
  }

  /** The text behind a wildcard in the joined list. */
  function Behind(after: seq<string>): string {
    if after == [] then "" else ", " + Joined(after)
  }

  lemma JoinedWildcard(c: char, after: seq<string>)
    requires IsWildcard(c)
    ensures Joined([[c]] + after) == [c] + Behind(after)
  {
    assert ([[c]] + after)[1..] == after && [c][0] == c && !IsOperator([c]);
    if after == [] {
      assert [c] + "" == [c];
    } else {
      Concat([c], ", ", Joined(after));
    }
  }

  /** `*`, `x` or `X` among other words makes the part an error, though npm reads it as no limit. */
  lemma LoneWildcardIsRefused(part: string, terms: seq<Term>, c: char, after: seq<string>)
    requires GoodTerms(terms) && IsWildcard(c) && WildcardAmong(Words(part), terms, c, after)
    ensures OutcomeOf(part) == Refused
  {
    WildcardTokens(Words(part), terms, c, after);
    BodyIsTrimmed(part);
    var body := PartBody(part);
    var tokens := StripAll(Words(body));
    if |tokens| == 3 && tokens[1] == "-" {
      assert terms == [] && tokens == [[c], "-", tokens[2]];
      NormalizedIsExpanded(body, [c], tokens[2]);
      WildcardLowEnd(c, tokens[2]);
    } else {
      JoinFront(terms, [[c]] + StripAll(after));
      JoinedWildcard(c, StripAll(after));
      WildcardIsMarked(Writings(terms), c, Behind(StripAll(after)));
      WritingsAre(terms);
      WildcardIsRefused(Writings(terms), c, Behind(StripAll(after)));
    }
  }

  lemma WildcardIsMarked(ws: seq<Written>, c: char, rest: string)
    requires ws != [] || (rest != [] && rest[0] == ',')
    ensures var s := Front(ws) + ([c] + rest);
      s != "" && AdjustNodeDefault(s) == s
  {
    var s := Front(ws) + ([c] + rest);
    if ws == [] {
      assert s[1] == ',' && IsMark(s[1]);
    } else {
      var text := WrittenText(ws[0]);
      assert s[|text|] == ',' && IsMark(s[|text|]);
    }
    MarkedIsKept(s);
  }

  lemma FillsWildcard(c: char)
    requires IsWildcard(c)
    ensures FillLower([c]) == [c] + ".0.0"
  {
    assert Cut([c], '.') == 1;
  }

  lemma MarkFirst(s: string)
    requires s != [] && IsMark(s[0])
    ensures AdjustNodeDefault(s) == s
  {
    MarkedIsKept(s);
  }

  lemma WildcardLowEnd(c: char, high: string)
    requires IsWildcard(c)
    ensures var s := ExpandHyphenRange([c], high);
      s != "" && ReadRequirement(AdjustNodeDefault(s)).None?
  {
    FillsWildcard(c);
    RegroupLowWildcard(c, UpperBound(high));
    var tail := [c] + (".0.0, " + UpperBound(high));
    MarkFirst(OpText(GreaterEq) + tail);
    NoNumberIsRefused(GreaterEq, tail);
  }

  lemma RegroupLowWildcard(c: char, bound: string)
    ensures ">=" + ([c] + ".0.0") + ", " + bound == OpText(GreaterEq) + ([c] + (".0.0, " + bound))
  {
  }

  // ---- ends of a hyphen range with a number and one wildcard ----

  /** A part `low - high` is rewritten to a marked text. */
  lemma HyphenPart(part: string, v1: string, low: string, v2: string, high: string)
    requires Prefixed(v1) && Prefixed(v2) && DigitFirst(low) && DigitFirst(high)
    requires Words(part) == [v1 + low, "-", v2 + high]
    ensures PartRequirement(part) == ReadRequirement(ExpandHyphenRange(low, high))
  {
    BodyIsTrimmed(part);
    HyphenNormalized(v1, low, v2, high, PartBody(part));
    CommaIsMark(">=" + FillLower(low), UpperBound(high));
    MarkedIsKept(ExpandHyphenRange(low, high));
  }

  lemma FillsAfterWildcard(a: nat, c: char)
    requires IsWildcard(c)
    ensures FillLower(VersionText([a], [c])) == Decimal(a) + (['.', c] + ".0")
  {
    SplitVersion([a], [c]);
    assert Decimals([a]) == [Decimal(a)] && WildSegments([c]) == [[c]];
    assert Decimal(a) + "." + [c] + ".0" == Decimal(a) + (['.', c] + ".0");
  }

  lemma NumberAfterWildcard(a: nat, c: char, rest: string)
    requires a < LARGEST && IsWildcard(c)
    ensures ReadVersion(GreaterEq, false, Decimal(a) + (['.', c] + (".0" + rest))).None?
  {
    var t := ['.', c] + (".0" + rest);
    ReadMajor(GreaterEq, false, a, t);
    ReadWildPart(c, ".0" + rest);
    assert (".0" + rest)[0] == '.' && (".0" + rest)[1] == '0';
  }

  lemma WildcardThenNumberIsRefused(a: nat, c: char, rest: string)
    requires a < LARGEST && IsWildcard(c)
    ensures ReadRequirement(OpText(GreaterEq) + (Decimal(a) + (['.', c] + (".0" + rest)))).None?
  {
    var version := Decimal(a) + (['.', c] + (".0" + rest));
    assert version[0] == Decimal(a)[0] && IsDigit(version[0]);
    ReadOpText(GreaterEq, version);
    NumberAfterWildcard(a, c, rest);
    assert SkipBlanks(version) == version;
    assert ReadComparator(OpText(GreaterEq) + version).None?;
  }

  lemma RegroupLow(d: string, w: string, zero: string, rest: string)
    ensures ">=" + (d + (w + zero)) + ", " + rest == OpText(GreaterEq) + (d + (w + (zero + (", " + rest))))
  {
  }

  /** As a lower end `X.x` is refused: a zero is put behind the wildcard. */
  lemma LowWildcardIsRefused(part: string, v1: string, a: nat, c: char, v2: string, high: string)
    requires a < LARGEST && IsWildcard(c) && Prefixed(v1) && Prefixed(v2) && DigitFirst(high)
    requires Words(part) == [v1 + VersionText([a], [c]), "-", v2 + high]
    ensures PartRequirement(part).None?
  {
    VersionStartsWithDigit([a], [c]);
    HyphenPart(part, v1, VersionText([a], [c]), v2, high);
    FillsAfterWildcard(a, c);
    RegroupLow(Decimal(a), ['.', c], ".0", UpperBound(high));
    WildcardThenNumberIsRefused(a, c, ", " + UpperBound(high));
  }

  lemma WildcardCountsAsZero(c: char)
    requires IsWildcard(c)
    ensures Increment([c]) == Decimal(1) == "1"
  {
    assert ReadU64([c]).None?;
    assert Successor(0) == 1;
  }

  lemma BoundWildcard(b: nat, c: char)
    requires IsWildcard(c)
    ensures UpperBound(VersionText([b], [c])) == "<" + Dotted([b, 1, 0])
  {
    SplitVersion([b], [c]);
    assert Decimals([b]) == [Decimal(b)] && WildSegments([c]) == [[c]];
    WildcardCountsAsZero(c);
    DecimalZero();
    DottedOfThree(b, 1, 0);
    ZeroAtEnd(Decimal(b), "1");
  }

  function BelowFirstMinor(b: nat): Written {
    Comparison(Less, [b, 1, 0])
  }

  lemma HighWildcardText(low: seq<nat>, lowWild: string, b: nat, c: char)
    requires HyphenEnd(low, lowWild) && IsWildcard(c)
    ensures ExpandHyphenRange(VersionText(low, lowWild), VersionText([b], [c]))
         == ListText([LowerEnd(low, lowWild), BelowFirstMinor(b)])
  {
    LowerEndText(low, lowWild);
    BoundWildcard(b, c);
    ComparisonText(Less, [b, 1, 0]);
    ListOfTwo(LowerEnd(low, lowWild), BelowFirstMinor(b));
  }

  lemma PairReads(a: Written, b: Written)
    requires WellWritten(a) && WellWritten(b)
    ensures ReadRequirement(ListText([a, b])) == Some([Meaning(a), Meaning(b)])
  {
    var ws := [a, b];
    assert AllWellWritten(ws);
    RequirementOf(ws);
    MeaningsAre(ws);
    assert Meanings(ws) == [Meaning(a), Meaning(b)];
  }

  lemma PairMatches(a: Comparator, b: Comparator, v: Release)
    ensures Matches([a, b], v) <==> MatchesComparator(a, v) && MatchesComparator(b, v)
  {
    assert [a, b][0] == a && [a, b][1] == b;
  }

  lemma HighWildcardRequirement(part: string, v1: string, low: seq<nat>, lowWild: string, v2: string, b: nat, c: char)
    requires HyphenEnd(low, lowWild) && b < LARGEST && IsWildcard(c) && Prefixed(v1) && Prefixed(v2)
    requires Words(part) == [v1 + VersionText(low, lowWild), "-", v2 + VersionText([b], [c])]
    ensures WellWritten(LowerEnd(low, lowWild)) && WellWritten(BelowFirstMinor(b))
    ensures PartRequirement(part) == Some([Meaning(LowerEnd(low, lowWild)), Meaning(BelowFirstMinor(b))])
  {
    VersionStartsWithDigit(low, lowWild);
    VersionStartsWithDigit([b], [c]);
    HyphenPart(part, v1, VersionText(low, lowWild), v2, VersionText([b], [c]));
    HighWildcardText(low, lowWild, b, c);
    BelowFirstMinorMeans(low, lowWild, b, Release(0, 0, 0));
    PairReads(LowerEnd(low, lowWild), BelowFirstMinor(b));
  }

  /** As an upper end `X.x` is read as if it were `X.0`: the wildcard counts as zero. */
  lemma HighWildcardReads(part: string, v1: string, low: seq<nat>, lowWild: string, v2: string, b: nat, c: char)
    requires HyphenEnd(low, lowWild) && b < LARGEST && IsWildcard(c) && Prefixed(v1) && Prefixed(v2)
    requires Words(part) == [v1 + VersionText(low, lowWild), "-", v2 + VersionText([b], [c])]
    ensures PartRequirement(part).Some?
    ensures forall v :: Matches(PartRequirement(part).value, v) <==> Spans(low, [b, 0], v)
  {
    HighWildcardRequirement(part, v1, low, lowWild, v2, b, c);
    forall v ensures Matches(PartRequirement(part).value, v) <==> Spans(low, [b, 0], v) {
      BelowFirstMinorMeans(low, lowWild, b, v);
    }
  }

  lemma BelowFirstMinorMeans(low: seq<nat>, lowWild: string, b: nat, v: Release)
    requires HyphenEnd(low, lowWild) && b < LARGEST
    ensures WellWritten(LowerEnd(low, lowWild)) && WellWritten(BelowFirstMinor(b))
    ensures Matches([Meaning(LowerEnd(low, lowWild)), Meaning(BelowFirstMinor(b))], v) <==> Spans(low, [b, 0], v)
  {
    LowerAgrees(low, lowWild, v);
    ComparatorsAgree(Less, [b, 1, 0], v);
    PairMatches(Meaning(LowerEnd(low, lowWild)), Meaning(BelowFirstMinor(b)), v);
  }

  /** So it keeps npm's meaning only where that leaves no version at all. */
  lemma HighWildcardIff(part: string, v1: string, low: seq<nat>, lowWild: string, v2: string, b: nat, c: char)
    requires HyphenEnd(low, lowWild) && b < LARGEST && IsWildcard(c) && Prefixed(v1) && Prefixed(v2)
    requires Words(part) == [v1 + VersionText(low, lowWild), "-", v2 + VersionText([b], [c])]
    ensures PartRequirement(part).Some?
    ensures (forall v :: Matches(PartRequirement(part).value, v) <==> Spans(low, [b], v)) <==>
        !NpmRanges.Below(Floor(low), Next([b]))
  {
    HighWildcardReads(part, v1, low, lowWild, v2, b, c);
    SpansDiffer(low, b);
  }

  lemma SpansDiffer(low: seq<nat>, b: nat)
    requires Partial(low)
    ensures (forall v :: Spans(low, [b, 0], v) <==> Spans(low, [b], v)) <==> !NpmRanges.Below(Floor(low), Next([b]))
  {
    var first := Release(b, 1, 0);
    var v := if NpmRanges.Below(Floor(low), first) then first else Floor(low);
    if NpmRanges.Below(Floor(low), Next([b])) {
      assert Spans(low, [b], v) && !Spans(low, [b, 0], v);
    }
  }

  // ---- a wildcard on its own as upper end ----

  lemma WildcardEndPart(part: string, v1: string, low: string, c: char)
    requires Prefixed(v1) && DigitFirst(low) && IsWildcard(c) && Words(part) == [v1 + low, "-", [c]]
    ensures PartRequirement(part) == ReadRequirement(ExpandHyphenRange(low, [c]))
  {
    BodyIsTrimmed(part);
    StripVersion(v1, low);
    assert StripV("-") == "-" && StripV([c]) == [c];
    StripThree(v1 + low, "-", [c]);
    NormalizedIsExpanded(PartBody(part), low, [c]);
    CommaIsMark(">=" + FillLower(low), UpperBound([c]));
    MarkedIsKept(ExpandHyphenRange(low, [c]));
  }

  lemma BoundLoneWildcard(c: char)
    requires IsWildcard(c)
    ensures UpperBound([c]) == "<" + Dotted([1, 0, 0])
  {
    assert Cut([c], '.') == 1 && SplitOn([c], '.') == [[c]];
    WildcardCountsAsZero(c);
    DecimalZero();
    DottedOfThree(1, 0, 0);
  }

  lemma WildcardEndText(low: seq<nat>, lowWild: string, c: char)
    requires HyphenEnd(low, lowWild) && IsWildcard(c)
    ensures ExpandHyphenRange(VersionText(low, lowWild), [c])
         == ListText([LowerEnd(low, lowWild), Comparison(Less, [1, 0, 0])])
  {
    LowerEndText(low, lowWild);
    BoundLoneWildcard(c);
    ComparisonText(Less, [1, 0, 0]);
    ListOfTwo(LowerEnd(low, lowWild), Comparison(Less, [1, 0, 0]));
  }

  lemma WildcardEndRequirement(part: string, v1: string, low: seq<nat>, lowWild: string, c: char)
    requires HyphenEnd(low, lowWild) && IsWildcard(c) && Prefixed(v1)
    requires Words(part) == [v1 + VersionText(low, lowWild), "-", [c]]
    ensures WellWritten(LowerEnd(low, lowWild)) && WellWritten(Comparison(Less, [1, 0, 0]))
    ensures PartRequirement(part) == Some([Meaning(LowerEnd(low, lowWild)), Meaning(Comparison(Less, [1, 0, 0]))])
  {
    VersionStartsWithDigit(low, lowWild);
    WildcardEndPart(part, v1, VersionText(low, lowWild), c);
    WildcardEndText(low, lowWild, c);
    BelowOneMeans(low, lowWild, Release(0, 0, 0));
    PairReads(LowerEnd(low, lowWild), Comparison(Less, [1, 0, 0]));
  }

  /** As an upper end `x` is read as if it were `0`, so that only versions below 1.0.0 match,
      where npm means no limit: something npm means is always missing. */
  lemma WildcardEndReads(part: string, v1: string, low: seq<nat>, lowWild: string, c: char) returns (lost: Release)
    requires HyphenEnd(low, lowWild) && IsWildcard(c) && Prefixed(v1)
    requires Words(part) == [v1 + VersionText(low, lowWild), "-", [c]]
    ensures PartRequirement(part).Some?
    ensures forall v :: Matches(PartRequirement(part).value, v) <==> Spans(low, [0], v)
    ensures AtLeast(lost, Floor(low)) && !Matches(PartRequirement(part).value, lost)
  {
    WildcardEndRequirement(part, v1, low, lowWild, c);
    forall v ensures Matches(PartRequirement(part).value, v) <==> Spans(low, [0], v) {
      BelowOneMeans(low, lowWild, v);
    }
    lost := Release(low[0] + 1, 0, 0);
  }

  lemma BelowOneMeans(low: seq<nat>, lowWild: string, v: Release)
    requires HyphenEnd(low, lowWild)
    ensures WellWritten(LowerEnd(low, lowWild)) && WellWritten(Comparison(Less, [1, 0, 0]))
    ensures Matches([Meaning(LowerEnd(low, lowWild)), Meaning(Comparison(Less, [1, 0, 0]))], v) <==> Spans(low, [0], v)
  {
    LowerAgrees(low, lowWild, v);
    ComparatorsAgree(Less, [1, 0, 0], v);
    PairMatches(Meaning(LowerEnd(low, lowWild)), Meaning(Comparison(Less, [1, 0, 0])), v);
  }
}
