/** The rewriting keeps the meaning: a range written with npm's pieces reads as
    Cargo requirements that match exactly the versions the pieces denote. */
module RangeMeaning {
  import opened Wrappers
  import opened Text
  import opened CargoReq
  import opened NpmRanges
  import opened Ranges

  // ---- dotted numbers ----

  predicate DigitsAndDots(s: string) {
    forall i :: 0 <= i < |s| ==> IsDigit(s[i]) || s[i] == '.'
  }

  lemma JoinDigits(x: string, rest: string)
    requires AllDigits(x) && DigitsAndDots(rest)
    ensures DigitsAndDots(x + ['.'] + rest)
    ensures multiset(x + ['.'] + rest)['.'] == 1 + multiset(rest)['.']
  {
    NoDotInDigits(x);
    assert multiset(x + ['.'] + rest) == multiset(x) + multiset{'.'} + multiset(rest);
  }

  lemma NoDotInDigits(x: string)
    requires AllDigits(x)
    ensures multiset(x)['.'] == 0
  {
    assert '.' !in x;
  }

  lemma {:induction false} DottedChars(parts: seq<nat>)
    requires parts != []
    ensures DigitsAndDots(Dotted(parts)) && multiset(Dotted(parts))['.'] == |parts| - 1
  {
    if |parts| == 1 {
      NoDotInDigits(Decimal(parts[0]));
    } else {
      DottedChars(parts[1..]);
      JoinDigits(Decimal(parts[0]), Dotted(parts[1..]));
    }
  }

  function Decimals(parts: seq<nat>): seq<string> {
    if parts == [] then [] else [Decimal(parts[0])] + Decimals(parts[1..])
  }

  lemma {:induction false} SplitDotted(parts: seq<nat>)
    requires parts != []
    ensures SplitOn(Dotted(parts), '.') == Decimals(parts)
    decreases |parts|
  {
    var d := Decimal(parts[0]);
    if |parts| == 1 {
      assert Decimals(parts) == [d];
    } else {
      CutAtFirst(d, '.', Dotted(parts[1..]));
      SplitDotted(parts[1..]);
    }
  }

  lemma ReadU64OfDecimal(n: nat)
    requires n < U64_LIMIT
    ensures ReadU64(Decimal(n)) == Some(n)
  {
    NumberOfDecimal(n);
    assert IsDigit(Decimal(n)[0]);
  }

  // ---- the text each piece is rewritten to ----

  function Comparison(op: Op, parts: seq<nat>): Written {
    Written(op, false, false, parts, "")
  }

  function Upper(high: seq<nat>): Written
    requires Partial(high)
  {
    if |high| == 1 then Comparison(Less, [high[0] + 1, 0, 0])
    else if |high| == 2 then Comparison(Less, [high[0], high[1] + 1, 0])
    else Comparison(LessEq, high)
  }

  function Filled(parts: seq<nat>): (r: seq<nat>)
    requires Partial(parts)
  {
    [parts[0], if |parts| > 1 then parts[1] else 0, if |parts| > 2 then parts[2] else 0]
  }

  function SpanList(low: seq<nat>, high: seq<nat>): seq<Written>
    requires Partial(low) && Partial(high)
  {
    [Comparison(GreaterEq, Filled(low)), Upper(high)]
  }

  function LowerEnd(low: seq<nat>, wild: string): Written
    requires Partial(low)
  {
    if wild == "" then Comparison(GreaterEq, Filled(low)) else Written(GreaterEq, false, false, low, wild)
  }

  function UpperEnd(high: seq<nat>, wild: string): Written
    requires Partial(high)
  {
    if wild == "" then Upper(high) else Written(LessEq, false, false, high, wild)
  }

  function HyphenList(low: seq<nat>, lowWild: string, high: seq<nat>, highWild: string): seq<Written>
    requires Partial(low) && Partial(high)
  {
    [LowerEnd(low, lowWild), UpperEnd(high, highWild)]
  }

  function BareList(parts: seq<nat>, wild: string): seq<Written>
    requires Partial(parts)
  {
    if wild != "" || |parts| == 1 then [Written(Caret, true, false, parts, wild)]
    else if |parts| == 2 then SpanList(parts, parts)
    else [Comparison(Exact, parts)]
  }

  lemma DottedOfTwo(a: nat, b: nat)
    ensures Dotted([a, b]) == Decimal(a) + "." + Decimal(b)
  {
    assert [a, b][1..] == [b];
  }

  lemma DottedOfThree(a: nat, b: nat, c: nat)
    ensures Dotted([a, b, c]) == Decimal(a) + "." + Decimal(b) + "." + Decimal(c)
  {
    assert [a, b, c][1..] == [b, c];
    DottedOfTwo(b, c);
    RegroupDots(Decimal(a), Decimal(b), Decimal(c));
  }

  lemma RegroupDots(x: string, y: string, z: string)
    ensures x + "." + (y + "." + z) == x + "." + y + "." + z
  {
  }

  lemma ZeroAtEnd(x: string, y: string)
    ensures x + "." + y + "." + "0" == x + "." + y + ".0"
    ensures "<" + (x + "." + y + "." + "0") == "<" + x + "." + y + ".0"
  {
  }

  lemma ZerosAtEnd(x: string)
    ensures x + "." + "0" + "." + "0" == x + ".0.0"
    ensures "<" + (x + "." + "0" + "." + "0") == "<" + x + ".0.0"
  {
  }

  lemma DecimalZero()
    ensures Decimal(0) == "0"
  {
  }

  lemma ComparisonText(op: Op, parts: seq<nat>)
    ensures WrittenText(Comparison(op, parts)) == OpText(op) + Dotted(parts)
  {
    assert OpText(op) + "" == OpText(op);
    PlainText(parts);
  }

  lemma PlainText(parts: seq<nat>)
    ensures VersionText(parts, "") == Dotted(parts)
  {
  }

  lemma ListOfTwo(a: Written, b: Written)
    ensures ListText([a, b]) == WrittenText(a) + ", " + WrittenText(b)
  {
    assert [a, b][1..] == [b];
  }

  // ---- texts with a mark are left alone ----

  lemma OddIsNotExpanded(s: string, i: nat)
    requires i < |s| && !IsDigit(s[i]) && s[i] != '.'
    ensures ExpandBareMajorMinor(s).None?
  {
    var cut := Cut(s, '.');
    if cut < |s| {
      if i < cut {
        assert s[..cut][i] == s[i];
      } else {
        assert s[cut + 1..][i - cut - 1] == s[i];
      }
    }
  }

  lemma MarkedIsKept(s: string)
    requires HasMark(s)
    ensures AdjustNodeDefault(s) == s
  {
    var i :| 0 <= i < |s| && IsMark(s[i]);
    OddIsNotExpanded(s, i);
  }

  lemma CommaIsMark(a: string, b: string)
    ensures HasMark(a + ", " + b)
  {
    var s := a + ", " + b;
    assert s[|a|] == ',' && IsMark(s[|a|]);
  }

  lemma WrittenHasMark(w: Written)
    requires !w.bare
    ensures HasMark(WrittenText(w))
  {
    assert WrittenText(w)[0] == OpText(w.op)[0] && IsMark(WrittenText(w)[0]);
  }

  lemma ListHasMark(ws: seq<Written>)
    requires ws != [] && (|ws| == 1 ==> !ws[0].bare)
    ensures HasMark(ListText(ws))
  {
    if |ws| == 1 {
      WrittenHasMark(ws[0]);
      assert ListText(ws) == WrittenText(ws[0]);
    } else {
      CommaIsMark(WrittenText(ws[0]), ListText(ws[1..]));
      assert ListText(ws) == WrittenText(ws[0]) + ", " + ListText(ws[1..]);
    }
  }

  // ---- versions on their own ----

  lemma BareOne(a: nat)
    ensures AdjustNodeDefault(Dotted([a])) == Dotted([a])
  {
    DottedChars([a]);
    assert Dotted([a]) == Decimal(a);
  }

  lemma SpanText(low: seq<nat>, high: seq<nat>)
    requires Partial(low) && Partial(high)
    ensures ListText(SpanList(low, high)) ==
        ">=" + Dotted(Filled(low)) + ", " + OpText(Upper(high).op) + Dotted(Upper(high).parts)
  {
    ListOfTwo(Comparison(GreaterEq, Filled(low)), Upper(high));
    ComparisonText(GreaterEq, Filled(low));
    ComparisonText(Upper(high).op, Upper(high).parts);
    assert ">=" + Dotted(Filled(low)) + ", " + (OpText(Upper(high).op) + Dotted(Upper(high).parts))
        == ">=" + Dotted(Filled(low)) + ", " + OpText(Upper(high).op) + Dotted(Upper(high).parts);
  }

  lemma FewDotsNotPlain(s: string)
    requires multiset(s)['.'] < 2
    ensures !IsPlainExactVersion(s)
  {
  }

  lemma ExpandNumbersOf(x: string, y: string, n: nat)
    requires x != [] && y != [] && AllDigits(x) && AllDigits(y)
    requires ReadU64(y) == Some(n) && n + 1 < U64_LIMIT
    ensures ExpandNumbers(x, y) == Some(MinorSpan(x, y, n + 1))
  {
  }

  lemma ExpandAt(s: string, i: nat)
    requires Cut(s, '.') == i < |s|
    ensures ExpandBareMajorMinor(s) == ExpandNumbers(s[..i], s[i + 1..])
  {
  }

  lemma ExpandTwo(x: string, y: string)
    requires Free(x, '.')
    ensures ExpandBareMajorMinor(x + ['.'] + y) == ExpandNumbers(x, y)
  {
    CutAtFirst(x, '.', y);
    ExpandAt(x + ['.'] + y, |x|);
  }

  lemma AdjustExpands(s: string)
    requires !IsPlainExactVersion(s) && ExpandBareMajorMinor(s).Some?
    ensures AdjustNodeDefault(s) == ExpandBareMajorMinor(s).value
  {
  }

  /** One text, grouped as the rewriting builds it and as a list of two comparisons. */
  lemma SameBounds(x: string, y: string, z: string, low: string, high: string)
    requires low == x + "." + y + "." + "0" && high == x + "." + z + "." + "0"
    ensures ">=" + x + "." + y + ".0, <" + x + "." + z + ".0" == ">=" + low + ", " + "<" + high
  {
    assert ">=" + x + "." + y + ".0, <" == ">=" + low + ", " + "<";
    assert ">=" + low + ", " + "<" + x + "." + z + ".0" == ">=" + low + ", " + "<" + high;
  }

  lemma SeriesText(a: nat, b: nat)
    ensures ListText(SpanList([a, b], [a, b])) == ">=" + Dotted([a, b, 0]) + ", " + "<" + Dotted([a, b + 1, 0])
  {
    SpanText([a, b], [a, b]);
    assert Filled([a, b]) == [a, b, 0] && Upper([a, b]) == Comparison(Less, [a, b + 1, 0]);
  }

  lemma MinorSpanText(a: nat, b: nat)
    ensures MinorSpan(Decimal(a), Decimal(b), b + 1) == ListText(SpanList([a, b], [a, b]))
  {
    SeriesText(a, b);
    DottedOfThree(a, b, 0);
    DottedOfThree(a, b + 1, 0);
    DecimalZero();
    SameBounds(Decimal(a), Decimal(b), Decimal(b + 1), Dotted([a, b, 0]), Dotted([a, b + 1, 0]));
  }

  lemma BareTwo(a: nat, b: nat)
    requires b < LARGEST
    ensures AdjustNodeDefault(Dotted([a, b])) == ListText(SpanList([a, b], [a, b]))
  {
    var s := Dotted([a, b]);
    DottedChars([a, b]);
    FewDotsNotPlain(s);
    DottedOfTwo(a, b);
    ReadU64OfDecimal(b);
    ExpandTwo(Decimal(a), Decimal(b));
    ExpandNumbersOf(Decimal(a), Decimal(b), b);
    AdjustExpands(s);
    MinorSpanText(a, b);
  }

  lemma DottedSegments(parts: seq<nat>)
    requires parts != []
    ensures "x" !in Decimals(parts) && "X" !in Decimals(parts)
  {
    assert !IsDigit("x"[0]) && !IsDigit("X"[0]);
    if |parts| > 1 {
      DottedSegments(parts[1..]);
    }
  }

  lemma DigitsAndDotsArePlain(s: string)
    requires DigitsAndDots(s)
    ensures !HasMark(s) && '*' !in s && VersionPart(s) == s
  {
    assert s[..|s|] == s;
  }

  lemma BareThree(parts: seq<nat>)
    requires |parts| == 3
    ensures AdjustNodeDefault(Dotted(parts)) == ListText([Comparison(Exact, parts)])
  {
    DottedChars(parts);
    DigitsAndDotsArePlain(Dotted(parts));
    SplitDotted(parts);
    DottedSegments(parts);
    ComparisonText(Exact, parts);
  }

  // ---- wildcards ----

  function WildSegments(wild: string): seq<string> {
    if wild == [] then [] else [[wild[0]]] + WildSegments(wild[1..])
  }

  lemma SplitLast(x: string)
    requires Free(x, '.')
    ensures SplitOn(x, '.') == [x]
  {
  }

  lemma SplitAtDot(x: string, rest: string)
    requires Free(x, '.')
    ensures SplitOn(x + ['.'] + rest, '.') == [x] + SplitOn(rest, '.')
  {
    CutAtFirst(x, '.', rest);
  }

  lemma {:induction false} SplitTail(x: string, wild: string)
    requires Free(x, '.') && AllWild(wild)
    ensures SplitOn(x + Tail(wild), '.') == [x] + WildSegments(wild)
    decreases |wild|
  {
    if wild == "" {
      assert x + Tail(wild) == x;
      SplitLast(x);
    } else {
      var rest := [wild[0]] + Tail(wild[1..]);
      assert x + Tail(wild) == x + ['.'] + rest;
      SplitAtDot(x, rest);
      SplitTail([wild[0]], wild[1..]);
    }
  }

  lemma VersionUnfolds(parts: seq<nat>, wild: string)
    requires |parts| > 1
    ensures VersionText(parts, wild) == Decimal(parts[0]) + ['.'] + VersionText(parts[1..], wild)
  {
    Concat(Decimal(parts[0]) + ['.'], Dotted(parts[1..]), Tail(wild));
  }

  lemma ConsConcat(x: string, a: seq<string>, b: seq<string>)
    ensures [x] + (a + b) == ([x] + a) + b
  {
  }

  lemma SplitOneNumber(a: nat, wild: string)
    requires AllWild(wild)
    ensures SplitOn(VersionText([a], wild), '.') == Decimals([a]) + WildSegments(wild)
  {
    SplitTail(Decimal(a), wild);
    assert Dotted([a]) == Decimal(a) && Decimals([a]) == [Decimal(a)];
  }

  lemma {:induction false} SplitVersion(parts: seq<nat>, wild: string)
    requires parts != [] && AllWild(wild)
    ensures SplitOn(VersionText(parts, wild), '.') == Decimals(parts) + WildSegments(wild)
    decreases |parts|
  {
    if |parts| == 1 {
      assert parts == [parts[0]];
      SplitOneNumber(parts[0], wild);
    } else {
      var d, rest := Decimal(parts[0]), parts[1..];
      SplitVersion(rest, wild);
      VersionUnfolds(parts, wild);
      SplitAtDot(d, VersionText(rest, wild));
      ConsConcat(d, Decimals(rest), WildSegments(wild));
    }
  }

  predicate VersionChar(c: char) {
    IsDigit(c) || c == '.' || IsWildcard(c)
  }

  lemma {:induction false} TailChars(wild: string)
    requires AllWild(wild)
    ensures forall i :: 0 <= i < |Tail(wild)| ==> VersionChar(Tail(wild)[i])
  {
    if wild != "" {
      TailChars(wild[1..]);
    }
  }

  lemma VersionChars(parts: seq<nat>, wild: string)
    requires parts != [] && AllWild(wild)
    ensures forall i :: 0 <= i < |VersionText(parts, wild)| ==> VersionChar(VersionText(parts, wild)[i])
  {
    DottedChars(parts);
    TailChars(wild);
  }

  lemma WildAt(parts: seq<nat>, wild: string) returns (i: nat)
    requires wild != ""
    ensures i < |VersionText(parts, wild)| && VersionText(parts, wild)[i] == wild[0]
  {
    i := |Dotted(parts)| + 1;
    assert Tail(wild)[1] == wild[0];
  }

  /** A version with wildcards is no plain version. */
  lemma WildIsNotPlain(parts: seq<nat>, wild: string)
    requires parts != [] && wild != "" && AllWild(wild)
    ensures !IsPlainExactVersion(VersionText(parts, wild))
  {
    var s := VersionText(parts, wild);
    var i := WildAt(parts, wild);
    if wild[0] != '*' {
      VersionChars(parts, wild);
      NoDashNorPlus(s);
      SplitVersion(parts, wild);
      assert WildSegments(wild)[0] == [wild[0]];
      assert [wild[0]] == "x" || [wild[0]] == "X";
      assert (Decimals(parts) + WildSegments(wild))[|Decimals(parts)|] == [wild[0]];
    }
  }

  lemma NoDashNorPlus(s: string)
    requires forall i :: 0 <= i < |s| ==> VersionChar(s[i])
    ensures VersionPart(s) == s
  {
    assert s[..|s|] == s;
  }

  lemma BareWild(parts: seq<nat>, wild: string)
    requires parts != [] && wild != "" && AllWild(wild)
    ensures AdjustNodeDefault(VersionText(parts, wild)) == VersionText(parts, wild)
  {
    WildIsNotPlain(parts, wild);
    var i := WildAt(parts, wild);
    OddIsNotExpanded(VersionText(parts, wild), i);
  }

  lemma BareText(parts: seq<nat>, wild: string)
    ensures ListText([Written(Caret, true, false, parts, wild)]) == VersionText(parts, wild)
  {
    assert "" + "" + VersionText(parts, wild) == VersionText(parts, wild);
  }

  lemma BareRewrites(parts: seq<nat>, wild: string)
    requires XRange(parts, wild)
    ensures AdjustNodeDefault(VersionText(parts, wild)) == ListText(BareList(parts, wild))
  {
    if wild != "" {
      BareWild(parts, wild);
      BareText(parts, wild);
    } else {
      PlainText(parts);
      if |parts| == 1 {
        assert parts == [parts[0]];
        BareOne(parts[0]);
        BareText(parts, wild);
      } else if |parts| == 2 {
        assert parts == [parts[0], parts[1]];
        BareTwo(parts[0], parts[1]);
      } else {
        BareThree(parts);
      }
    }
  }

  // ---- hyphen ranges ----

  lemma DecimalsAre(parts: seq<nat>)
    requires Partial(parts)
    ensures |Decimals(parts)| == |parts| && Decimals(parts)[0] == Decimal(parts[0])
    ensures |parts| > 1 ==> Decimals(parts)[1] == Decimal(parts[1])
  {
    assert |parts| > 1 ==> Decimals(parts[1..])[0] == Decimal(parts[1..][0]);
  }

  lemma FillMeansZeros(low: seq<nat>)
    requires Partial(low)
    ensures FillLower(Dotted(low)) == Dotted(Filled(low))
  {
    SplitDotted(low);
    DecimalsAre(low);
    DecimalZero();
    if |low| == 1 {
      DottedOfThree(low[0], 0, 0);
      ZerosAtEnd(Decimal(low[0]));
    } else if |low| == 2 {
      DottedOfThree(low[0], low[1], 0);
      ZeroAtEnd(Decimal(low[0]), Decimal(low[1]));
    } else {
      assert Filled(low) == low;
    }
  }

  lemma SuccessorOf(n: nat)
    requires n < LARGEST
    ensures Successor(n) == n + 1
  {
  }

  lemma IncrementOf(n: nat)
    requires n < LARGEST
    ensures Increment(Decimal(n)) == Decimal(n + 1)
  {
    SuccessorOf(n);
    ReadU64OfDecimal(n);
    assert ReadU64(Decimal(n)).GetOr(0) == n;
  }

  lemma BoundOne(a: nat)
    requires a < LARGEST
    ensures UpperBound(Dotted([a])) == "<" + Dotted([a + 1, 0, 0])
  {
    SplitDotted([a]);
    DecimalsAre([a]);
    IncrementOf(a);
    DottedOfThree(a + 1, 0, 0);
    DecimalZero();
    ZerosAtEnd(Decimal(a + 1));
  }

  lemma BoundTwo(a: nat, b: nat)
    requires b < LARGEST
    ensures UpperBound(Dotted([a, b])) == "<" + Dotted([a, b + 1, 0])
  {
    SplitDotted([a, b]);
    DecimalsAre([a, b]);
    IncrementOf(b);
    DottedOfThree(a, b + 1, 0);
    DecimalZero();
    ZeroAtEnd(Decimal(a), Decimal(b + 1));
  }

  lemma BoundMeansUpper(high: seq<nat>)
    requires Numbers(high)
    ensures UpperBound(Dotted(high)) == OpText(Upper(high).op) + Dotted(Upper(high).parts)
  {
    if |high| == 1 {
      assert high == [high[0]];
      BoundOne(high[0]);
    } else if |high| == 2 {
      assert high == [high[0], high[1]];
      BoundTwo(high[0], high[1]);
    } else {
      SplitDotted(high);
      DecimalsAre(high);
    }
  }

  lemma SegmentCount(parts: seq<nat>, wild: string)
    requires Partial(parts) && AllWild(wild)
    ensures |SplitOn(VersionText(parts, wild), '.')| == |parts| + |wild|
  {
    SplitVersion(parts, wild);
    DecimalsAre(parts);
    WildCount(wild);
  }

  lemma {:induction false} WildCount(wild: string)
    ensures |WildSegments(wild)| == |wild|
  {
    if wild != "" {
      WildCount(wild[1..]);
    }
  }

  lemma OperatorText(op: Op, parts: seq<nat>, wild: string)
    ensures WrittenText(Written(op, false, false, parts, wild)) == OpText(op) + VersionText(parts, wild)
  {
    assert OpText(op) + "" == OpText(op);
  }

  lemma LowerEndText(low: seq<nat>, wild: string)
    requires HyphenEnd(low, wild)
    ensures WrittenText(LowerEnd(low, wild)) == ">=" + FillLower(VersionText(low, wild))
  {
    if wild == "" {
      PlainText(low);
      FillMeansZeros(low);
      ComparisonText(GreaterEq, Filled(low));
    } else {
      SegmentCount(low, wild);
      OperatorText(GreaterEq, low, wild);
    }
  }

  lemma UpperEndText(high: seq<nat>, wild: string)
    requires HyphenEnd(high, wild)
    ensures WrittenText(UpperEnd(high, wild)) == UpperBound(VersionText(high, wild))
  {
    if wild == "" {
      PlainText(high);
      BoundMeansUpper(high);
      ComparisonText(Upper(high).op, Upper(high).parts);
    } else {
      SegmentCount(high, wild);
      OperatorText(LessEq, high, wild);
    }
  }

  lemma HyphenRewrites(low: seq<nat>, lowWild: string, high: seq<nat>, highWild: string)
    requires HyphenEnd(low, lowWild) && HyphenEnd(high, highWild)
    ensures AdjustNodeDefault(ExpandHyphenRange(VersionText(low, lowWild), VersionText(high, highWild)))
         == ListText(HyphenList(low, lowWild, high, highWild))
  {
    var ws := HyphenList(low, lowWild, high, highWild);
    LowerEndText(low, lowWild);
    UpperEndText(high, highWild);
    ListOfTwo(ws[0], ws[1]);
    ListHasMark(ws);
    MarkedIsKept(ListText(ws));
  }
}
