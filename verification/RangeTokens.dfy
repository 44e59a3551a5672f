/** What splitting, stripping and joining do to the words a range is written with. */
module RangeTokens {
  import opened Text
  import opened CargoReq
  import opened NpmRanges
  import opened Ranges

  // ---- words of the parts ----

  function WordsOf(parts: seq<string>): (r: seq<seq<string>>)
    ensures |r| == |parts|
  {
    if parts == [] then [] else [Words(parts[0])] + WordsOf(parts[1..])
  }

  lemma BarBarAfterBlank(c: char, s: string)
    requires c != '|'
    ensures BarBar([c] + s) == BarBar(s) + 1
  {
    assert ([c] + s)[1..] == s;
  }

  lemma SplitAfterBlank(c: char, s: string)
    requires IsSpace(c)
    ensures WordsOf(SplitOr([c] + s)) == WordsOf(SplitOr(s))
  {
    BarBarAfterBlank(c, s);
    var i := BarBar(s);
    assert ([c] + s)[..i + 1] == [c] + s[..i];
    assert ([c] + s[..i])[1..] == s[..i];
    if i == |s| {
      assert s[..i] == s;
    } else {
      assert ([c] + s)[i + 3..] == s[i + 2..];
    }
  }

  lemma {:induction false} SplitTrimStart(s: string)
    ensures WordsOf(SplitOr(TrimStart(s))) == WordsOf(SplitOr(s))
    decreases |s|
  {
    if s != [] && IsSpace(s[0]) {
      SplitTrimStart(s[1..]);
      SplitAfterBlank(s[0], s[1..]);
      assert s == [s[0]] + s[1..];
    }
  }

  lemma {:induction false} BarBarBeforeBlank(s: string, c: char)
    requires c != '|'
    ensures BarBar(s + [c]) == if BarBar(s) == |s| then |s| + 1 else BarBar(s)
    decreases |s|
  {
    if |s| >= 2 {
      assert (s + [c])[1..] == s[1..] + [c];
      BarBarBeforeBlank(s[1..], c);
    }
  }

  lemma WordsOfCons(first: string, rest: seq<string>)
    ensures WordsOf([first] + rest) == [Words(first)] + WordsOf(rest)
  {
    assert ([first] + rest)[1..] == rest;
  }

  /** Texts that begin alike up to the first `||` and go on with the same words. */
  lemma SameFirstPart(s: string, t: string, i: nat)
    requires i == BarBar(s) == BarBar(t) && i < |s| && i < |t| && s[..i] == t[..i]
    requires WordsOf(SplitOr(s[i + 2..])) == WordsOf(SplitOr(t[i + 2..]))
    ensures WordsOf(SplitOr(s)) == WordsOf(SplitOr(t))
  {
    WordsOfCons(s[..i], SplitOr(s[i + 2..]));
    WordsOfCons(t[..i], SplitOr(t[i + 2..]));
  }

  lemma {:induction false} SplitBeforeBlank(s: string, c: char)
    requires IsSpace(c)
    ensures WordsOf(SplitOr(s + [c])) == WordsOf(SplitOr(s))
    decreases |s|
  {
    BarBarBeforeBlank(s, c);
    var i := BarBar(s);
    if i == |s| {
      WordsDropSpace(s, c);
    } else {
      SplitBeforeBlank(s[i + 2..], c);
      assert (s + [c])[..i] == s[..i] && (s + [c])[i + 2..] == s[i + 2..] + [c];
      SameFirstPart(s + [c], s, i);
    }
  }

  lemma {:induction false} SplitTrimEnd(s: string)
    ensures WordsOf(SplitOr(TrimEnd(s))) == WordsOf(SplitOr(s))
    decreases |s|
  {
    if s != [] && IsSpace(s[|s| - 1]) {
      var front := s[..|s| - 1];
      assert s == front + [s[|s| - 1]];
      SplitBeforeBlank(front, s[|s| - 1]);
      SplitTrimEnd(front);
    }
  }

  /** Trimming a range changes no word of any of its parts. */
  lemma SplitTrim(s: string)
    ensures WordsOf(SplitOr(Trim(s))) == WordsOf(SplitOr(s))
  {
    SplitTrimStart(s);
    SplitTrimEnd(TrimStart(s));
  }

  // ---- tokens ----

  predicate DigitFirst(s: string) {
    s != [] && IsDigit(s[0])
  }

  lemma OperatorLengthOf(op: Op, tail: string)
    requires tail == [] || !IsOpChar(tail[0])
    ensures OperatorLength(OpText(op) + tail) == |OpText(op)|
  {
    var s := OpText(op) + tail;
    assert OperatorLength(tail) == 0;
    if |OpText(op)| == 1 {
      assert s[1..] == tail;
    } else {
      assert s[1..][1..] == tail && IsOpChar(s[1]) && s[1..][0] == s[1];
      assert OperatorLength(s[1..]) == 1;
    }
  }

  lemma StripVersion(v: string, version: string)
    requires Prefixed(v) && DigitFirst(version)
    ensures StripV(v + version) == version
  {
    var s := v + version;
    if v == "" {
      assert s == version;
    } else {
      assert OperatorLength(s) == 0;
      assert s[1] == version[0];
      assert s[..0] + s[1..] == version;
    }
  }

  lemma StripOperator(op: Op, v: string, version: string)
    requires Prefixed(v) && DigitFirst(version)
    ensures StripV(OpText(op) + (v + version)) == OpText(op) + version
  {
    var tail := v + version;
    OperatorLengthOf(op, tail);
    var s := OpText(op) + tail;
    var n := |OpText(op)|;
    assert s[..n] == OpText(op) && s[n] == tail[0];
    if v != "" {
      assert s[n + 1] == version[0] && s[n + 1..] == version;
    } else {
      assert tail == version;
    }
  }

  lemma StripLoneOperator(op: Op)
    ensures StripV(OpText(op)) == OpText(op)
  {
    assert OpText(op) + [] == OpText(op);
    OperatorLengthOf(op, []);
  }

  lemma StripAllConcat(a: seq<string>, b: seq<string>)
    ensures StripAll(a + b) == StripAll(a) + StripAll(b)
  {
    if a == [] {
      assert a + b == b;
    } else {
      assert (a + b)[1..] == a[1..] + b;
      StripAllConcat(a[1..], b);
    }
  }

  /** The term without its `v`. */
  function Plain(t: Term): Term {
    t.(v := "")
  }

  function PlainTerms(terms: seq<Term>): seq<Term> {
    if terms == [] then [] else [Plain(terms[0])] + PlainTerms(terms[1..])
  }

  lemma StripTerm(t: Term)
    requires GoodTerm(t)
    ensures StripAll(TermWords(t)) == TermWords(Plain(t))
  {
    assert "" + VersionText(t.parts, t.wild) == VersionText(t.parts, t.wild);
    VersionStartsWithDigit(t.parts, t.wild);
    match t.op {
      case None =>
        StripVersion(t.v, VersionText(t.parts, t.wild));
      case Some(op) =>
        StripVersion(t.v, VersionText(t.parts, t.wild));
        StripOperator(op, t.v, VersionText(t.parts, t.wild));
        StripLoneOperator(op);
    }
  }

  lemma {:induction false} StripTerms(terms: seq<Term>)
    requires GoodTerms(terms)
    ensures StripAll(TermsWords(terms)) == TermsWords(PlainTerms(terms))
  {
    if terms != [] {
      StripTerm(terms[0]);
      StripTerms(terms[1..]);
      StripAllConcat(TermWords(terms[0]), TermsWords(terms[1..]));
    }
  }

  // ---- joining ----

  function Writing(t: Term): Written {
    match t.op
    case None => Written(Caret, true, false, t.parts, t.wild)
    case Some(op) => Written(op, false, t.spaced, t.parts, t.wild)
  }

  function Writings(terms: seq<Term>): seq<Written> {
    if terms == [] then [] else [Writing(terms[0])] + Writings(terms[1..])
  }

  lemma DigitMakesNoOperator(s: string, i: nat)
    requires i < |s| && IsDigit(s[i])
    ensures !IsOperator(s)
  {
  }

  lemma OpTextIsOperator(op: Op)
    ensures IsOperator(OpText(op))
  {
  }

  lemma JoinFirst(token: string, i: nat, rest: seq<string>)
    requires i < |token| && IsDigit(token[i])
    ensures Joined([token] + rest) == if rest == [] then token else token + ", " + Joined(rest)
  {
    DigitMakesNoOperator(token, i);
    assert ([token] + rest)[1..] == rest;
  }

  lemma JoinSpaced(op: Op, version: string, rest: seq<string>)
    requires DigitFirst(version)
    ensures Joined([OpText(op), version] + rest)
         == if rest == [] then OpText(op) + " " + version else OpText(op) + " " + version + ", " + Joined(rest)
  {
    var tokens := [OpText(op), version] + rest;
    assert tokens[1..] == [version] + rest;
    OpTextIsOperator(op);
    JoinFirst(version, 0, rest);
    assert Joined(tokens) == OpText(op) + " " + Joined([version] + rest);
    RegroupList(OpText(op), version, Joined(rest));
  }

  lemma RegroupList(op: string, version: string, rest: string)
    ensures op + " " + (version + ", " + rest) == op + " " + version + ", " + rest
  {
  }

  lemma JoinGlued(op: Op, version: string, rest: seq<string>)
    requires DigitFirst(version)
    ensures Joined([OpText(op) + version] + rest)
         == if rest == [] then OpText(op) + version else OpText(op) + version + ", " + Joined(rest)
  {
    assert (OpText(op) + version)[|OpText(op)|] == version[0];
    JoinFirst(OpText(op) + version, |OpText(op)|, rest);
  }

  lemma WritingText(t: Term)
    requires GoodTerm(t)
    ensures WrittenText(Writing(t))
         == match t.op
            case None => VersionText(t.parts, t.wild)
            case Some(op) =>
              if t.spaced then OpText(op) + " " + VersionText(t.parts, t.wild)
              else OpText(op) + VersionText(t.parts, t.wild)
  {
    var d := VersionText(t.parts, t.wild);
    assert "" + "" + d == d;
    assert t.op.Some? ==> OpText(t.op.value) + "" + d == OpText(t.op.value) + d;
  }

  /** The tokens of one term, joined, are the written comparator; the next
      token follows it after a comma. */
  lemma JoinTerm(t: Term, rest: seq<string>)
    requires GoodTerm(t) && t.v == ""
    ensures Joined(TermWords(t) + rest)
         == if rest == [] then WrittenText(Writing(t)) else WrittenText(Writing(t)) + ", " + Joined(rest)
  {
    var version := VersionText(t.parts, t.wild);
    assert "" + version == version;
    VersionStartsWithDigit(t.parts, t.wild);
    WritingText(t);
    match t.op {
      case None => JoinFirst(version, 0, rest);
      case Some(op) =>
        if t.spaced {
          JoinSpaced(op, version, rest);
        } else {
          JoinGlued(op, version, rest);
        }
    }
  }

  lemma {:induction false} JoinTerms(terms: seq<Term>)
    requires terms != [] && GoodTerms(terms)
    ensures Joined(TermsWords(PlainTerms(terms))) == ListText(Writings(terms))
    decreases |terms|
  {
    var first, rest := Plain(terms[0]), terms[1..];
    assert PlainTerms(terms) == [first] + PlainTerms(rest);
    assert TermsWords(PlainTerms(terms)) == TermWords(first) + TermsWords(PlainTerms(rest));
    JoinTerm(first, TermsWords(PlainTerms(rest)));
    if rest != [] {
      JoinTerms(rest);
      assert TermsWords(PlainTerms(rest)) != [];
    }
  }

  lemma NoDashInTerm(t: Term)
    requires GoodTerm(t)
    ensures forall w :: w in TermWords(t) ==> w != "-"
  {
    var version := t.v + VersionText(t.parts, t.wild);
    VersionStartsWithDigit(t.parts, t.wild);
    assert version[0] != '-';
    assert t.op.Some? ==> (OpText(t.op.value) + version)[0] == OpText(t.op.value)[0] != '-';
  }

  lemma {:induction false} NoDash(terms: seq<Term>)
    requires GoodTerms(terms)
    ensures forall w :: w in TermsWords(terms) ==> w != "-"
  {
    if terms != [] {
      NoDash(terms[1..]);
      NoDashInTerm(terms[0]);
    }
  }
}
