/** Ranges behind another package's name, `npm:name@range` and `jsr:name@range`,
    mean what the range means on its own. */
module RangeAliases {
  import opened Text
  import opened NpmRanges
  import opened Ranges
  import opened RangeTokens
  import opened RangeAgreement

  predicate Protocol(s: string) {
    s == "npm:" || s == "jsr:"
  }

  /** A plain or a scoped package name. */
  predicate PackageName(name: string) {
    name != [] && (name[0] == '@' ==> !Free(name, '/'))
  }

  lemma {:induction false} NoAt(s: string)
    requires Free(s, '@')
    ensures LastAt(s) == |s|
    decreases |s|
  {
    if s != [] {
      NoAt(s[1..]);
    }
  }

  lemma {:induction false} LastAtOf(x: string, r: string)
    requires Free(r, '@')
    ensures LastAt(x + ['@'] + r) == |x|
    decreases |x|
  {
    var s := x + ['@'] + r;
    if x == [] {
      assert s[1..] == r;
      NoAt(r);
    } else {
      assert s[1..] == x[1..] + ['@'] + r;
      LastAtOf(x[1..], r);
    }
  }

  lemma {:induction false} TrimEndAfter(x: string, r: string)
    requires x != [] && !IsSpace(x[|x| - 1])
    ensures TrimEnd(x + r) == x + TrimEnd(r)
    decreases |r|
  {
    var s := x + r;
    if r == [] {
      assert s == x;
    } else {
      assert s[|s| - 1] == r[|r| - 1];
      assert s[..|s| - 1] == x + r[..|r| - 1];
      if IsSpace(r[|r| - 1]) {
        TrimEndAfter(x, r[..|r| - 1]);
      }
    }
  }

  lemma {:induction false} CutBefore(name: string, rest: string)
    requires !Free(name, '/')
    ensures Cut(name + rest, '/') == Cut(name, '/') < |name|
    decreases |name|
  {
    if name[0] != '/' {
      assert (name + rest)[1..] == name[1..] + rest;
      CutBefore(name[1..], rest);
    }
  }

  /** A name and a range, as written after the protocol. */
  function Spec(name: string, range: string): string {
    name + ['@'] + range
  }

  function Alias(protocol: string, name: string, range: string): string {
    protocol + Spec(name, range)
  }

  lemma SearchWithinName(name: string, range: string)
    requires PackageName(name)
    ensures SearchFrom(Spec(name, range)) <= |name|
  {
    assert Spec(name, range)[0] == name[0];
    if name[0] == '@' {
      assert Spec(name, range) == name + (['@'] + range);
      CutBefore(name, ['@'] + range);
    }
  }

  lemma RangeAfterLastAt(x: string, range: string)
    requires Free(range, '@')
    ensures RangeAfterAt(x + ['@'] + range) == if Trim(range) == "" then "*" else Trim(range)
  {
    LastAtOf(x, range);
    assert (x + ['@'] + range)[|x| + 1..] == range;
  }

  /** The text after the last `@` is found behind plain and scoped names alike. */
  lemma ExtractsRange(name: string, range: string)
    requires PackageName(name) && Free(range, '@')
    ensures ExtractVersionRange(Spec(name, range)) == if Trim(range) == "" then "*" else Trim(range)
  {
    SearchWithinName(name, range);
    var from := SearchFrom(Spec(name, range));
    assert Spec(name, range)[from..] == name[from..] + ['@'] + range;
    RangeAfterLastAt(name[from..], range);
  }

  lemma SourceOf(text: string, protocol: string, rest: string)
    requires Protocol(protocol) && Trim(text) == protocol + rest
    ensures Source(text) == ExtractVersionRange(rest)
  {
    var trimmed := protocol + rest;
    assert trimmed[3] == ':' && "latest"[3] != ':';
    assert protocol <= trimmed && trimmed[4..] == rest;
  }

  lemma TrimAfter(front: string, range: string)
    requires front != [] && !IsSpace(front[0]) && !IsSpace(front[|front| - 1])
    ensures Trim(front + range) == front + TrimEnd(range)
  {
    assert TrimStart(front + range) == front + range;
    TrimEndAfter(front, range);
  }

  lemma AliasSource(protocol: string, name: string, range: string)
    requires Protocol(protocol)
    ensures Source(Alias(protocol, name, range)) == ExtractVersionRange(Spec(name, TrimEnd(range)))
  {
    var middle := name + ['@'];
    var front := protocol + middle;
    assert front[0] == protocol[0] && front[|front| - 1] == '@';
    TrimAfter(front, range);
    Concat(protocol, middle, range);
    Concat(protocol, middle, TrimEnd(range));
    SourceOf(Alias(protocol, name, range), protocol, Spec(name, TrimEnd(range)));
  }

  lemma {:induction false} TrimEndIsPrefix(s: string)
    ensures TrimEnd(s) <= s
    decreases |s|
  {
    if s != [] && IsSpace(s[|s| - 1]) {
      TrimEndIsPrefix(s[..|s| - 1]);
    }
  }

  /** An alias parses if its range does, and matches what the range denotes. */
  lemma AliasMeansPieces(protocol: string, name: string, range: string, pieces: seq<Piece>)
    requires Protocol(protocol) && PackageName(name) && Free(range, '@')
    requires AllGood(pieces) && WordsOf(SplitOr(range)) == AllWords(pieces)
    ensures var text := Alias(protocol, name, range);
      && Parsed(text).Ok?
      && forall v :: SetMatches(Parsed(text).value, v) <==> SomeDenotes(pieces, v)
  {
    var text := Alias(protocol, name, range);
    var version := TrimEnd(range);
    AliasSource(protocol, name, range);
    TrimEndIsPrefix(range);
    ExtractsRange(name, version);
    SplitTrimEnd(range);
    SplitTrim(version);
    var source := Trim(version);
    if source == "" {
      LoneLatest(source, pieces);
      AnythingMeans(pieces);
    } else {
      PartsMeaning(SplitOr(source), pieces);
    }
    var rs := PartRequirements(SplitOr(Source(text))).value;
    forall v ensures SetMatches(Parsed(text).value, v) <==> SomeMatches(rs, v) {
    }
  }

  /** `*` realizes every piece that denotes all versions. */
  lemma AnythingMeans(pieces: seq<Piece>)
    requires AllGood(pieces) && |pieces| == 1 && pieces[0].Any?
    ensures Realizes(PartRequirements(SplitOr("*")), pieces)
  {
    var any := [Any(["*"])];
    StarSplit();
    assert AllWords(any) == [["*"]];
    PartsMeaning(SplitOr("*"), any);
    forall v ensures SomeDenotes(any, v) && SomeDenotes(pieces, v) {
      assert Denotes(any[0], v) && Denotes(pieces[0], v);
    }
  }
}
