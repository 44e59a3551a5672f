/** Node version selectors: aliases, exact versions, and picks from the release index. */
module NodeResolve {
  import opened Wrappers
  import opened Text
  import opened CargoReq
  import opened NpmRanges
  import opened Ranges
  import opened RangeTokens
  import opened RangeMeaning
  import opened RangeAgreement

  const MAX_ALIAS_DEPTH := 8

  datatype NodeRelease = NodeRelease(version: string, lts: Option<string>)

  datatype Error = TooManyHops | EmptySelector | UnreadableAlias | NoIndex | EmptyIndex | NoLts | NoMatch

  function WithoutV(s: string): string {
    if s != [] && s[0] == 'v' then s[1..] else s
  }

  /** The release a text names, if it is `X.Y.Z`. */
  function ReadRelease(s: string): Option<Release> {
    match ReadVersion(CargoReq.Exact, false, s)
    case None => None
    case Some((c, rest)) =>
      if c.patch.Some? && c.minor.Some? && rest == [] && s[|s| - 1] != ' '
      then Some(Release(c.major, c.minor.value, c.patch.value)) else None
  }

  function ReadLabel(chosen: string): Option<Release> {
    ReadRelease(WithoutV(chosen))
  }

  // ---- the highest match ----

  /** What a selector keeps: the versions that begin with one or two numbers, or a range. */
  datatype Filter = Prefix(parts: seq<nat>) | InRange(set_: RangeSet)

  predicate Keeps(f: Filter, v: Release) {
    match f
    case Prefix(parts) =>
      if |parts| == 1 then v.major == parts[0]
      else if |parts| == 2 then v.major == parts[0] && v.minor == parts[1]
      else false
    case InRange(set_) => SetMatches(set_, v)
  }

  /** The version of a release that the filter keeps. */
  function Kept(f: Filter, r: NodeRelease): Option<Release> {
    match ReadLabel(r.version)
    case None => None
    case Some(v) => if Keeps(f, v) then Some(v) else None
  }

  function AllKept(f: Filter, releases: seq<NodeRelease>): (kept: seq<Option<Release>>)
    ensures |kept| == |releases|
    ensures forall i :: 0 <= i < |releases| ==> kept[i] == Kept(f, releases[i])
  {
    if releases == [] then [] else [Kept(f, releases[0])] + AllKept(f, releases[1..])
  }

  predicate Lesser(kept: seq<Option<Release>>, j: nat, k: nat)
    requires j < |kept| && k < |kept|
  {
    kept[j].Some? && kept[k].Some? && Below(kept[j].value, kept[k].value)
  }

  /** Position `k` is the first of those with the highest version. */
  predicate IsHighest(kept: seq<Option<Release>>, k: nat) {
    && k < |kept| && kept[k].Some?
    && (forall j :: 0 <= j < |kept| ==> !Lesser(kept, k, j))
    && (forall j :: 0 <= j < k && kept[j].Some? ==> Lesser(kept, j, k))
  }

  predicate NoneKept(kept: seq<Option<Release>>) {
    forall j :: 0 <= j < |kept| ==> kept[j].None?
  }

  /** The label chosen: that of the first highest release kept, if any is. */
  predicate Chosen(f: Filter, releases: seq<NodeRelease>, chosen: Option<string>) {
    match chosen
    case None => NoneKept(AllKept(f, releases))
    case Some(text) =>
      exists k :: 0 <= k < |releases| && IsHighest(AllKept(f, releases), k) && releases[k].version == text
  }

  /** The position of the highest version, later ones replacing it only when higher. */
  function Pick(kept: seq<Option<Release>>): (r: Option<nat>)
    ensures r.Some? ==> r.value < |kept| && kept[r.value].Some?
  {
    if kept == [] then None
    else
      var n := |kept| - 1;
      var before := Pick(kept[..n]);
      if kept[n].Some? && (before.None? || Below(kept[before.value].value, kept[n].value)) then Some(n) else before
  }

  lemma {:induction false} PickIsHighest(kept: seq<Option<Release>>)
    ensures if Pick(kept).None? then NoneKept(kept) else IsHighest(kept, Pick(kept).value)
  {
    if kept != [] {
      var n := |kept| - 1;
      PickIsHighest(kept[..n]);
      if Pick(kept[..n]).Some? {
        HighestGrows(kept, Pick(kept[..n]).value);
      }
    }
  }

  lemma HighestGrows(kept: seq<Option<Release>>, k: nat)
    requires kept != [] && IsHighest(kept[..|kept| - 1], k)
    ensures Lesser(kept, k, |kept| - 1) ==> IsHighest(kept, |kept| - 1)
    ensures !Lesser(kept, k, |kept| - 1) ==> IsHighest(kept, k)
  {
    var n := |kept| - 1;
    forall j | 0 <= j < n ensures !Lesser(kept, k, j) {
      assert !Lesser(kept[..n], k, j);
    }
    forall j | 0 <= j < k && kept[j].Some? ensures Lesser(kept, j, k) {
      assert Lesser(kept[..n], j, k);
    }
    if Lesser(kept, k, n) {
      forall j | 0 <= j < |kept| ensures !Lesser(kept, n, j) {
        assert j < n ==> !Lesser(kept, k, j);
      }
      forall j | 0 <= j < n && kept[j].Some? ensures Lesser(kept, j, n) {
        assert !Lesser(kept, k, j);
      }
    }
  }

  function PickLabel(f: Filter, releases: seq<NodeRelease>): Option<string> {
    match Pick(AllKept(f, releases))
    case None => None
    case Some(k) => Some(releases[k].version)
  }

  lemma LabelIsChosen(f: Filter, releases: seq<NodeRelease>)
    ensures Chosen(f, releases, PickLabel(f, releases))
  {
    PickIsHighest(AllKept(f, releases));
  }

  lemma PickStep(kept: seq<Option<Release>>, n: nat)
    requires n < |kept|
    ensures var before := Pick(kept[..n]);
      Pick(kept[..n + 1])
        == if kept[n].Some? && (before.None? || Below(kept[before.value].value, kept[n].value)) then Some(n) else before
  {
    assert kept[..n + 1][..n] == kept[..n];
  }

  /** What the loop knows after the first `n` releases. */
  ghost predicate PickedSoFar(f: Filter, releases: seq<NodeRelease>, n: nat, best: Option<Release>,
                              chosen: Option<string>) {
    && n <= |releases|
    && var pick := Pick(AllKept(f, releases)[..n]);
       if pick.None? then best.None? && chosen.None?
       else best == AllKept(f, releases)[pick.value] && chosen == Some(releases[pick.value].version)
  }

  lemma PickOneMore(f: Filter, releases: seq<NodeRelease>, n: nat, best: Option<Release>, chosen: Option<string>)
    requires n < |releases| && PickedSoFar(f, releases, n, best, chosen)
    ensures AllKept(f, releases)[n] == Kept(f, releases[n])
    ensures var kept := AllKept(f, releases)[n];
      if kept.Some? && (best.None? || Below(best.value, kept.value))
      then PickedSoFar(f, releases, n + 1, kept, Some(releases[n].version))
      else PickedSoFar(f, releases, n + 1, best, chosen)
  {
    PickStep(AllKept(f, releases), n);
  }

  method HighestMatching(f: Filter, releases: seq<NodeRelease>) returns (bestLabel: Option<string>)
    ensures bestLabel == PickLabel(f, releases)
  {
    var best: Option<Release> := None;
    bestLabel := None;
    for i := 0 to |releases|
      invariant PickedSoFar(f, releases, i, best, bestLabel)
    {
      PickOneMore(f, releases, i, best, bestLabel);
      var parsed := Kept(f, releases[i]);
      if parsed.None? {
        continue;
      }
      if best.None? || Below(best.value, parsed.value) {
        best := parsed;
        bestLabel := Some(releases[i].version);
      }
    }
    assert AllKept(f, releases)[..|releases|] == AllKept(f, releases);
  }

  // ---- partial versions and ranges ----

  function ReadAll(parts: seq<string>): (r: Option<seq<nat>>)
    ensures r.Some? ==> |r.value| == |parts|
  {
    if parts == [] then Some([])
    else if !AllDigits(parts[0]) || ReadU64(parts[0]).None? then None
    else
      match ReadAll(parts[1..])
      case None => None
      case Some(more) => Some([ReadU64(parts[0]).value] + more)
  }

  /** The filter a partial version stands for; full versions are none. */
  function PartialFilter(spec: string): Option<Filter> {
    match ReadAll(SplitOn(WithoutV(spec), '.'))
    case None => None
    case Some(parts) => if |parts| == 3 then None else Some(Prefix(parts))
  }

  function PartialPick(spec: string, releases: seq<NodeRelease>): Option<string> {
    match PartialFilter(spec)
    case None => None
    case Some(f) => PickLabel(f, releases)
  }

  function RangePick(spec: string, releases: seq<NodeRelease>): Option<string> {
    match Parsed(spec)
    case Err(_) => None
    case Ok(set_) => PickLabel(InRange(set_), releases)
  }

  method MatchPartial(spec: string, releases: seq<NodeRelease>) returns (chosen: Option<string>)
    ensures chosen == PartialPick(spec, releases)
  {
    var f := PartialFilter(spec);
    if f.None? {
      return None;
    }
    chosen := HighestMatching(f.value, releases);
  }

  method MatchRange(spec: string, releases: seq<NodeRelease>) returns (chosen: Option<string>)
    ensures chosen == RangePick(spec, releases)
  {
    var set_ := ParseInternal(spec);
    if set_.Err? {
      return None;
    }
    chosen := HighestMatching(InRange(set_.value), releases);
  }

  /** Filters that keep the same versions choose the same label. */
  lemma {:induction false} SameFilterSameLabel(f: Filter, g: Filter, releases: seq<NodeRelease>)
    requires forall v :: Keeps(f, v) <==> Keeps(g, v)
    ensures PickLabel(f, releases) == PickLabel(g, releases)
  {
    forall i | 0 <= i < |releases| ensures AllKept(f, releases)[i] == AllKept(g, releases)[i] {
    }
    assert AllKept(f, releases) == AllKept(g, releases);
  }

  // ---- `X` and `X.Y` ----

  /** `X` or `X.Y` without leading zeros, with or without a `v`. */
  predicate Canonical(v: string, parts: seq<nat>) {
    (v == "" || v == "v") && 1 <= |parts| <= 2 && Numbers(parts)
  }

  function Selector(v: string, parts: seq<nat>): string {
    v + Dotted(parts)
  }

  lemma {:induction false} ReadAllDecimals(parts: seq<nat>)
    requires forall i :: 0 <= i < |parts| ==> parts[i] < LARGEST
    ensures ReadAll(Decimals(parts)) == Some(parts)
  {
    if parts != [] {
      ReadU64OfDecimal(parts[0]);
      ReadAllDecimals(parts[1..]);
      ReadAllStep(Decimal(parts[0]), parts[0], Decimals(parts[1..]), parts[1..]);
      assert [parts[0]] + parts[1..] == parts;
    }
  }

  lemma ReadAllStep(first: string, n: nat, rest: seq<string>, more: seq<nat>)
    requires AllDigits(first) && ReadU64(first) == Some(n) && ReadAll(rest) == Some(more)
    ensures ReadAll([first] + rest) == Some([n] + more)
  {
    assert ([first] + rest)[1..] == rest;
  }

  lemma SelectorFilter(v: string, parts: seq<nat>)
    requires Canonical(v, parts)
    ensures PartialFilter(Selector(v, parts)) == Some(Prefix(parts))
  {
    DottedStartsWithDigit(parts);
    assert v == "v" ==> Selector(v, parts)[1..] == Dotted(parts);
    assert v == "" ==> Selector(v, parts) == Dotted(parts);
    SplitDotted(parts);
    ReadAllDecimals(parts);
  }

  predicate NoBlankNorBar(s: string) {
    forall i :: 0 <= i < |s| ==> !IsSpace(s[i]) && s[i] != '|'
  }

  lemma {:induction false} OneWord(s: string)
    requires s != [] && NoBlankNorBar(s)
    ensures Words(s) == [s]
  {
    WholeWord(s);
    assert s[..|s|] == s && s[|s|..] == [];
  }

  lemma {:induction false} WholeWord(s: string)
    requires NoBlankNorBar(s)
    ensures WordLength(s) == |s| && BarBar(s) == |s|
    decreases |s|
  {
    if s != [] {
      WholeWord(s[1..]);
    }
  }

  lemma SelectorIsOnePiece(v: string, parts: seq<nat>)
    requires Canonical(v, parts)
    ensures WordsOf(SplitOr(Selector(v, parts))) == AllWords([Bare(v, parts, "")])
    ensures Trim(Selector(v, parts)) == Selector(v, parts)
  {
    var s := Selector(v, parts);
    DottedStartsWithDigit(parts);
    DottedChars(parts);
    assert NoBlankNorBar(s);
    OneWord(s);
    WholeWord(s);
    TrimOfOneWord(s);
    assert SplitOr(s) == [s];
    PlainText(parts);
    assert PieceWords(Bare(v, parts, "")) == [s];
    assert AllWords([Bare(v, parts, "")]) == [[s]];
  }

  lemma SeriesIsBeginsWith(parts: seq<nat>, r: Release)
    requires 1 <= |parts| <= 2
    ensures BeginsWith(parts, r) <==> Keeps(Prefix(parts), r)
  {
  }

  lemma OnePieceDenotes(p: Piece, r: Release)
    requires Good(p)
    ensures SomeDenotes([p], r) <==> Denotes(p, r)
  {
    assert [p][0] == p;
  }

  lemma SelectorRange(v: string, parts: seq<nat>)
    requires Canonical(v, parts)
    ensures Parsed(Selector(v, parts)).Ok?
    ensures forall r :: SetMatches(Parsed(Selector(v, parts)).value, r) <==> Keeps(Prefix(parts), r)
  {
    var piece := Bare(v, parts, "");
    SelectorIsOnePiece(v, parts);
    RangeMeansPieces(Selector(v, parts), [piece]);
    forall r ensures SomeDenotes([piece], r) <==> Keeps(Prefix(parts), r) {
      OnePieceDenotes(piece, r);
      SeriesIsBeginsWith(parts, r);
    }
  }

  /** For `X` and `X.Y` both ways of matching choose the same label: that of
      the first highest release of the series, and none if the series is empty. */
  lemma PartialAndRangeAgree(v: string, parts: seq<nat>, releases: seq<NodeRelease>)
    requires Canonical(v, parts)
    ensures PartialPick(Selector(v, parts), releases) == RangePick(Selector(v, parts), releases)
    ensures Chosen(Prefix(parts), releases, PartialPick(Selector(v, parts), releases))
  {
    SelectorFilter(v, parts);
    SelectorRange(v, parts);
    LabelIsChosen(Prefix(parts), releases);
    SameFilterSameLabel(Prefix(parts), InRange(Parsed(Selector(v, parts)).value), releases);
  }

  // ---- the last step ----

  function LowerChar(c: char): char {
    if 'A' <= c <= 'Z' then c - 'A' + 'a' else c
  }

  function Lower(s: string): string {
    if s == [] then [] else [LowerChar(s[0])] + Lower(s[1..])
  }

  predicate IsLtsSelector(lower: string) {
    lower == "lts" || lower == "--lts" || "lts/" <= lower
  }

  function LtsCodename(lower: string): Option<string> {
    if "lts/" <= lower && lower[4..] != "" && lower[4..] != "*" && lower[4..] != "latest" then Some(lower[4..])
    else None
  }

  function LatestLts(releases: seq<NodeRelease>, codename: Option<string>): Result<string, Error> {
    if releases == [] then Err(NoLts)
    else if releases[0].lts.Some? && (codename.None? || Lower(releases[0].lts.value) == codename.value)
    then Ok(releases[0].version)
    else LatestLts(releases[1..], codename)
  }

  function MatchRemote(spec: string, releases: seq<NodeRelease>): Result<string, Error> {
    var lower := Lower(spec);
    if lower == "latest" || lower == "current" || lower == "node" || lower == "stable" then
      if releases == [] then Err(EmptyIndex) else Ok(releases[0].version)
    else if IsLtsSelector(Trim(lower)) then LatestLts(releases, LtsCodename(Trim(lower)))
    else if PartialPick(spec, releases).Some? then Ok(PartialPick(spec, releases).value)
    else if RangePick(spec, releases).Some? then Ok(RangePick(spec, releases).value)
    else Err(NoMatch)
  }

  datatype Source = ExactVersion | Alias(name: string, target: string) | Remote(selector: string)
  datatype Resolved = Resolved(normalized: string, source: Source)

  function VersionLabel(v: Release): string {
    "v" + Dotted([v.major, v.minor, v.patch])
  }

  /** A trimmed selector that is no alias. */
  function ResolveLast(trimmed: string, index: Option<seq<NodeRelease>>): Result<Resolved, Error> {
    match ReadLabel(trimmed)
    case Some(v) => Ok(Resolved(VersionLabel(v), ExactVersion))
    case None =>
      if index.None? then Err(NoIndex)
      else
        match MatchRemote(trimmed, index.value)
        case Err(e) => Err(e)
        case Ok(chosen) => Ok(Resolved(chosen, Remote(trimmed)))
  }

  // ---- alias chains ----

  datatype AliasFile = Content(text: string) | Unreadable

  type Aliases = map<string, AliasFile>

  /** `last` resolves what is no alias. */
  function ResolveWithDepth(aliases: Aliases, last: string -> Result<Resolved, Error>, spec: string, depth: nat)
    : Result<Resolved, Error>
    decreases MAX_ALIAS_DEPTH + 1 - depth
  {
    if depth > MAX_ALIAS_DEPTH then Err(TooManyHops)
    else if Trim(spec) == "" then Err(EmptySelector)
    else if Trim(spec) in aliases then
      match aliases[Trim(spec)]
      case Unreadable => Err(UnreadableAlias)
      case Content(text) =>
        match ResolveWithDepth(aliases, last, Trim(text), depth + 1)
        case Err(e) => Err(e)
        case Ok(resolved) => Ok(Resolved(resolved.normalized, Alias(Trim(spec), Trim(text))))
    else last(Trim(spec))
  }

  function LastStep(index: Option<seq<NodeRelease>>): string -> Result<Resolved, Error> {
    trimmed => ResolveLast(trimmed, index)
  }

  function ResolveSpec(aliases: Aliases, index: Option<seq<NodeRelease>>, spec: string): Result<Resolved, Error> {
    ResolveWithDepth(aliases, LastStep(index), spec, 0)
  }

  /** One hop along the aliases. */
  function Hop(aliases: Aliases, spec: string): Option<string> {
    if Trim(spec) != "" && Trim(spec) in aliases && aliases[Trim(spec)].Content?
    then Some(Trim(aliases[Trim(spec)].text)) else None
  }

  /** The selector after `n` hops, if there are as many. */
  function After(aliases: Aliases, spec: string, n: nat): Option<string>
    decreases n
  {
    if n == 0 then Some(spec)
    else
      match Hop(aliases, spec)
      case None => None
      case Some(target) => After(aliases, target, n - 1)
  }

  /** After `n` hops the chain is at a selector that is no alias. */
  predicate EndsAfter(aliases: Aliases, spec: string, n: nat) {
    var last := After(aliases, spec, n);
    last.Some? && Trim(last.value) != "" && Trim(last.value) !in aliases
  }

  predicate SameOutcome(a: Result<Resolved, Error>, b: Result<Resolved, Error>) {
    if a.Ok? then b.Ok? && a.value.normalized == b.value.normalized else a == b
  }

  lemma {:induction false} ShortChain(aliases: Aliases, last: string -> Result<Resolved, Error>, spec: string, n: nat,
                                      depth: nat)
    requires EndsAfter(aliases, spec, n) && depth + n <= MAX_ALIAS_DEPTH
    ensures SameOutcome(ResolveWithDepth(aliases, last, spec, depth),
                        last(Trim(After(aliases, spec, n).value)))
    decreases n
  {
    if n > 0 {
      ShortChain(aliases, last, Hop(aliases, spec).value, n - 1, depth + 1);
    }
  }

  /** A chain of at most eight hops resolves as its last selector does. */
  lemma ShortChainResolves(aliases: Aliases, index: Option<seq<NodeRelease>>, spec: string, n: nat)
    requires EndsAfter(aliases, spec, n) && n <= MAX_ALIAS_DEPTH
    ensures SameOutcome(ResolveSpec(aliases, index, spec), ResolveLast(Trim(After(aliases, spec, n).value), index))
    ensures n == 0 ==> ResolveSpec(aliases, index, spec) == ResolveLast(Trim(spec), index)
    ensures n > 0 && ResolveSpec(aliases, index, spec).Ok? ==>
      ResolveSpec(aliases, index, spec).value.source == Alias(Trim(spec), Trim(aliases[Trim(spec)].text))
  {
    ShortChain(aliases, LastStep(index), spec, n, 0);
  }

  lemma {:induction false} LongChain(aliases: Aliases, last: string -> Result<Resolved, Error>, spec: string,
                                     depth: nat)
    requires depth <= MAX_ALIAS_DEPTH + 1 && After(aliases, spec, MAX_ALIAS_DEPTH + 1 - depth).Some?
    ensures ResolveWithDepth(aliases, last, spec, depth) == Err(TooManyHops)
    decreases MAX_ALIAS_DEPTH + 1 - depth
  {
    if depth <= MAX_ALIAS_DEPTH {
      LongChain(aliases, last, Hop(aliases, spec).value, depth + 1);
    }
  }

  /** Nothing else resolves: whatever comes out of a selector came from the end
      of a chain of at most eight hops. */
  lemma {:induction false} ResolvedFromShortChain(aliases: Aliases, last: string -> Result<Resolved, Error>,
                                                  spec: string, depth: nat)
      returns (n: nat)
    requires ResolveWithDepth(aliases, last, spec, depth).Ok?
    ensures depth + n <= MAX_ALIAS_DEPTH && EndsAfter(aliases, spec, n)
    decreases MAX_ALIAS_DEPTH + 1 - depth
  {
    if Trim(spec) in aliases {
      var m := ResolvedFromShortChain(aliases, last, Hop(aliases, spec).value, depth + 1);
      n := m + 1;
    } else {
      n := 0;
    }
  }

  lemma {:induction false} AfterSum(aliases: Aliases, spec: string, m: nat, n: nat)
    requires After(aliases, spec, m).Some?
    ensures After(aliases, spec, m + n) == After(aliases, After(aliases, spec, m).value, n)
    decreases m
  {
    if m > 0 {
      AfterSum(aliases, Hop(aliases, spec).value, m - 1, n);
    }
  }

  lemma {:induction false} FewerHops(aliases: Aliases, spec: string, m: nat, n: nat)
    requires m <= n && After(aliases, spec, n).Some?
    ensures After(aliases, spec, m).Some?
    decreases m
  {
    if m > 0 {
      FewerHops(aliases, Hop(aliases, spec).value, m - 1, n - 1);
    }
  }

  lemma SameTrimSameHops(aliases: Aliases, a: string, b: string, n: nat)
    requires Trim(a) == Trim(b)
    ensures After(aliases, a, n).Some? <==> After(aliases, b, n).Some?
  {
  }

  /** A chain that meets the same alias twice never ends. */
  lemma {:induction false} CycleGoesOn(aliases: Aliases, spec: string, i: nat, j: nat, n: nat)
    requires i < j && After(aliases, spec, i).Some? && After(aliases, spec, j).Some?
    requires Trim(After(aliases, spec, i).value) == Trim(After(aliases, spec, j).value)
    ensures After(aliases, spec, n).Some?
    decreases n
  {
    if n <= j {
      FewerHops(aliases, spec, n, j);
    } else {
      CycleGoesOn(aliases, spec, i, j, n - (j - i));
      AfterSum(aliases, spec, j, n - j);
      AfterSum(aliases, spec, i, n - j);
      SameTrimSameHops(aliases, After(aliases, spec, i).value, After(aliases, spec, j).value, n - j);
    }
  }

  /** Longer chains are refused, and so is every chain that meets an alias twice. */
  lemma LongOrCyclicChainFails(aliases: Aliases, index: Option<seq<NodeRelease>>, spec: string, i: nat, j: nat)
    requires After(aliases, spec, j).Some?
    requires j > MAX_ALIAS_DEPTH
          || (i < j && After(aliases, spec, i).Some?
              && Trim(After(aliases, spec, i).value) == Trim(After(aliases, spec, j).value))
    ensures ResolveSpec(aliases, index, spec) == Err(TooManyHops)
  {
    LongOrCyclicGoesOn(aliases, spec, i, j);
    LongChainFails(aliases, index, spec);
  }

  lemma LongChainFails(aliases: Aliases, index: Option<seq<NodeRelease>>, spec: string)
    requires After(aliases, spec, MAX_ALIAS_DEPTH + 1).Some?
    ensures ResolveSpec(aliases, index, spec) == Err(TooManyHops)
  {
    LongChain(aliases, LastStep(index), spec, 0);
  }

  lemma LongOrCyclicGoesOn(aliases: Aliases, spec: string, i: nat, j: nat)
    requires After(aliases, spec, j).Some?
    requires j > MAX_ALIAS_DEPTH
          || (i < j && After(aliases, spec, i).Some?
              && Trim(After(aliases, spec, i).value) == Trim(After(aliases, spec, j).value))
    ensures After(aliases, spec, MAX_ALIAS_DEPTH + 1).Some?
  {
    if j > MAX_ALIAS_DEPTH {
      FewerHops(aliases, spec, MAX_ALIAS_DEPTH + 1, j);
    } else {
      CycleGoesOn(aliases, spec, i, j, MAX_ALIAS_DEPTH + 1);
    }
  }

  // ---- `X` and `X.Y`, from the command line to a label ----

  lemma SelectorStart(v: string, parts: seq<nat>)
    requires Canonical(v, parts)
    ensures Selector(v, parts) != [] && (IsDigit(Selector(v, parts)[0]) || Selector(v, parts)[0] == 'v')
  {
    DottedStartsWithDigit(parts);
    assert v == "" ==> Selector(v, parts)[0] == Dotted(parts)[0];
  }

  lemma SelectorIsNoRelease(v: string, parts: seq<nat>)
    requires Canonical(v, parts)
    ensures ReadLabel(Selector(v, parts)).None?
  {
    DottedStartsWithDigit(parts);
    var s := WithoutV(Selector(v, parts));
    assert v == "v" ==> Selector(v, parts)[1..] == Dotted(parts);
    assert v == "" ==> Selector(v, parts) == Dotted(parts);
    assert s == Dotted(parts) + [];
    assert Dotted(parts) + (Tail("") + []) == Dotted(parts) + [];
    ReadNumbers(CargoReq.Exact, false, parts, "", []);
  }

  lemma SelectorIsNoKeyword(s: string)
    requires s != [] && (IsDigit(s[0]) || s[0] == 'v')
    ensures var lower := Lower(s);
      && lower != "latest" && lower != "current" && lower != "node" && lower != "stable"
      && !IsLtsSelector(Trim(lower))
  {
    var lower := Lower(s);
    assert lower[0] == s[0];
    FirstWord(lower);
    TrimBeginsWithWord(lower);
  }

  /** A selector `X` or `X.Y` that is no alias resolves to the first highest release
      of its series in the index, and fails when the series is empty. */
  lemma SeriesResolves(aliases: Aliases, releases: seq<NodeRelease>, v: string, parts: seq<nat>)
    requires Canonical(v, parts) && Selector(v, parts) !in aliases
    ensures var pick := PickLabel(Prefix(parts), releases);
      && Chosen(Prefix(parts), releases, pick)
      && ResolveSpec(aliases, Some(releases), Selector(v, parts))
           == if pick.Some? then Ok(Resolved(pick.value, Remote(Selector(v, parts)))) else Err(NoMatch)
  {
    var s := Selector(v, parts);
    SelectorStart(v, parts);
    SelectorIsOnePiece(v, parts);
    SelectorIsNoRelease(v, parts);
    SelectorIsNoKeyword(s);
    SelectorFilter(v, parts);
    PartialAndRangeAgree(v, parts, releases);
  }

  // ---- exact versions ----

  /** `X.Y.Z`, with or without a `v`, that is no alias resolves to that version with a `v`,
      whatever the index holds and also without one. */
  lemma ExactResolves(aliases: Aliases, index: Option<seq<NodeRelease>>, v: string, a: nat, b: nat, c: nat)
    requires (v == "" || v == "v") && Numbers([a, b, c]) && v + Dotted([a, b, c]) !in aliases
    ensures ResolveSpec(aliases, index, v + Dotted([a, b, c]))
         == Ok(Resolved("v" + Decimal(a) + "." + Decimal(b) + "." + Decimal(c), ExactVersion))
  {
    var s := v + Dotted([a, b, c]);
    ExactIsTrimmed(v, [a, b, c]);
    ReadExact(v, a, b, c);
    DottedOfThree(a, b, c);
    LabelText(a, b, c);
  }

  lemma LabelText(a: nat, b: nat, c: nat)
    ensures VersionLabel(Release(a, b, c)) == "v" + Decimal(a) + "." + Decimal(b) + "." + Decimal(c)
  {
    DottedOfThree(a, b, c);
    LabelParts(Decimal(a), Decimal(b), Decimal(c));
  }

  lemma LabelParts(x: string, y: string, z: string)
    ensures "v" + (x + "." + y + "." + z) == "v" + x + "." + y + "." + z
  {
  }

  lemma ReadExact(v: string, a: nat, b: nat, c: nat)
    requires (v == "" || v == "v") && Numbers([a, b, c])
    ensures ReadLabel(v + Dotted([a, b, c])) == Some(Release(a, b, c))
  {
    DottedStartsWithDigit([a, b, c]);
    WithoutItsV(v, Dotted([a, b, c]));
    ReadTriple(a, b, c);
  }

  lemma WithoutItsV(v: string, text: string)
    requires (v == "" || v == "v") && text != [] && IsDigit(text[0])
    ensures WithoutV(v + text) == text
  {
    assert v == "v" ==> (v + text)[1..] == text;
    assert v == "" ==> v + text == text;
  }

  lemma ReadTriple(a: nat, b: nat, c: nat)
    requires Numbers([a, b, c])
    ensures ReadRelease(Dotted([a, b, c])) == Some(Release(a, b, c))
  {
    var text := Dotted([a, b, c]);
    assert text + [] == text && "" + text == text;
    ReadNumbersThree(CargoReq.Exact, false, [a, b, c], []);
    ExactIsTrimmed("", [a, b, c]);
    assert Comparing(CargoReq.Exact, [a, b, c]) == Comparator(CargoReq.Exact, a, Some(b), Some(c));
  }

  /** Such a text holds digits and dots only. */
  lemma {:induction false} DottedChars(parts: seq<nat>)
    ensures forall i :: 0 <= i < |Dotted(parts)| ==> IsDigit(Dotted(parts)[i]) || Dotted(parts)[i] == '.'
  {
    if |parts| > 1 {
      DottedChars(parts[1..]);
    }
  }

  lemma ExactIsTrimmed(v: string, parts: seq<nat>)
    requires (v == "" || v == "v") && parts != []
    ensures var s := v + Dotted(parts); s != [] && Trim(s) == s && s[|s| - 1] != ' '
  {
    var s := v + Dotted(parts);
    DottedStartsWithDigit(parts);
    DottedChars(parts);
    assert forall i :: 0 <= i < |s| ==> !IsSpace(s[i]);
    assert Trim(s) == s;
  }

  // ---- named selectors ----

  lemma {:induction false} LowerMeans(s: string)
    ensures |Lower(s)| == |s|
    ensures forall i :: 0 <= i < |s| ==> Lower(s)[i] == if 'A' <= s[i] <= 'Z' then s[i] + ' ' else s[i]
  {
    if s != [] {
      LowerMeans(s[1..]);
      assert forall i :: 0 < i < |s| ==> s[i] == s[1..][i - 1] && Lower(s)[i] == Lower(s[1..])[i - 1];
    }
  }

  /** Release `k` is the first with a codename, or the first with this one if one is asked for. */
  ghost predicate FirstLts(releases: seq<NodeRelease>, codename: Option<string>, k: nat) {
    && k < |releases| && HasLts(releases[k], codename)
    && forall j :: 0 <= j < k ==> !HasLts(releases[j], codename)
  }

  ghost predicate HasLts(r: NodeRelease, codename: Option<string>) {
    exists name :: r.lts == Some(name) && (codename == None || codename == Some(Lower(name)))
  }

  lemma {:induction false} LatestLtsMeans(releases: seq<NodeRelease>, codename: Option<string>)
    ensures LatestLts(releases, codename) == Err(NoLts) <==> forall r :: r in releases ==> !HasLts(r, codename)
    ensures forall k: nat :: FirstLts(releases, codename, k) ==>
      LatestLts(releases, codename) == Ok(releases[k].version)
    decreases |releases|
  {
    if releases != [] {
      var first := releases[0];
      assert HasLts(first, codename) <==>
        first.lts.Some? && (codename.None? || Lower(first.lts.value) == codename.value);
      LatestLtsMeans(releases[1..], codename);
      forall k: nat | FirstLts(releases, codename, k)
        ensures LatestLts(releases, codename) == Ok(releases[k].version)
      {
        if k > 0 {
          assert !HasLts(releases[0], codename);
          assert FirstLts(releases[1..], codename, k - 1);
        }
      }
      assert forall r :: r in releases <==> r == first || r in releases[1..];
    }
  }

  /** A selector that is no version and no alias, once trimmed: what it picks from the index
      goes by its text in lower case. */
  ghost predicate Plain(aliases: Aliases, spec: string) {
    Trim(spec) != "" && Trim(spec) !in aliases && ReadLabel(Trim(spec)) == None
  }

  /** `latest`, `current`, `node` and `stable`, in any case, are the first release. */
  lemma LatestResolves(aliases: Aliases, releases: seq<NodeRelease>, spec: string)
    requires Plain(aliases, spec) && Lower(Trim(spec)) in {"latest", "current", "node", "stable"}
    ensures ResolveSpec(aliases, Some(releases), spec)
         == if releases == [] then Err(EmptyIndex) else Ok(Resolved(releases[0].version, Remote(Trim(spec))))
  {
  }

  /** `lts` and its variants are the first release with a codename, `lts/name` the first with
      that one, in any case. */
  lemma LtsResolves(aliases: Aliases, releases: seq<NodeRelease>, spec: string, codename: Option<string>, k: nat)
    requires Plain(aliases, spec)
    requires match codename
      case None => Lower(Trim(spec)) in {"lts", "--lts", "lts/", "lts/*", "lts/latest"}
      case Some(name) => Lower(Trim(spec)) == "lts/" + name && name !in {"", "*", "latest"}
    ensures FirstLts(releases, codename, k) ==>
      ResolveSpec(aliases, Some(releases), spec) == Ok(Resolved(releases[k].version, Remote(Trim(spec))))
    ensures (forall r :: r in releases ==> !HasLts(r, codename)) ==>
      ResolveSpec(aliases, Some(releases), spec) == Err(NoLts)
  {
    var lower := Lower(Trim(spec));
    LowerIsTrimmed(spec);
    LtsText(lower, codename);
    LatestLtsMeans(releases, codename);
  }

  lemma LowerIsTrimmed(spec: string)
    ensures Trim(Lower(Trim(spec))) == Lower(Trim(spec))
  {
    var t := Trim(spec);
    LowerMeans(t);
    TrimStartFirst(spec);
    if TrimStart(spec) != [] {
      TrimEndFirst(TrimStart(spec));
      TrimEndLast(TrimStart(spec));
    }
  }

  lemma LtsText(lower: string, codename: Option<string>)
    requires match codename
      case None => lower in {"lts", "--lts", "lts/", "lts/*", "lts/latest"}
      case Some(name) => lower == "lts/" + name && name !in {"", "*", "latest"}
    ensures IsLtsSelector(lower) && LtsCodename(lower) == codename
    ensures lower !in {"latest", "current", "node", "stable"}
  {
    if codename.Some? {
      assert lower[4..] == codename.value;
    }
    assert lower[0] == 'l' || lower[0] == '-';
    assert lower[0] == 'l' ==> lower[1] == 't';
  }

  /** Without an index only versions and aliases resolve. */
  lemma NoIndexFails(aliases: Aliases, spec: string)
    requires Plain(aliases, spec)
    ensures ResolveSpec(aliases, None, spec) == Err(NoIndex)
  {
  }

  /** A blank selector, and one whose alias file cannot be read, are errors. */
  lemma BadSelectorFails(aliases: Aliases, index: Option<seq<NodeRelease>>, spec: string)
    ensures Trim(spec) == "" ==> ResolveSpec(aliases, index, spec) == Err(EmptySelector)
    ensures Trim(spec) != "" && Trim(spec) in aliases && aliases[Trim(spec)] == Unreadable ==>
      ResolveSpec(aliases, index, spec) == Err(UnreadableAlias)
  {
  }

  // ---- ranges ----

  /** Release `k` is labelled with a version that is kept, none is higher, and none before it is as high. */
  ghost predicate HighestKept(keep: Release -> bool, releases: seq<NodeRelease>, k: nat) {
    k < |releases| && ReadLabel(releases[k].version).Some? &&
    var v := ReadLabel(releases[k].version).value;
    && keep(v)
    && forall j, w :: 0 <= j < |releases| && ReadLabel(releases[j].version) == Some(w) && keep(w) ==>
         if j < k then NpmRanges.Below(w, v) else !NpmRanges.Below(v, w)
  }

  ghost predicate LabelOfHighest(keep: Release -> bool, releases: seq<NodeRelease>, text: string) {
    exists k: nat :: HighestKept(keep, releases, k) && releases[k].version == text
  }

  /** No release is labelled with a version that is kept. */
  ghost predicate NothingKept(keep: Release -> bool, releases: seq<NodeRelease>) {
    forall j, w :: 0 <= j < |releases| && ReadLabel(releases[j].version) == Some(w) ==> !keep(w)
  }

  lemma ChosenIsHighest(f: Filter, keep: Release -> bool, releases: seq<NodeRelease>, chosen: Option<string>)
    requires Chosen(f, releases, chosen) && forall v :: Keeps(f, v) <==> keep(v)
    ensures match chosen
      case None => NothingKept(keep, releases)
      case Some(text) => LabelOfHighest(keep, releases, text)
  {
    if chosen.Some? {
      var k: nat :| k < |releases| && IsHighest(AllKept(f, releases), k) && releases[k].version == chosen.value;
      HighestIsKept(f, keep, releases, k);
    } else {
      forall j, w | 0 <= j < |releases| && ReadLabel(releases[j].version) == Some(w)
        ensures !keep(w)
      {
        assert AllKept(f, releases)[j].None?;
      }
    }
  }

  lemma HighestIsKept(f: Filter, keep: Release -> bool, releases: seq<NodeRelease>, k: nat)
    requires k < |releases| && IsHighest(AllKept(f, releases), k) && forall v :: Keeps(f, v) <==> keep(v)
    ensures HighestKept(keep, releases, k)
  {
    var kept := AllKept(f, releases);
    assert kept[k] == Kept(f, releases[k]);
    forall j, w | 0 <= j < |releases| && ReadLabel(releases[j].version) == Some(w) && keep(w)
      ensures if j < k then NpmRanges.Below(w, kept[k].value) else !NpmRanges.Below(kept[k].value, w)
    {
      assert kept[j] == Kept(f, releases[j]) == Some(w);
      assert !Lesser(kept, k, j);
      assert j < k ==> Lesser(kept, j, k);
    }
  }

  /** A selector that is a range of good pieces, and neither a keyword nor a partial version,
      resolves to the first highest release that one of the pieces denotes, and is an error
      if none does. */
  lemma RangeResolves(aliases: Aliases, releases: seq<NodeRelease>, spec: string, pieces: seq<Piece>)
    requires Plain(aliases, spec) && PartialFilter(Trim(spec)) == None
    requires Lower(Trim(spec)) !in {"latest", "current", "node", "stable"} && !IsLtsSelector(Trim(Lower(Trim(spec))))
    requires AllGood(pieces) && WordsOf(SplitOr(Trim(spec))) == AllWords(pieces)
    ensures RangeOutcome(ResolveSpec(aliases, Some(releases), spec), releases, Trim(spec), pieces)
  {
    PlainIsMatched(aliases, releases, spec);
    RangeIsMatched(Trim(spec), releases);
    PickIsOutcome(Trim(spec), releases, pieces);
  }

  ghost predicate RangeOutcome(outcome: Result<Resolved, Error>, releases: seq<NodeRelease>, spec: string,
                               pieces: seq<Piece>) {
    match outcome
    case Err(e) => e == NoMatch && NothingKept(Denoted(pieces), releases)
    case Ok(r) => r.source == Remote(spec) && LabelOfHighest(Denoted(pieces), releases, r.normalized)
  }

  lemma PickIsOutcome(spec: string, releases: seq<NodeRelease>, pieces: seq<Piece>)
    requires AllGood(pieces) && WordsOf(SplitOr(spec)) == AllWords(pieces)
    ensures var pick := RangePick(spec, releases);
      RangeOutcome(if pick.Some? then Ok(Resolved(pick.value, Remote(spec))) else Err(NoMatch), releases, spec, pieces)
  {
    RangePickMeans(spec, releases, pieces);
  }

  lemma PlainIsMatched(aliases: Aliases, releases: seq<NodeRelease>, spec: string)
    requires Plain(aliases, spec)
    ensures ResolveSpec(aliases, Some(releases), spec)
         == match MatchRemote(Trim(spec), releases)
            case Err(e) => Err(e)
            case Ok(chosen) => Ok(Resolved(chosen, Remote(Trim(spec))))
  {
  }

  lemma RangeIsMatched(spec: string, releases: seq<NodeRelease>)
    requires PartialFilter(spec) == None
    requires Lower(spec) !in {"latest", "current", "node", "stable"} && !IsLtsSelector(Trim(Lower(spec)))
    ensures MatchRemote(spec, releases)
         == if RangePick(spec, releases).Some? then Ok(RangePick(spec, releases).value) else Err(NoMatch)
  {
  }

  lemma RangePickMeans(spec: string, releases: seq<NodeRelease>, pieces: seq<Piece>)
    requires AllGood(pieces) && WordsOf(SplitOr(spec)) == AllWords(pieces)
    ensures match RangePick(spec, releases)
      case None => NothingKept(Denoted(pieces), releases)
      case Some(text) => LabelOfHighest(Denoted(pieces), releases, text)
  {
    RangeMeansPieces(spec, pieces);
    var f := InRange(Parsed(spec).value);
    LabelIsChosen(f, releases);
    KeepsDenoted(f, pieces);
    ChosenIsHighest(f, Denoted(pieces), releases, PickLabel(f, releases));
  }

  lemma KeepsDenoted(f: Filter, pieces: seq<Piece>)
    requires f.InRange? && AllGood(pieces) && forall v :: SetMatches(f.set_, v) <==> SomeDenotes(pieces, v)
    ensures forall v :: Keeps(f, v) <==> Denoted(pieces)(v)
  {
  }

  function Denoted(pieces: seq<Piece>): Release -> bool {
    v => AllGood(pieces) && SomeDenotes(pieces, v)
  }
}
