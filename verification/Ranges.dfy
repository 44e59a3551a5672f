/** npm ranges, rewritten part by part into Cargo requirements. */
module Ranges {
  import opened Wrappers
  import opened Text
  import opened CargoReq

  // ---- splitting ----

  /** Where the first `||` begins, or the length of the text. */
  function BarBar(s: string): (i: nat)
    ensures i <= |s| && (i < |s| ==> i + 1 < |s|)
  {
    if |s| < 2 then |s|
    else if s[0] == '|' && s[1] == '|' then 0
    else BarBar(s[1..]) + 1
  }

  function SplitOr(s: string): (parts: seq<string>)
    ensures parts != []
    decreases |s|
  {
    var i := BarBar(s);
    if i == |s| then [s] else [s[..i]] + SplitOr(s[i + 2..])
  }

  function SplitOn(s: string, c: char): (parts: seq<string>)
    ensures parts != []
    decreases |s|
  {
    var i := Cut(s, c);
    if i == |s| then [s] else [s[..i]] + SplitOn(s[i + 1..], c)
  }

  // ---- one part of a range ----

  predicate IsOpChar(c: char) {
    c == '<' || c == '>' || c == '=' || c == '~' || c == '^'
  }

  function OperatorLength(token: string): (n: nat)
    ensures n <= |token|
  {
    if token == [] || !IsOpChar(token[0]) then 0 else OperatorLength(token[1..]) + 1
  }

  /** Drops a `v` between the operator and a digit. */
  function StripV(token: string): string {
    var n := OperatorLength(token);
    if n + 1 < |token| && (token[n] == 'v' || token[n] == 'V') && IsDigit(token[n + 1])
    then token[..n] + token[n + 1..]
    else token
  }

  function StripAll(tokens: seq<string>): (r: seq<string>)
    ensures |r| == |tokens|
  {
    if tokens == [] then [] else [StripV(tokens[0])] + StripAll(tokens[1..])
  }

  /** A text read as an unsigned 64-bit number; a plus sign is allowed. */
  function ReadU64(s: string): Option<nat> {
    var digits := if s != [] && s[0] == '+' then s[1..] else s;
    if digits != [] && AllDigits(digits) && Number(digits) < U64_LIMIT then Some(Number(digits)) else None
  }

  /** The lower end of `low - high`, missing numbers filled with zeros. */
  function FillLower(lower: string): string {
    var lows := SplitOn(lower, '.');
    if |lows| == 1 then lows[0] + ".0.0"
    else if |lows| == 2 then lows[0] + "." + lows[1] + ".0"
    else lower
  }

  /** The next number; the sum wraps at 64 bits. */
  function Successor(n: nat): nat {
    (n + 1) % U64_LIMIT
  }

  /** The number after the one in the text; zero stands in for what is no number. */
  function Increment(s: string): string {
    Decimal(Successor(ReadU64(s).GetOr(0)))
  }

  /** The bound that the upper end of `low - high` puts on versions. */
  function UpperBound(upper: string): string {
    var highs := SplitOn(upper, '.');
    if |highs| == 1 then "<" + Increment(highs[0]) + ".0.0"
    else if |highs| == 2 then "<" + highs[0] + "." + Increment(highs[1]) + ".0"
    else "<=" + upper
  }

  function ExpandHyphenRange(lower: string, upper: string): string {
    ">=" + FillLower(lower) + ", " + UpperBound(upper)
  }

  predicate IsOperator(token: string) {
    token == "=" || token == ">" || token == ">=" || token == "<" || token == "<=" || token == "~" || token == "^"
  }

  function Separator(previous: string): string {
    if IsOperator(previous) then " " else ", "
  }

  /** The tokens with a blank after each lone operator and commas elsewhere. */
  function Joined(tokens: seq<string>): string {
    if tokens == [] then []
    else if |tokens| == 1 then tokens[0]
    else tokens[0] + Separator(tokens[0]) + Joined(tokens[1..])
  }

  function NormalizedAnd(part: string): string {
    var tokens := StripAll(Words(part));
    if tokens == [] then part
    else if |tokens| == 1 then tokens[0]
    else if |tokens| == 3 && tokens[1] == "-" then ExpandHyphenRange(tokens[0], tokens[2])
    else Joined(tokens)
  }

  /** What is left to join from token `index` on. */
  function Rest(tokens: seq<string>, index: nat): string
    requires index <= |tokens|
  {
    if index == |tokens| then []
    else if index == 0 then Joined(tokens)
    else Separator(tokens[index - 1]) + Joined(tokens[index..])
  }

  ghost predicate JoinedSoFar(tokens: seq<string>, index: nat, result: string) {
    index <= |tokens| && result + Rest(tokens, index) == Joined(tokens)
  }

  /** The text put before a token. */
  function Gap(tokens: seq<string>, index: nat): string
    requires index < |tokens|
  {
    if index > 0 then Separator(tokens[index - 1]) else ""
  }

  lemma JoinedUnfolds(tokens: seq<string>, index: nat)
    requires index < |tokens|
    ensures Joined(tokens[index..]) == tokens[index] + Rest(tokens, index + 1)
  {
    var here := tokens[index..];
    assert here[0] == tokens[index] && here[1..] == tokens[index + 1..];
    if index + 1 < |tokens| {
      Regroup([], here[0], Separator(here[0]), Joined(here[1..]));
    } else {
      assert here == [tokens[index]];
    }
  }

  lemma JoinOneMore(tokens: seq<string>, index: nat, result: string)
    requires index < |tokens| && JoinedSoFar(tokens, index, result)
    ensures JoinedSoFar(tokens, index + 1, result + Gap(tokens, index) + tokens[index])
  {
    JoinedUnfolds(tokens, index);
    Regroup(result, Gap(tokens, index), tokens[index], Rest(tokens, index + 1));
    assert index == 0 ==> tokens[index..] == tokens;
    assert index == 0 ==> [] + Joined(tokens) == Joined(tokens);
  }

  lemma JoinStart(tokens: seq<string>)
    ensures JoinedSoFar(tokens, 0, "")
  {
    assert "" + Joined(tokens) == Joined(tokens);
  }

  lemma JoinEnds(tokens: seq<string>, result: string)
    requires JoinedSoFar(tokens, |tokens|, result)
    ensures result == Joined(tokens)
  {
    assert result + [] == result;
  }

  lemma JoinStep(tokens: seq<string>, index: nat, result: string)
    requires index < |tokens| && JoinedSoFar(tokens, index, result)
    ensures index == 0 ==> JoinedSoFar(tokens, index + 1, result + tokens[index])
    ensures index > 0 ==> JoinedSoFar(tokens, index + 1, result + Separator(tokens[index - 1]) + tokens[index])
  {
    JoinOneMore(tokens, index, result);
    if index == 0 {
      assert result + Gap(tokens, 0) == result;
    }
  }

  method JoinTokens(tokens: seq<string>) returns (result: string)
    ensures result == Joined(tokens)
  {
    result := "";
    JoinStart(tokens);
    for index := 0 to |tokens|
      invariant JoinedSoFar(tokens, index, result)
    {
      JoinStep(tokens, index, result);
      if index > 0 {
        result := result + Separator(tokens[index - 1]);
      }
      result := result + tokens[index];
    }
    JoinEnds(tokens, result);
  }

  method NormalizeAndPart(part: string) returns (result: string)
    ensures result == NormalizedAnd(part)
  {
    var tokens := StripAll(Words(part));
    if tokens == [] {
      return part;
    }
    if |tokens| == 1 {
      return tokens[0];
    }
    if |tokens| == 3 && tokens[1] == "-" {
      return ExpandHyphenRange(tokens[0], tokens[2]);
    }
    result := JoinTokens(tokens);
  }

  predicate IsLatest(s: string) {
    s == "" || s == "latest"
  }

  /** The part without blanks around it and without a leading `@` before a version. */
  function PartBody(part: string): string {
    var p := Trim(part);
    if |p| > 1 && p[0] == '@' && (IsDigit(p[1]) || IsOpChar(p[1])) then p[1..] else p
  }

  function NormalizedPart(part: string): string {
    if IsLatest(PartBody(part)) then "*" else NormalizedAnd(PartBody(part))
  }

  // ---- Cargo would read some texts differently ----

  predicate IsMark(c: char) {
    IsOpChar(c) || c == ' ' || c == ','
  }

  predicate HasMark(s: string) {
    exists i :: 0 <= i < |s| && IsMark(s[i])
  }

  /** The text before the first `-` or `+`. */
  function VersionPart(s: string): (r: string)
    ensures r <= s
  {
    s[..if Cut(s, '-') < Cut(s, '+') then Cut(s, '-') else Cut(s, '+')]
  }

  predicate IsPlainExactVersion(s: string) {
    && s != [] && !HasMark(s) && '*' !in s
    && "x" !in SplitOn(VersionPart(s), '.') && "X" !in SplitOn(VersionPart(s), '.')
    && multiset(s)['.'] >= 2
  }

  function MinorSpan(major: string, minor: string, next: nat): string {
    ">=" + major + "." + minor + ".0, <" + major + "." + Decimal(next) + ".0"
  }

  function ExpandNumbers(major: string, minor: string): Option<string> {
    if major == [] || minor == [] || !AllDigits(major) || !AllDigits(minor) then None
    else
      match ReadU64(minor)
      case None => None
      case Some(n) => if n + 1 == U64_LIMIT then None else Some(MinorSpan(major, minor, n + 1))
  }

  /** `X.Y` on its own is every `X.Y.z`. */
  function ExpandBareMajorMinor(s: string): Option<string> {
    var i := Cut(s, '.');
    if i == |s| then None else ExpandNumbers(s[..i], s[i + 1..])
  }

  function AdjustNodeDefault(s: string): string {
    if IsPlainExactVersion(s) then "=" + s
    else ExpandBareMajorMinor(s).GetOr(s)
  }

  // ---- whole ranges ----

  /** Ranges that refer to another package keep the text after its last `@`. */
  function LastAt(s: string): (i: nat)
    ensures i <= |s|
  {
    if s == [] then 0
    else
      var i := LastAt(s[1..]);
      if i < |s[1..]| || s[0] != '@' then i + 1 else 0
  }

  /** Past the scope of a scoped name. */
  function SearchFrom(spec: string): (from: nat)
    ensures from <= |spec|
  {
    if spec == [] || spec[0] != '@' then 0
    else if Cut(spec, '/') < |spec| then Cut(spec, '/') + 1
    else 1
  }

  /** The text after the last `@`, or everything. */
  function RangeAfterAt(tail: string): string {
    var at := LastAt(tail);
    if at == |tail| || Trim(tail[at + 1..]) == "" then "*" else Trim(tail[at + 1..])
  }

  function ExtractVersionRange(spec: string): string {
    RangeAfterAt(spec[SearchFrom(spec)..])
  }

  function Source(original: string): string {
    var trimmed := Trim(original);
    if IsLatest(trimmed) then "*"
    else if "npm:" <= trimmed || "jsr:" <= trimmed then ExtractVersionRange(trimmed[4..])
    else trimmed
  }

  datatype RangeSet = RangeSet(original: string, ranges: seq<Requirement>)

  predicate SetMatches(set_: RangeSet, v: Release) {
    exists i :: 0 <= i < |set_.ranges| && Matches(set_.ranges[i], v)
  }

  /** The requirement one part stands for, if Cargo can read it. */
  function PartRequirement(part: string): Option<Requirement> {
    ReadRequirement(AdjustNodeDefault(NormalizedPart(part)))
  }

  /** What comes of one part: parts that normalize to nothing are skipped. */
  datatype Outcome = Skipped | Refused | Read(requirement: Requirement)

  function OutcomeOf(part: string): Outcome {
    if NormalizedPart(part) == "" then Skipped
    else
      match PartRequirement(part)
      case None => Refused
      case Some(r) => Read(r)
  }

  function Outcomes(parts: seq<string>): (os: seq<Outcome>)
    ensures |os| == |parts|
    ensures forall i :: 0 <= i < |parts| ==> os[i] == OutcomeOf(parts[i])
  {
    if parts == [] then [] else [OutcomeOf(parts[0])] + Outcomes(parts[1..])
  }

  /** The requirements read, in order; none if a part is refused. */
  function Gather(os: seq<Outcome>): Option<seq<Requirement>> {
    if os == [] then Some([])
    else
      match os[0]
      case Skipped => Gather(os[1..])
      case Refused => None
      case Read(r) =>
        match Gather(os[1..])
        case None => None
        case Some(more) => Some([r] + more)
  }

  function PartRequirements(parts: seq<string>): Option<seq<Requirement>> {
    Gather(Outcomes(parts))
  }

  function Parsed(original: string): Result<RangeSet, string> {
    match PartRequirements(SplitOr(Source(original)))
    case None => Err(original)
    case Some(ranges) => Ok(RangeSet(original, if ranges == [] then [[]] else ranges))
  }

  method NormalizePart(part: string) returns (result: string)
    ensures result == NormalizedPart(part)
  {
    var body := PartBody(part);
    if IsLatest(body) {
      return "*";
    }
    result := NormalizeAndPart(body);
  }

  /** The requirements read so far, with those of the parts from `index` on, are all. */
  ghost predicate ReadSoFar(os: seq<Outcome>, index: nat, ranges: seq<Requirement>) {
    && index <= |os|
    && var rest := Gather(os[index..]);
       Gather(os) == if rest.Some? then Some(ranges + rest.value) else None
  }

  lemma ReadStart(os: seq<Outcome>)
    ensures ReadSoFar(os, 0, [])
  {
    assert os[0..] == os;
    assert Gather(os).Some? ==> [] + Gather(os).value == Gather(os).value;
  }

  lemma ReadOneMore(os: seq<Outcome>, index: nat, ranges: seq<Requirement>)
    requires index < |os| && ReadSoFar(os, index, ranges)
    ensures match os[index]
            case Skipped => ReadSoFar(os, index + 1, ranges)
            case Refused => Gather(os).None?
            case Read(r) => ReadSoFar(os, index + 1, ranges + [r])
  {
    var here := os[index..];
    assert here[0] == os[index] && here[1..] == os[index + 1..];
    var rest := Gather(here[1..]);
    if os[index].Read? && rest.Some? {
      assert ranges + ([os[index].requirement] + rest.value) == (ranges + [os[index].requirement]) + rest.value;
    }
  }

  lemma ReadEnds(os: seq<Outcome>, ranges: seq<Requirement>)
    requires ReadSoFar(os, |os|, ranges)
    ensures Gather(os) == Some(ranges)
  {
    assert os[|os|..] == [];
    assert ranges + [] == ranges;
  }

  method ReadParts(parts: seq<string>) returns (result: Option<seq<Requirement>>)
    ensures result == PartRequirements(parts)
  {
    var ranges: seq<Requirement> := [];
    ghost var os := Outcomes(parts);
    ReadStart(os);
    for index := 0 to |parts|
      invariant ReadSoFar(os, index, ranges)
    {
      ReadOneMore(os, index, ranges);
      var normalized := NormalizePart(parts[index]);
      if normalized == "" {
        continue;
      }
      var request := ReadRequirement(AdjustNodeDefault(normalized));
      if request.None? {
        return None;
      }
      ranges := ranges + [request.value];
    }
    ReadEnds(os, ranges);
    result := Some(ranges);
  }

  method ParseInternal(original: string) returns (result: Result<RangeSet, string>)
    ensures result == Parsed(original)
  {
    var ranges := ReadParts(SplitOr(Source(original)));
    match ranges {
      case None => result := Err(original);
      case Some(rs) => result := Ok(RangeSet(original, if rs == [] then [[]] else rs));
    }
  }
}
