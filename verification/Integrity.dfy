/** Subresource-integrity values and the streaming verifier
    (snpm-core/src/store/integrity.rs). */
module Integrity {
  import opened Wrappers
  import opened Text

  type Byte = b: nat | b < 256
  type Bytes = seq<Byte>

  datatype Algorithm = Sha512 | Sha256 | Sha1

  /** Base64 decoding and the digest functions; nothing is assumed of them. */
  datatype Crypto = Crypto(decode: string -> Option<Bytes>, digest: (Algorithm, Bytes) -> Bytes)

  datatype Token = Token(algorithm: Algorithm, expected: string)

  datatype Spec = Spec(tokens: seq<Token>, sawSupported: bool, cacheable: bool)

  datatype Error = NoSupportedAlgorithm | InvalidValue | Mismatch | Http | Write

  /** A blob's place in the cache: algorithm and digest in hex. */
  datatype CacheKey = CacheKey(algorithm: Algorithm, digestHex: string)

  // ---- hex ----

  const HEX_DIGITS := "0123456789abcdef"

  function Hex(b: Bytes): (s: string)
    ensures |s| == 2 * |b|
  {
    if b == [] then [] else [HEX_DIGITS[b[0] / 16], HEX_DIGITS[b[0] % 16]] + Hex(b[1..])
  }

  lemma HexDigitsDiffer(i: nat, j: nat)
    requires i < 16 && j < 16 && HEX_DIGITS[i] == HEX_DIGITS[j]
    ensures i == j
  {
  }

  lemma {:induction false} HexInjective(a: Bytes, b: Bytes)
    requires Hex(a) == Hex(b)
    ensures a == b
  {
    assert 2 * |a| == 2 * |b|;
    if a != [] {
      assert Hex(a)[0] == Hex(b)[0] && Hex(a)[1] == Hex(b)[1];
      assert Hex(a)[2..] == Hex(a[1..]) && Hex(b)[2..] == Hex(b[1..]);
      HexDigitsDiffer(a[0] / 16, b[0] / 16);
      HexDigitsDiffer(a[0] % 16, b[0] % 16);
      HexInjective(a[1..], b[1..]);
      assert a == [a[0]] + a[1..] && b == [b[0]] + b[1..];
    }
  }

  function HexValue(c: char): nat {
    if '0' <= c <= '9' then c as nat - '0' as nat
    else if 'a' <= c <= 'f' then c as nat - 'a' as nat + 10
    else 16
  }

  lemma HexDigitMeans(d: nat)
    requires d < 16
    ensures HexValue(HEX_DIGITS[d]) == d
  {
  }

  /** Two lower-case digits for each byte, the upper half first. */
  lemma {:induction false} HexMeans(b: Bytes, i: nat)
    requires i < |b|
    ensures 16 * HexValue(Hex(b)[2 * i]) + HexValue(Hex(b)[2 * i + 1]) == b[i]
    ensures HexValue(Hex(b)[2 * i]) < 16 && HexValue(Hex(b)[2 * i + 1]) < 16
  {
    if i == 0 {
      HexDigitMeans(b[0] / 16);
      HexDigitMeans(b[0] % 16);
    } else {
      HexMeans(b[1..], i - 1);
      assert Hex(b)[2..] == Hex(b[1..]);
      assert Hex(b)[2 * i] == Hex(b)[2..][2 * i - 2] && Hex(b)[2 * i + 1] == Hex(b)[2..][2 * i - 1];
    }
  }

  // ---- reading an integrity value ----

  function ParseAlgorithm(name: string): Option<Algorithm> {
    if name == "sha512" then Some(Sha512)
    else if name == "sha256" then Some(Sha256)
    else if name == "sha1" then Some(Sha1)
    else None
  }

  /** One word: options after `?` are dropped; a word without a dash or with
      an unknown algorithm is ignored. */
  function ParseToken(word: string): Option<Token> {
    var token := word[..Cut(word, '?')];
    var dash := Cut(token, '-');
    if dash == |token| then None
    else
      match ParseAlgorithm(token[..dash])
      case Some(algorithm) => Some(Token(algorithm, token[dash + 1..]))
      case None => None
  }

  function ParseTokens(words: seq<string>): seq<Token> {
    if words == [] then []
    else
      ParseTokens(words[..|words| - 1]) +
      match ParseToken(words[|words| - 1])
      case Some(t) => [t]
      case None => []
  }

  predicate NameOf(a: Algorithm, name: string) {
    (a == Sha512 && name == "sha512") || (a == Sha256 && name == "sha256") || (a == Sha1 && name == "sha1")
  }

  /** The word is the name of an algorithm, a dash, and what is expected, perhaps with
      options behind a question mark. */
  ghost predicate Says(word: string, t: Token) {
    exists name :: NameOf(t.algorithm, name) && Free(t.expected, '?')
                   && (word == name + "-" + t.expected
                       || exists options :: word == name + "-" + t.expected + "?" + options)
  }

  /** The text before the first `?`. */
  lemma CutOff(front: string, options: string)
    requires Free(front, '?')
    ensures front[..Cut(front, '?')] == front
    ensures var s := front + "?" + options; s[..Cut(s, '?')] == front
  {
    CutAtFirst(front, '?', options);
    assert front[..|front|] == front;
  }

  lemma SplitToken(name: string, expected: string)
    requires Free(name, '-')
    ensures var s := name + "-" + expected;
      Cut(s, '-') == |name| && s[..|name|] == name && s[|name| + 1..] == expected
  {
    CutAtFirst(name, '-', expected);
  }

  lemma NameIsParsed(a: Algorithm, name: string)
    requires NameOf(a, name)
    ensures ParseAlgorithm(name) == Some(a) && Free(name, '-') && Free(name, '?')
  {
  }

  /** A word whose text before the options is a name, a dash and what is expected. */
  lemma FrontIsParsed(word: string, name: string, t: Token)
    requires NameOf(t.algorithm, name) && word[..Cut(word, '?')] == name + "-" + t.expected
    ensures ParseToken(word) == Some(t)
  {
    NameIsParsed(t.algorithm, name);
    SplitToken(name, t.expected);
  }

  lemma SaysIsParsed(word: string, t: Token)
    requires Says(word, t)
    ensures ParseToken(word) == Some(t)
  {
    var name :| NameOf(t.algorithm, name) && Free(t.expected, '?')
                && (word == name + "-" + t.expected
                    || exists options :: word == name + "-" + t.expected + "?" + options);
    var front := name + "-" + t.expected;
    NameIsParsed(t.algorithm, name);
    NoOptions(name, t.expected);
    if word == front {
      CutOff(front, "");
    } else {
      var options :| word == front + "?" + options;
      CutOff(front, options);
    }
    FrontIsParsed(word, name, t);
  }

  lemma NoOptions(name: string, expected: string)
    requires Free(name, '?') && Free(expected, '?')
    ensures Free(name + "-" + expected, '?')
  {
  }

  lemma ParsedIsSaid(word: string)
    requires ParseToken(word).Some?
    ensures Says(word, ParseToken(word).value)
  {
    var i := Cut(word, '?');
    var token, t := word[..i], ParseToken(word).value;
    var dash := Cut(token, '-');
    assert token == token[..dash] + "-" + t.expected && NameOf(t.algorithm, token[..dash]);
    assert Free(token, '?');
    if i < |word| {
      assert word == token + "?" + word[i + 1..];
    } else {
      assert word == token;
    }
  }

  /** A word gives the token it says, and none if it says none. */
  lemma ParseTokenMeans(word: string, t: Token)
    ensures ParseToken(word) == Some(t) <==> Says(word, t)
  {
    if ParseToken(word) == Some(t) {
      ParsedIsSaid(word);
    }
    if Says(word, t) {
      SaysIsParsed(word, t);
    }
  }

  /** The tokens of a list of words are those of its parts, in order. */
  lemma {:induction false} ParseTokensOf(a: seq<string>, b: seq<string>)
    ensures ParseTokens(a + b) == ParseTokens(a) + ParseTokens(b)
    decreases |b|
  {
    if b == [] {
      assert a + b == a;
    } else {
      var n := |b| - 1;
      assert (a + b)[..|a + b| - 1] == a + b[..n];
      ParseTokensOf(a, b[..n]);
    }
  }

  lemma ParseTokensOfOne(word: string, t: Token)
    ensures Says(word, t) ==> ParseTokens([word]) == [t]
    ensures (forall u :: !Says(word, u)) ==> ParseTokens([word]) == []
  {
    assert [word][..0] == [] && ParseTokens([]) == [];
    ParseTokenMeans(word, t);
    if ParseToken(word).Some? {
      ParsedIsSaid(word);
    }
  }

  predicate AllDecode(c: Crypto, tokens: seq<Token>) {
    forall i :: 0 <= i < |tokens| ==> c.decode(tokens[i].expected).Some?
  }

  function SpecOf(c: Crypto, tokens: seq<Token>): Spec {
    Spec(tokens, tokens != [], AllDecode(c, tokens))
  }

  /** The value's meaning: None when there is nothing to check. */
  function ParseSpec(c: Crypto, integrity: Option<string>): Option<Spec> {
    if integrity.None? || Words(integrity.value) == [] then None
    else Some(SpecOf(c, ParseTokens(Words(integrity.value))))
  }

  lemma ParseOneMore(words: seq<string>, i: nat)
    requires i < |words|
    ensures var before := ParseTokens(words[..i]);
      ParseTokens(words[..i + 1])
        == match ParseToken(words[i])
           case Some(t) => before + [t]
           case None => before
  {
    assert words[..i + 1][..i] == words[..i];
  }

  method Parse(c: Crypto, integrity: Option<string>) returns (spec: Option<Spec>)
    ensures spec == ParseSpec(c, integrity)
  {
    if integrity.None? {
      return None;
    }
    var words := Words(integrity.value);
    if words == [] {
      return None;
    }
    var s := Spec([], false, true);
    for i := 0 to |words|
      invariant s == SpecOf(c, ParseTokens(words[..i]))
    {
      ParseOneMore(words, i);
      match ParseToken(words[i]) {
        case None =>
        case Some(token) =>
          OneMoreToken(c, s.tokens, token);
          s := s.(sawSupported := true);
          if c.decode(token.expected).None? {
            s := s.(cacheable := false);
          }
          s := s.(tokens := s.tokens + [token]);
      }
    }
    assert words[..|words|] == words;
    return Some(s);
  }

  lemma OneMoreToken(c: Crypto, tokens: seq<Token>, t: Token)
    ensures AllDecode(c, tokens + [t]) <==> AllDecode(c, tokens) && c.decode(t.expected).Some?
  {
    var longer := tokens + [t];
    assert longer[|tokens|] == t;
    assert forall i :: 0 <= i < |tokens| ==> longer[i] == tokens[i];
  }

  // ---- verifying ----

  /** What the tokens, in order, say about the content. */
  function Scan(c: Crypto, tokens: seq<Token>, cacheable: bool, content: Bytes): Result<Option<CacheKey>, Error> {
    if tokens == [] then Err(Mismatch)
    else
      match c.decode(tokens[0].expected)
      case None => Err(InvalidValue)
      case Some(expected) =>
        if c.digest(tokens[0].algorithm, content) == expected
        then Ok(if cacheable then Some(CacheKey(tokens[0].algorithm, Hex(expected))) else None)
        else Scan(c, tokens[1..], cacheable, content)
  }

  function Verdict(c: Crypto, spec: Spec, content: Bytes): Result<Option<CacheKey>, Error> {
    if !spec.sawSupported then Err(NoSupportedAlgorithm) else Scan(c, spec.tokens, spec.cacheable, content)
  }

  /** The content has the digest the token names. */
  predicate TokenMatches(c: Crypto, t: Token, content: Bytes) {
    c.decode(t.expected) == Some(c.digest(t.algorithm, content))
  }

  /** Token `i` decides: those before it can be decoded and do not match. */
  predicate Decides(c: Crypto, tokens: seq<Token>, content: Bytes, i: nat) {
    i <= |tokens| && forall j :: 0 <= j < i ==>
      c.decode(tokens[j].expected).Some? && !TokenMatches(c, tokens[j], content)
  }

  /** What the scan says is decided by the first token that matches or cannot be decoded. */
  lemma {:induction false} ScanDecides(c: Crypto, tokens: seq<Token>, cacheable: bool, content: Bytes, i: nat)
    requires Decides(c, tokens, content, i)
    ensures i == |tokens| ==> Scan(c, tokens, cacheable, content) == Err(Mismatch)
    ensures i < |tokens| && c.decode(tokens[i].expected).None? ==>
        Scan(c, tokens, cacheable, content) == Err(InvalidValue)
    ensures i < |tokens| && TokenMatches(c, tokens[i], content) ==>
      Scan(c, tokens, cacheable, content)
        == Ok(if cacheable then Some(CacheKey(tokens[i].algorithm, Hex(c.digest(tokens[i].algorithm, content))))
              else None)
    decreases i
  {
    if i > 0 {
      assert c.decode(tokens[0].expected).Some? && !TokenMatches(c, tokens[0], content);
      ScanDecides(c, tokens[1..], cacheable, content, i - 1);
    }
  }

  /** Some token decides, or the end of the list does. */
  lemma {:induction false} SomeDecides(c: Crypto, tokens: seq<Token>, content: Bytes) returns (i: nat)
    ensures Decides(c, tokens, content, i)
    ensures i < |tokens| ==> TokenMatches(c, tokens[i], content) || c.decode(tokens[i].expected).None?
    decreases |tokens|
  {
    if tokens == [] || TokenMatches(c, tokens[0], content) || c.decode(tokens[0].expected).None? {
      i := 0;
    } else {
      var j := SomeDecides(c, tokens[1..], content);
      i := j + 1;
      forall k | 0 <= k < i
        ensures c.decode(tokens[k].expected).Some? && !TokenMatches(c, tokens[k], content)
      {
        assert k > 0 ==> tokens[k] == tokens[1..][k - 1];
      }
    }
  }

  /** Content is accepted if and only if it matches a token and every token before that
      one can be decoded; whether what follows can be does not matter. */
  lemma AcceptedIff(c: Crypto, integrity: Option<string>, spec: Spec, content: Bytes)
    requires ParseSpec(c, integrity) == Some(spec)
    ensures Verdict(c, spec, content).Ok? <==>
      exists i :: 0 <= i < |spec.tokens| && TokenMatches(c, spec.tokens[i], content) && AllDecode(c, spec.tokens[..i])
    ensures Verdict(c, spec, content).Ok? ==> (Verdict(c, spec, content).value.Some? <==> spec.cacheable)
  {
    var k := SomeDecides(c, spec.tokens, content);
    ScanDecides(c, spec.tokens, spec.cacheable, content, k);
    if k < |spec.tokens| && TokenMatches(c, spec.tokens[k], content) {
      assert AllDecode(c, spec.tokens[..k]);
    } else {
      forall i | 0 <= i < |spec.tokens| && TokenMatches(c, spec.tokens[i], content)
        ensures !AllDecode(c, spec.tokens[..i])
      {
        assert k < i && spec.tokens[..i][k] == spec.tokens[k];
      }
    }
  }

  predicate Uses(spec: Spec, a: Algorithm) {
    exists i :: 0 <= i < |spec.tokens| && spec.tokens[i].algorithm == a
  }

  /** One optional hasher per algorithm, each holding what it has absorbed. */
  class Verifier {
    const crypto: Crypto
    const spec: Spec
    var sha512: Option<Bytes>
    var sha256: Option<Bytes>
    var sha1: Option<Bytes>
    ghost var absorbed: Bytes

    ghost predicate Valid()
      reads this
    {
      && sha512 == (if Uses(spec, Sha512) then Some(absorbed) else None)
      && sha256 == (if Uses(spec, Sha256) then Some(absorbed) else None)
      && sha1 == (if Uses(spec, Sha1) then Some(absorbed) else None)
    }

    constructor (crypto: Crypto, spec: Spec)
      ensures Valid() && absorbed == [] && this.crypto == crypto && this.spec == spec
    {
      this.crypto, this.spec := crypto, spec;
      sha512 := if Uses(spec, Sha512) then Some([]) else None;
      sha256 := if Uses(spec, Sha256) then Some([]) else None;
      sha1 := if Uses(spec, Sha1) then Some([]) else None;
      absorbed := [];
    }

    method Update(bytes: Bytes)
      requires Valid()
      modifies this
      ensures Valid() && absorbed == old(absorbed) + bytes
    {
      if sha512.Some? {
        sha512 := Some(sha512.value + bytes);
      }
      if sha256.Some? {
        sha256 := Some(sha256.value + bytes);
      }
      if sha1.Some? {
        sha1 := Some(sha1.value + bytes);
      }
      absorbed := absorbed + bytes;
    }

    /** The hasher of an algorithm that occurs in the value is always there. */
    method Finish() returns (r: Result<Option<CacheKey>, Error>)
      requires Valid()
      ensures r == Verdict(crypto, spec, absorbed)
    {
      if !spec.sawSupported {
        return Err(NoSupportedAlgorithm);
      }
      for i := 0 to |spec.tokens|
        invariant Scan(crypto, spec.tokens, spec.cacheable, absorbed) ==
          Scan(crypto, spec.tokens[i..], spec.cacheable, absorbed)
      {
        var token := spec.tokens[i];
        var hasher := match token.algorithm case Sha512 => sha512 case Sha256 => sha256 case Sha1 => sha1;
        var actual := crypto.digest(token.algorithm, hasher.value);
        var expected := crypto.decode(token.expected);
        if expected.None? {
          return Err(InvalidValue);
        }
        if actual == expected.value {
          return Ok(if spec.cacheable then Some(CacheKey(token.algorithm, Hex(expected.value))) else None);
        }
      }
      return Err(Mismatch);
    }
  }

  function Joined(chunks: seq<Bytes>): Bytes {
    if chunks == [] then [] else Joined(chunks[..|chunks| - 1]) + chunks[|chunks| - 1]
  }

  /** Feeding a content in any chunks gives the verdict on the content. */
  method VerifyChunks(c: Crypto, spec: Spec, chunks: seq<Bytes>) returns (r: Result<Option<CacheKey>, Error>)
    ensures r == Verdict(c, spec, Joined(chunks))
  {
    var verifier := new Verifier(c, spec);
    for i := 0 to |chunks|
      invariant verifier.Valid() && verifier.crypto == c && verifier.spec == spec
      invariant verifier.absorbed == Joined(chunks[..i])
    {
      assert chunks[..i + 1][..i] == chunks[..i];
      verifier.Update(chunks[i]);
    }
    assert chunks[..|chunks|] == chunks;
    r := verifier.Finish();
  }

  // ---- the cache keys of a value ----

  predicate KeyOfToken(c: Crypto, t: Token, k: CacheKey) {
    c.decode(t.expected).Some? && k == CacheKey(t.algorithm, Hex(c.decode(t.expected).value))
  }

  /** `k` names content that some token of a cacheable value asks for. */
  ghost predicate KeyOfSpec(c: Crypto, spec: Spec, k: CacheKey) {
    spec.cacheable && exists i :: 0 <= i < |spec.tokens| && KeyOfToken(c, spec.tokens[i], k)
  }

  /** The keys under which content for this value may lie: the strongest
      algorithm first, each key once.  Decoding cannot fail here. */
  method CacheKeys(c: Crypto, spec: Spec) returns (keys: seq<CacheKey>)
    requires spec.cacheable ==> AllDecode(c, spec.tokens)
    ensures forall k :: k in keys <==> KeyOfSpec(c, spec, k)
    ensures forall i, j :: 0 <= i < j < |keys| ==> keys[i] != keys[j] && Strength(keys[i]) >= Strength(keys[j])
  {
    keys := [];
    if !spec.cacheable {
      return;
    }
    var order := [Sha512, Sha256, Sha1];
    for a := 0 to |order|
      invariant forall k :: k in keys <==> exists i ::
          0 <= i < |spec.tokens| && KeyOfToken(c, spec.tokens[i], k) && Strength(k) > 3 - a
      invariant forall i, j :: 0 <= i < j < |keys| ==> keys[i] != keys[j] && Strength(keys[i]) >= Strength(keys[j])
    {
      keys := AddKeysOf(c, spec.tokens, order[a], keys);
    }
  }

  function Strength(k: CacheKey): nat {
    match k.algorithm case Sha512 => 3 case Sha256 => 2 case Sha1 => 1
  }

  method AddKeysOf(c: Crypto, tokens: seq<Token>, a: Algorithm, before: seq<CacheKey>) returns (keys: seq<CacheKey>)
    requires AllDecode(c, tokens)
    requires forall i, j ::
        0 <= i < j < |before| ==> before[i] != before[j] && Strength(before[i]) >= Strength(before[j])
    requires forall k :: k in before ==> Strength(k) >= Strength(CacheKey(a, ""))
    ensures forall k :: k in keys <==> k in before || exists i ::
        0 <= i < |tokens| && KeyOfToken(c, tokens[i], k) && k.algorithm == a
    ensures forall i, j :: 0 <= i < j < |keys| ==> keys[i] != keys[j] && Strength(keys[i]) >= Strength(keys[j])
  {
    keys := before;
    for t := 0 to |tokens|
      invariant forall k :: k in keys <==> k in before || exists i ::
          0 <= i < t && KeyOfToken(c, tokens[i], k) && k.algorithm == a
      invariant forall i, j :: 0 <= i < j < |keys| ==> keys[i] != keys[j] && Strength(keys[i]) >= Strength(keys[j])
      invariant forall k :: k in keys ==> Strength(k) >= Strength(CacheKey(a, ""))
    {
      if tokens[t].algorithm == a {
        var key := CacheKey(a, Hex(c.decode(tokens[t].expected).value));
        assert KeyOfToken(c, tokens[t], key);
        if key !in keys {
          keys := keys + [key];
        }
      }
    }
  }
}
