/** The content-addressed tarball cache (snpm-core/src/store/fetch.rs): a hit is
    handed out without being verified again, so its correctness rests on what
    was ever stored. */
module BlobCache {
  import opened Wrappers
  import opened Integrity

  /** What the server answers: an error, or chunks of which the last may be missing. */
  datatype Response = Failure | Body(chunks: seq<Bytes>, complete: bool)

  /** The blob under a key has the digest the key names. */
  ghost predicate Sound(c: Crypto, blobs: map<CacheKey, Bytes>) {
    forall k :: k in blobs ==> k.digestHex == Hex(c.digest(k.algorithm, blobs[k]))
  }

  lemma {:induction false} ScanAccepts(c: Crypto, tokens: seq<Token>, cacheable: bool, content: Bytes, i: nat)
    requires i < |tokens| && AllDecode(c, tokens[..i]) && TokenMatches(c, tokens[i], content)
    ensures Scan(c, tokens, cacheable, content).Ok?
  {
    if i > 0 && !TokenMatches(c, tokens[0], content) {
      assert tokens[..i][0] == tokens[0] && tokens[..i][1..] == tokens[1..][..i - 1];
      ScanAccepts(c, tokens[1..], cacheable, content, i - 1);
    }
  }

  /** Accepted content has a key exactly if the value is cacheable; the key belongs
      to one of the tokens and names the content's own digest. */
  lemma {:induction false} ScanKey(c: Crypto, tokens: seq<Token>, cacheable: bool, content: Bytes)
    requires Scan(c, tokens, cacheable, content).Ok?
    ensures Scan(c, tokens, cacheable, content).value.Some? <==> cacheable
    ensures cacheable ==> var k := Scan(c, tokens, cacheable, content).value.value;
      && (exists i :: 0 <= i < |tokens| && KeyOfToken(c, tokens[i], k))
      && k.digestHex == Hex(c.digest(k.algorithm, content))
  {
    if !cacheable {
      if c.digest(tokens[0].algorithm, content) != c.decode(tokens[0].expected).value {
        ScanKey(c, tokens[1..], cacheable, content);
      }
    } else if c.digest(tokens[0].algorithm, content) == c.decode(tokens[0].expected).value {
      assert KeyOfToken(c, tokens[0], Scan(c, tokens, cacheable, content).value.value);
    } else {
      ScanKey(c, tokens[1..], cacheable, content);
      var k := Scan(c, tokens, cacheable, content).value.value;
      var i :| 0 <= i < |tokens[1..]| && KeyOfToken(c, tokens[1..][i], k);
      assert KeyOfToken(c, tokens[i + 1], k);
    }
  }

  /** A blob found under any key of an integrity value would pass the verifier. */
  lemma HitWouldVerify(c: Crypto, integrity: Option<string>, spec: Spec, blobs: map<CacheKey, Bytes>, k: CacheKey)
    requires Sound(c, blobs) && k in blobs && ParseSpec(c, integrity) == Some(spec) && KeyOfSpec(c, spec, k)
    ensures Verified(c, integrity, blobs[k])
  {
    var i :| 0 <= i < |spec.tokens| && KeyOfToken(c, spec.tokens[i], k);
    HexInjective(c.digest(k.algorithm, blobs[k]), c.decode(spec.tokens[i].expected).value);
    ScanAccepts(c, spec.tokens, spec.cacheable, blobs[k], i);
  }

  /** Content that may be handed out for an integrity value. */
  ghost predicate Verified(c: Crypto, integrity: Option<string>, content: Bytes) {
    ParseSpec(c, integrity).Some? ==> Verdict(c, ParseSpec(c, integrity).value, content).Ok?
  }

  // ---- the answer to a request ----

  /** Every token of the value can be decoded. */
  ghost predicate Decodable(c: Crypto, tokens: seq<Token>) {
    forall t :: t in tokens ==> c.decode(t.expected) != None
  }

  /** Under this key lies content that a token asks for, if the whole value can be decoded. */
  ghost predicate NamedBy(c: Crypto, tokens: seq<Token>, k: CacheKey) {
    Decodable(c, tokens) && exists t, digest :: t in tokens && c.decode(t.expected) == Some(digest)
                                                && k == CacheKey(t.algorithm, Hex(digest))
  }

  /** Token `i` is the first that the content has the digest of, and those before it can be decoded. */
  ghost predicate FirstMatch(c: Crypto, tokens: seq<Token>, content: Bytes, i: nat) {
    && i < |tokens| && c.decode(tokens[i].expected) == Some(c.digest(tokens[i].algorithm, content))
    && NoneMatches(c, tokens, content, i)
  }

  /** The first `n` tokens can be decoded, to digests that are not the content's. */
  ghost predicate NoneMatches(c: Crypto, tokens: seq<Token>, content: Bytes, n: nat) {
    n <= |tokens| && forall j :: 0 <= j < n ==>
      c.decode(tokens[j].expected) !in {None, Some(c.digest(tokens[j].algorithm, content))}
  }

  type Blobs = map<CacheKey, Bytes>

  /** What comes of content that token `i` accepts: it is stored under that token's key and
      handed out; where the rename fails, what is there already is. */
  ghost predicate Accepted(c: Crypto, tokens: seq<Token>, i: nat, content: Bytes, renameWorks: bool,
                           before: Blobs, r: Result<Bytes, Error>, after: Blobs)
    requires i < |tokens|
  {
    var key := CacheKey(tokens[i].algorithm, Hex(c.digest(tokens[i].algorithm, content)));
    if !Decodable(c, tokens) then r == Ok(content) && after == before
    else if renameWorks then r == Ok(content) && after == before[key := content]
    else after == before && r == if key in before then Ok(before[key]) else Err(Write)
  }

  /** What comes of a complete download. */
  ghost predicate Published(c: Crypto, tokens: seq<Token>, content: Bytes, renameWorks: bool,
                            before: Blobs, r: Result<Bytes, Error>, after: Blobs) {
    && (tokens == [] ==> r == Err(NoSupportedAlgorithm) && after == before)
    && (tokens != [] ==> forall i: nat :: NoneMatches(c, tokens, content, i) ==>
          PublishedAt(c, tokens, i, content, renameWorks, before, r, after))
  }

  /** The same, once none of the first `i` tokens matches: the next one is the content's, or
      cannot be decoded, or there is none. */
  ghost predicate PublishedAt(c: Crypto, tokens: seq<Token>, i: nat, content: Bytes, renameWorks: bool,
                              before: Blobs, r: Result<Bytes, Error>, after: Blobs) {
    && (i == |tokens| ==> r == Err(Mismatch) && after == before)
    && (i < |tokens| && c.decode(tokens[i].expected) == None ==> r == Err(InvalidValue) && after == before)
    && (FirstMatch(c, tokens, content, i) ==> Accepted(c, tokens, i, content, renameWorks, before, r, after))
  }

  ghost predicate IsCached(c: Crypto, integrity: Option<string>, blobs: Blobs) {
    ParseSpec(c, integrity).Some? && exists k :: k in blobs && NamedBy(c, ParseSpec(c, integrity).value.tokens, k)
  }

  predicate Stronger(a: Algorithm, b: Algorithm) {
    (a == Sha512 && b != Sha512) || (a == Sha256 && b == Sha1)
  }

  /** A key of the value that has a blob, none with one being of a stronger algorithm. */
  ghost predicate BestKey(c: Crypto, tokens: seq<Token>, blobs: Blobs, k: CacheKey) {
    && k in blobs && NamedBy(c, tokens, k)
    && forall other :: other in blobs && NamedBy(c, tokens, other) ==> !Stronger(other.algorithm, k.algorithm)
  }

  /** The answer to a request, and the blobs after it, in every case. */
  ghost predicate Answered(c: Crypto, integrity: Option<string>, response: Response, arrivals: Blobs,
                           renameWorks: bool, before: Blobs, r: Result<Bytes, Error>, after: Blobs) {
    var spec := ParseSpec(c, integrity);
    if IsCached(c, integrity, before) then
      after == before && exists k :: BestKey(c, spec.value.tokens, before, k) && r == Ok(before[k])
    else if response.Failure? || !response.complete then r == Err(Http) && after == arrivals + before
    else if spec.None? then r == Ok(Joined(response.chunks)) && after == arrivals + before
    else Published(c, spec.value.tokens, Joined(response.chunks), renameWorks, arrivals + before, r, after)
  }

  lemma NamedIsKey(c: Crypto, integrity: Option<string>, spec: Spec, k: CacheKey)
    requires ParseSpec(c, integrity) == Some(spec)
    ensures NamedBy(c, spec.tokens, k) <==> KeyOfSpec(c, spec, k)
  {
    DecodableIsCacheable(c, spec.tokens);
    if NamedBy(c, spec.tokens, k) {
      var t, digest :| t in spec.tokens && c.decode(t.expected) == Some(digest)
                       && k == CacheKey(t.algorithm, Hex(digest));
      var i :| 0 <= i < |spec.tokens| && spec.tokens[i] == t;
      assert KeyOfToken(c, spec.tokens[i], k);
    }
    if KeyOfSpec(c, spec, k) {
      var i :| 0 <= i < |spec.tokens| && KeyOfToken(c, spec.tokens[i], k);
      assert spec.tokens[i] in spec.tokens;
    }
  }

  lemma CachedIffKey(c: Crypto, integrity: Option<string>, spec: Spec, blobs: Blobs)
    requires ParseSpec(c, integrity) == Some(spec)
    ensures IsCached(c, integrity, blobs) <==> exists k :: k in blobs && KeyOfSpec(c, spec, k)
    ensures forall k :: k in blobs && KeyOfSpec(c, spec, k) ==> NamedBy(c, spec.tokens, k)
  {
    forall k
      ensures NamedBy(c, spec.tokens, k) <==> KeyOfSpec(c, spec, k)
    {
      NamedIsKey(c, integrity, spec, k);
    }
  }

  /** Keys stand strongest first, so the first one with a blob is best. */
  lemma FirstIsBest(c: Crypto, integrity: Option<string>, spec: Spec, blobs: Blobs, keys: seq<CacheKey>, i: nat)
    requires ParseSpec(c, integrity) == Some(spec) && forall k :: k in keys <==> KeyOfSpec(c, spec, k)
    requires forall a, b :: 0 <= a < b < |keys| ==> Strength(keys[a]) >= Strength(keys[b])
    requires i < |keys| && keys[i] in blobs && forall j :: 0 <= j < i ==> keys[j] !in blobs
    ensures BestKey(c, spec.tokens, blobs, keys[i]) && IsCached(c, integrity, blobs) && KeyOfSpec(c, spec, keys[i])
  {
    assert keys[i] in keys;
    NamedIsKey(c, integrity, spec, keys[i]);
    forall other | other in blobs && NamedBy(c, spec.tokens, other)
      ensures !Stronger(other.algorithm, keys[i].algorithm)
    {
      NamedIsKey(c, integrity, spec, other);
      var j :| 0 <= j < |keys| && keys[j] == other;
      assert j >= i;
    }
  }

  lemma NoKeyNotCached(c: Crypto, integrity: Option<string>, spec: Spec, blobs: Blobs, keys: seq<CacheKey>)
    requires ParseSpec(c, integrity) == Some(spec) && forall k :: k in keys <==> KeyOfSpec(c, spec, k)
    requires forall j :: 0 <= j < |keys| ==> keys[j] !in blobs
    ensures !IsCached(c, integrity, blobs) && forall k :: KeyOfSpec(c, spec, k) ==> k !in blobs
  {
    CachedIffKey(c, integrity, spec, blobs);
  }

  lemma DecodableIsCacheable(c: Crypto, tokens: seq<Token>)
    ensures Decodable(c, tokens) <==> AllDecode(c, tokens)
  {
    forall i | 0 <= i < |tokens|
      ensures tokens[i] in tokens
    {
    }
  }

  /** The verdict on content that none of the first `i` tokens matches. */
  lemma VerdictAt(c: Crypto, integrity: Option<string>, spec: Spec, content: Bytes, i: nat)
    requires ParseSpec(c, integrity) == Some(spec) && spec.tokens != [] && NoneMatches(c, spec.tokens, content, i)
    ensures i == |spec.tokens| ==> Verdict(c, spec, content) == Err(Mismatch)
    ensures i < |spec.tokens| && c.decode(spec.tokens[i].expected) == None ==>
      Verdict(c, spec, content) == Err(InvalidValue)
    ensures FirstMatch(c, spec.tokens, content, i) ==>
      Verdict(c, spec, content)
        == Ok(if Decodable(c, spec.tokens) then Some(KeyOf(c, spec.tokens[i], content)) else None)
  {
    DecodableIsCacheable(c, spec.tokens);
    ScanDecides(c, spec.tokens, spec.cacheable, content, i);
  }

  /** The key that names the content by the algorithm of the token. */
  function KeyOf(c: Crypto, t: Token, content: Bytes): CacheKey {
    CacheKey(t.algorithm, Hex(c.digest(t.algorithm, content)))
  }

  /** What the verdict on the content leads to. */
  ghost predicate Concluded(verdict: Result<Option<CacheKey>, Error>, content: Bytes, renameWorks: bool,
                            before: Blobs, r: Result<Bytes, Error>, after: Blobs) {
    match verdict
    case Err(e) => r == Err(e) && after == before
    case Ok(None) => r == Ok(content) && after == before
    case Ok(Some(key)) =>
      if renameWorks then r == Ok(content) && after == before[key := content]
      else after == before && r == if key in before then Ok(before[key]) else Err(Write)
  }

  lemma ConcludedIsPublished(c: Crypto, integrity: Option<string>, spec: Spec, content: Bytes, renameWorks: bool,
                             before: Blobs, r: Result<Bytes, Error>, after: Blobs)
    requires ParseSpec(c, integrity) == Some(spec)
    requires Concluded(Verdict(c, spec, content), content, renameWorks, before, r, after)
    ensures Published(c, spec.tokens, content, renameWorks, before, r, after)
  {
    if spec.tokens != [] {
      forall i: nat | NoneMatches(c, spec.tokens, content, i)
        ensures PublishedAt(c, spec.tokens, i, content, renameWorks, before, r, after)
      {
        ConcludedAt(c, integrity, spec, content, i, renameWorks, before, r, after);
      }
    }
  }

  lemma ConcludedAt(c: Crypto, integrity: Option<string>, spec: Spec, content: Bytes, i: nat, renameWorks: bool,
                    before: Blobs, r: Result<Bytes, Error>, after: Blobs)
    requires ParseSpec(c, integrity) == Some(spec) && spec.tokens != [] && NoneMatches(c, spec.tokens, content, i)
    requires Concluded(Verdict(c, spec, content), content, renameWorks, before, r, after)
    ensures PublishedAt(c, spec.tokens, i, content, renameWorks, before, r, after)
  {
    VerdictAt(c, integrity, spec, content, i);
  }

  class Cache {
    const crypto: Crypto
    var blobs: map<CacheKey, Bytes>

    ghost predicate Valid()
      reads this
    {
      Sound(crypto, blobs)
    }

    constructor (crypto: Crypto)
      ensures Valid() && this.crypto == crypto && blobs == map[]
    {
      this.crypto := crypto;
      blobs := map[];
    }

    /** The first of the value's keys that has a blob. */
    method FindCached(integrity: Option<string>, spec: Spec) returns (hit: Option<Bytes>)
      requires Valid() && ParseSpec(crypto, integrity) == Some(spec)
      ensures hit.Some? ==> Verified(crypto, integrity, hit.value)
      ensures hit.None? ==> forall k :: KeyOfSpec(crypto, spec, k) ==> k !in blobs
      ensures hit.Some? <==> IsCached(crypto, integrity, blobs)
      ensures hit.Some? ==> exists k :: BestKey(crypto, spec.tokens, blobs, k) && hit == Some(blobs[k])
    {
      var keys := CacheKeys(crypto, spec);
      for i := 0 to |keys|
        invariant forall j :: 0 <= j < i ==> keys[j] !in blobs
      {
        if keys[i] in blobs {
          HitWouldVerify(crypto, integrity, spec, blobs, keys[i]);
          FirstIsBest(crypto, integrity, spec, blobs, keys, i);
          return Some(blobs[keys[i]]);
        }
      }
      NoKeyNotCached(crypto, integrity, spec, blobs, keys);
      hit := None;
    }

    /** Verify a complete download and publish it.  If the rename fails, a blob
        that some other process has put there is handed out instead. */
    method Publish(integrity: Option<string>, spec: Spec, chunks: seq<Bytes>, renameWorks: bool)
      returns (r: Result<Bytes, Error>)
      requires Valid() && ParseSpec(crypto, integrity) == Some(spec)
      modifies this
      ensures Valid()
      ensures r.Ok? ==> Verified(crypto, integrity, r.value)
      ensures blobs == old(blobs) ||
          (r.Ok? && exists k :: KeyOfSpec(crypto, spec, k) && blobs == old(blobs)[k := r.value])
      ensures Published(crypto, spec.tokens, Joined(chunks), renameWorks, old(blobs), r, blobs)
    {
      var content := Joined(chunks);
      var verdict := VerifyChunks(crypto, spec, chunks);
      if verdict.Err? {
        r := Err(verdict.error);
      } else if verdict.value.None? {
        r := Ok(content);
      } else {
        var key := verdict.value.value;
        ScanKey(crypto, spec.tokens, spec.cacheable, content);
        assert KeyOfSpec(crypto, spec, key);
        if renameWorks {
          blobs := blobs[key := content];
          r := Ok(content);
        } else if key in blobs {
          HitWouldVerify(crypto, integrity, spec, blobs, key);
          r := Ok(blobs[key]);
        } else {
          r := Err(Write);
        }
      }
      ConcludedIsPublished(crypto, integrity, spec, content, renameWorks, old(blobs), r, blobs);
    }

    /** Hand out the tarball for an integrity value: a cached blob if one of
        its keys is there, otherwise a verified download, which is then stored
        if it can be.  `arrivals` is what other processes store meanwhile.  A
        failed or cut-off download stores nothing, and stored blobs never change. */
    method Fetch(integrity: Option<string>, response: Response, arrivals: map<CacheKey, Bytes>, renameWorks: bool)
      returns (r: Result<Bytes, Error>)
      requires Valid() && Sound(crypto, arrivals)
      modifies this
      ensures Valid()
      ensures r.Ok? ==> Verified(crypto, integrity, r.value)
      ensures Preserved(old(blobs), blobs)
      ensures NewAreReturned(old(blobs), arrivals, blobs, r)
      ensures Answered(crypto, integrity, response, arrivals, renameWorks, old(blobs), r, blobs)
    {
      var spec := Parse(crypto, integrity);
      if spec.Some? {
        var hit := FindCached(integrity, spec.value);
        if hit.Some? {
          return Ok(hit.value);
        }
      }
      ghost var before := blobs;
      blobs := arrivals + blobs;
      MergeKeeps(crypto, before, arrivals);
      if response.Failure? || !response.complete {
        return Err(Http);
      }
      if spec.None? {
        return Ok(Joined(response.chunks));
      }
      r := Publish(integrity, spec.value, response.chunks, renameWorks);
      if blobs != arrivals + before {
        ghost var k :| KeyOfSpec(crypto, spec.value, k) && blobs == (arrivals + before)[k := r.value];
        StoreKeeps(before, arrivals, k, r.value);
      }
    }
  }

  /** No stored blob is lost or changed. */
  ghost predicate Preserved(before: map<CacheKey, Bytes>, after: map<CacheKey, Bytes>) {
    forall k :: k in before ==> k in after && after[k] == before[k]
  }

  /** A blob that this call added is the content it returned. */
  ghost predicate NewAreReturned(before: map<CacheKey, Bytes>, arrivals: map<CacheKey, Bytes>,
                                 after: map<CacheKey, Bytes>,
                                 r: Result<Bytes, Error>) {
    forall k :: k in after && k !in before && k !in arrivals ==> r == Ok(after[k])
  }

  lemma MergeKeeps(c: Crypto, before: map<CacheKey, Bytes>, arrivals: map<CacheKey, Bytes>)
    requires Sound(c, before) && Sound(c, arrivals)
    ensures Sound(c, arrivals + before) && Preserved(before, arrivals + before)
    ensures forall r :: NewAreReturned(before, arrivals, arrivals + before, r)
  {
  }

  lemma StoreKeeps(before: map<CacheKey, Bytes>, arrivals: map<CacheKey, Bytes>, k: CacheKey, content: Bytes)
    requires k !in before
    ensures Preserved(before, (arrivals + before)[k := content])
    ensures NewAreReturned(before, arrivals, (arrivals + before)[k := content], Ok(content))
  {
  }

  datatype Request = Request(integrity: Option<string>, response: Response, arrivals: map<CacheKey, Bytes>,
                             renameWorks: bool)

  /** The answers to the requests, with the blobs before and after each. */
  ghost predicate AllAnswered(c: Crypto, requests: seq<Request>, results: seq<Result<Bytes, Error>>,
                              states: seq<Blobs>) {
    && |results| == |requests| && |states| == |requests| + 1 && states[0] == map[]
    && forall i :: 0 <= i < |requests| ==> AnsweredAt(c, requests[i], results[i], states[i], states[i + 1])
  }

  ghost predicate AnsweredAt(c: Crypto, q: Request, r: Result<Bytes, Error>, before: Blobs, after: Blobs) {
    Answered(c, q.integrity, q.response, q.arrivals, q.renameWorks, before, r, after) && Preserved(before, after)
  }

  /** Over any sequence of downloads, whatever succeeds, fails or stops midway,
      every tarball handed out passes the verifier for the value it was asked for. */
  method FetchAll(c: Crypto, requests: seq<Request>)
    returns (results: seq<Result<Bytes, Error>>, ghost states: seq<Blobs>)
    requires forall i :: 0 <= i < |requests| ==> Sound(c, requests[i].arrivals)
    ensures AllAnswered(c, requests, results, states)
    ensures AllVerified(c, requests, results)
  {
    var cache := new Cache(c);
    results, states := [], [map[]];
    for i := 0 to |requests|
      invariant cache.Valid() && cache.crypto == c
      invariant AllAnswered(c, requests[..i], results, states) && states[i] == cache.blobs
      invariant AllVerified(c, requests[..i], results)
    {
      var q := requests[i];
      var r := cache.Fetch(q.integrity, q.response, q.arrivals, q.renameWorks);
      OneMoreAnswer(c, requests, i, results, states, r, cache.blobs);
      results, states := results + [r], states + [cache.blobs];
    }
    assert requests[..|requests|] == requests;
  }

  ghost predicate AllVerified(c: Crypto, requests: seq<Request>, results: seq<Result<Bytes, Error>>) {
    |results| == |requests| &&
    forall i :: 0 <= i < |requests| && results[i].Ok? ==> Verified(c, requests[i].integrity, results[i].value)
  }

  lemma OneMoreAnswer(c: Crypto, requests: seq<Request>, i: nat, results: seq<Result<Bytes, Error>>,
                      states: seq<Blobs>, r: Result<Bytes, Error>, after: Blobs)
    requires i < |requests| && AllAnswered(c, requests[..i], results, states)
    requires AllVerified(c, requests[..i], results)
    requires AnsweredAt(c, requests[i], r, states[i], after)
    requires r.Ok? ==> Verified(c, requests[i].integrity, r.value)
    ensures AllAnswered(c, requests[..i + 1], results + [r], states + [after])
    ensures AllVerified(c, requests[..i + 1], results + [r])
  {
    var qs, rs, ss := requests[..i + 1], results + [r], states + [after];
    forall j | 0 <= j < |qs|
      ensures AnsweredAt(c, qs[j], rs[j], ss[j], ss[j + 1])
    {
      if j < i {
        assert AnsweredAt(c, requests[..i][j], results[j], states[j], states[j + 1]);
      }
    }
    forall j | 0 <= j < |qs| && rs[j].Ok?
      ensures Verified(c, qs[j].integrity, rs[j].value)
    {
      assert j < i ==> requests[..i][j] == qs[j];
    }
  }

  /** What is said of a value that can be cached: some token of it is supported, and all decode. */
  ghost predicate Cacheable(c: Crypto, integrity: Option<string>) {
    var spec := ParseSpec(c, integrity);
    spec.Some? && spec.value.tokens != [] && Decodable(c, spec.value.tokens)
  }

  /** A request for such a value that works leaves the value cached. */
  lemma OkIsCached(c: Crypto, q: Request, r: Result<Bytes, Error>, before: Blobs, after: Blobs)
    requires AnsweredAt(c, q, r, before, after) && Cacheable(c, q.integrity) && r.Ok?
    ensures IsCached(c, q.integrity, after)
  {
    if !IsCached(c, q.integrity, before) {
      var tokens := ParseSpec(c, q.integrity).value.tokens;
      var content := Joined(q.response.chunks);
      var i := SomeDecides(c, tokens, content);
      assert NoneMatches(c, tokens, content, i);
      if i < |tokens| && c.decode(tokens[i].expected) != None {
        assert FirstMatch(c, tokens, content, i) && tokens[i] in tokens;
        var key := CacheKey(tokens[i].algorithm, Hex(c.digest(tokens[i].algorithm, content)));
        assert NamedBy(c, tokens, key) && key in after;
      }
    }
  }

  lemma {:induction false} StaysCached(c: Crypto, requests: seq<Request>, results: seq<Result<Bytes, Error>>,
                                       states: seq<Blobs>, i: nat, j: nat, integrity: Option<string>)
    requires AllAnswered(c, requests, results, states) && i <= j <= |requests| && IsCached(c, integrity, states[i])
    ensures IsCached(c, integrity, states[j])
    decreases j - i
  {
    if i < j {
      assert AnsweredAt(c, requests[i], results[i], states[i], states[i + 1]);
      var k :| k in states[i] && NamedBy(c, ParseSpec(c, integrity).value.tokens, k);
      assert k in states[i + 1];
      StaysCached(c, requests, results, states, i + 1, j, integrity);
    }
  }

  /** Once a request for a cacheable value has worked, every later one for it is answered
      from the cache, whatever the server answers then. */
  lemma LaterRequestsHit(c: Crypto, requests: seq<Request>, results: seq<Result<Bytes, Error>>,
                         states: seq<Blobs>, i: nat, j: nat)
    requires AllAnswered(c, requests, results, states) && i < j < |requests|
    requires Cacheable(c, requests[i].integrity) && results[i].Ok? && requests[j].integrity == requests[i].integrity
    ensures results[j].Ok? && states[j + 1] == states[j]
  {
    OkIsCached(c, requests[i], results[i], states[i], states[i + 1]);
    StaysCached(c, requests, results, states, i + 1, j, requests[i].integrity);
    assert AnsweredAt(c, requests[j], results[j], states[j], states[j + 1]);
  }

  /** A complete download with the digest of the first token, in a cache without the value,
      is handed out, and stored where the value can be cached and the rename works. */
  lemma GoodDownloadWorks(c: Crypto, q: Request, r: Result<Bytes, Error>, before: Blobs, after: Blobs)
    requires AnsweredAt(c, q, r, before, after) && !IsCached(c, q.integrity, before)
    requires q.response.Body? && q.response.complete && q.renameWorks
    requires var spec := ParseSpec(c, q.integrity);
      spec.Some? ==> exists i: nat :: FirstMatch(c, spec.value.tokens, Joined(q.response.chunks), i)
    ensures r == Ok(Joined(q.response.chunks))
    ensures Cacheable(c, q.integrity) ==>
      exists k :: NamedBy(c, ParseSpec(c, q.integrity).value.tokens, k) && k in after
                  && after[k] == Joined(q.response.chunks)
  {
    if Cacheable(c, q.integrity) {
      var tokens, content := ParseSpec(c, q.integrity).value.tokens, Joined(q.response.chunks);
      var i: nat :| FirstMatch(c, tokens, content, i);
      assert tokens[i] in tokens;
      assert NamedBy(c, tokens, CacheKey(tokens[i].algorithm, Hex(c.digest(tokens[i].algorithm, content))));
    }
  }
}
