/**
 * Share-link issuance (`POST /api/galleries/share`): signs a one-hour
 * gallery-share JWT, draws a short random handle that is not yet in the
 * token store, stores `handle -> {jwt, expires}` and answers with the share
 * URL. Also the body of the hourly sweep that drops expired entries.
 *
 * The signer and the random source are parameters: `sign(claims, expiresIn)`
 * is the JWT `jwt.sign` produces at the current instant, and `random` is the
 * byte stream `crypto.randomBytes` would deliver, consumed 8 bytes per draw.
 */
module ShareRoute {
  import opened Wrappers
  import opened Base64
  import opened TokenUtils
  import JsDate

  /** Lifetime of a share token, in seconds. */
  const TokenExpiry: int := 60 * 60

  /** Length of a short handle, and the number of random bytes drawn for it. */
  const ShortTokenLength: nat := 8

  /** Base URL used when `AUTH0_BASE_URL` is unset or empty. */
  const DefaultBaseUrl: string := "http://localhost:3000"

  const MissingFieldsError: string := "Gallery ID and slug are required"
  const GenerationFailedError: string := "Failed to generate share token"

  /** The claims handed to `jwt.sign`. */
  datatype Claims = Claims(galleryId: string, slug: string, purpose: string)

  /** `jwt.sign(claims, secret, { expiresIn })` at the current instant. */
  type Signer = (Claims, int) -> string

  /** JavaScript's `s.substring(0, n)` for n >= 0: clamps at the end of the string. */
  function Prefix(s: string, n: nat): (r: string)
    ensures |r| == if n <= |s| then n else |s|
    ensures r <= s
  {
    if n <= |s| then s[..n] else s
  }

  /**
   * `generateShortToken(length)` where `random` is `crypto.randomBytes(length)`:
   * standard base64, `+` to `-`, `/` to `_`, padding removed, cut to `length`.
   */
  function GenerateShortToken(random: seq<byte>): (t: string)
    ensures |t| == |random|
    ensures AllUrlSafe(t)
    ensures t <= EncodeUrlUnpadded(random)
  {
    RewriteIsUrlSafeEncoding(random);
    Prefix(RemovePadding(ReplaceUnsafe(EncodeStd(random))), |random|)
  }

  /** Only the first 6 of the 8 random bytes reach the handle: 8 characters carry 48 bits. */
  lemma HandleUsesSixBytes(random: seq<byte>)
    requires |random| == ShortTokenLength
    ensures GenerateShortToken(random) == EncodeUrlUnpadded(random[..6])
  {
    assert random == random[..6] + random[6..];
    SextetsAppend(random[..6], random[6..]);
  }

  /** Handles drawn from different first six bytes differ. */
  lemma DistinctBytesDistinctHandles(a: seq<byte>, b: seq<byte>)
    requires |a| == ShortTokenLength && |b| == ShortTokenLength
    requires a[..6] != b[..6]
    ensures GenerateShortToken(a) != GenerateShortToken(b)
  {
    HandleUsesSixBytes(a);
    HandleUsesSixBytes(b);
    if GenerateShortToken(a) == GenerateShortToken(b) {
      EncodeUrlInjective(a[..6], b[..6]);
    }
  }

  /** The number of whole draws the random stream supports. */
  function DrawCount(random: seq<byte>): nat {
    |random| / ShortTokenLength
  }

  /** The handle of the `k`-th call to `generateShortToken`. */
  function Draw(random: seq<byte>, k: nat): (h: string)
    requires k < DrawCount(random)
    ensures |h| == ShortTokenLength && AllUrlSafe(h)
  {
    GenerateShortToken(random[ShortTokenLength * k .. ShortTokenLength * k + ShortTokenLength])
  }

  /**
   * The `while (tokenStore.has(shortToken))` loop: the index of the first draw,
   * from draw `k` on, whose handle is not in the store; None when the stream
   * runs out first.
   */
  function FirstFreeDraw(store: TokenStore, random: seq<byte>, k: nat): (r: Option<nat>)
    requires k <= DrawCount(random)
    ensures r.Some? ==> k <= r.value < DrawCount(random) && Draw(random, r.value) !in store
    ensures r.Some? ==> forall j :: k <= j < r.value ==> Draw(random, j) in store
    ensures r.None? ==> forall j :: k <= j < DrawCount(random) ==> Draw(random, j) in store
    decreases DrawCount(random) - k
  {
    if k == DrawCount(random) then None
    else if Draw(random, k) !in store then Some(k)
    else FirstFreeDraw(store, random, k + 1)
  }

  /** The request body: unparsable JSON, or the two fields, each possibly absent. */
  datatype ShareBody = Unparsable | ShareBody(galleryId: Option<string>, slug: Option<string>)

  /** The JSON response; `expiresAt` is the instant (ms) the ISO string denotes. */
  datatype ShareResponse =
    | Issued(token: string, shareUrl: string, expiresIn: int, expiresAt: int)
    | Rejected(status: int, error: string)

  datatype Issuance = Issuance(response: ShareResponse, store: TokenStore)

  /** JavaScript truthiness of an optional string field. */
  predicate Truthy(s: Option<string>) {
    s.Some? && s.value != ""
  }

  /** Both required fields are present and non-empty. */
  predicate WellFormed(body: ShareBody) {
    body.ShareBody? && Truthy(body.galleryId) && Truthy(body.slug)
  }

  /** `process.env.AUTH0_BASE_URL || 'http://localhost:3000'`. */
  function BaseUrl(env: Option<string>): (b: string)
    // `||` never yields an empty base, and the base is the variable or the default
    ensures b != ""
    ensures env == Some(b) || b == DefaultBaseUrl
  {
    if Truthy(env) then env.value else DefaultBaseUrl
  }

  /** The claims signed for a well-formed body. */
  function ShareClaims(body: ShareBody): Claims
    requires WellFormed(body)
  {
    Claims(body.galleryId.value, body.slug.value, SharePurpose)
  }

  /** `POST` at instant `now` (ms) with the base-URL setting `baseUrlEnv`. */
  function Post(store: TokenStore, body: ShareBody, now: int, sign: Signer,
                random: seq<byte>, baseUrlEnv: Option<string>): (r: Issuance)
    // an unparsable body or a missing field changes nothing
    ensures body.Unparsable? ==> r == Issuance(Rejected(500, GenerationFailedError), store)
    ensures body.ShareBody? && !WellFormed(body) ==> r == Issuance(Rejected(400, MissingFieldsError), store)
    // issuance never overwrites: old entries survive unchanged, at most one key is added
    ensures forall k :: k in store ==> k in r.store && r.store[k] == store[k]
    ensures r.response.Rejected? ==> r.response.status in {400, 500}
    ensures r.response.Rejected? && r.response.status == 400 ==> r.store == store
    // a rejection leaves a new entry behind only when the expiry instant is not a valid Date
    ensures r.response.Rejected? && r.store != store ==> !JsDate.IsoRepresentable(now + TokenExpiry * 1000)
    // success happens exactly when the body is well formed, some draw is free and the expiry is a valid Date
    ensures r.response.Issued? <==>
              WellFormed(body)
              && (exists k :: 0 <= k < DrawCount(random) && Draw(random, k) !in store)
              && JsDate.IsoRepresentable(now + TokenExpiry * 1000)
    ensures r.response.Issued? ==>
              var token := r.response.token;
              && WellFormed(body)
              // the handle is the first draw not already in the store
              && FirstFreeDraw(store, random, 0).Some?
              && token == Draw(random, FirstFreeDraw(store, random, 0).value)
              && token !in store
              && |token| == ShortTokenLength && AllUrlSafe(token)
              && r.store == store[token := StoredToken(sign(ShareClaims(body), TokenExpiry), now + TokenExpiry * 1000)]
              && r.response.shareUrl == BaseUrl(baseUrlEnv) + "/galleries/" + body.slug.value + "?token=" + token
              && r.response.expiresIn == TokenExpiry
              && r.response.expiresAt == now + TokenExpiry * 1000
  {
    if body.Unparsable? then
      Issuance(Rejected(500, GenerationFailedError), store)
    else if !Truthy(body.galleryId) || !Truthy(body.slug) then
      Issuance(Rejected(400, MissingFieldsError), store)
    else
      var jwt := sign(ShareClaims(body), TokenExpiry);
      match FirstFreeDraw(store, random, 0)
      case None =>
        // crypto.randomBytes failing is caught by the route's catch
        Issuance(Rejected(500, GenerationFailedError), store)
      case Some(k) =>
        var handle := Draw(random, k);
        var expires := now + TokenExpiry * 1000;
        var stored := store[handle := StoredToken(jwt, expires)];
        if !JsDate.IsoRepresentable(expires) then
          // `toISOString` throws after the entry was stored
          Issuance(Rejected(500, GenerationFailedError), stored)
        else
          Issuance(Issued(handle, BaseUrl(baseUrlEnv) + "/galleries/" + body.slug.value + "?token=" + handle,
                          TokenExpiry, expires), stored)
  }

  /** A successful issuance adds exactly one key to the store. */
  lemma IssueAddsOneKey(store: TokenStore, body: ShareBody, now: int, sign: Signer,
                        random: seq<byte>, baseUrlEnv: Option<string>)
    requires Post(store, body, now, sign, random, baseUrlEnv).response.Issued?
    ensures var r := Post(store, body, now, sign, random, baseUrlEnv);
            r.store.Keys == store.Keys + {r.response.token} && |r.store| == |store| + 1
  {
  }

  /**
   * A handle already in the store is never handed out again; in particular two
   * successive issuances, the second on the store the first left, differ.
   */
  lemma HandleNotReissued(store: TokenStore, taken: string, body: ShareBody, now: int, sign: Signer,
                          random: seq<byte>, baseUrlEnv: Option<string>)
    requires taken in store
    ensures var r := Post(store, body, now, sign, random, baseUrlEnv);
            r.response.Issued? ==> r.response.token != taken
  {
  }

  /**
   * The verifier accepts the JWT just signed for `c` at instant `now`: it
   * decodes to the signed claims, with `iat` the current second and `exp`
   * `expiresIn` seconds later, as `jwt.sign` sets them.
   */
  predicate AcceptsFreshToken(sign: Signer, verify: Verifier, c: Claims, now: int) {
    var decoded := verify(sign(c, TokenExpiry));
    decoded.Some? && decoded.value.galleryId == c.galleryId && decoded.value.slug == c.slug
    && decoded.value.purpose == c.purpose
    && decoded.value.iat == now / 1000 && decoded.value.exp == now / 1000 + TokenExpiry
  }

  /**
   * A token signed at an instant whose store expiry is a valid Date has an
   * `exp` that is one too: `exp * 1000` is the store expiry rounded down to
   * the second, and the Date range is bounded by whole seconds.
   */
  lemma SignedExpiryIsDate(now: int)
    requires JsDate.IsoRepresentable(now + TokenExpiry * 1000)
    ensures JsDate.IsoRepresentable((now / 1000 + TokenExpiry) * 1000)
  {
    var q, m := now / 1000, now % 1000;
    assert now == q * 1000 + m && 0 <= m < 1000;
    assert (q + TokenExpiry) * 1000 == now - m + TokenExpiry * 1000;
    assert q * 1000 > -JsDate.MaxTimeMs - TokenExpiry * 1000 - 1000;
    assert q > -8_640_000_003_601;
  }

  /**
   * Round trip: at the same instant, resolving a freshly issued handle yields
   * the issued gallery id and slug and keeps the store as issuance left it.
   */
  lemma IssueThenResolve(store: TokenStore, body: ShareBody, now: int, sign: Signer, verify: Verifier,
                         random: seq<byte>, baseUrlEnv: Option<string>)
    requires Post(store, body, now, sign, random, baseUrlEnv).response.Issued?
    requires AcceptsFreshToken(sign, verify, ShareClaims(body), now)
    ensures var r := Post(store, body, now, sign, random, baseUrlEnv);
            var res := ValidateShareToken(r.store, r.response.token, now, verify);
            && res.payload.Some?
            && res.payload.value.galleryId == body.galleryId.value
            && res.payload.value.slug == body.slug.value
            && res.store == r.store
  {
    SignedExpiryIsDate(now);
  }

  /**
   * After the lifetime has passed, an issued handle resolves to null and is
   * dropped, whatever the verifier says at that later instant.
   */
  lemma IssuedHandleExpires(store: TokenStore, body: ShareBody, now: int, later: int, sign: Signer,
                            verify: Verifier, random: seq<byte>, baseUrlEnv: Option<string>)
    requires Post(store, body, now, sign, random, baseUrlEnv).response.Issued?
    requires later > now + TokenExpiry * 1000
    ensures var r := Post(store, body, now, sign, random, baseUrlEnv);
            var res := ValidateShareToken(r.store, r.response.token, later, verify);
            res.payload.None? && res.store == store
  {
  }

  /**
   * A 500 issuance whose expiry instant is outside the Date range still leaves
   * its entry in the store. That entry is live, so resolving it at the same
   * instant reaches the JWT: a failing verification deletes it, and so does
   * the success log line, which throws unless the signed `exp * 1000` is a
   * valid Date after all.
   */
  lemma OutOfRangeEntryResolution(store: TokenStore, body: ShareBody, now: int, sign: Signer, verify: Verifier,
                                  random: seq<byte>, baseUrlEnv: Option<string>)
    requires WellFormed(body) && FirstFreeDraw(store, random, 0).Some?
    requires !JsDate.IsoRepresentable(now + TokenExpiry * 1000)
    requires AcceptsFreshToken(sign, verify, ShareClaims(body), now)
             || verify(sign(ShareClaims(body), TokenExpiry)).None?
    ensures var r := Post(store, body, now, sign, random, baseUrlEnv);
            var h := Draw(random, FirstFreeDraw(store, random, 0).value);
            var decoded := verify(sign(ShareClaims(body), TokenExpiry));
            && r.response == Rejected(500, GenerationFailedError)
            && h !in store && h in r.store && r.store[h].expires >= now
            && ValidateShareToken(r.store, h, now, verify)
               == if decoded.Some? && JsDate.IsoRepresentable((now / 1000 + TokenExpiry) * 1000)
                  then Resolution(decoded, r.store)
                  else Resolution(None, store)
  {
    var r := Post(store, body, now, sign, random, baseUrlEnv);
    var h := Draw(random, FirstFreeDraw(store, random, 0).value);
    assert r.store == store[h := r.store[h]];
    assert r.store - {h} == store;
  }

  /**
   * The exception: an issue instant within the last second before the upper
   * Date bound has an out-of-range store expiry, while `exp * 1000`, rounded
   * down to the second, lands exactly on the bound.
   */
  lemma SignedExpiryCorner()
    ensures var now := JsDate.MaxTimeMs - TokenExpiry * 1000 + 1;
            !JsDate.IsoRepresentable(now + TokenExpiry * 1000)
            && JsDate.IsoRepresentable((now / 1000 + TokenExpiry) * 1000)
  {
  }

  /** The hourly sweep at instant `now`: keeps exactly the entries with `expires >= now`. */
  function Sweep(store: TokenStore, now: int): (s: TokenStore)
    ensures forall k :: k in s <==> k in store && store[k].expires >= now
    ensures forall k :: k in s ==> s[k] == store[k]
  {
    map k | k in store && store[k].expires >= now :: store[k]
  }

  /** The sweep loop, entry by entry, as the interval callback runs it. */
  method SweepExpired(store: TokenStore, now: int) returns (s: TokenStore)
    ensures s == Sweep(store, now)
  {
    s := store;
    var pending := store.Keys;
    while pending != {}
      invariant pending <= store.Keys
      invariant forall k :: k in s <==> k in store && (k in pending || store[k].expires >= now)
      invariant forall k :: k in s ==> s[k] == store[k]
      decreases pending
    {
      var key :| key in pending;
      if store[key].expires < now {
        s := s - {key};
      }
      pending := pending - {key};
    }
  }

  /** Sweeping twice at the same instant is sweeping once. */
  lemma SweepIdempotent(store: TokenStore, now: int)
    ensures Sweep(Sweep(store, now), now) == Sweep(store, now)
  {
  }

  /** A sweep never removes an entry that resolution would still accept. */
  lemma SweepKeepsLiveHandles(store: TokenStore, token: string, now: int, verify: Verifier)
    requires token in store && store[token].expires >= now
    ensures ValidateShareToken(Sweep(store, now), token, now, verify).payload
            == ValidateShareToken(store, token, now, verify).payload
  {
  }
}
