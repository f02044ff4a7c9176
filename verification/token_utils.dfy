/**
 * Share-token resolution (`validateShareToken`): a short handle is looked up
 * in the process-wide token store first; a handle that has expired or whose
 * stored JWT no longer verifies is deleted on the spot; an input that is not
 * a handle is tried as a raw JWT. Either way only payloads whose purpose is
 * `gallery-share` are returned. The success log line formats the payload's
 * expiry as an ISO date; when that throws, the surrounding catch turns the
 * outcome into null (and, for a handle, deletes it).
 *
 * JWT verification is an abstract function parameter: `verify(jwt)` is the
 * decoded payload when `jwt.verify` accepts the token at the current instant
 * and None when it throws (bad signature, malformed, or expired by its `exp`).
 */
module TokenUtils {
  import opened Wrappers
  import JsDate

  /** The purpose tag that marks a gallery share payload. */
  const SharePurpose: string := "gallery-share"

  /** The decoded payload of a share JWT; `iat` and `exp` are in seconds. */
  datatype Payload = Payload(galleryId: string, slug: string, purpose: string, iat: int, exp: int)

  /** A token-store entry: the signed JWT and its absolute expiry in ms. */
  datatype StoredToken = StoredToken(jwt: string, expires: int)

  /** The global `tokenStore`: short handle to stored JWT. */
  type TokenStore = map<string, StoredToken>

  /** `jwt.verify` with the process secret, as it behaves at the current instant. */
  type Verifier = string -> Option<Payload>

  /** A payload passes the purpose check. */
  predicate IsShare(p: Payload) {
    p.purpose == SharePurpose
  }

  /**
   * The success log line formats `new Date(exp * 1000).toISOString()`, which
   * throws a RangeError unless the expiry is a representable Date.
   */
  predicate ExpiryIsDate(p: Payload) {
    JsDate.IsoRepresentable(p.exp * 1000)
  }

  /** A verified payload the resolver hands back: its expiry logs and its purpose matches. */
  predicate Accepted(p: Payload) {
    ExpiryIsDate(p) && IsShare(p)
  }

  /** The result of a resolution: the payload (or null) and the store afterwards. */
  datatype Resolution = Resolution(payload: Option<Payload>, store: TokenStore)

  /** The purpose check applied to a successful verification. */
  function CheckPurpose(decoded: Payload): (r: Option<Payload>)
    // a filter: only share payloads pass, and they pass unchanged
    ensures r.Some? ==> IsShare(r.value)
    ensures r == None || r == Some(decoded)
    ensures IsShare(decoded) ==> r.Some?
  {
    if decoded.purpose != SharePurpose then None else Some(decoded)
  }

  /** `validateShareToken(token)` at instant `now` (ms). */
  function ValidateShareToken(store: TokenStore, token: string, now: int, verify: Verifier): (r: Resolution)
    // the store only shrinks, by at most the looked-up key, and never changes an entry
    ensures r.store.Keys <= store.Keys
    ensures store.Keys - {token} <= r.store.Keys
    ensures forall k :: k in r.store ==> r.store[k] == store[k]
    // a non-null result is an accepted payload, returned exactly as decoded
    ensures r.payload.Some? ==> Accepted(r.payload.value)
    ensures r.payload.Some? && token in store ==> verify(store[token].jwt) == r.payload
    ensures r.payload.Some? && token !in store ==> verify(token) == r.payload
    // an expired handle is rejected; it is removed unless logging its expiry throws first
    ensures token in store && store[token].expires < now ==>
              r.payload.None? && (token in r.store <==> !JsDate.IsoRepresentable(store[token].expires))
    // a live handle whose JWT fails verification, or whose expiry cannot be logged, is removed and rejected
    ensures token in store && store[token].expires >= now && verify(store[token].jwt).None?
            ==> r.payload.None? && token !in r.store
    ensures token in store && store[token].expires >= now && verify(store[token].jwt).Some?
            && !ExpiryIsDate(verify(store[token].jwt).value)
            ==> r.payload.None? && token !in r.store
    // a live handle whose JWT verifies with a loggable expiry is kept, whatever its purpose
    ensures token in store && store[token].expires >= now && verify(store[token].jwt).Some?
            && ExpiryIsDate(verify(store[token].jwt).value)
            ==> r.store == store && (r.payload.Some? <==> IsShare(verify(store[token].jwt).value))
    // the raw-JWT fallback never touches the store
    ensures token !in store ==> (r.store == store
                                 && (r.payload.Some? <==> verify(token).Some? && Accepted(verify(token).value)))
  {
    if token in store then
      var stored := store[token];
      if stored.expires < now then
        // the warning formats the expiry before the delete; a RangeError reaches the outer catch
        if JsDate.IsoRepresentable(stored.expires) then Resolution(None, store - {token})
        else Resolution(None, store)
      else
        match verify(stored.jwt)
        case None => Resolution(None, store - {token})
        case Some(decoded) =>
          // a RangeError from the success log line lands in the same catch as a failed verification
          if !ExpiryIsDate(decoded) then Resolution(None, store - {token})
          else Resolution(CheckPurpose(decoded), store)
    else
      match verify(token)
      case None => Resolution(None, store)
      case Some(decoded) =>
        if !ExpiryIsDate(decoded) then Resolution(None, store)
        else Resolution(CheckPurpose(decoded), store)
  }

  /**
   * An expired handle is rejected without consulting the verifier at all; it
   * is removed when its expiry is a representable Date and kept otherwise.
   */
  lemma ExpiredSkipsVerification(store: TokenStore, token: string, now: int, v1: Verifier, v2: Verifier)
    requires token in store && store[token].expires < now
    ensures ValidateShareToken(store, token, now, v1) == ValidateShareToken(store, token, now, v2)
    ensures ValidateShareToken(store, token, now, v1)
            == Resolution(None, if JsDate.IsoRepresentable(store[token].expires) then store - {token} else store)
  {
  }

  /**
   * The store check is strict: an entry expiring exactly now is still looked
   * at. A share payload is returned with the store kept, unless its own expiry
   * cannot be logged, which removes the handle.
   */
  lemma ExpiryBoundaryIsLive(store: TokenStore, token: string, now: int, verify: Verifier)
    requires token in store && store[token].expires == now
    requires verify(store[token].jwt).Some? && IsShare(verify(store[token].jwt).value)
    ensures ValidateShareToken(store, token, now, verify)
            == if ExpiryIsDate(verify(store[token].jwt).value) then Resolution(verify(store[token].jwt), store)
               else Resolution(None, store - {token})
  {
  }

  /** The fallback path depends only on the raw token, not on the store contents. */
  lemma FallbackIgnoresStore(s1: TokenStore, s2: TokenStore, token: string, now: int, verify: Verifier)
    requires token !in s1 && token !in s2
    ensures ValidateShareToken(s1, token, now, verify).payload == ValidateShareToken(s2, token, now, verify).payload
  {
  }

  /**
   * Resolving twice in a row: the second call never shrinks the store further
   * unless the first one found a live, verifying handle, and a successful
   * resolution of a handle repeats.
   */
  lemma ResolveTwice(store: TokenStore, token: string, now: int, verify: Verifier)
    ensures var r1 := ValidateShareToken(store, token, now, verify);
            var r2 := ValidateShareToken(r1.store, token, now, verify);
            (r1.payload.Some? && token in store ==> r2 == r1)
            && (token !in r1.store ==> r2.store == r1.store)
  {
  }
}
