# Gallery share links — a Dafny model

This project models the share-link subsystem of a family photo-gallery site
built on Next.js, plus a few small pure helpers from its front end.

- **Issuance** (`POST /api/galleries/share`). The route signs a one-hour JWT
  `{galleryId, slug, purpose: 'gallery-share'}`. It then draws an 8-character
  handle: standard base64 of random bytes, rewritten into the URL-safe alphabet
  with padding removed. It redraws while the handle is already in the
  process-wide token store, stores `handle -> {jwt, expires}` and returns the
  share URL.
- **Sweep.** An hourly callback drops expired store entries. It is scheduled
  only by the share route's module, when that module creates the store.
- **Resolution** (`validateShareToken`). The input is looked up in the store
  first. A handle that has expired, or whose JWT no longer verifies, is deleted
  (unless a log line's date formatting throws first, see below).
  Any other input is tried as a raw JWT. Only payloads whose purpose is
  `gallery-share` are returned.
- **Validation endpoint** (`GET /api/galleries/validate-token`). It maps token
  presence and the resolver's result to a status code and a JSON body.
- **Request gate** (`middleware`).
  - Public path prefixes pass.
  - Any request with a `token` query parameter passes; the token is not
    validated here.
  - A development switch can skip authentication.
  - Everything else asks the session endpoint: ok passes, not-ok redirects to
    login. If the check throws, development lets the request through and every
    other environment redirects.
- **Secondary cores.**
  - The CMS client's one-hour read-through cache.
  - The Vimeo id extractor.
  - Wrap-around navigation in the feature carousel and the photo lightbox.
  - The carousel's call-to-action link classifier.

The model is functional. The token store and the cache are `map` values passed
through pure functions, and time is an integer `now` in milliseconds. Three
things are parameters:
- the JWT verifier (`string -> Option<Payload>`, the payload or the failure
  `jwt.verify` throws at the current instant);
- the JWT signer (`(Claims, expiresIn) -> string`);
- the random source (a byte sequence, 8 bytes per draw).

## Behaviour of the code worth knowing

- Expiry in the store is tested with `expires < now`, so an entry whose
  `expires` equals `now` still resolves.
- The gate lets any request carrying a `token` parameter through without
  resolving it.
- Nothing checks that the resolved slug matches the gallery being requested.
- A handle whose JWT verifies but has the wrong purpose is rejected and kept in
  the store.
- The resolver's log lines format dates with `toISOString()`, which throws a
  `RangeError` outside the `Date` range (ECMA-262 section 21.4.1.1). These
  calls change the outcome:
  - the success log line formats `exp * 1000` before the purpose check; if it
    throws, a handle is deleted and a raw JWT is rejected, both with null;
  - the expiry warning formats `expires` before the delete; if it throws, the
    outer catch returns null and the expired entry stays in the store.
- The sweep is scheduled by the share route's module
  (src/app/api/galleries/share/route.ts:17-29) only when that module finds no
  store yet. The resolver's module (src/utils/tokenUtils.ts:13-15) creates the
  same global store without scheduling a sweep. So if a validation request
  loads the resolver first in a fresh process, no sweep is ever scheduled.
- A missing signing secret falls back to a literal default instead of failing
  at startup. The signer and verifier are abstract here, so this is not
  modelled.

## Observations from the proofs

- `HandleUsesSixBytes`: the 8-character handle depends only on the first 6 of
  the 8 random bytes. 8 base64 characters hold 48 bits, so the handle has
  48 bits of entropy, not 64.
- `IssueThenResolve` and `IssuedHandleExpires`: a fresh handle resolves at the
  instant of issue. Once its lifetime has passed it fails and is removed,
  whatever the verifier says.
- `ValidateRoute.Get`: the validation endpoint never answers 500. Its inner
  catch could only be reached by `new Date(exp * 1000).toISOString()` throwing,
  and the resolver has already formatted that same date and returned null when
  it failed, which the endpoint answers with 401.
- `ShareRoute.Post`: if the expiry instant is outside the `Date` range, the
  route answers 500, but the new entry is already in the store.
  - The sweep tests `expires < now`, and that entry's expiry lies an hour
    ahead, so the sweep keeps it for that hour. Past the upper bound that hour
    never ends for a clock that stays inside the `Date` range.
  - Resolving the handle at the issue instant deletes it
    (`ShareRoute.OutOfRangeEntryResolution`). Either the JWT fails to verify,
    or the success log line formats the signed `exp`, which is outside the range
    too, and throws; both end in the catch that deletes the handle.
  - The exception is a store expiry less than a second past the upper bound:
    `exp * 1000` is rounded down to the second and lands exactly on the bound,
    so the handle resolves normally (`ShareRoute.SignedExpiryCorner`).

## Model

| member | source | states |
|---|---|---|
| `Base64.Sextets` | src/app/api/galleries/share/route.ts:37-38 | n bytes give ceil(4n/3) six-bit groups: four per 3-byte group, three or two for a final partial group |
| `Base64.EncodeStd` | src/app/api/galleries/share/route.ts:37-38 | Node's padded standard base64 of n bytes is 4*ceil(n/3) characters long |
| `Base64.EncodeUrlUnpadded` | src/app/api/galleries/share/route.ts:37-41 | the URL-safe unpadded encoding of RFC 4648 section 5 has ceil(4n/3) characters, all from A-Z a-z 0-9 `-` `_` |
| `Base64.ReplaceUnsafe` | src/app/api/galleries/share/route.ts:39-40 | the two global replaces turn every `+` into `-` and every `/` into `_`; everything else and the length stay the same |
| `Base64.RemovePadding` | src/app/api/galleries/share/route.ts:41 | removing `=` never lengthens the string and leaves no `=` in it |
| `Base64.RemovePaddingNoop` | src/app/api/galleries/share/route.ts:41 | a string without `=` is unchanged by the padding removal |
| `Base64.RemovePaddingAppend` | src/app/api/galleries/share/route.ts:41 | padding removal works piecewise over a concatenation |
| `Base64.RemovePaddingAllPad` | src/app/api/galleries/share/route.ts:41 | a run of `=` disappears entirely |
| `Base64.RewriteIsUrlSafeEncoding` | src/app/api/galleries/share/route.ts:37-41 | the replace-and-strip chain applied to standard base64 gives exactly the URL-safe unpadded encoding of the same bytes |
| `Base64.SextetsAppend` | src/app/api/galleries/share/route.ts:37-38 | the encoding of whole 3-byte groups followed by more bytes is the concatenation of the two encodings |
| `Base64.DecodeSextets` | src/app/api/galleries/share/route.ts:37-38 | decoding the groups of whole 3-byte groups gives back the original bytes |
| `Base64.UrlCharInjective` | src/app/api/galleries/share/route.ts:39-40 | distinct six-bit groups map to distinct URL-safe characters |
| `Base64.MapUrlInjective` | src/app/api/galleries/share/route.ts:39-40 | distinct group sequences give distinct URL-safe strings |
| `Base64.EncodeUrlInjective` | src/app/api/galleries/share/route.ts:37-41 | for whole 3-byte groups, distinct byte strings give distinct URL-safe encodings |
| `ShareRoute.Prefix` | src/app/api/galleries/share/route.ts:42 | `substring(0, n)` keeps min(n, length) characters and is a prefix of its input |
| `ShareRoute.GenerateShortToken` | src/app/api/galleries/share/route.ts:35-43 | a handle from L random bytes has exactly L characters, all URL-safe, and is a prefix of the RFC 4648 section 5 encoding of those bytes |
| `ShareRoute.HandleUsesSixBytes` | src/app/api/galleries/share/route.ts:35-43 | an 8-byte draw's handle is the unpadded URL-safe encoding of its first 6 bytes; the last 2 bytes never reach it |
| `ShareRoute.DistinctBytesDistinctHandles` | src/app/api/galleries/share/route.ts:35-43 | two draws whose first six bytes differ give different handles |
| `ShareRoute.Draw` | src/app/api/galleries/share/route.ts:67-71 | the k-th draw from the random stream is an 8-character URL-safe handle |
| `ShareRoute.FirstFreeDraw` | src/app/api/galleries/share/route.ts:67-72 | the redraw loop stops at the first draw whose handle is not in the store, and every earlier draw was taken; None only when every available draw collides |
| `ShareRoute.BaseUrl` | src/app/api/galleries/share/route.ts:83 | definition: `AUTH0_BASE_URL \|\| 'http://localhost:3000'`; the base of a share URL is never empty and is either the variable's value or the localhost default |
| `ShareRoute.Post` | src/app/api/galleries/share/route.ts:45-99 | an unparsable body gives 500; a missing or empty galleryId or slug gives 400; neither changes the store, and a 500 leaves a new entry behind only when the expiry is not a valid Date. Issuance succeeds exactly when the body is well formed, some draw is free and the expiry is a valid Date. On success the handle is the first draw of the random stream not already in the store; the store becomes old store plus `handle -> {sign({galleryId, slug, 'gallery-share'}, 3600), now + 3600000}`; `shareUrl` is `base/galleries/<slug>?token=<handle>`; `expiresIn` is 3600. Existing entries are never overwritten |
| `ShareRoute.IssueAddsOneKey` | src/app/api/galleries/share/route.ts:74-78 | a successful issuance adds exactly one key to the store |
| `ShareRoute.HandleNotReissued` | src/app/api/galleries/share/route.ts:69-72 | a handle already in the store is never issued again, so two successive issuances hand out different handles |
| `ShareRoute.SignedExpiryIsDate` | src/app/api/galleries/share/route.ts:56-64 | when the store expiry `now + 3600000` is a valid Date, so is `exp * 1000` of the token signed at `now`, whose `exp` is the current second plus 3600 |
| `ShareRoute.IssueThenResolve` | src/app/api/galleries/share/route.ts:56-78 | if the verifier decodes a freshly signed token to its claims, with `iat` the current second and `exp` one hour later as `jwt.sign` sets them, then resolving the issued handle at the same instant (src/utils/tokenUtils.ts:38-71) gives the issued galleryId and slug, and the store is unchanged; the Date-range failure of the log line cannot happen because the issuance succeeded |
| `ShareRoute.OutOfRangeEntryResolution` | src/utils/tokenUtils.ts:40-76 | after a 500 issuance whose expiry is outside the Date range, the new handle is stored and live; resolving it at that instant with a failing verifier or one that decodes the fresh token deletes it and gives null, unless the signed `exp * 1000` is a valid Date, in which case it resolves with the store kept |
| `ShareRoute.SignedExpiryCorner` | src/app/api/galleries/share/route.ts:56-78 | an issue instant exists whose store expiry is outside the Date range while the signed `exp * 1000` is inside it |
| `ShareRoute.IssuedHandleExpires` | src/utils/tokenUtils.ts:38-48 | once more than 3600 s have passed since issue, the handle resolves to null and the store returns to its state before issuance, whatever the verifier says |
| `ShareRoute.Sweep` | src/app/api/galleries/share/route.ts:21-28 | the sweep keeps exactly the entries with `expires >= now`, each unchanged |
| `ShareRoute.SweepExpired` | src/app/api/galleries/share/route.ts:22-27 | the entry-by-entry deletion loop computes exactly the sweep |
| `ShareRoute.SweepIdempotent` | src/app/api/galleries/share/route.ts:21-28 | sweeping twice at one instant is sweeping once |
| `ShareRoute.SweepKeepsLiveHandles` | src/app/api/galleries/share/route.ts:24-26 | a handle that is not expired at the sweep instant resolves after the sweep exactly as before |
| `JsDate.IsoRepresentable` | src/utils/tokenUtils.ts:44 | definition: `new Date(ms).toISOString()` succeeds exactly for -8.64e15 <= ms <= 8.64e15 and otherwise throws a RangeError |
| `TokenUtils.ExpiryIsDate` | src/utils/tokenUtils.ts:58-63 | definition: the success log line's `new Date(exp * 1000).toISOString()` does not throw |
| `TokenUtils.CheckPurpose` | src/utils/tokenUtils.ts:65-71 | the purpose check is a filter: every payload it lets through has purpose `gallery-share`, every such payload gets through, and none is altered on the way |
| `TokenUtils.ValidateShareToken` | src/utils/tokenUtils.ts:33-111 | the store only shrinks, by at most the looked-up key, and no entry changes. A non-null result has purpose `gallery-share`, an `exp * 1000` inside the Date range, and is the verifier's payload unchanged. An expired handle gives null and is deleted iff its `expires` is a valid Date. A live handle whose JWT fails, or verifies with an `exp * 1000` outside the Date range, is deleted and gives null. A live handle whose JWT verifies with a valid expiry is kept and succeeds iff its purpose matches. A non-handle input never touches the store and succeeds iff it verifies as a raw JWT with a valid expiry and the right purpose |
| `TokenUtils.ExpiredSkipsVerification` | src/utils/tokenUtils.ts:43-48 | for an expired handle the outcome is the same for every verifier (no verification happens): null, with the handle removed when its `expires` is a valid Date and kept when formatting it throws (caught at :107-109) |
| `TokenUtils.ExpiryBoundaryIsLive` | src/utils/tokenUtils.ts:43-76 | an entry with `expires == now` passes the store check: if its JWT verifies with the right purpose it resolves with the store kept, unless `exp * 1000` is outside the Date range, in which case the handle is deleted and the result is null |
| `TokenUtils.FallbackIgnoresStore` | src/utils/tokenUtils.ts:80-106 | for an input that is not a handle, the result does not depend on the store's contents |
| `TokenUtils.ResolveTwice` | src/utils/tokenUtils.ts:38-78 | a successful handle resolution repeats identically; once the key is gone, resolving again leaves the store alone |
| `SearchParams.Has` | src/middleware.ts:25 | `has(name)` holds iff some query pair carries the name, whatever its value |
| `SearchParams.Get` | src/app/api/galleries/validate-token/route.ts:9 | `get(name)` is null iff the name is absent, else the value of the first pair with that name |
| `ValidateRoute.Success` | src/app/api/galleries/validate-token/route.ts:36-49 | the answer for a resolved payload is 200 or 500, and its body says `valid: true` exactly when the status is 200 (`ValidateRoute.Get` states the fields echoed and that the 500 is never reached) |
| `ValidateRoute.Get` | src/app/api/galleries/validate-token/route.ts:4-58 | valid is true exactly when the status is 200, and the status is always 200, 400 or 401: the 500 of the inner catch is unreachable. An unparsable URL gives 400 'Invalid request format'. A missing or empty token gives 400 'No token provided' without calling the resolver. A null result gives 401 'Invalid or expired token'; a payload gives 200 echoing galleryId and slug with expiresAt = exp*1000. The store is as the resolver left it |
| `ValidateRoute.SingleFailureMessage` | src/app/api/galleries/validate-token/route.ts:26-32 | every cause of a null result gets the same 401 answer |
| `ValidateRoute.ValidAnswerIsShare` | src/app/api/galleries/validate-token/route.ts:24-42 | a 200 answer comes only from a payload whose purpose is `gallery-share` |
| `Middleware.IsPublic` | src/middleware.ts:6-19 | definition: the pathname starts with one of the six public prefixes |
| `Middleware.AuthDisabled` | src/middleware.ts:40 | definition: `NODE_ENV` is `development` and `AUTH0_DISABLE_AUTH` is `true` |
| `Middleware.SessionStep` | src/middleware.ts:51-71 | the session step allows iff the check answered ok, or it threw and the environment is development; it never sets no-store |
| `Middleware.Gate` | src/middleware.ts:4-72 | a path starting with one of the six public prefixes passes with no session check. Otherwise a `token` parameter, with any value, passes with `Cache-Control: no-store` and no session check; only these requests get that header. In development with `AUTH0_DISABLE_AUTH=true` the rest pass unchecked. The session endpoint is called exactly when none of these rules applied, and then decides. Outside development a request passes iff it is public, has a token, or the session answered ok |
| `Middleware.UncheckedSessionIrrelevant` | src/middleware.ts:19-43 | when the gate does not call the session endpoint, its outcome is the same whatever the endpoint would have said |
| `Middleware.PublicIsPrefixMatch` | src/middleware.ts:19 | anything below `/api/auth/login` or `/api/galleries/validate-token` is public: the test is a prefix match, not equality |
| `Middleware.GalleryPageNeedsSession` | src/middleware.ts:4-72 | outside development a gallery page with no token is redirected to login when the session answers not-ok or throws |
| `ContentfulCache.Stale` | src/lib/contentful.ts:18 | definition: the source's real-valued age test `(now - timestamp) / 1000 > 3600` |
| `ContentfulCache.StaleIffOlderThanAnHour` | src/lib/contentful.ts:18 | the test `(now - timestamp)/1000 > 3600` holds iff the entry is more than 3,600,000 ms old |
| `ContentfulCache.GetCachedData` | src/lib/contentful.ts:13-25 | an absent key gives null and changes nothing. An entry more than 3,600,000 ms old gives null and only that key is removed. A fresh entry, including one exactly an hour old, gives its data and changes nothing |
| `ContentfulCache.SetCacheData` | src/lib/contentful.ts:27-33 | stores `(data, now)` under the key, overwriting, leaves other keys alone, and returns the data unchanged |
| `ContentfulCache.SetThenGet` | src/lib/contentful.ts:13-33 | a value stored is read back unchanged up to one hour later |
| `ContentfulCache.ReadThrough` | src/lib/contentful.ts:35-46 | a fresh truthy cached value is served with the cache unchanged; otherwise the fetched value is returned and cached at `now` |
| `ContentfulCache.FalsyCachedIsRefetched` | src/lib/contentful.ts:50-51 | a cached falsy value, such as the `undefined` of a missing gallery, is treated as a miss and replaced by the fetched value |
| `ContentfulCache.DigitChar` | src/lib/contentful.ts:89 | a digit value is written as a character between `0` and `9` |
| `ContentfulCache.NatToString` | src/lib/contentful.ts:89 | `${n}` for n >= 0 is a non-empty string of decimal digits, at least two long for n >= 10 |
| `ContentfulCache.NatToStringInjective` | src/lib/contentful.ts:89 | distinct naturals have distinct decimal strings |
| `ContentfulCache.SignChar` | src/lib/contentful.ts:89 | `${n}` starts with `-` iff n is negative |
| `ContentfulCache.IntToStringInjective` | src/lib/contentful.ts:89 | distinct integers have distinct decimal strings |
| `ContentfulCache.CacheKeysDistinct` | src/lib/contentful.ts:36-89 | `gallery_<slug>` and `featured_galleries_<limit>` are injective in slug and limit, never collide with each other, and never equal `galleries`, `homepage` or `aboutpage` |
| `ContentfulCache.GetGalleries` | src/lib/contentful.ts:35-46 | only the `galleries` entry can change. The answer is either the untouched fresh truthy cached value, with the cache unchanged, or the fetched items, which is then stored under `galleries` stamped `now`; a falsy answer is always the fetched one |
| `ContentfulCache.GalleryKey` | src/lib/contentful.ts:49 | definition: the key `gallery_<slug>` |
| `ContentfulCache.FeaturedKey` | src/lib/contentful.ts:89 | definition: the key `featured_galleries_<limit>`, with the limit in decimal |
| `ContentfulCache.GetGalleryBySlug` | src/lib/contentful.ts:48-60 | only the `gallery_<slug>` entry can change. The answer is either the untouched fresh truthy cached value, with the cache unchanged, or the fetched first item, which is then stored under `gallery_<slug>` stamped `now`; a falsy answer is always the fetched one |
| `ContentfulCache.GetHomePage` | src/lib/contentful.ts:62-73 | only the `homepage` entry can change. The answer is either the untouched fresh truthy cached value, with the cache unchanged, or the fetched first item, which is then stored under `homepage` stamped `now`; a falsy answer is always the fetched one |
| `ContentfulCache.GetAboutPage` | src/lib/contentful.ts:75-86 | only the `aboutpage` entry can change. The answer is either the untouched fresh truthy cached value, with the cache unchanged, or the fetched first item, which is then stored under `aboutpage` stamped `now`; a falsy answer is always the fetched one |
| `ContentfulCache.GetFeaturedGalleries` | src/lib/contentful.ts:88-119 | a fresh truthy `featured_galleries_<limit>` entry is served unchanged. On a miss the home page is read through its own entry: with no home page the answer is `[]`, not cached; otherwise the gallery query's items are cached and returned. Only these two keys can change |
| `ContentfulCache.NoHomePageNotCached` | src/lib/contentful.ts:93-95 | on a cache holding neither entry, with no home page the featured list is `[]` and nothing is stored under the featured key |
| `Vimeo.AlternativeAt` | src/utils/vimeo.ts:2 | a match at a position starts with `vimeo.com/` (10 characters) or `video/` (6) followed by a digit |
| `Vimeo.FindMatch` | src/utils/vimeo.ts:2 | the search returns the leftmost position where the pattern matches, or None when no position matches |
| `Vimeo.DigitRun` | src/utils/vimeo.ts:2 | the greedy `\d+` takes the maximal run of digits: all digits, ended by a non-digit or the end of the string |
| `Vimeo.VimeoId` | src/utils/vimeo.ts:2 | null exactly when no position has `vimeo.com/` or `video/` followed by a digit; otherwise a non-empty digit string, the maximal digit run after the literal at the leftmost match |
| `Vimeo.GetVimeoThumbnail` | src/utils/vimeo.ts:1-7 | null exactly when there is no id, else `https://vumbnail.com/<id>.jpg` |
| `Vimeo.GetVimeoId` | src/components/video/FeaturedVideos.tsx:47-50 | the featured-videos extractor returns a non-empty digit string or null |
| `Vimeo.ThumbnailMatchesVideoId` | src/components/video/FeaturedVideos.tsx:47-50 | the featured-videos id and the thumbnail agree: null in the same cases, and the thumbnail is built from that id |
| `Vimeo.FirstCharMismatch` | src/utils/vimeo.ts:2 | a literal cannot match where its first character is absent |
| `Vimeo.DigitRunExact` | src/utils/vimeo.ts:2 | a digit run ended by a non-digit is exactly what the greedy capture measures |
| `Vimeo.PlayerUrlId` | src/utils/vimeo.ts:2 | for `https://vimeo.com/<id><rest>` with a digit id and a rest that does not start with a digit, the id is extracted and the rest is ignored |
| `FeatureCarousel.JsRem` | src/components/carousel/FeatureCarousel.tsx:37-42 | JavaScript `%` with a positive divisor agrees with the mathematical remainder on non-negative operands and is non-positive on negative ones |
| `FeatureCarousel.NextSlide` | src/components/carousel/FeatureCarousel.tsx:36-38 | for 0 <= i < n the next index is (i+1) mod n and lies in [0, n); the last slide wraps to 0 |
| `FeatureCarousel.PrevSlide` | src/components/carousel/FeatureCarousel.tsx:41-43 | for 0 <= i < n the previous index is (i-1+n) mod n and lies in [0, n); slide 0 wraps to n-1 |
| `FeatureCarousel.NextPrevInverse` | src/components/carousel/FeatureCarousel.tsx:36-43 | next and previous undo each other on in-range indices |
| `FeatureCarousel.NextTimesIsShift` | src/components/carousel/FeatureCarousel.tsx:36-38 | k presses of next from i land on (i+k) mod n |
| `FeatureCarousel.ModSuccessor` | src/components/carousel/FeatureCarousel.tsx:36-38 | stepping the remainder by one equals taking the remainder of the successor |
| `FeatureCarousel.FullCycle` | src/components/carousel/FeatureCarousel.tsx:36-38 | n presses of next return to the starting slide |
| `FeatureCarousel.Apply` | src/components/carousel/FeatureCarousel.tsx:36-48 | a navigation request keeps the active index among the slides unless it is a `goToSlide` to an index outside them, which `goToSlide` does not check |
| `FeatureCarousel.KeyAction` | src/components/carousel/FeatureCarousel.tsx:75-91 | ArrowLeft gives prev, ArrowRight next, Home slide 0, End slide n-1; every other key is ignored |
| `FeatureCarousel.HandleKeyDown` | src/components/carousel/FeatureCarousel.tsx:73-94 | without focus in the carousel, or for other keys, nothing changes; otherwise the key mapping applies, and an in-range index stays in range |
| `FeatureCarousel.TouchStart` | src/components/carousel/FeatureCarousel.tsx:124-152 | a touch that starts and ends without a move is a tap: the slide stays, whatever state the previous touch left |
| `FeatureCarousel.TouchMove` | src/components/carousel/FeatureCarousel.tsx:129-152 | ending a touch after a move swipes by the travel from the recorded start to the moved-to position: more than 50 pixels left goes to the next slide, more than 50 right to the previous, anything else stays; with no recorded start it stays |
| `FeatureCarousel.LastMoveWins` | src/components/carousel/FeatureCarousel.tsx:129-131 | of several moves in one touch only the last position is kept |
| `FeatureCarousel.TouchEnd` | src/components/carousel/FeatureCarousel.tsx:133-152 | with a missing coordinate nothing moves. With start - end > 50 it goes next, < -50 previous, and within +-50, including exactly 50, it stays. Both coordinates are reset to null afterwards |
| `FeatureCarousel.ShortDragStays` | src/components/carousel/FeatureCarousel.tsx:133-152 | a tap with no move, or a drag of exactly 50 pixels, leaves the slide where it was |
| `PhotoGrid.GoToPrevious` | src/components/gallery/PhotoGrid.tsx:25-27 | 0 maps to n-1 and any other i to i-1; for in-range i the result is (i-1+n) mod n in [0, n) |
| `PhotoGrid.GoToNext` | src/components/gallery/PhotoGrid.tsx:29-31 | n-1 maps to 0 and any other i to i+1; for in-range i the result is (i+1) mod n in [0, n) |
| `PhotoGrid.PreviousNextInverse` | src/components/gallery/PhotoGrid.tsx:25-31 | next after previous, and previous after next, is the identity on in-range indices |
| `PhotoGrid.OpenLightbox` | src/components/gallery/PhotoGrid.tsx:14-23 | opening always shows the lightbox, and closing it straight away leaves it closed on the photo just opened, whatever was shown before |
| `PhotoGrid.CloseLightbox` | src/components/gallery/PhotoGrid.tsx:20-23 | definition: closing hides the lightbox and keeps the index (`PhotoGrid.CloseThenReopen` states what that means) |
| `PhotoGrid.CloseThenReopen` | src/components/gallery/PhotoGrid.tsx:14-23 | closing twice is closing once, and reopening on the kept index restores the open lightbox exactly |
| `PhotoGrid.HandleKeyDown` | src/components/gallery/PhotoGrid.tsx:33-37 | Escape closes, ArrowLeft goes to the previous photo, ArrowRight to the next, and other keys do nothing. Only Escape changes the open flag, and an in-range index stays in range |
| `PhotoGrid.BrowseAndClose` | src/components/gallery/PhotoGrid.tsx:14-37 | opening photo k, stepping left then right, and pressing Escape leaves the lightbox closed on photo k |
| `FeatureCarouselItem.IsExternalLink` | src/components/carousel/FeatureCarouselItem.tsx:20-21 | definition: the link is a string starting with `http:` or `https:` |
| `FeatureCarouselItem.IsAnchor` | src/components/carousel/FeatureCarouselItem.tsx:22-23 | definition: the link is a string starting with `#` |
| `FeatureCarouselItem.HrefOrHash` | src/components/carousel/FeatureCarouselItem.tsx:74 | the href rendered for the button is never empty: it is the link itself or the `#` placeholder |
| `FeatureCarouselItem.RenderCtaButton` | src/components/carousel/FeatureCarouselItem.tsx:26-93 | an external anchor with `target=_blank` and `rel="noopener noreferrer"` exactly for `http:`/`https:` links; an in-page anchor whose href is the link itself exactly for `#` links; otherwise an internal Link to the link, or to `#` when it is missing or empty |
| `FeatureCarouselItem.ExternalAndAnchorExclusive` | src/components/carousel/FeatureCarouselItem.tsx:20-23 | no link is both external and an anchor |
| `FeatureCarouselItem.EmptyLinkRoutesToHash` | src/components/carousel/FeatureCarouselItem.tsx:71-74 | a missing or empty link renders an internal Link to `#` |

## Left out

- JWT signing and verification (HMAC, claim encoding, the library's own `exp`
  check) are abstract function parameters. The round-trip lemmas state as a
  hypothesis that the verifier accepts a freshly signed token.
- The signing-secret fallback to a literal default is not modelled, because the
  signer and verifier are abstract.
- `crypto.randomBytes` becomes an input byte stream. The real source never runs
  out; in the model, a stream too short for a free draw takes the route's 500
  path, which is where a throwing `randomBytes` ends up.
- `Date.now()` is a parameter. The share route reads the clock several times:
  for `iat`, for `expires` and for `expiresAt`. The model uses one instant for
  all of them. The cache getters likewise read and write the cache at one
  instant, although the source stamps the entry after the fetch returns.
- ISO-8601 formatting is not modelled. `expiresAt` fields are the millisecond
  instant the string denotes. The `RangeError` of out-of-range dates is kept,
  both in the route responses and in the resolver's log lines.
- The `setInterval` scheduling of the sweep, React timers (carousel
  auto-advance, pause on hover) and `useEffect` wiring are left out; only the
  sweep body and the state updates are modelled.
- Concurrency on the global map is left out: the code has no locking and Node
  runs it on one thread.
- The network and the CMS are not modelled.
  - The middleware's fetch of `/api/auth/me` becomes a `SessionResult` input.
  - The CMS queries of the getters become input values.
  - The Auth0 routes, the upload and test routes and the blog API are not part
    of this model.
- Rendering, styling, the DOM and client caching are not modelled: markup,
  `document.body.style.overflow`, screen-reader announcements, ShareButton,
  TokenGalleryWrapper, Header and the page components.
- Logging output is not modelled. The only log arguments that can throw are the
  `toISOString()` calls, and those are modelled.
- Environment variables are configuration inputs: `NODE_ENV`,
  `AUTH0_DISABLE_AUTH` and `AUTH0_BASE_URL`. The middleware's own redirect URL
  is built from the request URL and is represented as a plain redirect-to-login
  action.
- The middleware's route matcher (static assets excluded) and the URL parse at
  its start are not modelled; the gate receives the pathname and query
  directly.
- JWT payloads always carry an integer `exp` in seconds. A raw JWT without
  `exp` makes the log line format `NaN` and throw, so the source answers null;
  the model cannot represent such a payload. Non-integer `exp` values are not
  modelled either.
- Request body fields of non-string JSON types are not modelled: `galleryId`
  and `slug` are optional strings.
- Cached CMS values are a small JavaScript value type that is only precise
  enough to decide truthiness. NaN is not represented.
- Touch coordinates are exact reals, so IEEE rounding of the subtraction is not
  modelled. The cache age test is likewise exact; for integer milliseconds
  double arithmetic gives the same answer.
- FeatureCarousel.JsRem: modelled for a positive divisor only, because the
  carousel divides by `items.length`, which the component needs to be at least
  1.
