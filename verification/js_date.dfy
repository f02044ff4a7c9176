/** The range of instants a JavaScript `Date` can represent. */
module JsDate {

  /** 8.64e15 ms, i.e. 100,000,000 days either side of the epoch (ECMA-262 section 21.4.1.1). */
  const MaxTimeMs: int := 8_640_000_000_000_000

  /** `new Date(ms).toISOString()` succeeds exactly for these instants; otherwise it throws RangeError. */
  predicate IsoRepresentable(ms: int) {
    -MaxTimeMs <= ms <= MaxTimeMs
  }
}
