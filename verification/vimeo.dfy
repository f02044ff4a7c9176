/**
 * The Vimeo id extractor: the regular expression `(?:vimeo\.com\/|video\/)(\d+)`
 * applied to a URL, and the thumbnail URL built from the captured id. The
 * matcher is written out as JavaScript's backtracking search performs it: the
 * leftmost position where one of the two literals is followed by a digit
 * wins, and the greedy `\d+` takes the whole run of digits there.
 */
module Vimeo {
  import opened Wrappers

  const VimeoLiteral: string := "vimeo.com/"
  const VideoLiteral: string := "video/"
  const ThumbnailPrefix: string := "https://vumbnail.com/"
  const ThumbnailSuffix: string := ".jpg"

  /** `\d`: an ASCII digit. */
  predicate IsDigit(c: char) {
    '0' <= c <= '9'
  }

  predicate AllDigits(s: string) {
    forall k :: 0 <= k < |s| ==> IsDigit(s[k])
  }

  /** The literal `p` occurs in `s` at position `i`. */
  predicate LiteralAt(s: string, i: nat, p: string) {
    i + |p| <= |s| && s[i..i + |p|] == p
  }

  /** A digit stands at position `i`. */
  predicate DigitAt(s: string, i: nat) {
    i < |s| && IsDigit(s[i])
  }

  /** The length of the alternative that matches at `i` and is followed by a digit, if any. */
  function AlternativeAt(s: string, i: nat): (r: Option<nat>)
    ensures r.Some? ==> r.value in {|VimeoLiteral|, |VideoLiteral|}
  {
    if LiteralAt(s, i, VimeoLiteral) && DigitAt(s, i + |VimeoLiteral|) then Some(|VimeoLiteral|)
    else if LiteralAt(s, i, VideoLiteral) && DigitAt(s, i + |VideoLiteral|) then Some(|VideoLiteral|)
    else None
  }

  /** The whole pattern matches starting at position `i`. */
  predicate MatchesAt(s: string, i: nat) {
    AlternativeAt(s, i).Some?
  }

  /** The first position from `from` on where the pattern matches. */
  function FindMatch(s: string, from: nat): (r: Option<nat>)
    requires from <= |s|
    ensures r.Some? ==> from <= r.value < |s| && MatchesAt(s, r.value)
    ensures r.Some? ==> forall j :: from <= j < r.value ==> !MatchesAt(s, j)
    ensures r.None? ==> forall j :: from <= j <= |s| ==> !MatchesAt(s, j)
    decreases |s| - from
  {
    if from == |s| then None
    else if MatchesAt(s, from) then Some(from)
    else FindMatch(s, from + 1)
  }

  /** The length of the run of digits starting at `i`. */
  function DigitRun(s: string, i: nat): (n: nat)
    requires i <= |s|
    ensures i + n <= |s|
    ensures forall k :: i <= k < i + n ==> IsDigit(s[k])
    ensures i + n < |s| ==> !IsDigit(s[i + n])
    decreases |s| - i
  {
    if i < |s| && IsDigit(s[i]) then 1 + DigitRun(s, i + 1) else 0
  }

  /**
   * `id` is capture group 1 when the leftmost match starts at `i`: the digits
   * right after the literal, up to the first non-digit or the end.
   */
  ghost predicate CapturedAt(url: string, i: int, id: string) {
    && 0 <= i < |url| && MatchesAt(url, i)
    && (forall j :: 0 <= j < i ==> !MatchesAt(url, j))
    && var start := i + AlternativeAt(url, i).value;
       && start + |id| <= |url|
       && id == url[start..start + |id|]
       && (start + |id| < |url| ==> !IsDigit(url[start + |id|]))
  }

  /** Capture group 1 of the leftmost match, or None when the URL does not match. */
  function VimeoId(url: string): (r: Option<string>)
    ensures r.None? <==> forall j :: 0 <= j < |url| ==> !MatchesAt(url, j)
    ensures r.Some? ==> exists i :: CapturedAt(url, i, r.value)
    ensures r.Some? ==> |r.value| > 0 && AllDigits(r.value)
  {
    match FindMatch(url, 0)
    case None => None
    case Some(i) =>
      var start := i + AlternativeAt(url, i).value;
      var n := DigitRun(url, start);
      var id := url[start..start + n];
      assert CapturedAt(url, i, id);
      Some(id)
  }

  /** `getVimeoThumbnail(vimeoUrl)`. */
  function GetVimeoThumbnail(vimeoUrl: string): (r: Option<string>)
    ensures r.None? <==> VimeoId(vimeoUrl).None?
    ensures r.Some? ==> r.value == ThumbnailPrefix + VimeoId(vimeoUrl).value + ThumbnailSuffix
  {
    match VimeoId(vimeoUrl)
    case None => None
    // a non-empty string is truthy, so the `!vimeoId` guard only rejects a failed match
    case Some(id) => Some(ThumbnailPrefix + id + ThumbnailSuffix)
  }

  /** `getVimeoId(url)` of the featured-videos list, which applies the same pattern. */
  function GetVimeoId(url: string): (r: Option<string>)
    ensures r.Some? ==> |r.value| > 0 && AllDigits(r.value)
  {
    match FindMatch(url, 0)
    case None => None
    case Some(i) =>
      var start := i + AlternativeAt(url, i).value;
      Some(url[start..start + DigitRun(url, start)])
  }

  /** The thumbnail and the featured-videos id agree: same id, null in the same cases. */
  lemma ThumbnailMatchesVideoId(url: string)
    ensures GetVimeoThumbnail(url).None? <==> GetVimeoId(url).None?
    ensures GetVimeoId(url).Some? ==>
              GetVimeoThumbnail(url) == Some(ThumbnailPrefix + GetVimeoId(url).value + ThumbnailSuffix)
  {
  }

  /** A literal cannot occur where its first character does not. */
  lemma FirstCharMismatch(s: string, i: nat, p: string)
    requires |p| > 0 && i < |s| && s[i] != p[0]
    ensures !LiteralAt(s, i, p)
  {
  }

  /** A run of digits ended by a non-digit (or the end) is what DigitRun measures. */
  lemma DigitRunExact(s: string, i: nat, n: nat)
    requires i + n <= |s|
    requires forall k :: i <= k < i + n ==> IsDigit(s[k])
    requires i + n < |s| ==> !IsDigit(s[i + n])
    ensures DigitRun(s, i) == n
    decreases n
  {
  }

  /**
   * A player URL `https://vimeo.com/<id><rest>`: the id is the digit run after
   * the literal, and whatever follows it (a query, a path) is ignored.
   */
  lemma PlayerUrlId(id: string, rest: string)
    requires |id| > 0 && AllDigits(id)
    requires |rest| > 0 ==> !IsDigit(rest[0])
    ensures VimeoId("https://vimeo.com/" + id + rest) == Some(id)
  {
    var url := "https://vimeo.com/" + id + rest;
    assert url[8..18] == VimeoLiteral;
    assert url[18] == id[0];
    assert MatchesAt(url, 8);
    forall j | 0 <= j < 8
      ensures !MatchesAt(url, j)
    {
      assert url[j] == "https://"[j];
      FirstCharMismatch(url, j, VideoLiteral);
      FirstCharMismatch(url, j, VimeoLiteral);
    }
    assert FindMatch(url, 0) == Some(8);
    assert AlternativeAt(url, 8) == Some(10);
    assert forall k :: 18 <= k < 18 + |id| ==> url[k] == id[k - 18];
    assert 18 + |id| < |url| ==> url[18 + |id|] == rest[0];
    DigitRunExact(url, 18, |id|);
    assert url[18..18 + |id|] == id;
  }
}
