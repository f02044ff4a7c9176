/**
 * The lightbox of the photo grid: opening on a photo, closing, stepping to
 * the previous or next photo with wrap-around, and the keyboard handler.
 * `n` is `images.length`.
 */
module PhotoGrid {

  /** `lightboxOpen` and `currentImageIndex`. */
  datatype Lightbox = Lightbox(open: bool, index: int)

  /** `goToPrevious`: the first photo wraps to the last. */
  function GoToPrevious(i: int, n: int): (r: int)
    ensures i == 0 ==> r == n - 1
    ensures i != 0 ==> r == i - 1
    ensures 0 <= i < n ==> 0 <= r < n && r == (i - 1 + n) % n
  {
    if i == 0 then n - 1 else i - 1
  }

  /** `goToNext`: the last photo wraps to the first. */
  function GoToNext(i: int, n: int): (r: int)
    ensures i == n - 1 ==> r == 0
    ensures i != n - 1 ==> r == i + 1
    ensures 0 <= i < n ==> 0 <= r < n && r == (i + 1) % n
  {
    if i == n - 1 then 0 else i + 1
  }

  /** Previous and next undo each other on in-range indices. */
  lemma PreviousNextInverse(i: int, n: int)
    requires 0 <= i < n
    ensures GoToNext(GoToPrevious(i, n), n) == i
    ensures GoToPrevious(GoToNext(i, n), n) == i
  {
  }

  /** `openLightbox(index)`: shows the photo, whatever was shown before. */
  function OpenLightbox(lb: Lightbox, index: int): (r: Lightbox)
    ensures r.open
    // closing straight away leaves the lightbox closed on the photo just opened
    ensures CloseLightbox(r) == Lightbox(false, index)
  {
    Lightbox(true, index)
  }

  /** `closeLightbox()`: the index is kept for the next opening. */
  function CloseLightbox(lb: Lightbox): Lightbox {
    lb.(open := false)
  }

  /** Closing is idempotent, and reopening on the kept photo restores the open view. */
  lemma CloseThenReopen(lb: Lightbox)
    ensures CloseLightbox(CloseLightbox(lb)) == CloseLightbox(lb)
    ensures OpenLightbox(CloseLightbox(lb), lb.index) == lb.(open := true)
  {
  }

  /**
   * `handleKeyDown`: three independent tests in a row, Escape then ArrowLeft
   * then ArrowRight; at most one of them can fire for a given key.
   */
  function HandleKeyDown(lb: Lightbox, key: string, n: int): (r: Lightbox)
    ensures key == "Escape" ==> r == CloseLightbox(lb)
    ensures key == "ArrowLeft" ==> r == lb.(index := GoToPrevious(lb.index, n))
    ensures key == "ArrowRight" ==> r == lb.(index := GoToNext(lb.index, n))
    ensures key !in {"Escape", "ArrowLeft", "ArrowRight"} ==> r == lb
    // navigation never changes whether the lightbox is open
    ensures key != "Escape" ==> r.open == lb.open
    ensures 0 <= lb.index < n ==> 0 <= r.index < n
  {
    var afterEscape := if key == "Escape" then CloseLightbox(lb) else lb;
    var afterLeft := if key == "ArrowLeft" then afterEscape.(index := GoToPrevious(afterEscape.index, n))
                     else afterEscape;
    if key == "ArrowRight" then afterLeft.(index := GoToNext(afterLeft.index, n)) else afterLeft
  }

  /** Opening a photo, stepping left then right, and closing leaves that photo selected. */
  lemma BrowseAndClose(lb: Lightbox, k: int, n: int)
    requires 0 <= k < n
    ensures var shown := OpenLightbox(lb, k);
            var back := HandleKeyDown(HandleKeyDown(shown, "ArrowLeft", n), "ArrowRight", n);
            HandleKeyDown(back, "Escape", n) == Lightbox(false, k)
  {
  }
}
