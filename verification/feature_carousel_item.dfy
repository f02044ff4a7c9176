/**
 * The call-to-action button of a carousel slide: the link is classified as
 * external (`http:` / `https:`), an in-page anchor (`#...`) or an internal
 * route, and each class renders a different element. `ctaLink` comes from
 * the CMS and may be missing, which the source guards with `typeof` tests.
 */
module FeatureCarouselItem {
  import opened Wrappers

  const BlankTarget: string := "_blank"
  const SafeRel: string := "noopener noreferrer"

  /** `isExternalLink`. */
  predicate IsExternalLink(ctaLink: Option<string>) {
    ctaLink.Some? && ("http:" <= ctaLink.value || "https:" <= ctaLink.value)
  }

  /** `isAnchor`. */
  predicate IsAnchor(ctaLink: Option<string>) {
    ctaLink == Some("#") || (ctaLink.Some? && "#" <= ctaLink.value)
  }

  /** The element `renderCTAButton` produces. */
  datatype CtaButton =
    | ExternalAnchor(href: string, target: string, rel: string)
    | PageAnchor(href: string)
    | RouteLink(href: string)

  /** `ctaLink || '#'`. */
  function HrefOrHash(ctaLink: Option<string>): (h: string)
    // the rendered href is never empty, and is the link itself or the placeholder
    ensures h != ""
    ensures ctaLink == Some(h) || h == "#"
  {
    if ctaLink.Some? && ctaLink.value != "" then ctaLink.value else "#"
  }

  /** `renderCTAButton()`: external is tested first, then anchor, else an internal Link. */
  function RenderCtaButton(ctaLink: Option<string>): (b: CtaButton)
    ensures b.ExternalAnchor? <==> IsExternalLink(ctaLink)
    ensures b.PageAnchor? <==> IsAnchor(ctaLink)
    ensures b.ExternalAnchor? ==> b == ExternalAnchor(ctaLink.value, BlankTarget, SafeRel)
    ensures b.PageAnchor? ==> b.href == ctaLink.value
    ensures b.RouteLink? ==> b.href == HrefOrHash(ctaLink)
  {
    ExternalAndAnchorExclusive(ctaLink);
    if IsExternalLink(ctaLink) then ExternalAnchor(ctaLink.value, BlankTarget, SafeRel)
    else if IsAnchor(ctaLink) then PageAnchor(HrefOrHash(ctaLink))
    else RouteLink(HrefOrHash(ctaLink))
  }

  /** No link is both external and an anchor. */
  lemma ExternalAndAnchorExclusive(ctaLink: Option<string>)
    ensures !(IsExternalLink(ctaLink) && IsAnchor(ctaLink))
  {
    if ctaLink.Some? && |ctaLink.value| > 0 {
      assert "#"[0] != "http:"[0];
    }
  }

  /** A missing or empty link is neither external nor an anchor and routes to `#`. */
  lemma EmptyLinkRoutesToHash(ctaLink: Option<string>)
    requires ctaLink.None? || ctaLink == Some("")
    ensures RenderCtaButton(ctaLink) == RouteLink("#")
  {
  }
}
