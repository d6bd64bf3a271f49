/** `findStarCount(repoItem)` (github-filter/filter.js): the raw star-count text of one
    repository item, found in three stages, each tried only when the ones before it
    found nothing:
      1. the first star-counter selector with a match gives that element's trimmed text;
      2. otherwise the number before "star" in the item's text;
      3. otherwise the number before "star" or "user" in the first `aria-label` (of the
         descendants whose label contains "star") where that pattern matches.
    `None` is the `null` returned when all three fail. */
module Extractor {
  import opened Wrappers
  import opened JsText
  import opened Dom
  import opened Locators
  import opened StarPattern

  /** The star-counter selectors, in the order they are tried. */
  const StarSelectors: seq<Selector> := [
    StarsCounter, StarsCounterSuffix, StargazersCounter, StargazersLinkCounter,
    SocialCount, OcticonNextCounter, OcticonLaterCounter
  ]

  /** Stage 1: the trimmed text of the first match of the first selector that hits. */
  function SelectorText(item: Element): Option<string>
  {
    match FirstHit(item, StarSelectors, 0)
    case Some(k) => Some(Trim(All(item, StarSelectors[k])[0].text))
    case None => None
  }

  /** Stage 3: the index of the first label at or after `from`, in document order,
      where the `star|user` pattern matches. */
  function AriaHit(labelled: seq<Element>, from: nat): (r: Option<nat>)
    requires from <= |labelled|
    ensures r.Some? ==> from <= r.value < |labelled| && !AriaMiss(labelled[r.value])
    ensures r.Some? ==> forall k | from <= k < r.value :: AriaMiss(labelled[k])
    ensures r.None? ==> forall k | from <= k < |labelled| :: AriaMiss(labelled[k])
    decreases |labelled| - from
  {
    if from == |labelled| then None
    else if !AriaMiss(labelled[from]) then Some(from)
    else AriaHit(labelled, from + 1)
  }

  /** Stage 3: the number token of the first label where the pattern matches. */
  function AriaText(labelled: seq<Element>): Option<string>
  {
    match AriaHit(labelled, 0)
    case Some(k) => Capture(labelled[k].ariaLabel.value, AriaWords)
    case None => None
  }

  /** An element without a label, or whose label the `star|user` pattern does not match. */
  predicate AriaMiss(el: Element) {
    el.ariaLabel.None? || Capture(el.ariaLabel.value, AriaWords).None?
  }

  /** `findStarCount(item)`. */
  function FindStarCount(item: Element): (r: Option<string>)
  {
    if SelectorText(item).Some? then SelectorText(item)
    else if Capture(item.text, StarWords).Some? then Capture(item.text, StarWords)
    else AriaText(All(item, AriaStar))
  }

  /** The stages in priority order: a selector hit wins even when its text is empty and
      the later stages would match; the text pattern is used only when no selector hits;
      the labels only when the text pattern also fails; `null` only when all three fail. */
  lemma FindStarCountStages(item: Element)
    ensures SelectorText(item).Some? ==> FindStarCount(item) == SelectorText(item)
    ensures SelectorText(item).None? && Capture(item.text, StarWords).Some? ==>
      FindStarCount(item) == Capture(item.text, StarWords)
    ensures SelectorText(item).None? && Capture(item.text, StarWords).None? ==>
      FindStarCount(item) == AriaText(All(item, AriaStar))
    ensures FindStarCount(item).None? <==>
      && (forall k | 0 <= k < |StarSelectors| :: All(item, StarSelectors[k]) == [])
      && (forall k | 0 <= k < |item.text| :: MatchEnd(item.text, k, StarWords).None?)
      && (forall k | 0 <= k < |All(item, AriaStar)| :: AriaMiss(All(item, AriaStar)[k]))
  {
    CaptureSpec(item.text, StarWords);
    var labelled := All(item, AriaStar);
    if SelectorText(item).None? && Capture(item.text, StarWords).None? {
      AriaTextSpec(labelled);
    }
  }

  /** The label stage finds nothing only when no label matches; otherwise it captures
      from the first label, in document order, that matches. */
  lemma AriaTextSpec(labelled: seq<Element>)
    ensures AriaText(labelled).None? <==> forall k | 0 <= k < |labelled| :: AriaMiss(labelled[k])
    ensures forall k | 0 <= k < |labelled| && !AriaMiss(labelled[k]) &&
      (forall j | 0 <= j < k :: AriaMiss(labelled[j])) ::
        AriaText(labelled) == Capture(labelled[k].ariaLabel.value, AriaWords)
  {
    var h := AriaHit(labelled, 0);
    forall k | 0 <= k < |labelled| && !AriaMiss(labelled[k]) && (forall j | 0 <= j < k :: AriaMiss(labelled[j]))
      ensures AriaText(labelled) == Capture(labelled[k].ariaLabel.value, AriaWords)
    {
      assert h.Some? && h.value == k;
    }
  }

  /** What the first stage finds is the trimmed text of the first counter that matches;
      what the pattern stages find is always a number token, never empty. */
  lemma FindStarCountShape(item: Element)
    ensures SelectorText(item).Some? ==> exists k | 0 <= k < |StarSelectors| ::
      && All(item, StarSelectors[k]) != []
      && (forall j | 0 <= j < k :: All(item, StarSelectors[j]) == [])
      && SelectorText(item) == Some(Trim(All(item, StarSelectors[k])[0].text))
    ensures SelectorText(item).None? && FindStarCount(item).Some? ==>
      IsNumberToken(FindStarCount(item).value)
  {
    CaptureSpec(item.text, StarWords);
    var labelled := All(item, AriaStar);
    var h := AriaHit(labelled, 0);
    if SelectorText(item).None? && Capture(item.text, StarWords).None? && h.Some? {
      CaptureSpec(labelled[h.value].ariaLabel.value, AriaWords);
    }
  }
}
