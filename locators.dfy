/** Finding the repository list: `findRepoItems` and `findRepoContainer`
    (github-filter/filter.js). Both walk a fixed list of selectors in order and stop at
    the first one that finds anything. */
module Locators {
  import opened Wrappers
  import opened Dom

  /** The selectors `findRepoItems` tries, newest page layout first. */
  const ItemSelectors: seq<Selector> :=
    [ArticleBorder, ArticleHydro, ArticleBoxRow, RepoListItem, RepositoryId, Col12]

  /** The selectors `findRepoContainer` tries. */
  const ContainerSelectors: seq<Selector> := [Grid, TopicRepositories, RepoList, BoxRow, Col12]

  /** The index of the first selector in `selectors[from..]` with a match under `root`. */
  function FirstHit(root: Element, selectors: seq<Selector>, from: nat): (r: Option<nat>)
    requires from <= |selectors|
    ensures r.Some? ==> from <= r.value < |selectors| && All(root, selectors[r.value]) != []
    ensures r.Some? ==> forall k | from <= k < r.value :: All(root, selectors[k]) == []
    ensures r.None? ==> forall k | from <= k < |selectors| :: All(root, selectors[k]) == []
    decreases |selectors| - from
  {
    if from == |selectors| then None
    else if All(root, selectors[from]) != [] then Some(from)
    else FirstHit(root, selectors, from + 1)
  }

  /** `findRepoItems()`: the matches of the first item selector that has any; failing
      that, the `article`s inside the first `main` element; failing that, nothing. */
  function FindRepoItems(doc: Element): (r: seq<Element>)
  {
    match FirstHit(doc, ItemSelectors, 0)
    case Some(k) => All(doc, ItemSelectors[k])
    case None =>
      match First(doc, Main)
      case Some(main) => All(main, Article)
      case None => []
  }

  /** `findRepoItems` takes the earliest selector that matches, and all of its matches in
      document order; the `main` fallback is used only when every selector misses. */
  lemma FindRepoItemsSpec(doc: Element)
    ensures forall k | 0 <= k < |ItemSelectors| ::
      (All(doc, ItemSelectors[k]) != [] && forall j | 0 <= j < k :: All(doc, ItemSelectors[j]) == [])
        ==> FindRepoItems(doc) == All(doc, ItemSelectors[k])
    ensures (forall k | 0 <= k < |ItemSelectors| :: All(doc, ItemSelectors[k]) == []) ==>
      FindRepoItems(doc) == (if First(doc, Main).Some? then All(First(doc, Main).value, Article) else [])
  {
    forall k | 0 <= k < |ItemSelectors| && All(doc, ItemSelectors[k]) != []
      && (forall j | 0 <= j < k :: All(doc, ItemSelectors[j]) == [])
      ensures FindRepoItems(doc) == All(doc, ItemSelectors[k])
    {
      var h := FirstHit(doc, ItemSelectors, 0);
      assert h.Some? && h.value == k;
    }
  }

  /** `findRepoItems` finds nothing exactly when every selector misses and there is no
      `main` element or it holds no `article`. */
  lemma FindRepoItemsEmpty(doc: Element)
    ensures FindRepoItems(doc) == [] <==>
      && (forall k | 0 <= k < |ItemSelectors| :: All(doc, ItemSelectors[k]) == [])
      && (First(doc, Main).None? || All(First(doc, Main).value, Article) == [])
  {
  }

  /** `findRepoContainer()`: the first element matching the first container selector
      that matches anything, or `null`. */
  function FindRepoContainer(doc: Element): (r: Option<Element>)
  {
    match FirstHit(doc, ContainerSelectors, 0)
    case Some(k) => First(doc, ContainerSelectors[k])
    case None => None
  }

  /** `findRepoContainer` returns the first match of the earliest matching selector, and
      `null` only when no selector matches. */
  lemma FindRepoContainerSpec(doc: Element)
    ensures FindRepoContainer(doc).None? <==>
      forall k | 0 <= k < |ContainerSelectors| :: All(doc, ContainerSelectors[k]) == []
    ensures forall k | 0 <= k < |ContainerSelectors| ::
      (All(doc, ContainerSelectors[k]) != [] && forall j | 0 <= j < k :: All(doc, ContainerSelectors[j]) == [])
        ==> FindRepoContainer(doc) == Some(All(doc, ContainerSelectors[k])[0])
  {
    forall k | 0 <= k < |ContainerSelectors| && All(doc, ContainerSelectors[k]) != []
      && (forall j | 0 <= j < k :: All(doc, ContainerSelectors[j]) == [])
      ensures FindRepoContainer(doc) == Some(All(doc, ContainerSelectors[k])[0])
    {
      var h := FirstHit(doc, ContainerSelectors, 0);
      assert h.Some? && h.value == k;
    }
  }
}
