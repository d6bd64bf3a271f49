/** The part of the browser document the filter looks at.

    Every node the filter touches is an `Element`. What it reads never changes while the
    filter runs: the element's `textContent`, its `aria-label`, the selectors it matches
    (`Element.matches`) and, for each selector, the descendants that match it in document
    order (`querySelectorAll`). The CSS engine is replaced by the `query` and `matchSet`
    tables, keyed by the selectors the script uses. What the filter writes is whether the element is hidden
    (`style.display == 'none'`) and whether it carries the `data-star-processed` mark. */
module Dom {
  import opened Wrappers

  /** The CSS selectors the script queries or matches, each with its text. */
  datatype Selector =
    | ArticleBorder          // article.border.rounded.color-shadow-small
    | ArticleHydro           // article[data-hydro-click]
    | ArticleBoxRow          // article.Box-row
    | RepoListItem           // .repo-list-item
    | RepositoryId           // [data-repository-id]
    | Col12                  // .col-12.d-block
    | Grid                   // [data-testid="grid"]
    | TopicRepositories      // .topic-repositories
    | RepoList               // .repo-list
    | BoxRow                 // .Box-row
    | StarsCounter           // #repo-stars-counter-star
    | StarsCounterSuffix     // [id$="repo-stars-counter-star"]
    | StargazersCounter      // [href$="/stargazers"] .Counter
    | StargazersLinkCounter  // a[href*="stargazers"] .Counter
    | SocialCount            // .social-count[href*="stargazers"]
    | OcticonNextCounter     // .octicon-star + .Counter
    | OcticonLaterCounter    // .octicon-star ~ .Counter
    | AriaStar               // [aria-label*="star"]
    | Main                   // main
    | Article                // article

  class Element {
    const text: string
    const ariaLabel: Option<string>
    const matchSet: set<Selector>
    const query: map<Selector, seq<Element>>
    var hidden: bool
    var processed: bool

    constructor (text: string, ariaLabel: Option<string>, matchSet: set<Selector>,
                 query: map<Selector, seq<Element>>)
      ensures this.text == text && this.ariaLabel == ariaLabel
      ensures this.matchSet == matchSet && this.query == query
      ensures !hidden && !processed
    {
      this.text := text;
      this.ariaLabel := ariaLabel;
      this.matchSet := matchSet;
      this.query := query;
      hidden := false;
      processed := false;
    }

    /** `matches(sel)`. */
    predicate Matches(sel: Selector) {
      sel in matchSet
    }
  }

  /** `root.querySelectorAll(sel)`: the matching descendants in document order. */
  function All(root: Element, sel: Selector): (r: seq<Element>)
    ensures sel !in root.query ==> r == []
  {
    if sel in root.query then root.query[sel] else []
  }

  /** `root.querySelector(sel)`: the first matching descendant, or `null`. */
  function First(root: Element, sel: Selector): (r: Option<Element>)
    ensures r.Some? <==> All(root, sel) != []
    ensures r.Some? ==> r.value == All(root, sel)[0]
  {
    var all := All(root, sel);
    if all == [] then None else Some(all[0])
  }
}
