/** One pass of `filterRepositories()` (github-filter/filter.js): every repository item
    found on the page is hidden when its parsed star count is below the threshold, shown
    and marked `data-star-processed` otherwise, and left alone when no star count text is
    found. The pass reports whether any item was found and how many it hid and showed. */
module FilterPass {
  import opened Wrappers
  import opened Dom
  import opened Locators
  import opened Extractor
  import opened StarCount

  /** What the pass does to one item. */
  datatype Verdict = Skip | Hide | Show

  /** The verdict for one item under threshold `minStars`. A missing or empty star count
      text skips the item; a count that parses to `NaN` is never below the threshold, so
      the item is shown. */
  function Judge(item: Element, minStars: int): Verdict
  {
    match FindStarCount(item)
    case None => Skip
    case Some(t) =>
      if t == [] then Skip
      else match ParseStarCount(Some(t))
        case Some(v) => if v < minStars as real then Hide else Show
        case None => Show
  }

  /** The verdict of every item under threshold `minStars`. */
  function Judging(minStars: int): Element -> Verdict
  {
    (e: Element) => Judge(e, minStars)
  }

  /** The (hidden, processed) state of an item after the pass applies a verdict to it. */
  function Apply(v: Verdict, st: (bool, bool)): (r: (bool, bool))
  {
    match v
    case Skip => st
    case Hide => (true, st.1)
    case Show => (false, true)
  }

  /** The items the pass may write. */
  function ItemSet(doc: Element): set<Element>
  {
    set e | e in FindRepoItems(doc)
  }

  /** The verdicts `judge` gives `items`, in order. */
  function Verdicts(items: seq<Element>, judge: Element -> Verdict): (r: seq<Verdict>)
    ensures |r| == |items|
    ensures forall k | 0 <= k < |items| :: r[k] == judge(items[k])
  {
    seq(|items|, k requires 0 <= k < |items| => judge(items[k]))
  }

  /** How many of `vs` are `v`. */
  function Count(vs: seq<Verdict>, v: Verdict): nat
  {
    if vs == [] then 0
    else Count(vs[..|vs| - 1], v) + (if vs[|vs| - 1] == v then 1 else 0)
  }

  /** What the pass writes to one item: `style.display` and, for a shown item, the
      `data-star-processed` mark. */
  method Mark(item: Element, verdict: Verdict)
    modifies item
    ensures (item.hidden, item.processed) == Apply(verdict, old((item.hidden, item.processed)))
  {
    if verdict == Hide {
      item.hidden := true;
    } else if verdict == Show {
      item.hidden := false;
      item.processed := true;
    }
  }

  /** After a pass: every item of `doc` has had its verdict under `judge` applied to the
      state it had before. */
  twostate predicate Filtered(doc: Element, new judge: Element -> Verdict)
    reads ItemSet(doc)
  {
    forall e {:trigger judge(e)} | e in ItemSet(doc) ::
      (e.hidden, e.processed) == Apply(judge(e), old((e.hidden, e.processed)))
  }

  /** Every item of `doc` has had its verdict under `judge` applied to the state
      `before` records for it. */
  predicate FilteredFrom(doc: Element, judge: Element -> Verdict, before: map<Element, (bool, bool)>)
    reads ItemSet(doc)
  {
    forall e {:trigger judge(e)} | e in ItemSet(doc) ::
      e in before && (e.hidden, e.processed) == Apply(judge(e), before[e])
  }

  /** The (hidden, processed) state of each of `items`. */
  ghost function States(items: set<Element>): (r: map<Element, (bool, bool)>)
    reads items
    ensures forall e | e in items :: e in r && r[e] == (e.hidden, e.processed)
  {
    map e | e in items :: (e.hidden, e.processed)
  }

  /** `Filtered` restated against a record `before` of the items' earlier state. */
  twostate lemma FilteredRecorded(doc: Element, new judge: Element -> Verdict, new before: map<Element, (bool, bool)>)
    requires forall e | e in ItemSet(doc) :: e in before && before[e] == old((e.hidden, e.processed))
    requires Filtered(doc, judge)
    ensures FilteredFrom(doc, judge, before)
  {
  }

  /** Every one of `items` still has the state `before` records for it. */
  predicate Kept(items: set<Element>, before: map<Element, (bool, bool)>)
    reads items
  {
    forall e | e in items :: e in before && (e.hidden, e.processed) == before[e]
  }

  /** None of `items` was hidden, shown or marked since the old state: `hidden` and
      `processed` are the only fields of an element that change. */
  twostate predicate Untouched(items: set<Element>)
    reads items
  {
    forall e | e in items :: (e.hidden, e.processed) == old((e.hidden, e.processed))
  }

  /** Items that still have the state recorded for them in the old state are untouched. */
  twostate lemma KeptUntouched(items: set<Element>, new before: map<Element, (bool, bool)>)
    requires forall e | e in items :: e in before && before[e] == old((e.hidden, e.processed))
    requires Kept(items, before)
    ensures Untouched(items)
  {
  }

  /** And back: a pass recorded against the state the items had in the old state is
      `Filtered`. */
  twostate lemma RecordedFiltered(doc: Element, new judge: Element -> Verdict, new before: map<Element, (bool, bool)>)
    requires forall e | e in ItemSet(doc) :: e in before && before[e] == old((e.hidden, e.processed))
    requires FilteredFrom(doc, judge, before)
    ensures Filtered(doc, judge)
  {
  }

  /** The `forEach` over the items: each item, in document order, gets the verdict of
      `judge` and the counters count the shown and hidden ones. An item listed twice gets
      the same verdict twice, which changes nothing the second time (`ApplyIdempotent`). */
  method MarkAll(items: seq<Element>, judge: Element -> Verdict) returns (shownCount: nat, hiddenCount: nat)
    modifies set e | e in items
    ensures forall e | e in items ::
      (e.hidden, e.processed) == Apply(judge(e), old((e.hidden, e.processed)))
    ensures shownCount == Count(Verdicts(items, judge), Show)
    ensures hiddenCount == Count(Verdicts(items, judge), Hide)
  {
    shownCount, hiddenCount := 0, 0;
    ghost var vs := Verdicts(items, judge);
    ghost var before := map e | e in items :: (e.hidden, e.processed);
    for i := 0 to |items|
      invariant forall e | e in items ::
        (e.hidden, e.processed) == if e in items[..i] then Apply(judge(e), before[e]) else before[e]
      invariant shownCount == Count(vs[..i], Show)
      invariant hiddenCount == Count(vs[..i], Hide)
    {
      var item := items[i];
      var verdict := judge(item);
      CountStep(vs, i, Show);
      CountStep(vs, i, Hide);
      Mark(item, verdict);
      if verdict == Hide {
        hiddenCount := hiddenCount + 1;
      } else if verdict == Show {
        shownCount := shownCount + 1;
      }
      assert forall e :: e in items[..i + 1] <==> e in items[..i] || e == item by {
        assert items[..i + 1] == items[..i] + [item];
      }
    }
    assert items[..|items|] == items && vs[..|items|] == vs;
  }

  /** `filterRepositories()`, without the logging: `false` when no item is found,
      otherwise every item is judged against `minStars` and marked. */
  method FilterRepositories(doc: Element, minStars: int) returns (found: bool, shownCount: nat, hiddenCount: nat)
    modifies ItemSet(doc)
    ensures found <==> FindRepoItems(doc) != []
    ensures Filtered(doc, Judging(minStars))
    ensures shownCount == Count(Verdicts(FindRepoItems(doc), Judging(minStars)), Show)
    ensures hiddenCount == Count(Verdicts(FindRepoItems(doc), Judging(minStars)), Hide)
  {
    var items := FindRepoItems(doc);
    if items == [] {
      return false, 0, 0;
    }
    shownCount, hiddenCount := MarkAll(items, Judging(minStars));
    found := true;
  }

  /** Two passes in a row with the same threshold over an unchanged page leave every item
      as one pass does: the second pass changes nothing. */
  method FilterTwice(doc: Element, minStars: int)
    modifies ItemSet(doc)
    ensures Filtered(doc, Judging(minStars))
  {
    var judge := Judging(minStars);
    ghost var before := States(ItemSet(doc));
    var found, shown, hidden := FilterRepositories(doc, minStars);
    FilteredRecorded(doc, judge, before);
    label Mid:
    ghost var mid := States(ItemSet(doc));
    found, shown, hidden := FilterRepositories(doc, minStars);
    FilteredRecorded@Mid(doc, judge, mid);
    forall e | e in ItemSet(doc)
      ensures (e.hidden, e.processed) == Apply(judge(e), before[e])
    {
      ApplyIdempotent(judge(e), before[e]);
    }
    RecordedFiltered(doc, judge, before);
  }

  /** Applying the same verdict twice is applying it once: a second pass over an
      unchanged page changes nothing. */
  lemma ApplyIdempotent(v: Verdict, st: (bool, bool))
    ensures Apply(v, Apply(v, st)) == Apply(v, st)
  {
  }

  /** What each verdict leaves behind: a hidden item keeps its mark, a shown item is
      visible and marked, a skipped item is untouched; in particular no verdict ever
      removes the `data-star-processed` mark. */
  lemma ApplySpec(v: Verdict, st: (bool, bool))
    ensures v == Hide ==> Apply(v, st).0 && Apply(v, st).1 == st.1
    ensures v == Show ==> !Apply(v, st).0 && Apply(v, st).1
    ensures v == Skip ==> Apply(v, st) == st
    ensures st.1 ==> Apply(v, st).1
  {
  }

  /** An item is hidden exactly when a non-empty star count text was found and parsed to a
      number below the threshold; it is shown exactly when the text was found and either
      is not a number or is at least the threshold. */
  lemma JudgeSpec(item: Element, minStars: int)
    ensures Judge(item, minStars) == Hide <==>
      && FindStarCount(item).Some? && FindStarCount(item).value != []
      && ParseStarCount(FindStarCount(item)).Some?
      && ParseStarCount(FindStarCount(item)).value < minStars as real
    ensures Judge(item, minStars) == Show <==>
      && FindStarCount(item).Some? && FindStarCount(item).value != []
      && (ParseStarCount(FindStarCount(item)).None? ||
          ParseStarCount(FindStarCount(item)).value >= minStars as real)
    ensures Judge(item, minStars) == Skip <==>
      FindStarCount(item).None? || FindStarCount(item).value == []
  {
  }

  /** Raising the threshold can only hide more items: an item hidden under `low` stays
      hidden under `high`, one shown under `high` was shown under `low`, and the skipped
      items do not depend on the threshold. */
  lemma JudgeMonotone(item: Element, low: int, high: int)
    requires low <= high
    ensures Judge(item, low) == Hide ==> Judge(item, high) == Hide
    ensures Judge(item, high) == Show ==> Judge(item, low) == Show
    ensures Judge(item, low) == Skip <==> Judge(item, high) == Skip
  {
  }

  lemma CountStep(vs: seq<Verdict>, i: nat, v: Verdict)
    requires i < |vs|
    ensures Count(vs[..i + 1], v) == Count(vs[..i], v) + (if vs[i] == v then 1 else 0)
  {
    assert vs[..i + 1][..i] == vs[..i];
  }

  /** Every item is counted once: the shown, hidden and skipped items add up to the
      number of items found. */
  lemma {:induction false} CountTotal(vs: seq<Verdict>)
    ensures Count(vs, Show) + Count(vs, Hide) + Count(vs, Skip) == |vs|
  {
    if vs != [] {
      CountTotal(vs[..|vs| - 1]);
    }
  }

  /** The verdict for an item whose star count text parses to the number `v`. */
  lemma JudgeByCount(item: Element, minStars: int, t: string, v: real)
    requires FindStarCount(item) == Some(t) && t != [] && ParseStarCount(Some(t)) == Some(v)
    ensures Judge(item, minStars) == if v < minStars as real then Hide else Show
  {
  }

  /** Three items whose star count texts are `2.1k`, `3` and none, under threshold 5:
      the first is shown, the second hidden, the third skipped; one shown, one hidden. */
  lemma ExampleScenario(a: Element, b: Element, c: Element, ta: string, tb: string)
    requires ta == "2.1k" && tb == "3"
    requires FindStarCount(a) == Some(ta) && FindStarCount(b) == Some(tb) && FindStarCount(c).None?
    ensures Verdicts([a, b, c], Judging(5)) == [Show, Hide, Skip]
    ensures Count(Verdicts([a, b, c], Judging(5)), Show) == 1
    ensures Count(Verdicts([a, b, c], Judging(5)), Hide) == 1
  {
    ExampleTwoPointOneK(ta);
    ExampleThree(tb);
    JudgeByCount(a, 5, ta, 2100.0);
    JudgeByCount(b, 5, tb, 3.0);
    VerdictsOfThree(a, b, c, Judging(5));
    CountShowHideSkip();
  }

  lemma VerdictsOfThree(a: Element, b: Element, c: Element, judge: Element -> Verdict)
    ensures Verdicts([a, b, c], judge) == [judge(a), judge(b), judge(c)]
  {
    var items := [a, b, c];
    assert items[0] == a && items[1] == b && items[2] == c;
  }

  lemma CountShowHideSkip()
    ensures Count([Show, Hide, Skip], Show) == 1 && Count([Show, Hide, Skip], Hide) == 1
  {
    var vs := [Show, Hide, Skip];
    assert vs[..0] == [] && vs[..3] == vs;
    CountStep(vs, 0, Show);
    CountStep(vs, 1, Show);
    CountStep(vs, 2, Show);
    CountStep(vs, 0, Hide);
    CountStep(vs, 1, Hide);
    CountStep(vs, 2, Hide);
  }
}
