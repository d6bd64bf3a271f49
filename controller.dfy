/** The script's mutable state and its event handlers (github-filter/filter.js): the
    variables `minStars`, `lastFilterTime`, `filterTimeout`, `isFiltering` and
    `filterQueued`, the pending re-run timeouts and the mutation observer, updated in place
    by the handlers. Every handler is proved to move the scheduling state exactly as the
    corresponding `Scheduler` function does, and to apply a filter pass to the page exactly
    when that function starts one. */
module Control {
  import opened Wrappers
  import opened Dom
  import opened Locators
  import opened FilterPass
  import opened JsNumbers
  import Scheduler

  /** `MutationRecord.type`. */
  datatype MutationKind = ChildList | Attributes | CharacterData

  /** One mutation record: its type, how many nodes it added and its target. */
  datatype Mutation = Mutation(kind: MutationKind, added: nat, target: Element)

  /** The selectors whose elements' attribute changes trigger a pass. */
  const WatchedSelectors: seq<Selector> := [StarsCounter, StargazersCounter, SocialCount, RepositoryId]

  /** A record that makes the observer filter: added nodes, or an attribute change on a
      star counter or a repository element. */
  predicate Triggers(m: Mutation) {
    || (m.kind == ChildList && m.added > 0)
    || (m.kind == Attributes && exists k | 0 <= k < |WatchedSelectors| :: m.target.Matches(WatchedSelectors[k]))
  }

  /** The observer callback's scan over a batch of records, stopping at the first record
      that triggers. */
  method ShouldFilter(ms: seq<Mutation>) returns (should: bool)
    ensures should <==> exists k | 0 <= k < |ms| :: Triggers(ms[k])
  {
    should := false;
    var i := 0;
    while i < |ms|
      invariant 0 <= i <= |ms|
      invariant !should
      invariant forall k | 0 <= k < i :: !Triggers(ms[k])
    {
      var m := ms[i];
      if m.kind == ChildList {
        if m.added > 0 {
          should := true;
          break;
        }
      } else if m.kind == Attributes &&
                (m.target.Matches(WatchedSelectors[0]) || m.target.Matches(WatchedSelectors[1]) ||
                 m.target.Matches(WatchedSelectors[2]) || m.target.Matches(WatchedSelectors[3])) {
        should := true;
        break;
      }
      assert !Triggers(m);
      i := i + 1;
    }
  }

  /** A batch triggers only through some record in it: text changes, removals alone and
      attribute changes elsewhere never trigger, and one triggering record is enough
      whatever the others are. */
  lemma TriggersSpec(m: Mutation, ms: seq<Mutation>, extra: seq<Mutation>)
    ensures m.kind == CharacterData ==> !Triggers(m)
    ensures m.kind == ChildList ==> (Triggers(m) <==> m.added > 0)
    ensures m.kind == Attributes && (forall k | 0 <= k < |WatchedSelectors| :: !m.target.Matches(WatchedSelectors[k])) ==>
      !Triggers(m)
    ensures (exists k | 0 <= k < |ms| :: Triggers(ms[k])) ==> exists k | 0 <= k < |ms + extra| :: Triggers((ms + extra)[k])
  {
    if exists k | 0 <= k < |ms| :: Triggers(ms[k]) {
      var k :| 0 <= k < |ms| && Triggers(ms[k]);
      assert (ms + extra)[k] == ms[k];
    }
  }

  /** `retryFilter`'s attempt budget: `maxAttempts` attempts, but always at least one. */
  function Budget(maxAttempts: int): nat {
    if maxAttempts < 1 then 1 else maxAttempts
  }

  /** The page as it is at attempt `i`: attempts past the end of `pages` see the last one. */
  function PageAt(pages: seq<Element>, i: nat): Element
    requires pages != []
  {
    if i < |pages| then pages[i] else pages[|pages| - 1]
  }

  /** Every item any of the pages lists. */
  function AllItems(pages: seq<Element>): set<Element>
  {
    set p, e | p in pages && e in FindRepoItems(p) :: e
  }

  class Controller {
    var minStars: int
    var lastFilterTime: int
    var timer: Option<int>
    var isFiltering: bool
    var filterQueued: bool
    var reruns: seq<int>
    /** The passes started so far through the guard inside `debouncedFilter`; the passes
        of `retryFilter` call `filterRepositories` directly and are not counted. */
    var runs: nat
    /** The `main` element the mutation observer watches, once set up. */
    var observed: Option<Element>

    function Snapshot(): Scheduler.State
      reads this
    {
      Scheduler.State(minStars, lastFilterTime, timer, isFiltering, filterQueued, reruns, runs)
    }

    /** The script's initial state: threshold 5, nothing pending, no observer. */
    constructor ()
      ensures Snapshot() == Scheduler.Init && observed.None?
    {
      minStars := Scheduler.InitialMinStars;
      lastFilterTime := 0;
      timer := None;
      isFiltering := false;
      filterQueued := false;
      reruns := [];
      runs := 0;
      observed := None;
    }

    /** The guarded body of `debouncedFilter`, on the page `doc`. */
    method Guarded(doc: Element, now: int)
      modifies this, ItemSet(doc)
      ensures Snapshot() == Scheduler.Guarded(old(Snapshot()), now)
      ensures observed == old(observed)
      ensures runs == old(runs) ==> unchanged(ItemSet(doc))
      ensures runs != old(runs) ==> Filtered(doc, Judging(minStars))
    {
      if isFiltering {
        filterQueued := true;
        return;
      }
      Begin();
      var found := RunPass(doc);
      Finally(now);
    }

    /** The guard letting a pass start. */
    method Begin()
      requires !isFiltering
      modifies this
      ensures Snapshot() == Scheduler.Begin(old(Snapshot()))
      ensures observed == old(observed)
    {
      isFiltering := true;
      runs := runs + 1;
    }

    /** `filterRepositories()` on the page `doc`, including its reset of `isFiltering`
        when it found items. */
    method RunPass(doc: Element) returns (found: bool)
      modifies this, ItemSet(doc)
      ensures found <==> FindRepoItems(doc) != []
      ensures Snapshot() == old(Snapshot()).(isFiltering := if found then false else old(isFiltering))
      ensures !found ==> unchanged(this)
      ensures observed == old(observed)
      ensures Filtered(doc, Judging(minStars))
    {
      var shown, hidden;
      found, shown, hidden := FilterRepositories(doc, minStars);
      if found {
        isFiltering := false;
      }
    }

    /** The `finally` block of `debouncedFilter`: the pass is over, and a call queued
        meanwhile is re-run after `RerunDelay`. */
    method Finally(now: int)
      modifies this
      ensures Snapshot() == Scheduler.Finish(old(Snapshot()), now)
      ensures observed == old(observed)
    {
      isFiltering := false;
      if filterQueued {
        filterQueued := false;
        reruns := reruns + [now + Scheduler.RerunDelay];
      }
    }

    /** `debouncedFilter()` at time `now`. */
    method Debounced(doc: Element, now: int)
      modifies this, ItemSet(doc)
      ensures Snapshot() == Scheduler.Debounced(old(Snapshot()), now)
      ensures observed == old(observed)
      ensures runs == old(runs) ==> unchanged(ItemSet(doc))
      ensures runs != old(runs) ==> Filtered(doc, Judging(minStars))
    {
      if now - lastFilterTime > Scheduler.Wait {
        lastFilterTime := now;
        Guarded(doc, now);
        return;
      }
      timer := Some(now + Scheduler.Wait);
    }

    /** The debounce timer firing at time `now`. */
    method FireTimer(doc: Element, now: int)
      requires timer.Some?
      modifies this, ItemSet(doc)
      ensures Snapshot() == Scheduler.FireTimer(old(Snapshot()), now)
      ensures observed == old(observed)
      ensures runs == old(runs) ==> unchanged(ItemSet(doc))
      ensures runs != old(runs) ==> Filtered(doc, Judging(minStars))
    {
      timer := None;
      lastFilterTime := now;
      Guarded(doc, now);
    }

    /** The earliest re-run timeout firing at time `now`. */
    method FireRerun(doc: Element, now: int)
      requires reruns != []
      modifies this, ItemSet(doc)
      ensures Snapshot() == Scheduler.FireRerun(old(Snapshot()), now)
      ensures observed == old(observed)
      ensures runs == old(runs) ==> unchanged(ItemSet(doc))
      ensures runs != old(runs) ==> Filtered(doc, Judging(minStars))
    {
      reruns := reruns[1..];
      Debounced(doc, now);
    }

    /** A click on the load-more button. */
    method LoadMoreClick()
      modifies this
      ensures Snapshot() == Scheduler.LoadMoreClick(old(Snapshot()))
      ensures observed == old(observed)
    {
      timer := None;
    }

    /** A submit of the load-more form. */
    method LoadMoreSubmit()
      modifies this
      ensures Snapshot() == Scheduler.LoadMoreSubmit(old(Snapshot()))
      ensures observed == old(observed)
    {
      isFiltering := false;
      timer := None;
    }

    /** The threshold input's `change` event with the input's text `input`. */
    method ChangeThreshold(doc: Element, input: string, now: int)
      modifies this, ItemSet(doc)
      ensures Snapshot() == Scheduler.ChangeThreshold(old(Snapshot()), input, now)
      ensures observed == old(observed)
      ensures runs == old(runs) ==> unchanged(ItemSet(doc))
      ensures runs != old(runs) ==> Filtered(doc, Judging(minStars))
    {
      var v := ParseInt(input);
      if v.Some? && v.value >= 0 {
        minStars := v.value;
        Debounced(doc, now);
      }
    }

    /** The mutation observer's callback with the batch `ms`; nothing happens before the
        observer is set up. */
    method OnMutations(doc: Element, ms: seq<Mutation>, now: int)
      modifies this, ItemSet(doc)
      ensures Snapshot() ==
        if observed.Some? && exists k | 0 <= k < |ms| :: Triggers(ms[k]) then Scheduler.Debounced(old(Snapshot()), now)
        else old(Snapshot())
      ensures observed == old(observed)
      ensures runs == old(runs) ==> unchanged(ItemSet(doc))
      ensures runs != old(runs) ==> Filtered(doc, Judging(minStars))
    {
      if observed.None? {
        return;
      }
      var should := ShouldFilter(ms);
      if should {
        Debounced(doc, now);
      }
    }

    /** One attempt of `retryFilter`: a pass over `page` and, when it found items,
        `setupObserver()`, which observes the page's `main` element if it has one.
        `before` records the state of the page's items before the attempt; `others`, items
        not on the page, keep the state it records for them. */
    method Attempt(page: Element, ghost before: map<Element, (bool, bool)>, ghost others: set<Element>)
      returns (found: bool)
      requires forall e | e in ItemSet(page) :: e in before && before[e] == (e.hidden, e.processed)
      requires others !! ItemSet(page) && Kept(others, before)
      modifies this, ItemSet(page)
      ensures found <==> FindRepoItems(page) != []
      ensures Kept(others, before)
      ensures found ==> FilteredFrom(page, Judging(minStars), before)
      ensures found ==> Snapshot() == old(Snapshot()).(isFiltering := false) && observed == First(page, Main)
      ensures !found ==> unchanged(this)
    {
      found := RunPass(page);
      FilteredRecorded(page, Judging(minStars), before);
      if found {
        observed := First(page, Main);
      }
    }

    /** `retryFilter(maxAttempts)`: attempt `k` (from 0) runs on `PageAt(pages, k)`; the
        first attempt that finds items stops, and after `Budget(maxAttempts)` attempts
        that found nothing it gives up. The inner `attempt()` re-schedules itself after
        each failure; the model runs those attempts one after another in a loop, and does
        not model the delay between them. */
    method RetryFilter(pages: seq<Element>, maxAttempts: int) returns (calls: nat, success: bool)
      requires pages != []
      modifies this, AllItems(pages)
      ensures 1 <= calls <= Budget(maxAttempts)
      ensures forall k | 0 <= k < calls - 1 :: FindRepoItems(PageAt(pages, k)) == []
      ensures success <==> FindRepoItems(PageAt(pages, calls - 1)) != []
      ensures !success ==> calls == Budget(maxAttempts)
      ensures success ==> Filtered(PageAt(pages, calls - 1), Judging(minStars))
      ensures success ==> Snapshot() == old(Snapshot()).(isFiltering := false)
      ensures success ==> observed == First(PageAt(pages, calls - 1), Main)
      ensures success ==> Untouched(AllItems(pages) - ItemSet(PageAt(pages, calls - 1)))
      ensures !success ==> unchanged(this) && unchanged(AllItems(pages))
    {
      ghost var before := States(AllItems(pages));
      var attempts: nat := 0;
      while true
        invariant attempts < Budget(maxAttempts)
        invariant forall k | 0 <= k < attempts :: FindRepoItems(PageAt(pages, k)) == []
        invariant unchanged(this) && unchanged(AllItems(pages))
        decreases Budget(maxAttempts) - attempts
      {
        var page := PageAt(pages, attempts);
        PageItems(pages, attempts);
        ghost var rest := AllItems(pages) - ItemSet(page);
        var found := Attempt(page, before, rest);
        if found {
          calls, success := attempts + 1, true;
          assert page == PageAt(pages, calls - 1);
          KeptUntouched(rest, before);
          RecordedFiltered(page, Judging(minStars), before);
          return;
        }
        assert ItemSet(page) == {};
        if attempts < maxAttempts - 1 {
          attempts := attempts + 1;
        } else {
          return attempts + 1, false;
        }
      }
    }
  }

  /** The items of any attempt's page are among all the pages' items. */
  lemma PageItems(pages: seq<Element>, i: nat)
    requires pages != []
    ensures ItemSet(PageAt(pages, i)) <= AllItems(pages)
  {
    var p := PageAt(pages, i);
    assert p in pages;
  }
}
