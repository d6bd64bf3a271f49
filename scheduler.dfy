/** When `filterRepositories` runs (github-filter/filter.js): the `debounce` wrapper, the
    `debouncedFilter` guard with its queue, the load-more handlers and the threshold input,
    as functions on the script's scheduling state. Times are `Date.now()` readings passed
    in by the caller; a timer is represented by the time it is due.

    JavaScript runs one callback at a time, and a filter pass is synchronous, so the
    guard's `isFiltering` is `false` again before any other callback can observe it. The
    model keeps the guard and the queue exactly as written and proves that, from the
    initial state, they never come into play (`ReachableQuiet`): no call is ever queued
    and the 100 ms re-run is never scheduled. */
module Scheduler {
  import opened Wrappers
  import opened JsNumbers

  /** The `wait` given to `debounce`. */
  const Wait: int := 250
  /** The delay before a queued pass is re-run. */
  const RerunDelay: int := 100
  /** The initial `minStars`. */
  const InitialMinStars: int := 5

  /** The script's variables that decide when a pass runs, plus `runs`, the number of
      passes started so far through the guard inside `debouncedFilter`. `timer` is the
      pending `filterTimeout`, `reruns` the pending re-run timeouts, each by the time it
      is due. */
  datatype State = State(
    minStars: int,
    lastFilterTime: int,
    timer: Option<int>,
    isFiltering: bool,
    filterQueued: bool,
    reruns: seq<int>,
    runs: nat)

  const Init: State := State(InitialMinStars, 0, None, false, false, [], 0)

  /** The start of a pass: the guard's `isFiltering = true`, and the pass is counted. */
  function Begin(st: State): (r: State)
    requires !st.isFiltering
  {
    st.(isFiltering := true, runs := st.runs + 1)
  }

  /** The guard's `finally` block at time `now`: the pass is over and a call queued during
      it is re-run `RerunDelay` later. */
  function Finish(st: State, now: int): (r: State)
  {
    if st.filterQueued then st.(isFiltering := false, filterQueued := false, reruns := st.reruns + [now + RerunDelay])
    else st.(isFiltering := false)
  }

  /** The function `debounce` wraps: queue the call while a pass is running, otherwise run
      a pass and, afterwards, schedule a re-run if a call was queued meanwhile. */
  function Guarded(st: State, now: int): (r: State)
  {
    if st.isFiltering then st.(filterQueued := true)
    else Finish(Begin(st), now)
  }

  /** Calls of the guarded function at times `ts`, in order. */
  function GuardedCalls(st: State, ts: seq<int>): State
    decreases ts
  {
    if ts == [] then st else GuardedCalls(Guarded(st, ts[0]), ts[1..])
  }

  /** Calls that reach the guard while a pass is running only set `filterQueued`, however
      many there are. */
  lemma {:induction false} CallsWhileRunning(st: State, ts: seq<int>)
    requires st.isFiltering
    ensures GuardedCalls(st, ts) == if ts == [] then st else st.(filterQueued := true)
    decreases ts
  {
    if ts != [] {
      CallsWhileRunning(st.(filterQueued := true), ts[1..]);
    }
  }

  /** At most one re-run: a pass during which one or more calls were made ends with
      nothing queued and exactly one re-run scheduled, however many calls there were;
      without calls (and nothing queued before) it schedules none. */
  lemma QueuedRerunBound(st: State, ts: seq<int>, now: int)
    requires !st.isFiltering && !st.filterQueued
    ensures var done := Finish(GuardedCalls(Begin(st), ts), now);
      && !done.isFiltering && !done.filterQueued
      && done.runs == st.runs + 1
      && done.reruns == (if ts == [] then st.reruns else st.reruns + [now + RerunDelay])
  {
    CallsWhileRunning(Begin(st), ts);
  }

  /** `debouncedFilter()` called at time `now`: run at once when the last pass started
      more than `Wait` ago, otherwise (re)arm the single timer to run `Wait` from now. */
  function Debounced(st: State, now: int): (r: State)
  {
    if now - st.lastFilterTime > Wait then Guarded(st.(lastFilterTime := now), now)
    else st.(timer := Some(now + Wait))
  }

  /** The debounce timer firing at time `now`. */
  function FireTimer(st: State, now: int): (r: State)
    requires st.timer.Some?
  {
    Guarded(st.(timer := None, lastFilterTime := now), now)
  }

  /** The earliest queued re-run firing at time `now`: it calls `debouncedFilter`. */
  function FireRerun(st: State, now: int): (r: State)
    requires st.reruns != []
  {
    Debounced(st.(reruns := st.reruns[1..]), now)
  }

  /** A click on the load-more button cancels the pending debounce timer. */
  function LoadMoreClick(st: State): (r: State)
  {
    st.(timer := None)
  }

  /** Submitting the load-more form also resets `isFiltering`. */
  function LoadMoreSubmit(st: State): (r: State)
  {
    st.(isFiltering := false, timer := None)
  }

  /** The threshold input's `change` handler: a value `parseInt` reads as a non-negative
      integer becomes the threshold and triggers `debouncedFilter`; anything else is
      ignored. */
  function ChangeThreshold(st: State, input: string, now: int): (r: State)
  {
    match ParseInt(input)
    case Some(v) => if v >= 0 then Debounced(st.(minStars := v), now) else st
    case None => st
  }

  /** Everything that can happen to the scheduling state. `Call` is any call of
      `debouncedFilter` (the mutation observer's is the usual one). */
  datatype Event =
    | Call(now: int)
    | Timer(now: int)
    | Rerun(now: int)
    | Click
    | Submit
    | Threshold(input: string, now: int)

  /** One event; a timer that is not pending cannot fire. */
  function Step(st: State, ev: Event): State
  {
    match ev
    case Call(now) => Debounced(st, now)
    case Timer(now) => if st.timer.Some? then FireTimer(st, now) else st
    case Rerun(now) => if st.reruns != [] then FireRerun(st, now) else st
    case Click => LoadMoreClick(st)
    case Submit => LoadMoreSubmit(st)
    case Threshold(input, now) => ChangeThreshold(st, input, now)
  }

  function Run(st: State, evs: seq<Event>): State
    decreases evs
  {
    if evs == [] then st else Run(Step(st, evs[0]), evs[1..])
  }

  /** No pass in progress, nothing queued, no re-run pending, and a threshold that
      `parseInt` could have produced from the input. */
  predicate Quiet(st: State) {
    !st.isFiltering && !st.filterQueued && st.reruns == [] && st.minStars >= 0
  }

  /** Every event keeps the state quiet. */
  lemma StepQuiet(st: State, ev: Event)
    requires Quiet(st)
    ensures Quiet(Step(st, ev))
  {
  }

  /** Every reachable state is quiet: the queue branch of the guard and the re-run timeout
      are dead code, and the threshold is never negative. */
  lemma {:induction false} ReachableQuiet(st: State, evs: seq<Event>)
    requires Quiet(st)
    ensures Quiet(Run(st, evs))
    decreases evs
  {
    if evs != [] {
      StepQuiet(st, evs[0]);
      ReachableQuiet(Step(st, evs[0]), evs[1..]);
    }
  }

  lemma InitQuiet()
    ensures Quiet(Init) && Init.runs == 0 && Init.timer.None?
  {
  }

  /** A pass starts exactly when no pass is running, and then nothing but the pass count
      (and, if a call was queued, the re-run list) changes; while a pass is running the
      call is only queued. */
  lemma GuardedSpec(st: State, now: int)
    ensures st.isFiltering ==> Guarded(st, now) == st.(filterQueued := true)
    ensures !st.isFiltering ==> Guarded(st, now).runs == st.runs + 1 && !Guarded(st, now).filterQueued
    ensures !st.isFiltering ==>
      Guarded(st, now).reruns == (if st.filterQueued then st.reruns + [now + RerunDelay] else st.reruns)
    ensures Guarded(st, now).timer == st.timer && Guarded(st, now).minStars == st.minStars
  {
  }

  /** Leading edge: on a quiet state, a call more than `Wait` after the last pass started
      runs a pass at once and records its time; the pending timer is left as it was. */
  lemma LeadingEdge(st: State, now: int)
    requires Quiet(st) && now - st.lastFilterTime > Wait
    ensures Debounced(st, now) == st.(lastFilterTime := now, runs := st.runs + 1)
  {
  }

  /** The calls of `debouncedFilter` at times `ts`, in order. */
  function Calls(st: State, ts: seq<int>): State
    decreases ts
  {
    if ts == [] then st else Calls(Debounced(st, ts[0]), ts[1..])
  }

  /** Trailing edge: calls that all come within `Wait` of the last pass run nothing; they
      collapse into one timer, due `Wait` after the last of them. */
  lemma {:induction false} BurstCoalesces(st: State, ts: seq<int>)
    requires forall k | 0 <= k < |ts| :: ts[k] - st.lastFilterTime <= Wait
    ensures Calls(st, ts) == if ts == [] then st else st.(timer := Some(ts[|ts| - 1] + Wait))
    decreases ts
  {
    if ts != [] {
      var next := Debounced(st, ts[0]);
      assert next == st.(timer := Some(ts[0] + Wait));
      BurstCoalesces(next, ts[1..]);
    }
  }

  /** A burst of calls on a quiet state, the first more than `Wait` after the last pass
      and the rest within `Wait` of the first, starts exactly one pass at once and leaves
      one timer, due `Wait` after the last call; when that timer fires, a second and last
      pass runs. */
  lemma Burst(st: State, first: int, rest: seq<int>, fire: int)
    requires Quiet(st) && first - st.lastFilterTime > Wait
    requires forall k | 0 <= k < |rest| :: rest[k] - first <= Wait
    ensures Calls(st, [first] + rest).runs == st.runs + 1
    ensures rest != [] ==> Calls(st, [first] + rest).timer == Some(rest[|rest| - 1] + Wait)
    ensures rest != [] ==> FireTimer(Calls(st, [first] + rest), fire).runs == st.runs + 2
    ensures rest != [] ==> Quiet(FireTimer(Calls(st, [first] + rest), fire))
    ensures rest != [] ==> FireTimer(Calls(st, [first] + rest), fire).timer.None?
    ensures rest == [] ==> Calls(st, [first] + rest).timer == st.timer
  {
    var lead := Debounced(st, first);
    LeadingEdge(st, first);
    assert ([first] + rest)[1..] == rest;
    BurstCoalesces(lead, rest);
  }

  /** The threshold changes exactly when the input parses to a non-negative integer, and
      then a debounced pass is requested with the new threshold; otherwise nothing
      changes. */
  lemma ChangeThresholdSpec(st: State, input: string, now: int)
    ensures ParseInt(input).Some? && ParseInt(input).value >= 0 ==>
      ChangeThreshold(st, input, now) == Debounced(st.(minStars := ParseInt(input).value), now)
    ensures ParseInt(input).None? || ParseInt(input).value < 0 ==>
      ChangeThreshold(st, input, now) == st
    ensures st.minStars >= 0 ==> ChangeThreshold(st, input, now).minStars >= 0
  {
  }
}
