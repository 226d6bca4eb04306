/** Sequences of user and navigation events fed to the search controller,
    and the invariant every state reached after a page change keeps. */
module SearchTrace {
  import opened SearchController

  /** The events the search box reacts to. */
  datatype Event =
    | Typed(text: string)          // onChange
    | Submitted(query: string)     // onSubmit
    | Cleared                      // onClear
    | IconClicked                  // handleIconClick
    | PageChanged(page: string)    // the effect on [page]

  /** One event, one transition. The effect on `[page]` fires only when the
      page actually differs from the current one; its firing on mount is
      the `PageChange` a trace starts from. */
  function Step(s: State, e: Event): State {
    match e
    case Typed(q) => Change(s, q)
    case Submitted(q) => Submit(s, q)
    case Cleared => Clear(s)
    case IconClicked => IconClick(s)
    case PageChanged(p) => if p == s.page then s else PageChange(s, p)
  }

  /** The store dispatches one event performs, in order. */
  function StepActions(s: State, e: Event): seq<Dispatch> {
    match e
    case Typed(_) => []
    case Submitted(q) => SubmitActions(s, q)
    case Cleared => ClearActions
    case IconClicked => SubmitActions(s, s.draft)
    case PageChanged(p) => if p == s.page then [] else ClearActions
  }

  /** Number of store dispatches one event performs. */
  function Dispatches(s: State, e: Event): nat {
    |StepActions(s, e)|
  }

  /** Every change an event makes to the store is one of its dispatches:
      the slices after the event are those the dispatches leave behind. */
  lemma StepWritesAreItsDispatches(s: State, e: Event)
    ensures forall k :: Read(Step(s, e), k) == Read(Apply(s, StepActions(s, e)), k)
    ensures e.Typed? ==> Dispatches(s, e) == 0
    ensures e.Cleared? ==> Dispatches(s, e) == 3
    ensures e.Submitted? || e.IconClicked? ==> Dispatches(s, e) <= 1
  {
  }

  /** The events applied in order. */
  function Run(s: State, es: seq<Event>): State
    decreases |es|
  {
    if |es| == 0 then s else Run(Step(s, es[0]), es[1..])
  }

  /** Total number of store dispatches the events perform, in order. */
  function RunDispatches(s: State, es: seq<Event>): nat
    decreases |es|
  {
    if |es| == 0 then 0 else Dispatches(s, es[0]) + RunDispatches(Step(s, es[0]), es[1..])
  }

  /** The same event `n` times. */
  function Repeat(e: Event, n: nat): (es: seq<Event>)
    ensures |es| == n
    ensures forall i :: 0 <= i < n ==> es[i] == e
  {
    if n == 0 then [] else [e] + Repeat(e, n - 1)
  }

  /** Re-announcing the current page fires no effect: nothing changes and
      nothing is dispatched. */
  lemma SamePageIsNoop(s: State)
    ensures Step(s, PageChanged(s.page)) == s
    ensures Dispatches(s, PageChanged(s.page)) == 0
  {
  }

  /** Only the slice a submission on the current page is routed to may hold
      text, and that text is the last committed query. */
  ghost predicate Consistent(s: State) {
    && (forall k :: SubmitTarget(s.page) != Some(k) ==> Read(s, k) == "")
    && (SubmitTarget(s.page).Some? ==> Read(s, SubmitTarget(s.page).value) == s.prev)
  }

  /** The page-change effect (which also runs on mount) makes any state
      consistent. */
  lemma PageChangeEstablishes(s: State, p: string)
    ensures Consistent(PageChange(s, p))
  {
  }

  /** Every event keeps a consistent state consistent. */
  lemma StepPreserves(s: State, e: Event)
    requires Consistent(s)
    ensures Consistent(Step(s, e))
  {
  }

  /** Any sequence of events keeps a consistent state consistent. */
  lemma {:induction false} RunPreserves(s: State, es: seq<Event>)
    requires Consistent(s)
    ensures Consistent(Run(s, es))
    decreases |es|
  {
    if |es| > 0 {
      StepPreserves(s, es[0]);
      RunPreserves(Step(s, es[0]), es[1..]);
    }
  }

  /** In a consistent state the box shows the last committed query on the
      four known pages and "" on every other page, whatever the
      substring rule for topics would pick. */
  lemma ConsistentDisplay(s: State)
    requires Consistent(s)
    ensures CurrentValue(s) == if SubmitTarget(s.page).Some? then s.prev else ""
  {
  }

  /** After the page-change effect, whatever events follow, the box shows
      either the last committed query (on a known page) or "" (elsewhere):
      no query from an earlier page and no stale slice ever shows. */
  lemma DisplayAfterPageChange(s: State, p: string, es: seq<Event>)
    ensures var r := Run(PageChange(s, p), es);
            CurrentValue(r) == if SubmitTarget(r.page).Some? then r.prev else ""
  {
    PageChangeEstablishes(s, p);
    RunPreserves(PageChange(s, p), es);
    ConsistentDisplay(Run(PageChange(s, p), es));
  }

  /** Typing any number of times leaves every slice, `prev` and the page as
      they were; the draft ends as the last text typed. */
  lemma {:induction false} TypingTouchesOnlyDraft(s: State, es: seq<Event>)
    requires forall i :: 0 <= i < |es| ==> es[i].Typed?
    ensures forall k :: Read(Run(s, es), k) == Read(s, k)
    ensures Run(s, es).prev == s.prev && Run(s, es).page == s.page
    ensures Run(s, es).draft == if |es| == 0 then s.draft else es[|es| - 1].text
    ensures RunDispatches(s, es) == 0
    decreases |es|
  {
    if |es| > 0 {
      ChangeTouchesOnlyDraft(s, es[0].text, es[0].text);
      TypingTouchesOnlyDraft(Step(s, es[0]), es[1..]);
    }
  }

  /** Submitting the same query `n >= 1` times in a row ends where one
      submission ends, and dispatches at most once in all. */
  lemma {:induction false} RepeatedSubmitOnce(s: State, q: string, n: nat)
    requires n >= 1
    ensures Run(s, Repeat(Submitted(q), n)) == Submit(s, q)
    ensures RunDispatches(s, Repeat(Submitted(q), n)) == |SubmitActions(s, q)|
    ensures RunDispatches(s, Repeat(Submitted(q), n)) <= 1
    decreases n
  {
    var es := Repeat(Submitted(q), n);
    assert es[1..] == Repeat(Submitted(q), n - 1);
    if n > 1 {
      RepeatedSubmitAgain(Submit(s, q), q, n - 1);
    }
  }

  /** Once `q` is committed or ignored, further submissions of `q` do
      nothing. */
  lemma {:induction false} RepeatedSubmitAgain(s: State, q: string, n: nat)
    requires q == "" || q == s.prev
    ensures Run(s, Repeat(Submitted(q), n)) == s
    ensures RunDispatches(s, Repeat(Submitted(q), n)) == 0
    decreases n
  {
    if n > 0 {
      var es := Repeat(Submitted(q), n);
      assert es[1..] == Repeat(Submitted(q), n - 1);
      RepeatedSubmitAgain(s, q, n - 1);
    }
  }
}
