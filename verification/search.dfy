/** The discussion search box controller (`Search` component).

    The component reads the current page and three store slices, keeps a
    local draft of what is being typed and a ref holding the last committed
    query, and reacts to five events: typing, submitting, clearing, clicking
    the search icon, and a change of page. Store dispatches are modelled as
    direct writes of the slice fields, so every event is a pure transition
    from one `State` to the next. */
module SearchController {
  import opened Substring

  datatype Option<T> = None | Some(value: T)

  /** The three store slices the search box can be bound to: the thread
      search query, the topic filter and the learner username search. */
  datatype Slice = PostSlice | TopicSlice | LearnerSlice

  /** Everything the controller reads or writes.
      - `page`: the current page name reported by the router;
      - `postSearch`, `topicSearch`, `learnerSearch`: the three store slices;
      - `prev`: the ref holding the last committed query;
      - `draft`: the local `searchValue` the user is typing. */
  datatype State = State(
    page: string,
    postSearch: string,
    topicSearch: string,
    learnerSearch: string,
    prev: string,
    draft: string)

  /** Reads one store slice. */
  function Read(s: State, k: Slice): string {
    match k
    case PostSlice => s.postSearch
    case TopicSlice => s.topicSearch
    case LearnerSlice => s.learnerSearch
  }

  /** One store dispatch: writes `q` into slice `k`. It is read back from
      `k`, and nothing else in the state changes. */
  function Write(s: State, k: Slice, q: string): (r: State)
    ensures Read(r, k) == q
    ensures forall j :: j != k ==> Read(r, j) == Read(s, j)
    ensures r.page == s.page && r.prev == s.prev && r.draft == s.draft
  {
    match k
    case PostSlice => s.(postSearch := q)
    case TopicSlice => s.(topicSearch := q)
    case LearnerSlice => s.(learnerSearch := q)
  }

  /** A store action the controller dispatches: `setSearchQuery`,
      `setTopicFilter` or `setUsernameSearch`, each carrying the new text. */
  datatype Dispatch = Dispatch(slice: Slice, query: string)

  /** Dispatches reach the store in order. A slice no dispatch names keeps
      its value; a slice ends with the text of the last dispatch naming it.
      Only the store changes: page, `prev` and draft are untouched. */
  function Apply(s: State, ds: seq<Dispatch>): (r: State)
    ensures r.page == s.page && r.prev == s.prev && r.draft == s.draft
    ensures forall k :: (forall i :: 0 <= i < |ds| ==> ds[i].slice != k) ==> Read(r, k) == Read(s, k)
    ensures forall i :: 0 <= i < |ds| && (forall j :: i < j < |ds| ==> ds[j].slice != ds[i].slice)
                        ==> Read(r, ds[i].slice) == ds[i].query
    decreases |ds|
  {
    if |ds| == 0 then s
    else
      var t := Apply(Write(s, ds[0].slice, ds[0].query), ds[1..]);
      assert forall i :: 0 < i < |ds| ==> ds[1..][i - 1] == ds[i];
      t
  }

  /** A single dispatch is a single write. */
  lemma ApplySingle(s: State, d: Dispatch)
    ensures Apply(s, [d]) == Write(s, d.slice, d.query)
  {
  }

  /** `['posts', 'my-posts'].includes(page)`: exact membership. */
  predicate IsPostSearch(page: string) {
    page in ["posts", "my-posts"]
  }

  /** `'topics'.includes(page)`: true when `page` is a SUBSTRING of
      "topics", so also for "", "topic", "s", and so on. */
  predicate IsTopicSearch(page: string) {
    Includes("topics", page)
  }

  /** The slice whose value the search box displays on `page`. Anything that
      is neither a post page nor a substring of "topics" falls back to the
      learner slice. */
  function DisplayedSlice(page: string): Slice {
    if IsPostSearch(page) then PostSlice
    else if IsTopicSearch(page) then TopicSlice
    else LearnerSlice
  }

  /** `currentValue`: the text the search box shows. */
  function CurrentValue(s: State): string {
    Read(s, DisplayedSlice(s.page))
  }

  /** The slice a submission on `page` is dispatched to. Unlike the display
      rule, topics and learners are matched exactly, and any other page has
      no target at all. */
  function SubmitTarget(page: string): Option<Slice> {
    if IsPostSearch(page) then Some(PostSlice)
    else if page == "topics" then Some(TopicSlice)
    else if page == "learners" then Some(LearnerSlice)
    else None
  }

  /** The three dispatches of `onClear`, one per slice, each with "". */
  const ClearActions: seq<Dispatch> :=
    [Dispatch(PostSlice, ""), Dispatch(TopicSlice, ""), Dispatch(LearnerSlice, "")]

  /** `onClear`: dispatches the clearing actions, then resets the ref. */
  function Clear(s: State): State {
    Apply(s, ClearActions).(prev := "")
  }

  /** `onChange`: only the local draft follows the keystrokes. */
  function Change(s: State, q: string): State {
    s.(draft := q)
  }

  /** The early return of `onSubmit`: an empty query, or a repeat of the
      last committed one. */
  predicate Gated(s: State, q: string) {
    q == "" || q == s.prev
  }

  /** The dispatches `onSubmit(q)` performs in state `s`: none when gated,
      otherwise one to the page's submit target, if it has one. */
  function SubmitActions(s: State, q: string): seq<Dispatch> {
    if Gated(s, q) then []
    else match SubmitTarget(s.page)
      case Some(k) => [Dispatch(k, q)]
      case None => []
  }

  /** `onSubmit`: when not gated, the dispatches reach the store and the
      query becomes the last committed one, whether or not it was routed. */
  function Submit(s: State, q: string): State {
    if Gated(s, q) then s else Apply(s, SubmitActions(s, q)).(prev := q)
  }

  /** `handleIconClick`: submits whatever is in the draft. */
  function IconClick(s: State): State {
    Submit(s, s.draft)
  }

  /** The effect on `[page]`: the page is replaced, then `onClear` runs. */
  function PageChange(s: State, p: string): State {
    Clear(s.(page := p))
  }

  // ---------------------------------------------------------------------
  // Routing

  /** The pages for which `'topics'.includes(page)` holds: every substring
      of "topics", including the empty page name. */
  const TopicSubstrings: set<string> := {
    "",
    "t", "o", "p", "i", "c", "s",
    "to", "op", "pi", "ic", "cs",
    "top", "opi", "pic", "ics",
    "topi", "opic", "pics",
    "topic", "opics",
    "topics"
  }

  /** Every run of characters in "topics" is one of the listed pages. */
  lemma TopicSlicesListed(i: int, n: int)
    requires 0 <= i && 0 <= n && i + n <= 6
    ensures "topics"[i..i + n] in TopicSubstrings
  {
    var t := "topics";
    assert t[0] == 't' && t[1] == 'o' && t[2] == 'p' && t[3] == 'i' && t[4] == 'c' && t[5] == 's';
    if n == 0 {
      assert t[i..i + n] == "";
    } else if i == 0 {
      if n == 1 {
        assert t[i..i + n] == "t";
      } else if n == 2 {
        assert t[i..i + n] == "to";
      } else if n == 3 {
        assert t[i..i + n] == "top";
      } else if n == 4 {
        assert t[i..i + n] == "topi";
      } else if n == 5 {
        assert t[i..i + n] == "topic";
      } else if n == 6 {
        assert t[i..i + n] == "topics";
      }
    } else if i == 1 {
      if n == 1 {
        assert t[i..i + n] == "o";
      } else if n == 2 {
        assert t[i..i + n] == "op";
      } else if n == 3 {
        assert t[i..i + n] == "opi";
      } else if n == 4 {
        assert t[i..i + n] == "opic";
      } else if n == 5 {
        assert t[i..i + n] == "opics";
      }
    } else if i == 2 {
      if n == 1 {
        assert t[i..i + n] == "p";
      } else if n == 2 {
        assert t[i..i + n] == "pi";
      } else if n == 3 {
        assert t[i..i + n] == "pic";
      } else if n == 4 {
        assert t[i..i + n] == "pics";
      }
    } else if i == 3 {
      if n == 1 {
        assert t[i..i + n] == "i";
      } else if n == 2 {
        assert t[i..i + n] == "ic";
      } else if n == 3 {
        assert t[i..i + n] == "ics";
      }
    } else if i == 4 {
      if n == 1 {
        assert t[i..i + n] == "c";
      } else if n == 2 {
        assert t[i..i + n] == "cs";
      }
    } else if i == 5 {
      if n == 1 {
        assert t[i..i + n] == "s";
      }
    }
  }

  /** The topic display test selects exactly the 22 substrings of "topics". */
  lemma TopicSearchPages(page: string)
    ensures IsTopicSearch(page) <==> page in TopicSubstrings
  {
    var t := "topics";
    if IsTopicSearch(page) {
      var i :| OccursAt(t, page, i);
      TopicSlicesListed(i, |page|);
    } else {
      assert OccursAt(t, "", 0);
      assert OccursAt(t, "t", 0);
      assert OccursAt(t, "o", 1);
      assert OccursAt(t, "p", 2);
      assert OccursAt(t, "i", 3);
      assert OccursAt(t, "c", 4);
      assert OccursAt(t, "s", 5);
      assert OccursAt(t, "to", 0);
      assert OccursAt(t, "op", 1);
      assert OccursAt(t, "pi", 2);
      assert OccursAt(t, "ic", 3);
      assert OccursAt(t, "cs", 4);
      assert OccursAt(t, "top", 0);
      assert OccursAt(t, "opi", 1);
      assert OccursAt(t, "pic", 2);
      assert OccursAt(t, "ics", 3);
      assert OccursAt(t, "topi", 0);
      assert OccursAt(t, "opic", 1);
      assert OccursAt(t, "pics", 2);
      assert OccursAt(t, "topic", 0);
      assert OccursAt(t, "opics", 1);
      assert OccursAt(t, "topics", 0);
    }
  }

  /** `currentValue` picks the post slice on the post pages, otherwise the
      topic slice on any substring of "topics", otherwise the learner slice. */
  lemma CurrentValueRouting(s: State)
    ensures s.page == "posts" || s.page == "my-posts" ==> CurrentValue(s) == s.postSearch
    ensures s.page != "posts" && s.page != "my-posts" && (exists i :: OccursAt("topics", s.page, i))
            ==> CurrentValue(s) == s.topicSearch
    ensures s.page != "posts" && s.page != "my-posts" && !(exists i :: OccursAt("topics", s.page, i))
            ==> CurrentValue(s) == s.learnerSearch
  {
  }

  /** On the four pages that have a submit target, the displayed slice is
      that target, so the two routing rules agree there. */
  lemma RoutingAgreesOnKnownPages(page: string)
    ensures SubmitTarget(page).Some? ==> DisplayedSlice(page) == SubmitTarget(page).value
    ensures SubmitTarget(page).Some? <==> page in {"posts", "my-posts", "topics", "learners"}
  {
  }

  /** The two routing rules disagree on every page without a submit target:
      the box displays the topic filter on the substrings of "topics" (such
      as "topic" and "") and the learner search on every other page, yet a
      submission there is dispatched nowhere. */
  lemma RoutingDisagreesOffKnownPages(page: string)
    ensures SubmitTarget(page).None? ==>
              DisplayedSlice(page) == if page in TopicSubstrings then TopicSlice else LearnerSlice
    ensures DisplayedSlice("topic") == TopicSlice && SubmitTarget("topic") == None
    ensures DisplayedSlice("") == TopicSlice && SubmitTarget("") == None
    ensures DisplayedSlice("unknown-page") == LearnerSlice && SubmitTarget("unknown-page") == None
  {
    TopicSearchPages(page);
  }

  // ---------------------------------------------------------------------
  // Submit

  /** The empty-submit gate: `onSubmit('')` changes nothing at all. */
  lemma SubmitEmptyIsNoop(s: State)
    ensures Submit(s, "") == s
    ensures SubmitActions(s, "") == []
  {
  }

  /** The duplicate-submit gate: resubmitting the last committed query
      changes nothing at all. */
  lemma SubmitRepeatIsNoop(s: State, q: string)
    requires q == s.prev
    ensures Submit(s, q) == s
    ensures SubmitActions(s, q) == []
  {
  }

  /** A fresh, non-empty submission writes `q` into the page's target slice
      and into `prev`; every other slice, the page and the draft keep their
      values. On an unknown page no slice is written, but `prev` still
      becomes `q`. */
  lemma SubmitCommits(s: State, q: string)
    requires q != "" && q != s.prev
    ensures Submit(s, q).prev == q
    ensures Submit(s, q).page == s.page && Submit(s, q).draft == s.draft
    ensures forall k :: Read(Submit(s, q), k) ==
                        if SubmitTarget(s.page) == Some(k) then q else Read(s, k)
  {
  }

  /** The routing table for fresh submissions, page by page. */
  lemma SubmitRoutesByPage(s: State, q: string)
    requires q != "" && q != s.prev
    ensures s.page == "posts" || s.page == "my-posts" ==>
              Submit(s, q) == s.(postSearch := q, prev := q)
    ensures s.page == "topics" ==> Submit(s, q) == s.(topicSearch := q, prev := q)
    ensures s.page == "learners" ==> Submit(s, q) == s.(learnerSearch := q, prev := q)
    ensures s.page !in {"posts", "my-posts", "topics", "learners"} ==>
              Submit(s, q) == s.(prev := q)
  {
    if SubmitTarget(s.page).Some? {
      ApplySingle(s, Dispatch(SubmitTarget(s.page).value, q));
    }
  }

  /** Submitting the same query twice in a row is the same as submitting it
      once, and the second submission dispatches nothing. */
  lemma SubmitIdempotent(s: State, q: string)
    ensures Submit(Submit(s, q), q) == Submit(s, q)
    ensures SubmitActions(Submit(s, q), q) == []
  {
  }

  /** A submission dispatches at most once, exactly when it passes both
      gates on a page with a submit target, and that dispatch carries the
      query to the target slice. */
  lemma SubmitDispatchesOnce(s: State, q: string)
    ensures |SubmitActions(s, q)| <= 1
    ensures |SubmitActions(s, q)| == 1 <==> q != "" && q != s.prev && SubmitTarget(s.page).Some?
    ensures |SubmitActions(s, q)| == 1 ==>
              SubmitActions(s, q)[0] == Dispatch(SubmitTarget(s.page).value, q)
  {
  }

  /** The dispatches are the only store writes of a submission: with none,
      every slice keeps its value; with one, its slice then holds the query. */
  lemma SubmitWritesAreItsDispatches(s: State, q: string)
    ensures |SubmitActions(s, q)| == 0 ==> forall k :: Read(Submit(s, q), k) == Read(s, k)
    ensures |SubmitActions(s, q)| == 1 ==>
              Read(Submit(s, q), SubmitTarget(s.page).value) == q
  {
  }

  /** On the four known pages a fresh, non-empty submission is what the box
      then displays. */
  lemma SubmitIsDisplayed(s: State, q: string)
    requires q != ""
    requires s.page in {"posts", "my-posts", "topics", "learners"}
    ensures CurrentValue(Submit(s, q)) == if q == s.prev then CurrentValue(s) else q
  {
  }

  // ---------------------------------------------------------------------
  // Clear, page change, typing, icon click

  /** `onClear` empties every slice and `prev`, so the box shows "" on any
      page; the page and the draft are left alone. */
  lemma ClearEmptiesEverything(s: State)
    ensures forall k :: Read(Clear(s), k) == ""
    ensures Clear(s).prev == "" && CurrentValue(Clear(s)) == ""
    ensures Clear(s).page == s.page && Clear(s).draft == s.draft
  {
  }

  /** Clearing twice is clearing once, and what clearing leaves behind does
      not depend on the slices or `prev` it started from. */
  lemma ClearIdempotent(s: State, t: State)
    ensures Clear(Clear(s)) == Clear(s)
    ensures s.page == t.page && s.draft == t.draft ==> Clear(s) == Clear(t)
  {
  }

  /** A page change lands on the new page with every slice and `prev` empty,
      so nothing typed or committed on the old page shows on the new one.
      The draft survives the page change. */
  lemma PageChangeForgets(s: State, p: string)
    ensures PageChange(s, p).page == p
    ensures forall k :: Read(PageChange(s, p), k) == ""
    ensures PageChange(s, p).prev == "" && CurrentValue(PageChange(s, p)) == ""
    ensures PageChange(s, p).draft == s.draft
  {
  }

  /** Typing changes the draft and nothing else: no slice, not `prev`, not
      the page, and so not the displayed value. The latest keystroke wins. */
  lemma ChangeTouchesOnlyDraft(s: State, q: string, q': string)
    ensures Change(s, q).draft == q
    ensures forall k :: Read(Change(s, q), k) == Read(s, k)
    ensures Change(s, q).prev == s.prev && Change(s, q).page == s.page
    ensures CurrentValue(Change(s, q)) == CurrentValue(s)
    ensures Change(Change(s, q), q') == Change(s, q')
  {
  }

  /** Clicking the icon after typing `q` submits `q`, with the draft kept. */
  lemma IconClickSubmitsDraft(s: State, q: string)
    ensures IconClick(Change(s, q)) == Change(Submit(s, q), q)
    ensures IconClick(s).draft == s.draft
  {
    if !Gated(s, q) && SubmitTarget(s.page).Some? {
      var d := Dispatch(SubmitTarget(s.page).value, q);
      ApplySingle(s, d);
      ApplySingle(Change(s, q), d);
    }
  }
}
