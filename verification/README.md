# Discussion search box controller, in Dafny

This project models the controller logic of the `Search` component of the
discussions front end (`src/components/Search.jsx`). One search box serves
three pages. It is bound to one of three store slices: the thread search
query (`postSearch`), the topic filter (`topicSearch`) and the learner
username search (`learnerSearch`). Which slice is used depends on the current
page. The component also keeps a local draft (`searchValue`) and a ref that
holds the last committed query (`previousSearchValueRef`).

The model is an immutable `State` record with the fields `page`,
`postSearch`, `topicSearch`, `learnerSearch`, `prev` (the ref) and `draft`
(the local value). Every handler is a pure transition on it:

- `Change(s, q)` is `onChange`;
- `Submit(s, q)` is `onSubmit`;
- `Clear(s)` is `onClear`;
- `IconClick(s)` is `handleIconClick`;
- `PageChange(s, p)` is the effect on `[page]`: set the page, then clear.

`CurrentValue(s)` is the `currentValue` derivation. A store dispatch is a
`Dispatch(slice, text)` value, and `Apply` performs a sequence of them as
direct writes of the slice fields (`Write`). `Clear` applies the three
clearing dispatches (`ClearActions`); `Submit` applies `SubmitActions`, which
is empty when the submission is gated and otherwise holds at most one
dispatch. So the dispatch counts in the lemmas are the very writes the
transitions make. In an event trace, the effect on `[page]` fires only when
the page differs from the current one.

Files:

- `substring.dfy` (module `Substring`) models JavaScript's
  `String.prototype.includes`. It is proved equal to "some occurrence
  exists".
- `search.dfy` (module `SearchController`) holds the state, the handlers,
  both routing rules and the properties of single transitions.
- `trace.dfy` (module `SearchTrace`) holds event sequences and the
  invariant that holds after any page change.

The model follows the code in its quirks:

- **Two routing rules.** The display rule uses substring containment,
  `'topics'.includes(page)`. Any substring of "topics" selects the topic
  filter, including `""` and `"topic"`. Any other page that is not a post
  page displays `learnerSearch`, not an empty value. The submit rule instead
  matches `"topics"` and `"learners"` exactly and writes nothing on any other
  page. `TopicSearchPages` lists the 22 pages the substring rule accepts.
  `RoutingAgreesOnKnownPages` and `RoutingDisagreesOffKnownPages` show where
  the two rules agree and where they disagree.
- **`prev` moves on every submission that passes the gate.** This happens
  even on an unknown page, where no slice is written. So after submitting
  `"x"` on an unknown page, `prev` is `"x"`. One might expect an unrouted
  submission to leave `prev` alone; the code does not, and neither does the
  model.
- **Clearing leaves the draft alone.** `onClear` resets the three slices and
  the ref but never calls `setSearchValue`. The draft therefore survives
  both a clear and a page change.

As long as this component is the only writer of the three slices and its
handlers are current (see "Left out" on stale closures), the substring
quirk cannot be seen in states reached from a page change.
`SearchTrace.Consistent` says that only the slice the current page submits
to can hold text, and that this text equals `prev`. The page-change effect
establishes it, and every modelled event preserves it. So after
any page change followed by any of these events, the box shows `prev` on
the four known pages and `""` everywhere else (`DisplayAfterPageChange`).
The slices live in a shared store, and a write from elsewhere in the
application is not one of the modelled events (see "Left out").

## Model

| member | source | states |
|---|---|---|
| `Substring.Includes` | src/components/Search.jsx:26 | `haystack.includes(needle)` holds exactly when `needle` occurs as a contiguous run inside `haystack`; the empty needle occurs everywhere |
| `SearchController.TopicSearchPages` | src/components/Search.jsx:26 | the topic test `'topics'.includes(page)` accepts exactly the 22 substrings of "topics", among them `""` and `"topic"` |
| `SearchController.Write` | src/components/Search.jsx:55-60 | one dispatch writes its slice, which reads back the query; the other two slices, the page, `prev` and the draft are unchanged |
| `SearchController.CurrentValueRouting` | src/components/Search.jsx:25-37 | the box shows `postSearch` on "posts"/"my-posts"; otherwise `topicSearch` when the page occurs inside "topics"; otherwise `learnerSearch` |
| `SearchController.RoutingAgreesOnKnownPages` | src/components/Search.jsx:25-60 | a submission has a target exactly on "posts", "my-posts", "topics" and "learners", and on those pages the displayed slice is that target |
| `SearchController.RoutingDisagreesOffKnownPages` | src/components/Search.jsx:25-60 | on every page without a submit target, the box shows the topic filter when the page is a substring of "topics" (e.g. "topic", "") and the learner search otherwise (e.g. "unknown-page"), while a submission goes nowhere |
| `SearchController.Apply` | src/components/Search.jsx:39-61 | dispatches reach the store in order: a slice no dispatch names keeps its value, a slice ends with the text of the last dispatch naming it, and page, `prev` and draft are untouched |
| `SearchController.SubmitDispatchesOnce` | src/components/Search.jsx:50-61 | a submission dispatches at most once; exactly once when the query is non-empty, differs from `prev` and the page has a submit target; that dispatch carries the query to the target slice |
| `SearchController.SubmitWritesAreItsDispatches` | src/components/Search.jsx:50-62 | a submission with no dispatch leaves every slice as it was; one with a dispatch leaves the query in the target slice |
| `SearchController.SubmitEmptyIsNoop` | src/components/Search.jsx:50-53 | submitting `""` leaves the whole state (slices, `prev`, draft, page) unchanged and dispatches nothing |
| `SearchController.SubmitRepeatIsNoop` | src/components/Search.jsx:51-53 | submitting the last committed query leaves the whole state unchanged and dispatches nothing |
| `SearchController.SubmitCommits` | src/components/Search.jsx:55-62 | a fresh non-empty submission puts the query in the target slice and in `prev`; all other slices, the page and the draft keep their values; on an unknown page only `prev` changes |
| `SearchController.SubmitRoutesByPage` | src/components/Search.jsx:55-62 | page by page: posts/my-posts write only `postSearch`, topics only `topicSearch`, learners only `learnerSearch`, any other page only `prev` |
| `SearchController.SubmitIdempotent` | src/components/Search.jsx:50-62 | submitting the same query twice equals submitting it once, and the second submission dispatches nothing |
| `SearchController.SubmitIsDisplayed` | src/components/Search.jsx:30-62 | on the four known pages, after a non-empty submission the box shows the query (or is unchanged if the query repeats `prev`) |
| `SearchController.ClearEmptiesEverything` | src/components/Search.jsx:39-44 | clearing empties all three slices and `prev`, so the box shows `""`; the page and the draft are unchanged |
| `SearchController.ClearIdempotent` | src/components/Search.jsx:39-44 | clearing twice equals clearing once, and the cleared state does not depend on the slices or `prev` it started from |
| `SearchController.PageChangeForgets` | src/components/Search.jsx:70 | after a page change the page is the new one, every slice and `prev` are empty, the box shows `""` and the draft is kept |
| `SearchController.ChangeTouchesOnlyDraft` | src/components/Search.jsx:46-48 | typing sets the draft and changes no slice, not `prev`, not the page and not the displayed value; the latest text typed wins |
| `SearchController.IconClickSubmitsDraft` | src/components/Search.jsx:65-68 | clicking the icon after typing `q` is submitting `q`; the click leaves the draft as it was |
| `SearchTrace.StepWritesAreItsDispatches` | src/components/Search.jsx:39-70 | after any event the slices are exactly what its dispatches leave behind; typing dispatches nothing, clearing three times, a submission or icon click at most once |
| `SearchTrace.SamePageIsNoop` | src/components/Search.jsx:70 | the effect on `[page]` does not fire when the page stays the same: the state is unchanged and nothing is dispatched |
| `SearchTrace.PageChangeEstablishes` | src/components/Search.jsx:70 | the page-change effect, which also runs on mount, leaves a consistent state: only the routed slice may hold text, and that text is `prev` |
| `SearchTrace.StepPreserves` | src/components/Search.jsx:39-70 | each of typing, submitting, clearing, icon click and page change keeps a consistent state consistent |
| `SearchTrace.RunPreserves` | src/components/Search.jsx:39-70 | any sequence of events keeps a consistent state consistent |
| `SearchTrace.ConsistentDisplay` | src/components/Search.jsx:30-62 | in a consistent state the box shows `prev` on the four known pages and `""` on every other page |
| `SearchTrace.DisplayAfterPageChange` | src/components/Search.jsx:30-70 | after a page change and any later events, the box shows `prev` on a known page and `""` elsewhere, so no earlier page's query ever shows |
| `SearchTrace.TypingTouchesOnlyDraft` | src/components/Search.jsx:46-48 | any number of keystrokes leave every slice, `prev` and the page unchanged, dispatch nothing, and leave the last text typed as the draft |
| `SearchTrace.RepeatedSubmitOnce` | src/components/Search.jsx:50-62 | submitting the same query `n >= 1` times in a row ends where one submission ends and dispatches at most once in all |
| `SearchTrace.RepeatedSubmitAgain` | src/components/Search.jsx:50-53 | once a query is `prev` (or is empty), submitting it any number of times changes nothing and dispatches nothing |

## Left out

- Rendering: the `SearchField` and `Icon` widgets, styling, and the placeholder built with `intl.formatMessage` and `camelCase` (lines 72-92). This is presentation, and the library code is not part of this model.
- The Redux store: `useSelector`, `dispatch` and the action creators `setSearchQuery`, `setTopicFilter` and `setUsernameSearch`. They are modelled as direct reads and writes of the three slice fields, because the reducers are not part of this model.
- `useCurrentPage`: the page is a plain field of the state, set only by `PageChange`.
- React scheduling: `useMemo` leaves `page` out of its dependency list (line 37), so a page change alone could show a stale memoised value. `handleIconClick` closes over an `onSubmit` that may be stale (deps `[searchValue]` only, line 68). Effects run after render. The model recomputes `CurrentValue` from the current state and always uses the current handlers. `SearchTrace.Consistent`, `ConsistentDisplay` and `DisplayAfterPageChange` hold only for current handlers. In the component, an icon click after a page change with no new keystroke runs the previous page's `onSubmit`. It then writes the old page's slice and moves `prev`. For example: type "alice" on "learners", change to "posts", click the icon. Now `learnerSearch` and `prev` are "alice" on "posts", the box shows "", and an enter-submit of "alice" there is gated.
- `e.preventDefault()` (line 66): a DOM side effect with no bearing on the state.
- Strings are sequences of Dafny `char`. JavaScript's UTF-16 code units are not modelled separately. The controller compares and copies strings and searches for the page inside the literal "topics"; all of "topics" is ASCII, so code units and `char`s agree on that search.
- Other writers of the store: the three slices are shared application state, and other parts of the application may dispatch to them. The model assumes this component is their only writer. `SearchTrace.Consistent`, `ConsistentDisplay` and `DisplayAfterPageChange` hold under that assumption; after an outside write the box can show a value other than `prev`, and a resubmission of `prev` is still gated.
