# OpenOKR: verified models of its hardest logic

This project models, in Dafny, the parts of OpenOKR whose correctness spans several
functions or a whole run, and proves what they are for. Functions and lemmas stand for
code made of expressions and recursion; classes and loops stand for code that changes
things step by step, each tied by its `ensures` to a function whose properties are
proved beside it.

`dafny verify dfyconfig.toml` checks everything. `Text.dfy` holds the string helpers of
the host language that the modelled code leans on (trimming, splitting, joining,
decimal numerals).

## What is modelled

**The message recombiner** (`scripts/recombine-messages.ts`, with the translator it
writes for, `packages/ui/src/i18n/catalogue.ts`). The script fuses runs of JSX children
into one catalogue entry with named holes, splices the source and retires the old keys.

- `Messages` is the translator: how a message parses into characters and holes, what a
  term hole reads in a catalogue and a workspace (`packages/ui/src/i18n/terms.ts`), and
  when `translate` throws. `Sentences`, `Rendering`, `Layout` and `SameScreen` compare
  what one run showed before it was rewritten with what its new entry shows.
  `SameChildren` does so for a whole list of children, with the runs replaced and
  everything else left where it is, and `SameScript` for every list of every file under
  the catalogues a run of the script leaves behind. In either language the list reads
  as it did, whitespace collapsed, for all values, renamed terms and other children,
  if and only if no term the list's messages name has had its own entry taken out, and
  four things hold of each run in it: no value or term hole comes directly behind a
  dollar sign; no value's last identifier spells a term hole; no JSX text in it holds a
  character reference; and whitespace it begins or ends with has whitespace beside it
  (`SameListExactly`, `ScriptKeepsTheScreen`). `LostTerm` runs the script over a page
  where the first of these fails.
- `JsxTree`, `RunScanner` and `Runs` are the tree and the scan: the runs are exactly the
  maximal barrier-free stretches, stripped, that hold a message and a value, and their
  spans are disjoint over the whole tree. `ChildLists` shows that what belongs to no run
  is left as it is. `HoleNaming` keeps hole names apart,
  `Rewrites` reads one run, and `Splice` shows that splicing from the right is replacing
  every span at once.
- `Recombiner` and `Script` are the run over all files: new keys never collide, the two
  languages keep equal key sets, quoted keys keep their entries, and every rewrite's
  entry survives to the end.

**Board presence** (`apps/web/lib/board-presence.ts`, `packages/core/src/tasks/presence.ts`).
`PresenceRoster` and `BoardPresence` are one board; `PresenceProtocol` and
`PresenceSafety` are any number of boards that subscribe, announce, answer, beat, close
and unsubscribe, with delivery in any order that keeps each sender's own. Handling stops
after a number of deliveries the state bounds, and once the channel is quiet every open
board knows exactly the other open boards.

**Goal tables** (`apps/web/app/goal-nodes.ts`): `GoalForest`, `GoalRows`, `GoalTable`.
A parent-pointer list becomes rows in preorder; which goals appear, how often, how deep
and in what order is proved for every list with unique ids, cycles included.

**Inbound channel requests** (`apps/web/lib/channel-inbound.ts` and the checks in
`packages/core/src/channels/inbound.ts`): `InboundDoor`. The early returns are proved to
follow one ordered table of steps; on that table rest the ordering, counting and
indistinguishable-refusal results. `MessageLog` adds the log that tells a repeated
delivery from a new one and the daily sweep that deletes its old rows
(`packages/core/src/channels/retention.ts`): a delivery is routed again exactly when a
sweep has deleted its row, and at most once between two such sweeps.

**Timed and interleaved clients**: `FeedLive`, `ReviewBadge`, `UpdateCheck`,
`FlakyReporter` and `Scheduler`, each a class or method with its runs as a state machine.

**Gates and lookups**: `DocsReach` (documentation reachability), `MarkdownTables`
(reading a column and comparing lists), `LicenceList` (the folded licence list),
`Commands` (which command the words name) and `Navigation` (the active menu item).

## Where the code and its documentation part ways

The models follow the code.

- `scripts/recombine-messages.ts:10-14` says a run with anything unreadable in it is left
  alone and reported. `readable` can never become false, so nothing is ever reported
  (`RunScanner.Scan`). The same header says a message that already carries values is left
  alone; the scan takes such a call as a value and combines around it.
- A combined list does not always read as it did. An entry ending in `$` before a value
  hides the value's hole (`Rewrites.DollarRunIsUnsafe`); a value whose last identifier
  spells a term hole, such as `termObjective`, makes `translate` throw
  (`Rewrites.TermNamedRunIsUnsafe`); a character reference such as `&middot;` in JSX text
  is entered as it is written, where the compiler showed the character
  (`Rewrites.ReferenceRunIsUnsafe`); and `.trim()` takes the last space off
  `{t("s")}{n} / <b>` (`SameChildren.TrailingSpaceShows`). A value of `false` or `null`
  shows nothing between children and is spelled by the message
  (`SameChildren.SameValuesExactly`). `SameChildren.SameListExactly` gives the exact
  condition.
- `scripts/recombine-messages.ts:457` says that a retired key something else still
  renders stays. Only the files the script rewrites are looked at: not
  `apps/web/lib/*.tsx`, and not `packages/ui/src/i18n/terms.ts`, from where `translate`
  fetches a term's own word. With `{t("term.objective.singular")}{" "}{n}` on a page the
  entry goes, and every message naming the term throws wherever the workspace has not
  renamed it, as does every component outside those files that renders the key
  (`LostTerm.TermEntryIsLost`). `Script.OldEntriesKept` gives the exact condition.
- `apps/web/lib/review-badge-live.tsx:7-16` promises a live count and a refresh only
  when the number moved. The page shows the count it was last rendered with, and a
  render that draws the count already there tells the component nothing: it can be left
  believing a count that the page does not show, with nothing under way to put it right
  (`ReviewBadge.PageGoesWrong`, and `ReviewBadge.QuietPageExactly` for when).
- `packages/core/src/channels/inbound.ts:106-124` makes the log the check for repeats and
  says that deleting a record must not make a delivery deliverable again. Once a
  workspace sets a retention window the sweep deletes the rows outside it, and a repeat
  that comes later is routed again (`MessageLog.SweptIsRoutedAgain`).
- `apps/web/lib/board-presence.ts:38-39` promises the list "whenever that set changes",
  and that holds. Its order does not always follow the roster, which
  `packages/core/src/tasks/presence.ts:164` orders by arrival:
  `BoardPresence.OrderGoesStale`.
- `e2e/flaky-reporter.ts:50-58` records on the last attempt only, where "last" means the
  last attempt permitted: a test that recovers earlier is reported nowhere
  (`FlakyReporter.MissedExactly`).
- `apps/web/app/goal-nodes.ts:185-194` says work is never silently omitted. Goals whose
  parents run into a cycle are (`GoalRows.LeftOutExactly`, `GoalRows.TwoGoalsInACycle`).
- `scripts/method-check.ts:660-674` reads a table whose rows leave out an outer pipe, as
  section 4.10 of the GitHub Flavored Markdown specification lets them, otherwise than
  it is written: without the one in front a row is passed over, without the one behind
  its last cell is lost, and a delimiter row without the one behind is read as a row
  (`MarkdownTables.WholeColumnReadBack`, `UnreadHeaderLosesRow`, `UnclosedRuleIsRead`).
- `apps/web/lib/channel-inbound.ts:284` says nothing reads the body as data before the
  signature is checked. `tenantOf` does read it, to find whose secret to check with.

## Model

| member | source | states |
|---|---|---|
| SameScript.ScriptKeepsTheScreen | scripts/recombine-messages.ts:421-470 | after a run of the script over any files and two catalogues with the same keys, every list of children that rendered reads, under the final catalogue of either language, as it did under the original one, for all values, renamed terms and other children, if and only if each of its runs is safe to combine and shows no whitespace at its ends that has none beside it, and no term the list names has had its entry taken out; each run's rewrite is among those of its file |
| SameScript.TermsTaken | packages/ui/src/i18n/terms.ts:190-209 | the terms a list names have their own words in the final catalogue exactly when none of their keys was retired unquoted, and those left read as they did |
| LostTerm.TermEntryIsLost | scripts/recombine-messages.ts:457-465 | a page, and the run of the script over it, after which the entry of a term is gone: a message on the same page that names the term, in a list without a run, throws where the term is not renamed, and so does rendering the key itself |
| LostTerm.KeyUnquoted | scripts/recombine-messages.ts:233-260 | a key made from one without a quotation mark has none |
| SameScript.RunEntry | scripts/recombine-messages.ts:390-465 | the key spliced in for a run is at the end in both languages the text made of the run under the original catalogues |
| SameScript.QuotedIsQuotedStill | scripts/recombine-messages.ts:444-461 | a message child that belongs to no run is still quoted in the spliced file, so its entry is not retired |
| SameScript.RunsArePlaced | scripts/recombine-messages.ts:290-345 | between two runs of a list, or a run and the end of the list, stand only literals, or a barrier |
| ChildLists.ChildIsSpared | scripts/recombine-messages.ts:290-417 | the span of a child that belongs to no run lies clear of every run in the whole tree |
| ChildLists.SparedSurvives | scripts/recombine-messages.ts:444-449 | what lies clear of every edit is in the spliced source as it was |
| SameChildren.SameListExactly | scripts/recombine-messages.ts:349-408 | a list of children that renders, with its runs replaced by their messages, reads as it did, whitespace collapsed, for all values, renamed terms and other children, if and only if every run is safe to combine, whitespace at a run's ends has whitespace beside it, and every term the list names still has its entry |
| SameChildren.LostTermThrows | packages/ui/src/i18n/terms.ts:200-205 | whichever child of a safe list names a term without an entry, in a run or not, the rewritten list throws where the term is not renamed |
| SameChildren.RunSaysTheSame | packages/ui/src/i18n/catalogue.ts:104-149 | a run's entry reads the same with two catalogues that give the terms its children name the same words, whether its values are accepted or not |
| SameChildren.SameValuesExactly | scripts/recombine-messages.ts:378-388 | where the law holds for texts and numbers, a render reads as it did if and only if no run is given one of the four values that JSX leaves out and a message spells |
| SameChildren.UnsafeInks | packages/ui/src/i18n/catalogue.ts:87-149 | with every value empty and every term one letter a list with an unsafe run throws or shows more characters than it did |
| SameChildren.VisibleGaps | scripts/recombine-messages.ts:393-396 | with safe runs only, a list in which trimmed whitespace had none beside it shows fewer gaps than it did |
| SameChildren.TrailingSpaceShows | scripts/recombine-messages.ts:393-401 | a run the scan finds and that is safe to combine, ending in a space in front of an element: the space is lost |
| Layout.CollapseConcat | scripts/recombine-messages.ts:393-396 | collapsing two texts put together is collapsing each and dropping the second of two spaces that meet |
| Layout.GapsConcat | scripts/recombine-messages.ts:393-396 | the gaps of two texts put together are those of both, less one where two meet |
| SameScreen.SameScreenExactly | scripts/recombine-messages.ts:349-408 | for one run on its own, the combined entry shows the run's pieces collapsed and trimmed, for all values and words, if and only if the run is safe to combine: no hole follows a dollar sign, no literal holds a character reference, no value is named after a term |
| SameScreen.SafeReadsTheSame | packages/ui/src/i18n/catalogue.ts:104-149 | in a safe run the translator accepts exactly the values the replacement hands over and fills the entry as the children read |
| SameScreen.UnsafeShowsMore | packages/ui/src/i18n/catalogue.ts:87-149 | with every value empty and every word one letter an unsafe run's entry throws or shows more characters than the run did |
| SameScreen.ScreenBefore | scripts/recombine-messages.ts:95-121 | before the rewrite, the children rendered one by one show the run's pieces |
| Rewrites.DollarRunIsUnsafe | packages/ui/src/i18n/catalogue.ts:81-87 | a message ending in a dollar sign before a value is a run that is not safe to combine |
| Rewrites.TermNamedRunIsUnsafe | scripts/recombine-messages.ts:170-230 | so is any run with a value spelled like a term's hole |
| Rewrites.ReferenceRunIsUnsafe | scripts/recombine-messages.ts:95-121 | and any run with a character reference in its JSX text |
| Rewrites.CombineRun | scripts/recombine-messages.ts:353-408 | the loop over a run yields the rewrite whose entry, key, holes and retired keys are those of the run as a whole, or nothing when a key has no English entry |
| Rewrites.KeyFor | scripts/recombine-messages.ts:233-260 | the key given to a sentence is one no entry has |
| Messages.ParseWritten | packages/ui/src/i18n/catalogue.ts:80-94 | a message written from tokens parses back to them, except that a hole directly behind a dollar sign is read as plain characters |
| Messages.TermHoleReadBack | packages/ui/src/i18n/terms.ts:126-152 | a name is read as a term's hole exactly when it is that hole's name: no two holes share one |
| Messages.SameWordsSameText | packages/ui/src/i18n/catalogue.ts:104-149 | a key reads the same in two catalogues that agree on its entry and on the words of its terms |
| Messages.GuardedIsIdentity | packages/ui/src/i18n/catalogue.ts:81-87 | tokens with no hole behind a dollar sign are unharmed by that exception |
| Sentences.SpelledTidy | scripts/recombine-messages.ts:393-396 | collapsing and trimming the combined string is collapsing and trimming its pieces |
| Sentences.DollarTidy | scripts/recombine-messages.ts:393-396 | that tidying neither makes nor removes a hole behind a dollar sign |
| Rendering.SuppliedByRun | scripts/recombine-messages.ts:378-388 | the object literal binds each hole once, to the value of the expression it was named for |
| Rendering.FilledIsSpoken | packages/ui/src/i18n/catalogue.ts:144-148 | a parsed message filled with values reads as its pieces do |
| Rendering.MessageOnItsOwn | packages/ui/src/i18n/catalogue.ts:118-121 | a message without holes of its own, translated without values, shows its own pieces |
| Rendering.TidySeen | scripts/recombine-messages.ts:139-147 | a literal of several spaces counts as one: tidied, the sentence and the screen have the same pieces |
| JsxTree.RenderedTextKeepsInk | scripts/recombine-messages.ts:109-121 | rendering JSX text moves only whitespace |
| JsxTree.RenderedTextIsOneLine | scripts/recombine-messages.ts:105-121 | text that came over several lines renders without a line break |
| HoleNaming.HoleForKeepsDistinct | scripts/recombine-messages.ts:199-230 | naming one more expression keeps every name a valid hole and no two expressions on one hole |
| HoleNaming.NameAllKeepsDistinct | scripts/recombine-messages.ts:352-388 | over a whole run expressions and holes correspond one to one |
| HoleNaming.HolesAvoidTermsExactly | scripts/recombine-messages.ts:170-230 | a run's holes keep clear of the method's terms exactly when no expression's last telling identifier spells one: numbering never makes or unmakes a term |
| HoleNaming.TermNamesItself | scripts/recombine-messages.ts:180-214 | an expression that spells a term's hole is given that name |
| HoleNaming.HoleTable.Name | scripts/recombine-messages.ts:199-230 | naming in place: the same expression gets the hole it has, a new one the first free name |
| HoleNaming.Freshen | scripts/recombine-messages.ts:221-227 | the freshness loop stops, by pigeonhole, at the first numbered candidate not in use |
| HoleNaming.TriedBound | scripts/recombine-messages.ts:253-258 | as many numbered candidates taken as were tried means that many names in use |
| RunScanner.RangesAreExact | scripts/recombine-messages.ts:290-411 | the runs rewritten are exactly the maximal barrier-free stretches, leading literals and trailing gaps stripped, that hold a message and a value |
| RunScanner.CandidatesInOrder | scripts/recombine-messages.ts:294-411 | runs of one element come left to right without overlap |
| RunScanner.Scan | scripts/recombine-messages.ts:292-412 | the index and cursor loops terminate with exactly those runs, and report none as skipped |
| RunScanner.ReadRun | scripts/recombine-messages.ts:295-335 | one turn reads from the first child that is not a literal to the next barrier, and `readable` stays true |
| Runs.RunsApart | scripts/recombine-messages.ts:290-415 | across the whole tree, nested elements and attributes included, run spans are pairwise disjoint and inside their node |
| Splice.SpliceFromRight | scripts/recombine-messages.ts:444-449 | splicing disjoint spans in descending order is replacing all of them in the original at once |
| Splice.ReplacedHolds | scripts/recombine-messages.ts:444-449 | every replacement text is in the spliced source |
| Recombiner.FileIsSpliceable | scripts/recombine-messages.ts:438-449 | the rewrites of one file are inside its text and disjoint |
| Recombiner.PlanIsFresh | scripts/recombine-messages.ts:397-407 | over any set of files no new key is an existing entry or another new key |
| Script.Recombination.Visit | scripts/recombine-messages.ts:290-417 | the walk pushes the rewrites of every run of the tree, in order, each freshened against those before |
| Script.Recombination.RewriteFile | scripts/recombine-messages.ts:436-455 | one file: its text spliced at once, both catalogues extended, its keys retired |
| Script.Recombination.Run | scripts/recombine-messages.ts:421-470 | the whole run: what every file becomes, and both catalogues with all new entries and without the retired keys nothing quotes |
| Script.Recombination.Retire | scripts/recombine-messages.ts:457-465 | retirement removes from both catalogues exactly the retired keys that occur quoted nowhere |
| Script.KeySetsStayEqual | scripts/recombine-messages.ts:450-465 | equal key sets in two languages stay equal |
| Script.OldEntriesKept | scripts/recombine-messages.ts:457-465 | an old entry goes exactly when it was retired and no file quotes it, and otherwise keeps its text |
| Script.QuotedKeysStay | scripts/recombine-messages.ts:457-461 | a key some file quotes keeps its entry |
| Script.EveryRewriteSurvives | scripts/recombine-messages.ts:397-465 | with --write every new entry is in both catalogues at the end with its own text |
| PresenceRoster.SignalRoundTrip | packages/core/src/tasks/presence.ts:72-119 | a signal published is the signal read, for well-formed ids |
| PresenceRoster.PresenceRoster.Record | packages/core/src/tasks/presence.ts:134-151 | note updates in place or appends, and is true exactly when the members changed |
| PresenceRoster.PresenceRoster.Sweep | packages/core/src/tasks/presence.ts:154-162 | sweep drops exactly the expired and is true exactly when the members changed |
| PresenceRoster.PresenceRoster.ListOthers | packages/core/src/tasks/presence.ts:165-173 | the others, each member once, in order of first arrival |
| BoardPresence.Connection.OnSignal | apps/web/lib/board-presence.ts:92-110 | one event: own and late signals ignored, the roster noted, the list handed over, a join answered |
| BoardPresence.Connection.OnBeat | apps/web/lib/board-presence.ts:114-119 | the heartbeat announces, sweeps and hands the list over if it moved |
| BoardPresence.Connection.Close | apps/web/lib/board-presence.ts:123-135 | closing says it left, once |
| BoardPresence.JoinIsInjective | apps/web/lib/board-presence.ts:82-90 | comparing comma-joined lists is comparing lists of comma-free names |
| BoardPresence.StaysCurrent | apps/web/lib/board-presence.ts:80-90 | whatever the roster becomes, the last list handed over names its members |
| BoardPresence.OrderKeptExactly | apps/web/lib/board-presence.ts:82-104 | when entries go, however many, the list stays in the roster's order exactly when somebody has no entry left or, wherever the entry a member is listed by goes, the next to stay of anybody not listed before is that member's |
| BoardPresence.SweepOrderExactly | packages/core/src/tasks/presence.ts:154-162 | so for the expired entries a heartbeat drops |
| BoardPresence.LeavingOrderExactly | packages/core/src/tasks/presence.ts:134-151 | and for a tab that closes |
| BoardPresence.HereKeepsOrder | packages/core/src/tasks/presence.ts:134-151 | a board that is heard never disturbs the order, as long as a viewer is one member's only |
| BoardPresence.OrderGoesStale | apps/web/lib/board-presence.ts:80-110 | four signals from a new connection on after which the list handed over is out of order |
| PresenceProtocol.DeliveryIsProgress | apps/web/lib/board-presence.ts:92-110 | every delivery brings a measure of outstanding work down, whatever is answered |
| PresenceProtocol.HandlingStops | apps/web/lib/board-presence.ts:92-112 | any run of deliveries is no longer than the work the state starts with |
| PresenceSafety.StepKeeps | apps/web/lib/board-presence.ts:51-135 | every step of any board keeps the invariant about rosters, lists and signals under way |
| PresenceSafety.OldestIsNext | apps/web/lib/board-presence.ts:92-110 | as long as a signal is under way one can be delivered |
| PresenceSafety.QuietRostersAreRight | apps/web/lib/board-presence.ts:46-135 | in every run, once the channel is quiet an open board's roster is exactly the other open boards and the last list handed over is exactly their members |
| GoalForest.RootedUnlessCyclic | apps/web/app/goal-nodes.ts:203-215 | a goal's parent chain ends at a root exactly when it runs into no cycle |
| GoalForest.DepthIsUnique | apps/web/app/goal-nodes.ts:219-229 | a chain ends at a root after one number of steps only |
| GoalRows.DrawnExactly | apps/web/app/goal-nodes.ts:195-234 | with unique ids the goals drawn are exactly those whose chain ends at a root, each once |
| GoalRows.LeftOutExactly | apps/web/app/goal-nodes.ts:217-232 | a goal is left out exactly when its parents run into a cycle |
| GoalRows.TwoGoalsInACycle | apps/web/app/goal-nodes.ts:203-232 | two goals that are each other's parent: no row at all |
| GoalRows.AcyclicDrawsAll | apps/web/app/goal-nodes.ts:185-234 | without cycles the drawn ids are a permutation of all ids |
| GoalRows.RowsAtTheirDepth | apps/web/app/goal-nodes.ts:118-183 | every goal row is as deep as its chain is long, every key result one deeper |
| GoalRows.SubtreeIsBlock | apps/web/app/goal-nodes.ts:219-232 | a goal's rows, its key results right behind it, and its descendants' rows, siblings in input order, are one unbroken block |
| GoalTable.Flattening.File | apps/web/app/goal-nodes.ts:200-215 | filing gives every goal its children, and the roots, in input order |
| GoalTable.Flattening.Walk | apps/web/app/goal-nodes.ts:219-229 | with unique ids the walk adds exactly the tree's preorder and the seen guard never fires; whatever the list, nothing is drawn twice |
| GoalTable.Flattening.Flatten | apps/web/app/goal-nodes.ts:195-234 | with unique ids the table is the preorder of the forest; always, each id at most once |
| FeedLive.EveryEventIsRefreshed | apps/web/lib/feed-live.tsx:47-55 | every event heard on a page not left meanwhile is followed by a refresh within 1500 ms |
| FeedLive.RefreshesAreSparse | apps/web/lib/feed-live.tsx:47-65 | refreshes are 1500 ms apart, at most one per 1500 ms of the run, each a window after an event, none after the page was left |
| FeedLive.Effect.OnChanged | apps/web/lib/feed-live.tsx:47-55 | an event opens a window only when none is open, as the runs have it |
| FeedLive.Effect.OnTimer | apps/web/lib/feed-live.tsx:51-54 | the window closes with one refresh, as the runs have it |
| FeedLive.Effect.OnUnmount | apps/web/lib/feed-live.tsx:58-65 | leaving drops the listener and the window, as the runs have it |
| ReviewBadge.ReadingsDecide | apps/web/lib/review-badge-live.tsx:19-49 | with readings arriving in order, once all have arrived the component believes the count read last and the page shows the count drawn last, as if each reading had taken effect at once |
| ReviewBadge.QuietExactly | apps/web/lib/review-badge-live.tsx:19-65 | with nothing under way, reads lost or not, the component is right exactly when the count it heard last is still the server's, and the page exactly when the count drawn last is |
| ReviewBadge.QuietBadgeIsRight | apps/web/lib/review-badge-live.tsx:19-65 | with every change followed by an event, nothing under way and the last read not failed, the count the component believes shown is the server's |
| ReviewBadge.QuietPageExactly | apps/web/lib/review-badge-live.tsx:24-26 | then the page shows the server's count exactly when its last render did not draw the count that stood there while the component believed another |
| ReviewBadge.SteadyPageIsRight | apps/web/lib/review-badge-live.tsx:24-49 | which holds whenever the render a refresh asks for draws the count that was read |
| ReviewBadge.PageGoesWrong | apps/web/lib/review-badge-live.tsx:24-49 | a run with every refresh rendered and nothing lost that ends with nothing under way and the page wrong |
| ReviewBadge.OvertakenReplyLeavesItStale | apps/web/lib/review-badge-live.tsx:35-49 | a reply that overtakes the one before it leaves the component with the count that is gone |
| ReviewBadge.RefreshesAreEarned | apps/web/lib/review-badge-live.tsx:46-49 | from the first showing on, in every run, the page is refreshed at most once for each change of the server's count, and once more if it began out of date |
| ReviewBadge.ChangeIsRefreshed | apps/web/lib/review-badge-live.tsx:30-49 | a change that is heard and read takes one refresh, whose render puts it on the page |
| ReviewBadge.QuietBadgeStaysPut | apps/web/lib/review-badge-live.tsx:46-49 | a component that believes the server's count keeps to it, and refreshes nothing, until the count changes |
| ReviewBadge.LostReadLeavesItStale | apps/web/lib/review-badge-live.tsx:50-53 | one lost read leaves component and page wrong with nothing under way |
| ReviewBadge.Badge.OnReply | apps/web/lib/review-badge-live.tsx:43-49 | a reply refreshes exactly when it differs from what is shown |
| UpdateCheck.BehindIsStrictOrder | apps/web/lib/update-check.ts:38-52 | being behind is irreflexive and transitive, and total up to equal versions on texts that parse |
| UpdateCheck.Behind | apps/web/lib/update-check.ts:38-52 | the comparison loop decides by the first part that differs; an unreadable version is never behind |
| UpdateCheck.PrintedParses | apps/web/lib/update-check.ts:30-36 | a printed version, with or without v, suffix and surrounding whitespace, parses back |
| UpdateCheck.FetchesAreSpaced | apps/web/lib/update-check.ts:93-132 | in every interleaving a fetch starts only when none is under way, and 24 h after a success or 1 h after a failure |
| UpdateCheck.KnownStaysKnown | apps/web/lib/update-check.ts:113-120 | a release once known stays known |
| UpdateCheck.FetchStartsAreWellApart | apps/web/lib/update-check.ts:113-132 | under a clock that does not run back any two fetches start at least an hour apart, and 24 h when the first of them found a release |
| UpdateCheck.Checker.Latest | apps/web/lib/update-check.ts:125-132 | asking never waits, answers what was known, and starts a fetch exactly when the answer has lapsed and none is under way |
| FlakyReporter.ReportIsExact | e2e/flaky-reporter.ts:59-82 | for any limits and any interleaving the failed list is exactly the tests all of whose attempts were unexpected, and the flaky list exactly those that recovered on their last permitted attempt, each once |
| FlakyReporter.MissedExactly | e2e/flaky-reporter.ts:50-63 | a recovered test goes unreported exactly when it had attempts to spare, which takes a limit of at least two |
| FlakyReporter.EarlyRecoveryIsMissed | e2e/flaky-reporter.ts:60-63 | two retries allowed, recovered on the first: nothing is reported |
| FlakyReporter.Reporter.OnTestEnd | e2e/flaky-reporter.ts:59-82 | only the last permitted attempt is recorded, in one list |
| Scheduler.RunScheduledJob | apps/web/lib/scheduler.ts:311-376 | whatever fails, every workspace whose hour it is is tried once, in order, and ran, skipped and failed add up to all of them |
| Scheduler.DueOnceADay | apps/web/lib/scheduler.ts:270-282 | over any 24 hourly ticks a clock at any fixed minute offset shows the hour exactly once |
| Scheduler.TriedOnceADay | apps/web/lib/scheduler.ts:311-376 | over 24 hourly sweeps, whichever runs fail and whatever other workspaces come and go, a workspace that is there all day is tried exactly once |
| Scheduler.DueAtMostTwice | apps/web/lib/scheduler.ts:270-282 | with one change of its clock it is due at most twice that day |
| Scheduler.HitsAcrossExactly | apps/web/lib/scheduler.ts:333-340 | how often, exactly, by where the clock stands before and after the change |
| Scheduler.SpringSkipsAutumnRepeats | apps/web/lib/scheduler.ts:333-340 | none and twice both happen with a change of one hour |
| InboundDoor.Door.RunInbound | apps/web/lib/channel-inbound.ts:238-387 | the early returns do, count, remember, answer and send exactly what the ordered table of steps says |
| InboundDoor.Door.ResolveInbound | packages/core/src/channels/inbound.ts:238-349 | steps three to six of the order: duplicate, link code, sender, member, rate limit |
| InboundDoor.Door.Refuse | apps/web/lib/channel-inbound.ts:91-115 | a refusal is counted, padded to the floor and answered with an empty 401 |
| InboundDoor.TraceInOrder | apps/web/lib/channel-inbound.ts:229-237 | on every request the steps come in one fixed order, each at most once, counting and sending last |
| InboundDoor.NothingBeforeVerification | apps/web/lib/channel-inbound.ts:250-303 | no hook, parse, handling or reply happens unless every verification succeeded earlier in the same request |
| InboundDoor.RefusedExactly | apps/web/lib/channel-inbound.ts:250-287 | the reason counted is the first thing wrong with the request, whatever was seen before, and only a request naming no tenant is answered otherwise than with 401 |
| InboundDoor.CountedExactly | apps/web/lib/channel-inbound.ts:117-125 | the counter of a reason moves exactly when the request is refused for it |
| InboundDoor.CountedOnce | apps/web/lib/channel-inbound.ts:117-125 | no request is counted twice |
| InboundDoor.CountersAreExact | apps/web/lib/channel-inbound.ts:91-125 | over any run of requests each counter is the number refused for its reason |
| InboundDoor.RefusalsLookAlike | apps/web/lib/channel-inbound.ts:17-28 | two requests refused for any of the three reasons get the same status and body, neither before the floor, and at the same delay when both were decided within it |
| InboundDoor.RoutedExactly | apps/web/lib/channel-inbound.ts:250-386 | a command is routed exactly when every question was answered well and the delivery is new |
| InboundDoor.StrangersHearNothing | packages/core/src/channels/inbound.ts:21-24 | whoever is sent anything proved their account or is a verified, active member; nobody else uses up a rate limit |
| MessageLog.RoutedAgainExactly | packages/core/src/channels/inbound.ts:106-153 | once a delivery has been asked about, a later request for it is routed exactly when all else is in order and a sweep has deleted its row since, with nobody asking again after that |
| MessageLog.RoutedOncePerSweep | packages/core/src/channels/inbound.ts:106-153 | over any run of requests, sent messages and sweeps, a delivery is routed at most once between two sweeps that delete its row |
| MessageLog.RepeatInsideWindow | packages/core/src/channels/retention.ts:66-73 | a repeat is not routed again while no sweep reaches back to the first delivery; with a window of zero, never |
| MessageLog.SweptIsRoutedAgain | packages/core/src/channels/retention.ts:50-110 | a delivery, a sweep late enough, and the delivery again: it is routed twice |
| MessageLog.ServingRemembers | packages/core/src/channels/inbound.ts:113-153 | a request leaves the log remembering what the door remembers |
| MessageLog.SweepTakesOldest | packages/core/src/channels/retention.ts:82-103 | a sweep takes the oldest rows first, so a whole batch of those older than any earlier time is gone, or all of them |
| MessageLog.BacklogDrains | packages/core/src/channels/retention.ts:23-32 | over any run each sweep that reaches back to a time takes a batch off the rows older than it until there are none, whatever is logged in between |
| MessageLog.UnfilledBatchLeavesNone | packages/core/src/channels/retention.ts:105-109 | a sweep that reports less than a full batch has left no row outside the window |
| DocsReach.Reach | scripts/check-docs.ts:166-189 | the queue loop terminates with exactly the pages some chain of links leads to from the index |
| DocsReach.Unreachable | scripts/check-docs.ts:191-200 | the pages reported are exactly the owned, not exempt ones no chain leads to |
| DocsReach.LinksIn | scripts/check-docs.ts:78-94 | the fence-toggling loop collects the links of the prose lines, in order |
| DocsReach.LinksAreOfProse | scripts/check-docs.ts:82-88 | a page's links are those of lines outside fences: a fence contributes none |
| DocsReach.FencedIsOdd | scripts/check-docs.ts:80-85 | a line is fenced exactly when an odd number of fence lines come before it |
| DocsReach.LinksReadBack | scripts/check-docs.ts:89-91 | the links written on a line are the links read from it |
| DocsReach.ClosedHoldsWays | scripts/check-docs.ts:169-189 | a set closed under following links from the index holds the end of every chain |
| MarkdownTables.ColumnReadBack | scripts/method-check.ts:660-674 | of any printed table (section 4.10 of the GitHub Flavored Markdown specification), however padded, with or without outer pipes, and whatever stands around it, the column read is that of the rows below the first one read, less rows that show nothing there |
| MarkdownTables.WholeColumnReadBack | scripts/method-check.ts:660-674 | with one of header and delimiter row taken for the header, the whole column is read exactly when every row has its opening pipe, does not look like a delimiter row, says something in its cell, and has its closing pipe if that cell is the last |
| MarkdownTables.UnreadHeaderLosesRow | scripts/method-check.ts:663-672 | with neither read the first row is lost |
| MarkdownTables.UnclosedRuleIsRead | scripts/method-check.ts:664-674 | with both read the delimiter row comes first in the column |
| MarkdownTables.RuledExactly | scripts/method-check.ts:663-664 | a printed row is read exactly when it has its opening pipe and is not, between two outer pipes, colons, hyphens and space only |
| MarkdownTables.AgreesExactly | scripts/method-check.ts:676-706 | nothing is reported exactly when the lists are equal in order and at least as long as the floor |
| MarkdownTables.EachDifferenceIsNamed | scripts/method-check.ts:699-706 | each differing position is reported with what either side says there |
| MarkdownTables.NothingReadIsReported | scripts/method-check.ts:682-692 | with a floor above zero a section that is gone is reported |
| MarkdownTables.Report.Compare | scripts/method-check.ts:676-706 | the comparison appends exactly the disagreements |
| MarkdownTables.Report.Section | scripts/method-check.ts:78-86 | the text from the first occurrence of one heading to the next of another, or a problem when there is none |
| MarkdownTables.Report.CheckColumn | scripts/method-check.ts:708-716 | a section holding a table passes exactly when the column read of the table is the package's list and long enough |
| LicenceList.FieldReadBack | scripts/check-licences.ts:121-161 | identifiers spelled by an indented folded scalar (section 8.1.3 of YAML 1.2.2), wherever its lines break and whatever whitespace stands about its commas, read back in order, empty entries dropped |
| LicenceList.CheckWorkflowAgrees | scripts/check-licences.ts:121-189 | the gate reports nothing exactly when the workflow's list can be read, is not empty, equals the script's up to deprecated spellings, and the cleared packages agree |
| LicenceList.CheckClearedPackagesAgree | scripts/check-licences.ts:202-243 | every cleared package on one side only is reported, and nothing else |
| LicenceList.CheckLicences | scripts/check-licences.ts:171-186 | every licence on one side only is reported, deprecated spellings aside |
| LicenceList.CollectBlock | scripts/check-licences.ts:142-154 | the loop collects the lines of the scalar up to the first that is blank, a comment, or not indented past the key |
| Commands.FoundByWords | packages/cli/src/contract.ts:47-59 | for words without spaces a command is found exactly when some name's words begin the list, case aside, and exactly those are consumed |
| Commands.FirstIsFound | packages/cli/src/contract.ts:52-57 | it is the first such command |
| Commands.OrderDoesNotMatter | packages/cli/src/contract.ts:47-59 | when no name begins another the answer does not depend on the order of the list |
| Commands.OrderMatters | packages/cli/src/contract.ts:52-57 | when one name begins another it does |
| Commands.QuotedWordsMiscount | packages/cli/src/contract.ts:51-55 | an argument holding a space can make more words consumed than were given |
| Navigation.ActiveItemId | apps/web/lib/app-shell.tsx:93-108 | the first item with the longest matching href wins, and none exactly when none matches |
| Navigation.MatchesBySegment | apps/web/lib/app-shell.tsx:99-102 | matching is being a prefix segment by segment, the root matching only itself |
| Navigation.WinnerIgnoresOrder | apps/web/lib/app-shell.tsx:97-107 | lists with the same hrefs have the same winning href |

## Left out

- The TypeScript parser and React: a file is a tree of nodes with spans, well formed as a parser gives it.
- SameScript.ScriptKeepsTheScreen: texts are compared with each stretch of whitespace, in the sense of a regular expression's `\s`, as one space; a browser keeps a no-break space apart. An expression has one value per render, and any other child shows one text that is a parameter. Only messages whose holes are all term holes are rendered on their own, since `t(key)` with another hole throws before and after. The two catalogues have the same keys, as `missingKeys` keeps them, and message children quote their key in double quotes, as the script looks for it. Two spellings of one value, as of a number, are one text.
- Messages.TermHoleReadBack: the case mapping of a term's word is that of ASCII letters.
- JsxTree.RenderedTextKeepsInk: what the compiler shows for JSX text is a field of the tree, either the text the script renders or, with character references decoded, fewer characters.
- Script.QuotedKeysStay: a key counts as quoted in double quotes inside the files read, as the script has it; single-quoted uses and files other than .tsx are not looked at by the script either.
- Script.Recombination.Run: sorting and printing the catalogues, reading directories and the report on standard output.
- PresenceSafety.QuietRostersAreRight: assumes delivery in each sender's own order to everybody subscribed at publish time, publishing that does not fail, and no lapsed heartbeat; expiry is covered by `PresenceRoster.Sweep` and `BoardPresence.Connection.OnBeat` alone.
- PresenceRoster.PresenceRoster.Record: the sorted, joined key that decides whether members changed is modelled as the set of members.
- Goal rows carry id, kind, depth and owning goal; health, progress, texts and the other columns are rendering.
- FeedLive.EveryEventIsRefreshed: timers fire exactly when due; a delayed event loop would add its delay.
- ReviewBadge.QuietBadgeIsRight: a page left with a read still under way is not modelled, renders arrive in the order they were read, and each refresh is rendered by itself. Replies out of order are covered by `ReviewBadge.OvertakenReplyLeavesItStale` alone.
- UpdateCheck.PrintedParses: numbers are unbounded, so the rounding of parts beyond 2^53 is not seen; reading a release from JSON is not modelled.
- FlakyReporter.ReportIsExact: outcomes are expected or unexpected per attempt; skipped tests and the report file are not modelled.
- Scheduler.RunScheduledJob: timezones are minute offsets, metrics and logging are not modelled.
- MessageLog.RoutedAgainExactly: requests and sweeps are whole steps, as their transactions are; rows made by other writers are `Write` steps, and a clock that runs back is allowed.
- InboundDoor.Door.RunInbound: what the database, the drivers and the hooks answer is a parameter of each request, except the log of deliveries seen; exceptions, the words of the two fixed replies, and the GET handshake refused with 403 are not modelled.
- InboundDoor.RefusalsLookAlike: equal delays hold when both refusals are decided within the floor and the timers run alike; the code promises no more.
- DocsReach.Reach: how a relative path resolves and what a page says are parameters; that linked files exist, and the commands, thresholds and API reference the gate also checks, are not modelled.
- MarkdownTables.ColumnReadBack: the cells of a printed table hold no pipe; the script splits an escaped one like any other.
- MarkdownTables: the numbered lists, back-ticked keys and labels the same script reads with other expressions, as they would only add easy members.
- Commands.FoundByWords: case folding is that of ASCII letters, for words without a space and at least one word; with no words only an empty name matches.
- Form numbers, quiet hours, retry-after, branding and the other small field helpers: correct and easy.
