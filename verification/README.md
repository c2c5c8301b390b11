# Verification model of feedla

feedla is a self-hosted feed reader. It subscribes to feeds and to pages without one, keeps read
state per user, and cleans up the articles it fetches. This project models the parts of it whose
correctness rests on invariants, and proves them with Dafny 4.11:

- **Page watching** (`Lcs`, `BlockDiff`, `BlockDiffLoops`, `DiffChoices`, `PagewatchState`,
  `PagewatchExtract`, `PagewatchRuns`, `PagewatchReplay`, `PagewatchDrift`): the two block diff
  algorithms, the state machine over successive fetches of one page, and what its items tell a reader.
- **Read state** (`Tables`, `Transactions`, `StoreInvariant`, `StoreMeaning`, `StoreEffects`,
  `Store`, `Retention`, `Places`, `Queries`, `Browsing`): a cache of fanned-out rows and unread counts that every
  transaction must leave equal to a recount, and the keyset pagination that reads it.
- **Selector crawls** (`SelectorState`, `SelectorCrawl`, `SelectorRuns`, `CrawlWrites`): which
  listed URLs are fetched, retried, imported, sealed and forgotten, and in what order the results
  are written.
- **Boilerplate** (`Boilerplate`, `BoilerplateRuns`, `BoilerplatePrune`): the bounded learner of
  recurring page chrome and the pruning it drives.
- **Selector generation** (`ElementIndex`, `SelectorGen`, `ItemCandidates`, `TitleSelector`, `Sanitize`):
  the numbered element index of a sanitized page, the CSS chains built over it, the ranked candidates
  of a click, and the title selector inside an item.
- **Robots patterns** (`Robots`) and **screen routes** (`Routes`, `Screen`).

`DistinctLists`, `Positions`, `Ranks`, `RowIds`, `Decimal` and `Wrappers` hold what several of these
share.

Code that works by changing things is modelled by methods and classes (`Store.Store`,
`Boilerplate.State`, `Sanitize.Walker`, `Screen.SignalStore`, the loops of the diff, of
`CommitState` and of the matchers). Each is proved against a function of its inputs or its old
state, and the theorems are stated about those functions. `Store.PerformAll` and
`StoreInvariant.EveryReachableStateIsValid` show the pattern: the first ties a live store to a run
of transitions, the second says what every such run keeps.

SHA-256 is modelled as an injective constructor. SQL LIKE, regular expressions, HTML parsing and
rendering, text normalisation, the outcome of each fetch and `URLSearchParams` are parameters;
about the last it is assumed only that parsing undoes printing.

`dafny verify dfyconfig.toml` verifies the whole project.

## Where the code does less than it seems

- **Robots** (`Robots.ExactIffNotAnchoredWildcard`): the greedy matcher never takes a later
  occurrence, so every pattern with both `*` and a trailing `$` misses some path it describes.
  For all other patterns it decides exactly the language of section 2.2.3 of RFC 9309, and for every
  pattern it matches exactly when the leftmost placement of its pieces does (`Robots.MatchesIffLeftmost`).
- **Content hashes** (`PagewatchRuns.PassesAsUnchangedIff`): keys are joined with line breaks before
  hashing, so a page passes as unchanged exactly when the joined texts agree. Over rendered elements
  that means equal keys. An ignore pattern that eats their tags can make different pages agree
  (`PagewatchRuns.MergedParagraphsPassUnseen`).
- **Small changes** (`PagewatchReplay.RightThroughoutIff`, `PagewatchReplay.SmallChangesAreNeverTold`,
  `PagewatchDrift.PageDriftsUnseen`): a change whose text is under `min_change_chars` is saved as the
  new baseline without being reported, so small changes never add up to a large one and a page can be
  replaced piece by piece untold.
- **Lost states** (`PagewatchReplay.RightThroughoutIff`, `PagewatchDrift.LostStateMisleadsIff`,
  `PagewatchDrift.ReplacedParagraphIsToldTwice`): the crawler writes the entry before the state. If the
  state write fails, the item is out, and the next crawl tells its changes against the old state once
  more, as a second delivery if the page stayed and as a diff that ignores the first if it did not.
  Small changes and lost states are all that the items miss (`PagewatchReplay.AccountIsExact`). Every
  delivery counts here, also one that rewrites an entry because its content GUID is known.
- **Changed ignore patterns** (`PagewatchRuns.PatternChangeIsSilentIff`,
  `PagewatchRuns.PatternChangeReportsUncovered`): saved blocks are recomputed, but blocks the old
  patterns hid were never saved, so new patterns that uncover some report exactly those as added
  although the page did not change (`PagewatchRuns.HiddenParagraphIsReported`). If the display HTML
  had been dropped for size there is no item at all.
- **Diff paths** (`DiffChoices.ChoiceIsForcedIff`, `DiffChoices.OccurrenceShownDependsOnSize`): the two
  algorithms agree on which keys changed. Which occurrence of a repeated key is shown is fixed only
  if its counts are equal or one of them is zero; otherwise it can depend on the size of the page.
- **Full crawl histories** (`SelectorRuns.OfferedAgainIff`, `SelectorRuns.ListedUrlOfferedAgain`): the
  crawler hands only unseen candidates to the eviction rule, so a URL still listed is forgotten, and
  offered again, exactly when it is among the oldest over the cap. The bounds on crawls and fetches
  hold all the same.
- **Title selectors** (`TitleSelector.TitleIsFoundIff`, `TitleSelector.PreviewIsRightIff`): the crawler
  tests the item itself first, at its position in the page, while the preview counts it as the first of
  its type. A title that looks like its item can therefore have a selector that matches the item too,
  or one that is unique in the preview and still yields the whole item.
- **Ratings in URLs** (`Routes.DecodeEncode`): a rating outside 0 to 5 is printed but not read.

## Model

| member | source | states |
|---|---|---|
| Lcs.LcsDiffIdx | internal/extract/pagewatch/diff.go:53-93 | the table-driven alignment, 32-bit cells and all, returns the same positions as the plain recurrence, for inputs whose common length fits a cell |
| Lcs.LcsLenIsUpperBound | internal/extract/pagewatch/diff.go:59-70 | no common subsequence of the two key lists, under a definition that knows nothing of tables, is longer than `dp[0][0]` |
| Lcs.AlignIsAlignment | internal/extract/pagewatch/diff.go:72-92 | deleting the removed positions from one list and the added ones from the other leaves the same keys; both lists of positions are increasing and in range |
| Lcs.AlignIsOptimal | internal/extract/pagewatch/diff.go:53-93 | what the deletions leave is a common subsequence of length `dp[0][0]`, and no common subsequence is longer |
| BlockDiffLoops.PositionsByKey | internal/extract/pagewatch/diff.go:100-107 | the map of positions lists, for every key, all its occurrences in order |
| BlockDiffLoops.SetDiffIdx | internal/extract/pagewatch/diff.go:99-129 | the loop over keys in any order, followed by sorting, yields the last surplus occurrences as added and the first surplus occurrences as removed, in document order |
| BlockDiff.SetDiffIsBagDiff | internal/extract/pagewatch/diff.go:95-129 | the positions the large-page path picks carry exactly bag(curr) minus bag(prev) and bag(prev) minus bag(curr) |
| BlockDiffLoops.CancelCommonKeys | internal/extract/pagewatch/diff.go:135-169 | the three counting loops drop, per key, the smaller of its two counts from the front of either list |
| BlockDiff.CancelMakesBagDiff | internal/extract/pagewatch/diff.go:131-169 | cancellation turns any pair of deletions that keep one common bag into the exact bag difference |
| BlockDiff.BranchesAgree | internal/extract/pagewatch/diff.go:25-33 | LCS plus cancellation and the large-page path report the same bags, exactly the two bag differences, at increasing positions |
| DiffChoices.ChoiceIsForcedIff | internal/extract/pagewatch/diff.go:95-169 | the bag difference fixes which blocks are shown exactly when every key is as frequent on both sides or found on one side only |
| DiffChoices.BranchesCoincide | internal/extract/pagewatch/diff.go:25-33 | on such pages LCS plus cancellation and the large-page path report the very same positions |
| DiffChoices.OccurrenceShownDependsOnSize | internal/extract/pagewatch/diff.go:22-33 | a family of pages, one for any two different keys and every tail without them, on which the block reported as removed is the later of two equal ones up to 2000 blocks and the earlier one beyond |
| BlockDiff.EmptyDiffIffReordering | internal/extract/pagewatch/diff.go:29-33 | the diff is empty exactly when the page is a reordering of the previous one |
| BlockDiff.NothingBothAddedAndRemoved | internal/extract/pagewatch/diff.go:29-33 | no key is reported both as added and as removed |
| BlockDiffLoops.ComputeDiffIdx | internal/extract/pagewatch/diff.go:13-34 | the whole algorithm on keys returns the specified positions, and these are the exact bag difference |
| PagewatchState.HashSeesEveryKey | internal/extract/pagewatch/state.go:44-62 | content hashes tell key lists apart over any set of keys none of which, followed by a line break, is how another begins |
| PagewatchState.ElementsAreSeparable | internal/extract/pagewatch/block.go:133-146 | rendered elements, each ending where its first tag is closed, form such a set, whatever lines they span |
| PagewatchState.WrappedParagraphIsOneElement | internal/extract/pagewatch/block.go:170-176 | a paragraph over two source lines is such an element |
| PagewatchState.OneLinersAreSeparable | internal/extract/pagewatch/state.go:44-46 | so do keys that each fit on one line |
| PagewatchState.IdentifiedIff | internal/extract/pagewatch/state.go:44-46 | among all lists of non-empty keys, a hash identifies its list exactly when that has at most one key and no line break inside it |
| PagewatchState.NewlinesCollide | internal/extract/pagewatch/state.go:44-46 | two different key lists that share a hash |
| PagewatchState.MaskAndFilterLoop | internal/extract/pagewatch/block.go:196-207 | the loop keeps, in order, exactly the blocks whose masked text is not empty, with the masked HTML as key |
| PagewatchState.ComparedBlocksAre | internal/extract/pagewatch/block.go:196-207 | what takes part in comparisons are exactly the blocks that still show text once masked, in page order, each keyed by its masked HTML and otherwise unchanged |
| PagewatchState.BlocksToStateBlocks | internal/extract/pagewatch/state.go:64-70 | every block is persisted in place with its key, HTML, anchor and heading |
| PagewatchState.MarshalLoop | internal/extract/pagewatch/state.go:92-104 | the state is kept whole up to the size limit and loses all display HTML above it |
| PagewatchState.KeysOutliveHtml | internal/extract/pagewatch/state.go:87-104 | whatever display HTML is given up, the comparison keys and every other field stay |
| PagewatchState.RemaskFailsIff | internal/extract/pagewatch/state.go:114-131 | recomputing under new patterns is impossible exactly when some display HTML was given up |
| PagewatchState.RecomputeStateBlocks | internal/extract/pagewatch/state.go:118-131 | the loop with its early exit computes the specified remasking |
| PagewatchState.RemaskMatchesPageIff | internal/extract/pagewatch/state.go:114-131 | as long as no display HTML was given up, remasking the saved blocks gives the page under the new patterns exactly when these uncover no block the old ones hid, and never more blocks than the page has |
| PagewatchState.UncoveredAccount | internal/extract/pagewatch/state.go:114-131 | as long as no display HTML was given up, the page's keys under the new patterns are, as a bag, the remasked keys and the masks of the uncovered blocks |
| PagewatchExtract.ComputeDiff | internal/extract/pagewatch/diff.go:36-49 | added blocks come from the page and removed ones from the state, at the diff's positions and in document order |
| PagewatchExtract.DiffIsBagDifference | internal/extract/pagewatch/diff.go:11-50 | the reported blocks carry exactly the keys gained and the keys lost |
| PagewatchExtract.DiffBlocksAre | internal/extract/pagewatch/diff.go:36-49 | an added block is a block of the page as it stands; a removed one is a saved block, field by field, with its text read off the saved HTML; both come in document order |
| PagewatchExtract.ChangeCharCount | internal/extract/pagewatch/block.go:209-218 | the count is the total text length of all added and removed blocks |
| PagewatchExtract.ChangeIsMeasured | internal/extract/pagewatch/block.go:209-218 | that count is the length of all added and removed texts put one after the other |
| PagewatchExtract.ExtractPage | internal/extract/pagewatch/pagewatch.go:25-134 | the decisions in program order give the specified outcome for every stored state, page and configuration |
| PagewatchExtract.NewStateIsBaseline | internal/extract/pagewatch/pagewatch.go:71-84 | a state just written is what the next crawl compares with, and it carries the page's keys, with or without display HTML |
| PagewatchExtract.EveryCrawlDoes | internal/extract/pagewatch/pagewatch.go:33-115 | a page without blocks is an error; a first crawl announces the page with one empty item; an unreadable or outdated state is replaced in silence; every state written holds the page's keys and hashes; and none is written exactly when, under the same patterns, the joined keys agree |
| PagewatchExtract.ItemIffKeysChanged | internal/extract/pagewatch/pagewatch.go:112-133 | one crawl reports at most one item; it does so exactly when the content hash moved, enough text changed and a reportable key was gained or lost; the item then carries exactly the bag difference |
| PagewatchRuns.StateFollowsLastPage | internal/extract/pagewatch/pagewatch.go:86-133 | over any run, from any stored state, with saves failing at will, the state is compared as the last saved page |
| PagewatchRuns.RepollIsSilent | internal/extract/pagewatch/pagewatch.go:112-115 | after any run, polling the last saved page again yields no item and no state write |
| PagewatchRuns.PassesAsUnchangedIff | internal/extract/pagewatch/pagewatch.go:112-115 | after any run, from any stored state, a page passes as unchanged exactly when its keys, joined by line breaks, give the text the last saved page's gave |
| PagewatchRuns.StateCarriesLastPage | internal/extract/pagewatch/pagewatch.go:71-133 | over runs of pages with separable keys, such as rendered elements, the stored keys are exactly the last saved page's, even after HTML was dropped |
| PagewatchRuns.ItemsCompareConsecutivePages | internal/extract/pagewatch/pagewatch.go:117-133 | over such runs each crawl reports the bag difference between the last saved page and this one, and does so exactly when a key of it is reportable and its text reaches the threshold |
| PagewatchRuns.MergedParagraphsPassUnseen | internal/extract/pagewatch/pagewatch.go:112-115 | with the ignore pattern `</?p>`, two paragraphs merging into one at a line break pass as unchanged |
| PagewatchReplay.AccountIsExact | internal/extract/pagewatch/pagewatch.go:117-133 | in changes mode, over any run, with any size threshold and with entry and state writes failing at will: the first baseline, with every delivered item and every swallowed change booked to it and everything told before a lost state write taken back, is exactly the bag compared with now; so the items alone balance exactly when the rest cancels out |
| PagewatchReplay.RightThroughoutIff | internal/crawler/crawler.go:357-387 | in changes mode, a reader who replays every delivered item over the first baseline is right after every crawl exactly when no saved crawl drops a change for its size and no crawl delivers an item and then loses its state |
| PagewatchReplay.ItemsRebuildThePage | internal/extract/pagewatch/pagewatch.go:117-133 | in changes mode, if neither happens, replaying all items over the first baseline gives the bag of keys the source is compared with now |
| PagewatchReplay.AdditionsCoverThePage | internal/extract/pagewatch/pagewatch.go:119-125 | in additions mode, with any threshold and whichever writes fail, every key the source is compared with was there at the start, has been reported since, or came with a change dropped for its size |
| PagewatchReplay.WatchTellsTheWholeStory | internal/extract/pagewatch/pagewatch.go:86-133 | from the first saved crawl on, over separable keys: the first page's keys, the delivered items, the changes dropped for their size and what was told before a lost state write account for exactly the last saved page's keys; if there is nothing of the latter two, replaying the items gives them |
| PagewatchReplay.AdditionsTellEveryKey | internal/extract/pagewatch/pagewatch.go:119-125 | in additions mode, over separable keys, every key of the last page was on the first page, has been reported, or came with a change dropped for its size |
| PagewatchReplay.SmallChangesAreNeverTold | internal/extract/pagewatch/pagewatch.go:119-122 | while every crawl whose entry is written stays under the threshold nothing is ever told, although the state follows the last saved page, however far that drifts |
| PagewatchDrift.PageDriftsUnseen | internal/extract/pagewatch/pagewatch.go:119-122 | two paragraphs of two replaced one after the other are never reported, although nothing of the first page is left; replaced at once they are |
| PagewatchDrift.LostStateMisleadsIff | internal/crawler/crawler.go:357-387 | a crawl that delivers a change and loses its state, then a saved one of any page that drops nothing: a reader of both items is right in the end exactly if the first told of no key's count except falls of keys that are gone in the end |
| PagewatchDrift.ReplacedParagraphIsToldTwice | internal/crawler/crawler.go:357-387 | one paragraph of two replaced, and the first crawl to see it loses its state: the next tells the same change again, and replaying both misses the page |
| PagewatchRuns.ContentGuidsFollowTheKeys | internal/extract/pagewatch/pagewatch.go:205-214 | in content mode, over separable keys, two items share a GUID exactly when their pages have the same keys, whatever the states and times were |
| PagewatchRuns.RevisionGuidsFollowTheClock | internal/extract/pagewatch/pagewatch.go:205-214 | in revision mode two items share a GUID exactly when their sources have the same link and their crawls the same time |
| PagewatchRuns.PatternChangeIsSilentIff | internal/extract/pagewatch/pagewatch.go:99-115 | changed ignore patterns over an unchanged page pass silently exactly when the saved display HTML was kept and they uncover no hidden block, whatever the keys look like |
| PagewatchRuns.PatternChangeReportsUncovered | internal/extract/pagewatch/pagewatch.go:99-133 | otherwise the state is written anew; there is no item if the saved HTML had been dropped or the uncovered text is under the threshold, and else one item whose added keys are exactly the masks of the uncovered blocks and which removes nothing |
| PagewatchRuns.HiddenParagraphIsReported | internal/extract/pagewatch/pagewatch.go:99-133 | dropping the pattern that hid one of two paragraphs reports that paragraph as added on a page that did not change |
| Tables.LocalRefreshSuffices | internal/store/entries.go:116-136 | refreshing only the touched feeds gives the same table as recounting every subscription |
| StoreInvariant.EveryReachableStateIsValid | internal/store/entries.go:80-136 | after any interleaving of the write transactions: a state row exists exactly for the entries of subscribed feeds, its copied columns are the entry's, and every unread count equals a recount |
| StoreInvariant.StepKeepsValid | internal/store/subscriptions.go:26-66 | each single transaction, of the crawler, a user or a collector, keeps that invariant together with unique GUIDs and enforced references |
| StoreInvariant.UpsertEntriesKeeps | internal/store/entries.go:28-121 | a batch keeps the invariant although it refreshes only its own feed, and only when something was new |
| StoreInvariant.MarkReadKeeps | internal/store/entries.go:376-459 | marking by id and marking everything keep the invariant while refreshing only the feeds of the rows they mark |
| StoreInvariant.MarkFeedReadKeeps | internal/store/entries.go:483-512 | so does marking a feed up to a date, which refreshes only if a row changed |
| StoreInvariant.SubscribeKeeps | internal/store/subscriptions.go:19-66 | subscribing keeps it, first time or again |
| StoreInvariant.UpdateSubscriptionKeeps | internal/store/subscriptions.go:274-316 | so does retitling, rating and refiling, although it refreshes nothing |
| StoreInvariant.UnsubscribeKeeps | internal/store/subscriptions.go:73-104 | unsubscribing keeps it with no refresh at all |
| StoreInvariant.RecomputeKeeps | internal/store/ignore_words.go:91-124 | recomputing ignored flags keeps it while refreshing one user only |
| StoreInvariant.DeleteKeeps | internal/store/gc.go:56-100 | deleting entries with their cascade keeps it while refreshing only the feeds they were in |
| StoreInvariant.OrphansHaveNoRows | internal/store/gc.go:103-126 | deleting orphan feeds reaches no state row, subscription or count, which is why it refreshes nothing |
| StoreMeaning.UpsertCounts | internal/store/entries.go:28-121 | the returned number is the number of entries added, and none is ever removed |
| StoreMeaning.RefetchUndisturbed | internal/store/entries.go:80-113 | re-fetching never clobbers a read mark or an ignored flag, and never moves, re-dates or drops an entry |
| StoreMeaning.KnownBatchAddsNothing | internal/store/entries.go:47-51 | a batch of known GUIDs adds no entry and no row and moves no count |
| StoreMeaning.BatchKnows | internal/store/entries.go:86-109 | after a batch the feed knows exactly the GUIDs it knew and those in the batch |
| StoreMeaning.NewEntriesAreNew | internal/store/entries.go:86-109 | every entry a batch adds is of its feed and has a GUID of the batch that was not known before |
| StoreMeaning.DatelessBacklogSuppressed | internal/store/entries.go:53-84 | of the items without a date in any batch, mixed or not, at most one arrives unread, unless a dated item stands for the same GUID |
| StoreMeaning.MarkingConserves | internal/store/entries.go:395-417 | each unread count drops by exactly the rows of that subscription that were counted and got marked |
| StoreMeaning.MarkEntriesReadMeaning | internal/store/entries.go:376-423 | exactly the caller's unread rows among the listed ids become read, every other row is as before, and the result is the number of those rows |
| StoreMeaning.MarkEntriesReadConserves | internal/store/entries.go:395-417 | every count moves by exactly its share, and nobody else's moves |
| StoreMeaning.MarkAllMeaning | internal/store/entries.go:428-459 | exactly the user's unread rows become read and are counted; afterwards the user's counts are all zero and nobody else's moved |
| StoreMeaning.MarkFeedMeaning | internal/store/entries.go:483-512 | exactly this user's unread rows of this feed published by the date become read, every other row is as before, and the result is the number of those rows; the count becomes the number of visible rows published later, and every other subscription is untouched |
| StoreMeaning.UnsubscribeUndoesSubscribe | internal/store/subscriptions.go:26-104 | unsubscribing after a first subscription restores every table exactly |
| StoreMeaning.ResubscribeOnlyRefiles | internal/store/subscriptions.go:19-66 | subscribing again changes folder and title and nothing else |
| StoreMeaning.PatchBackRestores | internal/store/subscriptions.go:265-316 | patching a subscription and writing its old columns back restores every table |
| StoreMeaning.NewSubscriberSeesBacklog | internal/store/subscriptions.go:43-66 | a new subscriber's unread count is the number of existing entries their own ignore words leave visible |
| StoreMeaning.RecomputeIsExact | internal/store/ignore_words.go:91-124 | right after a recompute every flag of the user agrees with the current words and no read mark moved |
| StoreMeaning.RemoveUndoesAdd | internal/store/ignore_words.go:22-53 | removing a word just added restores every table, if the flags were current before |
| StoreMeaning.TrimSpaceIs | internal/store/ignore_words.go:23 | the word registered is the text without the blanks around it, and has none at either end |
| StoreMeaning.OnlyBlanksAreRefused | internal/store/ignore_words.go:23-26 | a word is refused exactly when it consists of blanks |
| StoreEffects.BatchIsExact | internal/store/entries.go:28-121 | every entry there was, of this feed or not, is as before or refreshed from the last item with its GUID; every other GUID of the batch gets an entry dated by its first item and described by its last; the rows added are unread unless their item is dateless and shares no GUID with the first dateless one, and hidden exactly if an own word occurs in title or body; no row there was changes |
| StoreEffects.SubscribeIsExact | internal/store/subscriptions.go:19-66 | subscribing fails exactly for a feed that is not there; otherwise it adds or refiles one subscription and gives its user one row of every entry of the feed, unread, with the entry's dates and hidden by own words only; every other row and subscription is as before |
| StoreEffects.UnsubscribeIsExact | internal/store/subscriptions.go:73-104 | unsubscribing takes away one subscription and its user's rows of that feed, and nothing of anybody else's |
| StoreEffects.PatchIsExact | internal/store/subscriptions.go:274-316 | a patch writes each column it names, 0 clearing the folder, and no other column or row; it fails exactly when it names one and the subscription is missing |
| StoreEffects.WordIsRegistered | internal/store/ignore_words.go:22-34 | afterwards the trimmed word is among the user's own, every word there was is still there, and no other is new |
| StoreEffects.RecomputeFlags | internal/store/ignore_words.go:91-124 | a recompute hides exactly the user's rows whose title or body one of their words occurs in, and recounts that user's subscriptions; nobody else's row or count moves |
| StoreEffects.PinIsExact | internal/store/pins.go:15-65 | an entry can be pinned exactly by those who follow its feed and unpinned exactly by those who pinned it; no other pin moves |
| Store.Store.UpsertEntries | internal/store/entries.go:28-121 | commits exactly the specified batch and its refresh, or rolls back on a foreign-key failure |
| Store.Store.MarkEntriesRead | internal/store/entries.go:376-423 | commits exactly the specified marks, refreshing feed by feed from the distinct feeds of the rows |
| Store.Store.MarkAllEntriesRead | internal/store/entries.go:428-459 | commits exactly the specified marks for every row of the user |
| Store.Store.MarkFeedReadBefore | internal/store/entries.go:483-512 | commits exactly the specified marks for one feed and date |
| Store.Store.UpsertSubscription | internal/store/subscriptions.go:19-66 | commits the subscription, its fan-out and its refresh, or fails and leaves the tables alone |
| Store.Store.UpdateSubscription | internal/store/subscriptions.go:274-316 | commits exactly the given columns, folder 0 clearing the folder; an empty patch succeeds, and any other reports a missing subscription and changes nothing |
| Store.Store.Unsubscribe | internal/store/subscriptions.go:73-104 | commits both deletes, or reports a missing subscription and changes nothing |
| Store.Store.AddIgnoreWord | internal/store/ignore_words.go:22-37 | commits the word, then recomputes |
| Store.Store.RemoveIgnoreWord | internal/store/ignore_words.go:40-55 | commits the deletion of an own word, then recomputes, or reports it missing |
| Store.Store.AddPin | internal/store/pins.go:15-50 | pins an entry the user can see, idempotently, and refuses any other |
| Store.Store.DeleteEntriesAndRefresh | internal/store/gc.go:56-100 | commits the deletion, the cascade and the refresh of each distinct feed, and returns the number deleted |
| Store.Store.DeleteOrphanFeeds | internal/store/gc.go:113-126 | commits the deletion of orphan feeds with everything below them |
| Store.TouchedFeeds | internal/store/gc.go:64-92 | the loop over returned rows counts them and collects each feed exactly once |
| Store.FirstDateMissing | internal/store/entries.go:53-62 | the loop finds the first item without a date |
| Store.PerformAll | internal/store/entries.go:80-136 | a live store that runs any list of transactions ends in the specified state, and that state satisfies the invariant |
| Retention.TrimKeepsTopAndPinned | internal/store/gc.go:37-50 | a trim leaves in each feed exactly its newest entries up to the limit, by date and id, and the pinned ones |
| Retention.TopIsNewest | internal/store/gc.go:37-50 | those are as many as the limit, or all there are, and each is newer than any entry outside |
| Retention.TrimLeavesSmallFeeds | internal/store/gc.go:37-50 | a feed within the limit loses nothing |
| Retention.ExcessGoesIff | internal/store/gc.go:37-50 | an entry outlives a trim exactly when it is pinned or fewer entries of its feed than the limit were published later, or at the same time with a larger id; rows and pins of the others go with them |
| Retention.OldEntriesGoIff | internal/store/gc.go:15-33 | an entry is collected exactly when it was last fetched before the date and nobody has it unread or pinned; its rows and pins go with it, all others stay, and no unread count changes |
| Retention.CollectorsCount | internal/store/gc.go:15-100 | both collectors return the number of entries deleted and add none |
| Retention.OrphansGoIff | internal/store/gc.go:103-126 | a feed is collected exactly when nobody subscribes to it and its last fetch, or its creation if never fetched, was before the date; exactly its entries go with it |
| Places.FollowListsEverything | internal/store/entries.go:190-225 | following next cursors over an unchanged set for any positive limit concatenates to the sorted list with no duplicate or gap, in one request more than there are full pages |
| Places.RequestsBound | internal/api/subscriptions.go:240-266 | the number of requests is between rows/limit and rows/limit + 1 |
| Places.ListsUnique | internal/store/entries.go:216-220 | the order by date and id determines the list |
| Queries.TodayBadgeMatchesList | internal/store/entries.go:254-309 | in every valid state the join-free count of today's unread equals the length of the unlimited list for the same cutoff |
| Queries.FeedBadgeMatchesList | internal/store/entries.go:190-225 | a subscription's cached unread count equals the length of its unread list |
| Queries.ListsOnlySubscriptions | internal/store/entries.go:190-225 | although the feed list joins no subscription, it shows only entries of feeds the user follows |
| Queries.RefiledEntriesMove | internal/store/entries.go:227-236 | refiling a subscription moves its visible entries, and no others, to the list of the new folder |
| Queries.EveryEntryHasItsLists | internal/store/entries.go:190-309 | what a user sees of a feed they follow is in the list of that feed, of one folder and of one rating and in no other; the unread lists hold its unread part, and today's what arrived since the cutoff |
| Queries.CursorRoundTrip | internal/api/subscriptions.go:270-285 | a printed cursor parses back to the pair it was printed from, negative dates included |
| Queries.CursorIsRead | internal/api/subscriptions.go:270-285 | any text is read as a cursor exactly when both sides of its first comma are 64-bit integers, and then as these |
| Queries.TextCursorIsExact | internal/api/subscriptions.go:254-266 | the textual next cursor of a page names the same place as the pair it stands for |
| Queries.PagesListEverything | internal/store/entries.go:190-309 | for every filter, from the first page, the pages concatenate to all selected rows in order |
| Queries.TextPagesListEverything | internal/api/subscriptions.go:231-285 | a client that passes each textual cursor back as given receives every selected row once, in order, in one request more than there are full pages |
| Browsing.BrowsingKeepsOrder | internal/store/entries.go:190-225 | whatever happens to the store between the requests, the pages concatenate to a strictly descending list, so no row comes twice |
| Browsing.PagesAreOfTheirMoment | internal/store/entries.go:190-225 | each page lists only rows selected at the very request that handed it out |
| Browsing.StableRowsAreListed | internal/store/entries.go:190-225 | a row selected at every request is handed out by the time there is no next cursor |
| Browsing.SelectedThroughoutIsListedOnce | internal/store/entries.go:190-309 | with any transactions between the requests, refiling and rating included, an entry that stays in the store and is selected whenever a page is asked for is handed out exactly once, at one place |
| Browsing.StepKeepsPlaces | internal/store/entries.go:86-109 | no transaction moves an entry in the order |
| Browsing.TextMakesNoDifference | internal/api/subscriptions.go:231-285 | passing the cursors back as text gives the client the very same pages, whatever changed between them |
| Decimal.ParseFormat | internal/api/subscriptions.go:270-285 | every 64-bit integer parses back from its decimal text |
| Decimal.ParsesIff | internal/api/subscriptions.go:270-285 | a text parses as a 64-bit integer exactly when it is its decimal text, with zeros in front and a fitting sign allowed |
| SelectorState.CommitState | internal/extract/selector/state.go:76-163 | the loops over history, imports, candidates and failures fold a crawl into the state the five rules specify |
| SelectorState.CommitKeepsHealthy | internal/extract/selector/state.go:76-163 | a commit keeps the history duplicate-free, capped and disjoint from the pending URLs, keeps pending counts below the limit, and records every import |
| SelectorState.SeenComesFrom | internal/extract/selector/state.go:91-113 | a URL becomes seen only by being seen before, imported, or sealed on a first crawl without having failed |
| SelectorState.CommitForgetsOnlyOldest | internal/extract/selector/state.go:137-157 | the new history is the old one followed by the imports, minus exactly as many of its oldest URLs as exceed the cap |
| SelectorState.ForgottenIff | internal/extract/selector/state.go:137-157 | a URL is forgotten exactly when it is among those oldest |
| SelectorState.ForgetsNothingIff | internal/extract/selector/state.go:137-157 | nothing is forgotten exactly when history and imports fit under the cap together |
| SelectorState.FirstCommitForgetsNothing | internal/extract/selector/state.go:96-157 | a first commit keeps every import and every sealed URL |
| SelectorState.CommitPending | internal/extract/selector/state.go:116-136 | a candidate that was not imported carries its old failures plus one if it failed now |
| SelectorCrawl.ExtractCandidates | internal/extract/selector/selector.go:126-199 | candidates are the usable links in document order, first occurrence only, without the page itself |
| SelectorCrawl.CandidatesAre | internal/extract/selector/selector.go:126-199 | the candidates are exactly the links of the first 500 items other than the page itself, each once and where it first stood |
| SelectorCrawl.ProcessItems | internal/crawler/scrape_selector.go:91-147 | a processed URL is reported failed exactly if full text is on, its fetch failed and it failed fewer than two times before, and imported exactly otherwise; articles are fetched exactly for what robots.txt allows, with full text on |
| SelectorCrawl.CrawlIsExact | internal/crawler/scrape_selector.go:62-170 | of one crawl: exactly the first `maxItems` unseen candidates (20 if unset, at most 50) become entries, but for those whose fetch failed a first or second time; these are pending with one failure more, the others in the history; what was not reached stays as it was, or is sealed on a first crawl; what is no candidate loses its failures |
| SelectorCrawl.ItemsKeepOrder | internal/crawler/scrape_selector.go:68-90 | entries come in the order of the page |
| SelectorCrawl.OtherCrawlsAre | internal/extract/selector/selector.go:69-104 | a page without items is an error; an unreadable state is replaced by one that holds the candidates and no failure, and nothing is imported |
| SelectorCrawl.ReportIsSound | internal/crawler/scrape_selector.go:68-158 | what the crawler reports always satisfies what `CommitState` needs: distinct unseen candidates, at most 500, imports and failures disjoint |
| SelectorCrawl.CrawlKeepsHealthy | internal/crawler/scrape_selector.go:28-170 | one crawl of any page keeps the persisted state healthy |
| SelectorRuns.VisitsKeepHealthy | internal/extract/selector/state.go:76-163 | so does any sequence of crawls of any pages, with state writes failing at will: no URL is ever both seen and pending, and no pending count exceeds two |
| SelectorRuns.YoungestStays | internal/extract/selector/state.go:137-157 | on an unchanged page the URLs added since the start stay the youngest of the history, out of reach of eviction, however full it is |
| SelectorRuns.NonEmptyCrawlSpends | internal/crawler/scrape_selector.go:75-147 | on an unchanged page every crawl with something new strictly lowers the total, over all candidates, of zero if added since the start and three minus failures if not |
| SelectorRuns.RemainingBudgetFalls | internal/crawler/scrape_selector.go:75-147 | while nothing is forgotten, so does the plain sum of three minus failures over the candidates still to do |
| SelectorRuns.UnchangingPageRunsOut | internal/crawler/scrape_selector.go:75-147 | an unchanging page has nothing new left after three saved crawls per candidate, from any healthy, missing or unreadable state, whatever the fetches did and however many state writes were lost in between |
| SelectorRuns.AtMostThreeFetches | internal/crawler/scrape_selector.go:173-175 | no article is fetched more than three times in the process, less its failures so far, plus once for each lost state write of a crawl that fetched it |
| SelectorRuns.NothingSavedNothingLearned | internal/crawler/scrape_selector.go:173-175 | the lost writes have to be counted: while none succeeds the same article is fetched every time |
| SelectorRuns.OfferedAgainIff | internal/extract/selector/state.go:137-157 | a URL already in the history and still listed is offered again exactly when the imports push it over the cap |
| SelectorRuns.ListedUrlOfferedAgain | internal/extract/selector/state.go:137-157 | a full history of 2000 URLs whose oldest is still listed beside one new link: that URL is offered again |
| SelectorRuns.CrawlForgetsNothingIff | internal/extract/selector/state.go:137-157 | a crawl of an established source forgets nothing exactly when history and imports fit under the cap |
| SelectorRuns.ResyncSealsThePage | internal/extract/selector/selector.go:85-97 | an unreadable state takes the whole page as known without importing anything |
| SelectorRuns.FirstCrawlSealsTheBacklog | internal/extract/selector/state.go:96-113 | after a first crawl the only candidates still new are those whose fetch was attempted, failed and is to be retried |
| CrawlWrites.CrawlStep | internal/crawler/crawler.go:328-387 | on a live store and source row: the writes happen one at a time, and at every moment before, between and after them whatever the history newly holds is written or sealed |
| CrawlWrites.CrawlStores | internal/crawler/crawler.go:328-387 | a crawl leaves every entry it decided on in the tables, with what was rendered for it, unless that write fails, and stores its new state unless either write fails |
| CrawlWrites.SeenOnlyAfterWritten | internal/crawler/crawler.go:328-387 | whatever fails and whatever state the source was in, a URL enters the history by import only if its entry is in the tables |
| CrawlWrites.SeenIsWrittenOrSealed | internal/crawler/crawler.go:328-387 | what a crawl makes seen was written, or was listed but not imported by a first or resynchronising crawl |
| CrawlWrites.SeenOnlyIfWritten | internal/crawler/crawler.go:328-387 | over any run of crawls, from any state, of any pages and with any faults, every URL in the history was there at the start, has its entry in the tables, or was sealed unimported by the first crawl that stored a state |
| CrawlWrites.RetryNeverDuplicates | internal/store/entries.go:47-51 | after a lost state write, the next crawl of any page with any outcomes keeps the feed, GUID, publication and creation date of every entry and every state row already there, and adds entries only for URLs not offered before |
| CrawlWrites.RetryOfWrittenChangesNothing | internal/store/entries.go:47-51 | and if it offers nothing else, it adds no entry and leaves every state row, subscription and count as it is |
| CrawlWrites.LostStateWriteHeals | internal/store/entries.go:47-51 | repeating a crawl whose state write was lost adds no entry, changes no state row or count and leaves the crawl state the lost crawl would have left |
| CrawlWrites.CrawlKeepsTablesValid | internal/crawler/crawler.go:328-387 | a crawl with any fault keeps the store's invariant |
| Boilerplate.State.Observe | internal/fulltext/boilerplate/boilerplate.go:261-276 | folding a page in updates the counters exactly as specified: counting, halving at 64 pages, eviction above 2000 |
| Boilerplate.State.Decay | internal/fulltext/boilerplate/boilerplate.go:278-288 | halves every counter in place and drops those that reach zero |
| Boilerplate.State.EvictTo | internal/fulltext/boilerplate/boilerplate.go:295-316 | sorting and deleting a prefix removes exactly the weakest signatures |
| Boilerplate.PrefixIsWeakest | internal/fulltext/boilerplate/boilerplate.go:299-315 | a prefix of the sorted list is the set of signatures with fewer than that many weaker ones |
| BoilerplateRuns.LearningStaysBounded | internal/fulltext/boilerplate/boilerplate.go:261-316 | from an empty state, after any duplicate-free pages: fewer than 64 pages, at most 2000 signatures, every count between 1 and the pages |
| BoilerplateRuns.ObserveIsExact | internal/fulltext/boilerplate/boilerplate.go:256-316 | one page adds one to the page count and to the counter of each signature on it, stamped with the count, and halves all at 64; a signature is then remembered unless its counter is zero or 2000 others are, each of them with more sightings, or as many and later, or as many, as late and later in the alphabet |
| BoilerplateRuns.LeadersAreUbiquitous | internal/fulltext/boilerplate/boilerplate.go:261-316 | the signatures counted on every page of the window are exactly those on every page so far, if the first page fits the cap |
| BoilerplateRuns.ChromeIsRecognised | internal/fulltext/boilerplate/boilerplate.go:151-157 | if the first page fits the cap, a signature on every page keeps a full count and is boilerplate from the second page on |
| BoilerplateRuns.StaleChromeIsForgotten | internal/fulltext/boilerplate/boilerplate.go:151-157 | a signature absent from 33 pages in a row is not boilerplate any more |
| BoilerplateRuns.ChromeLingersIff | internal/fulltext/boilerplate/boilerplate.go:151-157 | from any bounded state, a signature absent from every further page and never evicted is boilerplate exactly as long as its counter lets it linger, through at most 32 of them |
| BoilerplateRuns.AbsenceNeverConvicts | internal/fulltext/boilerplate/boilerplate.go:151-157 | being absent never makes a signature boilerplate |
| BoilerplateRuns.NewChromeIsLearned | internal/fulltext/boilerplate/boilerplate.go:278-288 | from any bounded state, a signature on every further page and never evicted is boilerplate exactly from the page its counter calls for, at the latest the 33rd, and stays so |
| BoilerplateRuns.RedesignConverges | internal/fulltext/boilerplate/boilerplate.go:278-288 | 33 pages after a redesign the old chrome is forgotten and new chrome that was never evicted is known |
| BoilerplateRuns.SparedIff | internal/fulltext/boilerplate/boilerplate.go:295-316 | eviction spares a signature exactly when fewer than the limit are stronger, by count, then by when they were last seen, then by name |
| BoilerplateRuns.FewAreNeverOutranked | internal/fulltext/boilerplate/boilerplate.go:295-316 | so none is ever evicted if all signatures that ever occur fit under the cap |
| BoilerplateRuns.EvictedSize | internal/fulltext/boilerplate/boilerplate.go:290-316 | eviction leaves exactly the limit when there was more, and changes no counter it keeps |
| BoilerplatePrune.Walk | internal/fulltext/boilerplate/boilerplate.go:186-218 | the recursive walk with its running count and record keeps, detaches and records exactly what is specified |
| BoilerplatePrune.ApplyIsExact | internal/fulltext/boilerplate/boilerplate.go:186-218 | a node is removed exactly if the walk meets it, outside `head` and not below another that goes, at depth ten or less, with enough text, mostly links, and known; and the signatures reported are exactly those of all candidates met, kept or removed |
| BoilerplatePrune.KeptIsTheRest | internal/fulltext/boilerplate/boilerplate.go:186-218 | what is kept is the page with exactly those nodes cut out, every other tag, attribute and text in place |
| BoilerplatePrune.DigestMeasures | internal/fulltext/boilerplate/boilerplate.go:318-376 | text and link length of a subtree are the lengths of its normalised texts, and of those of them below an `a` |
| BoilerplatePrune.SignatureIffSameMarkup | internal/fulltext/boilerplate/boilerplate.go:318-376 | if no hashes collide, signatures agree exactly for subtrees of the same tags, attributes in any order, and normalised texts |
| BoilerplatePrune.ApplyConservesText | internal/fulltext/boilerplate/boilerplate.go:179-218 | the text of the document before is the text after plus the text of the removed subtrees |
| BoilerplatePrune.ApplyRemovesOnlyChrome | internal/fulltext/boilerplate/boilerplate.go:179-255 | every removed subtree is an element at depth ten or less, other than html, body and head, with at least 32 characters of which at least half are link text, and a boilerplate signature, which is reported; reported signatures are distinct; the removed text is at most twice the link text inside it |
| BoilerplatePrune.PruneConservesLength | internal/fulltext/boilerplate/boilerplate.go:336-376 | normalised text length is conserved as well |
| BoilerplatePrune.SessionsStayBounded | internal/fulltext/boilerplate/boilerplate.go:179-316 | observing what pruning reports, over any pages, keeps the learner within its bounds |
| BoilerplatePrune.NothingKnownNothingCut | internal/fulltext/boilerplate/boilerplate.go:179-218 | a learner that knows nothing cuts nothing |
| Robots.PathMatches | internal/crawler/robots.go:207-232 | the scan returns the verdict of the greedy leftmost matcher |
| Robots.MatchesIffLeftmost | internal/crawler/robots.go:207-232 | for every pattern, anchored or not: it matches exactly if its pieces, each put where it first occurs after the one before and the first at the start, all have a place, and the last ends the path if the pattern is anchored |
| Robots.OnlySplitIs | internal/crawler/robots.go:214 | the pieces are the only list of texts without `*` that gives the pattern back when joined by it |
| Robots.MatchesIsSound | internal/crawler/robots.go:207-232 | a reported match is one: some split of the path matches the pieces in order, ending at the path's end for an anchored pattern |
| Robots.MatchesIsComplete | internal/crawler/robots.go:207-232 | no match is missed by a pattern without an anchor or without a wildcard |
| Robots.TrapIsMissed | internal/crawler/robots.go:228-230 | every anchored pattern with a wildcard describes a path it does not match |
| Robots.ExactIffNotAnchoredWildcard | internal/crawler/robots.go:207-232 | the greedy matcher decides the pattern language exactly for the patterns that are not both anchored and with a wildcard |
| Robots.MatchRules | internal/crawler/robots.go:186-203 | the verdict is that of the earliest among the longest matching rules, and allowed when none matches |
| ElementIndex.BuildIndex | web/src/lib/selectorGen.ts:29-47 | the index maps every id to its element and every parent to its children in order |
| ElementIndex.IsDescendantOrSelf | web/src/lib/selectorGen.ts:340-353 | the upward walk decides reachability through parent links |
| ElementIndex.CollectSubtreeIds | web/src/lib/selectorGen.ts:328-338 | the downward stack walk collects exactly the elements for which the upward walk is true |
| SelectorGen.MatchChain | web/src/lib/selectorGen.ts:138-157 | the upward loop decides whether a chain matches an element |
| SelectorGen.ChainMeansLevels | web/src/lib/selectorGen.ts:138-157 | a chain matches exactly when each compound fits the ancestor at its distance, a body compound fitting the missing parent of a top-level element |
| SelectorGen.NthOfTypeCounts | web/src/lib/selectorGen.ts:226-229 | the position a compound is pinned by is the number of siblings with the same tag up to the element |
| SelectorGen.WideningNarrows | web/src/lib/selectorGen.ts:200-215 | putting an ancestor's compound in front never enlarges the match set |
| SelectorGen.Widen | web/src/lib/selectorGen.ts:191-216 | the loop stops where the recursive widening does: at the first unique chain, at the top, or six ancestors up |
| SelectorGen.WidenedSpells | web/src/lib/selectorGen.ts:191-216 | a widened chain spells out the container and its ancestors without a gap, and its head has no parent when the top was reached |
| SelectorGen.WidenedIs | web/src/lib/selectorGen.ts:191-216 | its compounds are, for the container, tag and stable classes, and for each ancestor its id if it has one and tag and stable classes if not |
| SelectorGen.WidenedIsShortest | web/src/lib/selectorGen.ts:208-215 | every shorter chain gone through on the way is not unique |
| SelectorGen.BuildUniqueAncestorChain | web/src/lib/selectorGen.ts:180-239 | the method chooses among id, widened, body-headed and pinned chains exactly as specified |
| SelectorGen.UniqueChainMatchesContainer | web/src/lib/selectorGen.ts:180-239 | whichever form is chosen, the chain matches the container it was built for |
| SelectorGen.UniqueWheneverALevelIs | web/src/lib/selectorGen.ts:180-239 | if any level gone through is unique, that is the last one added and the chain returned is unique |
| SelectorGen.OwnIdIsUsedIff | web/src/lib/selectorGen.ts:184-187 | a container is named by its id alone exactly when no other element has that id |
| SelectorGen.UniqueIffAFormIs | web/src/lib/selectorGen.ts:180-239 | the chain returned is unique exactly when the id, the widened chain, the counted chain or, at the top, one of them headed by the body is |
| SelectorGen.ItemCandidateIsExact | web/src/lib/selectorGen.ts:277-308 | when the container chain is unique, the item candidate matches exactly the container's children with the clicked level's tag and all its stable classes |
| SelectorGen.SiblingCandidate | web/src/lib/selectorGen.ts:286-294 | the container chain followed by the level always matches the level itself and, where that chain is unique, exactly the container's children like it |
| SelectorGen.LevelCandidate | web/src/lib/selectorGen.ts:269-301 | a level gives a candidate exactly when it repeats at least twice among siblings or, failing three of those, document-wide; the candidate matches at least everything the level was scored by |
| SelectorGen.ScoreIs | web/src/lib/selectorGen.ts:269-296 | a level is scored by its siblings of the same tag and stable classes; below three of these by all such elements of the page if there are more; it takes a score of two, and a level scored by its siblings is looked for below its container's chain |
| SelectorGen.LastResort | web/src/lib/selectorGen.ts:219-238 | if no form is unique, the chain returned is the widened one whose head carries the number of siblings with its tag up to it |
| ItemCandidates.ChainUp | web/src/lib/selectorGen.ts:254-266 | the walk up from the click, cut at its depth, visits the element and its ancestors in order |
| ItemCandidates.OfferedAre | web/src/lib/selectorGen.ts:268-325 | at most the limit is offered, no selector twice, candidates from siblings first and then by score; each is the candidate of some level with the best score its selector has there, and a level is passed over only for lack of room and never for a candidate ranked behind it |
| ItemCandidates.TiesGoToTheCloser | web/src/lib/selectorGen.ts:268-325 | candidates from siblings come first, then the higher score; of two alike in both, the one whose selector comes up first on the way up |
| ItemCandidates.OfferedRepeat | web/src/lib/selectorGen.ts:293-301 | every candidate offered matches the level it was made for and at least one element more |
| ItemCandidates.GenerateItemCandidates | web/src/lib/selectorGen.ts:249-325 | the walk, the loop with its map and the ranking offer exactly that, and nothing for an unknown id |
| TitleSelector.RestrictIsSubtree | web/src/lib/selectorGen.ts:362-386 | filtering by the collected ids keeps exactly the item and what is below it |
| TitleSelector.TitleCandidate | web/src/lib/selectorGen.ts:362-386 | there is none exactly for the item itself and for elements outside it; otherwise it matches the clicked element and nothing but elements below the item and possibly the item itself, by the plain compound if that is unique there and by the pinned one if not |
| TitleSelector.PositionInside | web/src/lib/selectorGen.ts:376-384 | inside an item every element below it has the same position among its siblings as in the whole page, and the item always counts as the first of its type |
| TitleSelector.TitleIsUniqueIff | web/src/lib/selectorGen.ts:362-386 | the preview shows the clicked element alone exactly unless another element below the item has its tag, all its stable classes and its position, or the item has its tag and classes and it is the first of its type |
| TitleSelector.TitleIsFoundIff | internal/extract/selector/selector.go:236-247 | applied to the item, the selector finds the clicked element exactly unless the item, or an earlier element below it, has its tag, all its stable classes and its position in the page |
| TitleSelector.PreviewIsRightIff | internal/extract/selector/selector.go:236-247 | a selector that is unique in the preview finds the clicked element exactly unless the item looks like it at the same position in the page |
| TitleSelector.ItemAnswersForItsChild | web/src/lib/selectorGen.ts:376-386 | an item with one child just like it: the item is among the matches and is taken for the title |
| TitleSelector.UniqueInPreviewYetMissed | web/src/lib/selectorGen.ts:376-386 | the second of two like items, clicked on the second of its two like children: unique in the preview, yet the item itself is taken for the title |
| Sanitize.Walker.AppendSanitized | internal/inspect/sanitize.go:149-193 | the recursive walk appends to output and index, and advances the counter, exactly as specified |
| Sanitize.ShownIsTheAllowedInput | internal/inspect/sanitize.go:149-193 | read as a list of tags and texts, what is shown is the input filtered by each token's own ancestry, at any depth |
| Sanitize.IndexIsTheAllowedInput | internal/inspect/sanitize.go:149-206 | the index lists, in document order, exactly the allowed input elements with their tag, classes and id |
| Sanitize.WalkAllIndexes | internal/inspect/sanitize.go:149-206 | the index is the preorder of the page actually shown, each line with its real parent |
| Sanitize.WalkAllNumbers | internal/inspect/sanitize.go:149-206 | elements are numbered consecutively and every parent has a smaller number |
| Sanitize.Run | internal/inspect/sanitize.go:88-118 | the tags and texts shown, with their attributes, are those of the input whose whole ancestry is on the allow-list and not inside `style`, `br`, `hr` or `img`, in document order, and none of them is script, frame, object, embed, form, svg, link or meta; the index lists exactly these elements, numbered 1 to n in output preorder, and both subtree walks agree on it |
| Routes.SplitJoined | web/src/state/url.ts:133-148 | any list of overlays, in any order and with repeats, reads back from its comma list |
| Routes.DecodeEncode | web/src/state/url.ts:94-222 | decoding an encoded route gives it back exactly when its view is nameable; a rating outside 0 to 5 comes back as the home view |
| Routes.EncodeInjective | web/src/state/url.ts:94-140 | different nameable routes have different URLs |
| Routes.DecodedIsNameable | web/src/state/url.ts:154-222 | whatever address is decoded, the result is nameable |
| Screen.SignalStore.ApplyRoute | web/src/state/url.ts:261-285 | writing a route onto the signals makes it the route on screen, overlays in canonical order |
| Screen.SignalStore.Hydrate | web/src/state/url.ts:317-321 | after a load, reload or history move the screen shows the decoded address, its overlays in canonical order, whatever was shown before |
| Screen.SignalStore.SyncUrl | web/src/state/url.ts:337-346 | the URL effect leaves an address that is the encoding of the screen and, for nameable views, decodes to it, and is then at rest |
| Screen.ApplyIsInvertedIff | web/src/state/url.ts:226-285 | applying and reading back gives the same route exactly when its overlays were in canonical order |
| Screen.ReadThenApply | web/src/state/url.ts:226-285 | applying the route on screen leaves it on screen, whatever other signals were set |
| Screen.OneRewriteSettles | web/src/state/url.ts:317-346 | from any address one load and rewrite reaches a fixed point: loading again, with any signals, changes neither route nor address |

## Left out

- Fetching, charset decoding, HTML and JSON parsing and rendering, Readability, bluemonday and cascadia: foreign code, whose results are inputs here.
- SQLite itself: rows are maps, a transaction is one step that commits or leaves the tables alone, and the declared cascades are explicit. Row ids are natural numbers.
- User, folder and session tables, and of the scrape-source table all but the state column; the check that a folder exists; every column of `UpdateFeedAfterFetch` except `last_fetched_at`.
- Whether `ignored` is current after an article is rewritten: updating an entry does not recompute it, so it is claimed only right after insertion or a recompute.
- `SearchEntries`, statistics and feed claiming: easy members or plain queries.
- Strings are sequences of characters; the byte and rune lengths the code distinguishes are not.
- Titles, dates and summaries of selector items, and which nodes count as items: inputs; a listing page is the list of links found.
- Changes of selector configuration between crawls beyond what one crawl's parameters say.
- The page tree of the boilerplate pass and of the sanitizer is a value, so detaching and appending in place, and aliasing between nodes, are not captured; order is.
- `TitleSelector.TitleIsFoundIff`: about the sanitized page the click was made on; elements that sanitizing drops can shift positions in the page as fetched, which is not modelled.
- `findContainingItem`. Candidates are told apart by their chains, not by the CSS text these print to. A class list is a set, so a class repeated in one attribute, or one containing a dot, is not told apart as the joined signature would.
- `isStableClass`: an arbitrary predicate on class names.
- `parseRobotsTxt`, `selectGroup` and the rules cache: parsing and plumbing; ties and group merging follow the code, not sections 2.2.1 and 2.2.2 of RFC 9309.
- `HostSemaphore`: its gap check is not atomic with recording the start, so neither of its limits holds in all interleavings.
- Page-watch configuration errors and the failures of URL, HTML and pattern parsing; the rendered entry body and title.
- `PagewatchRuns.StateCarriesLastPage`: requires separable keys, which rendered elements are; keys whose tags an ignore pattern eats need not be, and for them `PagewatchRuns.PassesAsUnchangedIff` says exactly what passes as unchanged.
- Percent-encoding of query text, folder and rating labels, and loading data for a route. Ids in routes are natural numbers of any size.
- `lastSeen` of a signature may exceed `pages` after halving, so no such bound is claimed.
