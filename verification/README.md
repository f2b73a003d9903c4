# Location page: change-feed reconciliation and location id

The location page of the FrontlinersPH relief-coordination site subscribes to
three Firestore collections (requests, commitments and revisions of one
location). Each subscription keeps a local list of documents. On every snapshot
it folds the snapshot's document changes into that list with
`handleSnapshotChanges`, then hands the list to the page:

- an `added` document is flattened to `{ id, ...data }`, put at the front, and
  the whole list is stably sorted newest first (lodash `sortBy` on the negated
  `created_at`);
- a `modified` document replaces every entry with the same id, in place;
- a `removed` document is filtered out by its key;
- any other change type is ignored.

The page also reads the location id out of the URL path with the regular
expression `/\/location\/(\w+)/` and redirects to the not-found page when there
is none.

Files:

- `wrappers.dfy`: `Option`, standing for a value that may be `null`.
- `feed.dfy` (module `Feed`): documents, changes, the stable sort, the three
  branches, the fold `ApplyChanges`, and `HandleSnapshotChanges`, the loop over
  `docChanges()`.
- `feed_laws.dfy` (module `FeedLaws`): what each kind of change does to the
  list, stability and uniqueness of the sort, and how batches compose.
- `watcher.dfy` (module `Watching`): class `Watcher`, the per-subscription
  `let data` that every snapshot overwrites.
- `location_id.dfy` (module `LocationPath`): the id extraction and its meaning
  as a leftmost, greedy regular-expression match.

Modelling decisions:

- `created_at.toDate()` becomes an integer timestamp (milliseconds), so the
  sort key `-d.created_at.toDate()` is `-createdAt`.
- `{ id: change.doc.id, ...change.doc.data() }` puts the spread after `id`. A
  stored field named `id` therefore replaces the key (`Feed.Flatten`). `modified`
  matches on the flattened id, but `removed` matches on `change.doc.id`, the key.
  The model keeps this asymmetry (`FeedLaws.RemovedMissesOverriddenId`).
- lodash `sortBy` is a library call; it is modelled by a stable insertion sort.
  `FeedLaws.StableSortIsUnique` shows that a stable newest-first sort has only
  one possible result, so the choice of algorithm does not matter.
- Two quirks are kept as written: `added` does not deduplicate, and `modified`
  does not re-sort.

## Model

| member | source | states |
|---|---|---|
| `Feed.Flatten` | src/page-templates/location.js:23 | the entry carries the stored timestamp and fields; its id is the key unless the stored data has its own `id` field, which then wins |
| `Feed.SortKey` | src/page-templates/location.js:24 | the `sortBy` iteratee `d => -d.created_at.toDate()`, the negated creation time; no contract of its own, its meaning (ascending key is newest first) is what `FeedLaws.SortByIsStableSort` proves |
| `Feed.InsertByKey` | src/page-templates/location.js:24 | for any list, the result holds exactly the old entries plus the new one (multiset and length); sortedness is `FeedLaws.InsertKeepsNewestFirst`, stability `FeedLaws.InsertKeepsGroups` |
| `Feed.SortBy` | src/page-templates/location.js:24 | the sort is a permutation of its input (same multiset, same length) |
| `Feed.AddDoc` | src/page-templates/location.js:22-24 | an `added` change yields the old entries plus the new document, as multisets |
| `Feed.ReplaceById` | src/page-templates/location.js:25-27 | the length is kept; each position becomes the new document exactly when its id matches and is otherwise untouched |
| `Feed.RemoveById` | src/page-templates/location.js:28-29 | an entry is in the result exactly when it was in the list and its id differs from the removed key; the list never grows |
| `Feed.Step` | src/page-templates/location.js:22-30 | one pass of the `forEach`: `added` flattens and sorts, `modified` matches on the flattened id, `removed` on the key `change.doc.id`, other types change nothing; no contract of its own, pinned down by `FeedLaws.AddedStep`, `FeedLaws.ModifiedStep`, `FeedLaws.RemovedStep` and `FeedLaws.AbsentChangeIsIgnored` |
| `Feed.ApplyChanges` | src/page-templates/location.js:21-33 | the fold of `Step` over `docChanges()` in order; no contract of its own, pinned down by `FeedLaws.ApplyChangesAppend` and the ensures of `Feed.HandleSnapshotChanges` |
| `Feed.HandleSnapshotChanges` | src/page-templates/location.js:20-34 | the loop over `docChanges()` returns the left fold of the single-change step over the changes, in order |
| `FeedLaws.SortByIsStableSort` | src/page-templates/location.js:24 | `sortBy` yields a list ordered by creation time, newest first, in which every group of equal timestamps keeps its input order |
| `FeedLaws.GroupsDetermineSortedList` | src/page-templates/location.js:24 | two newest-first lists with the same group for every timestamp are equal |
| `FeedLaws.StableSortIsUnique` | src/page-templates/location.js:24 | a list has only one stable newest-first sort |
| `FeedLaws.AddedStep` | src/page-templates/location.js:22-24 | after `added`: one entry more, the new document present, every old entry kept, newest first whatever the old order; among equal timestamps the new document comes first and the old ones keep their order; other timestamp groups are unchanged |
| `FeedLaws.AddedIsTheStableSort` | src/page-templates/location.js:22-24 | any stable newest-first sort of the new document followed by the old list is exactly what `added` returns |
| `FeedLaws.AddedKeepsDuplicates` | src/page-templates/location.js:22-24 | `added` does not deduplicate: the number of entries with the new document's id goes up by one even if that id was present |
| `FeedLaws.ModifiedStep` | src/page-templates/location.js:25-27 | after `modified` the id sequence is unchanged; entries with the document's id become the document, all others stay in place; the document is in the result exactly when its id was in the list |
| `FeedLaws.ModifiedKeepsOrderIfTimeKept` | src/page-templates/location.js:24-27 | a newest-first list stays newest first after `modified` when every replaced entry had the new document's timestamp |
| `FeedLaws.ModifiedCanBreakOrder` | src/page-templates/location.js:24-27 | `modified` does not re-sort: a concrete sorted list becomes unsorted when a document's timestamp changes |
| `FeedLaws.KeptPositionsAreTheOthers` | src/page-templates/location.js:29 | the kept positions are exactly the positions whose id differs from the removed key |
| `FeedLaws.KeptPositionsIncrease` | src/page-templates/location.js:29 | the kept positions are listed in increasing order |
| `FeedLaws.RemovedKeepsOrder` | src/page-templates/location.js:28-29 | the result of `removed` reads the kept positions in order: the k-th entry is the entry at the k-th position with a different id |
| `FeedLaws.RemovedStep` | src/page-templates/location.js:28-29 | after `removed` no entry has that id, and for every other id the number of entries is unchanged |
| `FeedLaws.RemovedKeepsNewestFirst` | src/page-templates/location.js:24-29 | removal keeps a newest-first list newest first |
| `FeedLaws.RemovedMissesOverriddenId` | src/page-templates/location.js:23-29 | an entry whose id came from a stored `id` field different from its key survives its own `removed` change |
| `FeedLaws.RemoveAbsentId` | src/page-templates/location.js:29 | filtering out an id that no entry has returns the list unchanged |
| `FeedLaws.AbsentChangeIsIgnored` | src/page-templates/location.js:25-30 | `modified` or `removed` for an id not in the list, and a change of any other type, return the list unchanged |
| `FeedLaws.ApplyChangesAppend` | src/page-templates/location.js:44-53 | folding two batches one after the other equals folding their concatenation, so a watcher's list after n snapshots is the fold of all their changes |
| `FeedLaws.UnmodifiedFeedStaysNewestFirst` | src/page-templates/location.js:20-34 | a newest-first list stays newest first through any batches that contain no `modified` change |
| `Watching.Watcher.constructor` | src/page-templates/location.js:43-44 | a new subscription's list is empty and it has received nothing |
| `Watching.Watcher.ApplySnapshot` | src/page-templates/location.js:50-54 | the list becomes the fold of the snapshot's changes over the old list and is what the callback receives; the list stays the fold of every change received since the start |
| `LocationPath.IsWordChar` | src/page-templates/location.js:113 | the `\w` class without the `u` flag: ASCII letters, digits and `_`; no contract of its own, used by `MatchesAt`, `WordRunLength` and the capture lemmas |
| `LocationPath.WordRunLength` | src/page-templates/location.js:113 | the greedy `\w+`: every character in the run is a word character and the run stops at the end of the path or at a non-word character |
| `LocationPath.FindMatch` | src/page-templates/location.js:113 | finds the leftmost position from which `/location/` followed by a word character occurs, or reports that there is none |
| `LocationPath.LocationId` | src/page-templates/location.js:113-114 | a returned id is non-empty and contains no `/` |
| `LocationPath.MaximalRunIsUnique` | src/page-templates/location.js:113 | the maximal run of word characters at a position is unique |
| `LocationPath.LocationIdIsNullIffNoMatch` | src/page-templates/location.js:113-114 | the id is null exactly when `/location/` followed by a word character occurs nowhere in the path |
| `LocationPath.LocationIdIsLeftmostCapture` | src/page-templates/location.js:113-114 | the id is `w` exactly when `w` is the maximal word-character run after the leftmost match (both directions) |
| `LocationPath.RedirectsExactlyWithoutMatch` | src/page-templates/location.js:134-136 | the page's `!id` test (null or empty) holds exactly when the path has no match |
| `LocationPath.Examples` | src/page-templates/location.js:113-114 | `/location/abc/requests` gives `abc`, and `/location/` gives null |

## Left out

- The Firestore subscriptions (`collection(...).where(...).onSnapshot`, location.js:36-81) are foreign calls. A snapshot is given to the model as its list of changes. `watchLocationData` only forwards `snapshot.data()` and is not modelled.
- Callback delivery and its ordering across the three subscriptions are not modelled. Each watcher is modelled on its own.
- Facebook popup sign-in (`checkUserAuth`) and the modal toggles (location.js:116-131) are a third-party auth flow with async UI state.
- `navigate('/404')` and the `useEffect` wiring (location.js:133-147) are side effects. Only the condition that triggers the first redirect is modelled (`RedirectsExactlyWithoutMatch`).
- The JSX rendering, `RevisionCard` and `console.log` (location.js:52, 83-263) are UI and I/O.
- `Date` and `Timestamp`: creation times are integer milliseconds. Timestamps that differ only below a millisecond tie in the source and are equal here. A missing or non-timestamp `created_at` throws in the source; this is not modelled.
- lodash `sortBy`'s handling of `NaN` and `undefined` keys is not modelled, since every key here is an integer.
- Document fields other than `created_at` and `id` are kept as an opaque string map; the type `Feed.Fields` excludes those two keys, which have their own places in `Feed.DocData`. JavaScript values of other types are not modelled.
- src/components/requests-table/index.js is rendering only. Its label lookup depends on constants that are not part of this model, and its date formatting is a foreign library.
- The pathname is a sequence of characters. JavaScript's UTF-16 code units and percent-encoding are not modelled. Word characters are ASCII only in both.
