# Dashboard history

The integration keeps every Home Assistant dashboard under version control. All
state sits on one linear git history: a commit holds, for every dashboard, its
configuration (`<key>.yaml`) and its metadata (`meta/<key>.yaml`); descriptions
are notes, named versions are tags `<key>/v<major>.<minor>.<patch>`. These files
model the parts of it that carry the promises and prove the promises.

* **Forget** (`Rewrite.dfy`, `HistoryStore.dfy`). One dashboard is taken out of
  every commit; what becomes empty is dropped, the rest is re-parented, notes and
  tags move along. The plan is written to a checkpoint before the first ref moves.
  `HistoryStore` is a class whose fields are what is on disk. A process may die
  before any disk write: the field `life` counts the writes it still gets to make,
  and every step asks for one. Commits are values, so a commit is its own
  content hash and equal fields are the same commit.
* **Readers without the lock** (`ReadRace.dfy`, `Watched.dfy`). The same steps as a
  state machine, a read as instants along a run, and the retry that decides whether
  to trust it. Cursors and generations for paging. `Watched` shows that every disk
  write of the store is such a step, or one no reader can tell.
* **Index and paging** (`RevisionIndex.dfy`, `Paging.dfy`). The cached index that
  is extended commit by commit, the walk with its look-ahead, and following a
  cursor while others save.
* **Matching two states** (`Claims.dfy`, `CardMatching.dfy`, `SectionPairs.dfy`,
  `GapPairing.dfy`, `SectionMoves.dfy`, `Deletions.dfy`, `Following.dfy`,
  `Reordering.dfy`, `BestMatch.dfy`). The passes over cards, the pairing of sections,
  the longest run that says which sections moved, cards deleted from many lists at
  once, sections put in another order, and which of two like cards was edited.
* **Put back and undo** (`Dashboard.dfy`, `FindRemoved.dfy`, `PutBack.dfy`,
  `RoundTrip.dfy`, `SectionTrip.dfy`, `ViewTrip.dfy`, `Dragging.dfy`, `Undo.dfy`). What
  disappeared, where it goes back, what a whole round of it restores for cards, sections and views,
  and the order of an undo's steps.
* **Versions** (`TagNames.dfy`, `Versions.dfy`, `VersionWords.dfy`,
  `DayMarks.dfy`, `Milestones.dfy`, `DayPass.dfy`). Names that can stand beside each other, numbers
  read off names and counted up, the words in a tag, the days of a history, and the
  marks nobody asked for, as a state machine in which saves and people get in between
  any two reads.
* **Wording** (`Wording.dfy`). The line a change is recorded with, and reading the
  counts back off it.

`Git.dfy`, `Sequences.dfy` and `Sorting.dfy` are what the others share.

Where a comment in the source promises more than the code keeps, the model follows
the code, a lemma exhibits what breaks the promise, and an if-and-only-if says when
it holds:

* HEAD can return to an earlier value (`Rewrite.HeadComesBackExactly`,
  `ReadRace.HeadReturnsUnnoticed`).
* A read that begins inside a forget can be accepted
  (`ReadRace.SafeExactlyOutsideAForget`), and HEAD and checkpoint looked at one
  after the other let a page end silently (`ReadRace.SilentEndBetweenTheLooks`,
  `ReadRace.NeverSilentExactlyWhenSound`).
* "False is permanent" holds but for today's newest state
  (`DayMarks.FalseIsPermanentExactly`).
* A new title with a blank line in it loses the marker of an automatic version, unless
  the marker opens what stands behind that line (`VersionWords.FlagSurvivesExactly`).
  After such a retitle the pass marks the day a second time
  (`Milestones.LostMarkerMarksTwice`); what holds of every run is one version that
  reads as automatic a day while nobody's words pretend, and one made by the pass a
  day while no retitle loses the marker.
* Cards deleted from several sections of a view at once are not reported as such
  where a section that lost one reads as what another has become
  (`Deletions.DeletionsAreSeenExactly`, `Deletions.ReadsAsTheOther`).
* Of several sections alike the last one is offered back, and refused where another
  stands between (`SectionTrip.WholeSectionRoundTrips`,
  `SectionTrip.FirstOfTwinsIsRefused`).
* Several cards of a plain list go back to their places only in a right order
  (`RoundTrip.BackInAPlainListExactly`, `RoundTrip.SecondFirstGoesAstray`).
* A view without a path is not found again behind an entry that is no view
  (`PutBack.FoundAgainExactly`), and a whole view goes back too far ahead there
  (`ViewTrip.ViewBackExactly`, `ViewTrip.PathlessViewComesBackExactly`).

Premises: histories are linear; keys given to forget hold no slash; local days
follow time (`DayMarks.Monotone`) and time does not run backwards.

## Model

| member | source | states |
|---|---|---|
| Git.ChainIsInjective | custom_components/dashboard_history/store.py:1318-1325 | A linear history holds every commit once: no commit is its own ancestor. |
| Rewrite.MetaWithout | custom_components/dashboard_history/store.py:2183-2215 | The metadata folder loses exactly the dashboard's own entry, and is handed on unchanged where it holds none. |
| Rewrite.EntryWithout | custom_components/dashboard_history/store.py:2183-2215 | One tree entry keeps every file but the dashboard's two; it goes only where nothing of it stays. |
| Rewrite.TreeWithout | custom_components/dashboard_history/store.py:2183-2215 | The rebuilt tree holds exactly the other files; the early answer "the same tree" is given only for a tree that is the same. |
| Rewrite.Nearest | custom_components/dashboard_history/store.py:1968-1998 | What stands in a commit's place always has that commit's tree without the dashboard's two files, and is None only where that tree is empty. |
| Rewrite.Rewritten | custom_components/dashboard_history/store.py:1983-1998 | A survivor keeps time, message, author and everything else but tree and parent. |
| Rewrite.RewrittenChain | custom_components/dashboard_history/store.py:1958-2005 | The new history is the surviving commits of the old one, each once, in order. |
| Rewrite.NothingLeftBehind | custom_components/dashboard_history/store.py:1751-1868 | No commit reachable afterwards holds or touches either file of the forgotten dashboard. |
| Rewrite.SurvivorsStayApart | custom_components/dashboard_history/store.py:1966-1998 | Two commits never become one survivor, so the mapping of kept commits is injective and no description can overwrite another. |
| Rewrite.OthersKeepTheirHistory | custom_components/dashboard_history/store.py:1958-2005 | Another dashboard's list of revisions after the rewrite is its old list mapped commit by commit; none of its commits is dropped. |
| Rewrite.OthersReadTheSame | custom_components/dashboard_history/store.py:1958-2005 | With the descriptions moved along, every row of every other dashboard (state, metadata, time, message, description) reads as before. |
| Rewrite.RebuiltIdentically | custom_components/dashboard_history/store.py:1976-1998 | The rewrite leaves HEAD the very same commit if and only if the history never held the dashboard and has no empty commit. |
| Rewrite.HeadComesBackExactly | custom_components/dashboard_history/store.py:2597-2599 | The comment there is too strong: a forget takes HEAD back to an earlier commit, or to none, if and only if that commit's history holds nothing to take out and of all that came after it nothing survives. |
| Rewrite.ForgetMovesHead | custom_components/dashboard_history/store.py:1751-1868 | A forget of a dashboard the history ever held always moves HEAD. |
| Rewrite.HeadReturns | custom_components/dashboard_history/store.py:2597-2599 | The smallest case: save a dashboard the history never held and forget it, and HEAD is the commit it was before. |
| Rewrite.OneOwner | custom_components/dashboard_history/store.py:534-546 | A tag belongs to at most one dashboard, whatever slashes a key holds. |
| Rewrite.OwnsExactly | custom_components/dashboard_history/store.py:534-546 | A tag is a dashboard's version if and only if it is the key, a slash and a name without one. |
| Rewrite.PlannedTag | custom_components/dashboard_history/store.py:2310-2373 | A tag keeps words and time and moves to a commit whose other files are byte-identical; a stranger's tag on the history is dropped only where nothing was left to mark. |
| Rewrite.StandInIsReachable | custom_components/dashboard_history/store.py:2310-2373 | Where a tag is moved to is reachable from the new HEAD. |
| Rewrite.EverHeldExactly | custom_components/dashboard_history/store.py:3405-3417 | The history counts as ever having held a dashboard if and only if some commit of it holds its state, a deleted one included. |
| HistoryStore.HistoryStore.RewriteNotes | custom_components/dashboard_history/store.py:2286-2307 | Deleting and refiling, from whatever a crash left, ends at exactly the planned descriptions. |
| HistoryStore.HistoryStore.RewriteTags | custom_components/dashboard_history/store.py:2376-2399 | Ends at the planned tags laid over the others; interrupted anywhere, no other tag reads differently. |
| HistoryStore.HistoryStore.DropFromIndex | custom_components/dashboard_history/store.py:2162-2180 | The dashboard's two files leave index and worktree; interrupted anywhere, nothing else does. |
| HistoryStore.HistoryStore.GarbageCollect | custom_components/dashboard_history/store.py:2123-2160 | No object a ref reaches or the index stages is ever deleted; a finished collection leaves exactly those. |
| HistoryStore.HistoryStore.FinishForget | custom_components/dashboard_history/store.py:2027-2120 | From any disk on which a plan has been begun: if it finishes, the disk is the one of a forget nothing interrupted; if it dies, the plan can still be finished. Whatever it wrote, it wrote in the order generation, HEAD, descriptions, loose tags, packed tags, index, collection, checkpoint. |
| HistoryStore.HistoryStore.ReconcileIndexWithHead | custom_components/dashboard_history/store.py:1176-1245 | Before a repair begins exactly the paths of the dashboard that HEAD lacks leave the index, and once it ends the worktree too; every other path is left alone; interrupted, the index is what it was. |
| HistoryStore.HistoryStore.RepairPendingForget | custom_components/dashboard_history/store.py:1870-1950 | A restart finds no checkpoint and changes nothing, or throws an untrustworthy one away and touches no ref, or takes an honest plan to the finished disk, or dies and leaves it to be finished. |
| HistoryStore.HistoryStore.RewriteHistory | custom_components/dashboard_history/store.py:1958-2005 | The loop, oldest first, computes the stand-in of every commit and the map of the kept; kept plus dropped is the old number of commits. |
| HistoryStore.HistoryStore.PlannedNotes | custom_components/dashboard_history/store.py:2001-2005 | Every description on the survivor of the commit it described, and no other, in whatever order the notes are read. |
| HistoryStore.HistoryStore.PlannedTagChanges | custom_components/dashboard_history/store.py:2310-2373 | Every tag is planned for its stand-in or its deletion, and every new tag object is in the store before the checkpoint is written. |
| HistoryStore.HistoryStore.PlanForget | custom_components/dashboard_history/store.py:1952-2019 | The plan decided before a ref moves: HEAD, notes, tags, the next generation; all its targets are stored, and the number of removed commits is the difference of the two histories. |
| HistoryStore.HistoryStore.SignPlan | custom_components/dashboard_history/store.py:1952-2020 | From the instant the checkpoint is written the plan can be finished; dying before leaves nothing but unreferenced objects. |
| HistoryStore.HistoryStore.Forget | custom_components/dashboard_history/store.py:1751-1868 | Once it ends, no commit of the history holds the dashboard's state; where none did nothing changes, where one did HEAD moves and the disk is the finished one, or a crash left a plan to finish. |
| HistoryStore.HistoryStore.WriteSnapshot | custom_components/dashboard_history/store.py:1281-1325 | Refused while a checkpoint stands; otherwise one commit on top of HEAD holding state and metadata, or none exactly where HEAD holds both already; the worktree reads them either way, and nobody else's staged files change. |
| HistoryStore.HistoryStore.MarkDeleted | custom_components/dashboard_history/store.py:1344-1374 | Refused while a checkpoint stands; otherwise one commit without the dashboard's files, or none, and nothing changed, exactly where HEAD does not hold it. |
| HistoryStore.HistoryStore.SetDescription | custom_components/dashboard_history/store.py:1704-1749 | Refused while a checkpoint stands; an unknown commit changes nothing; words that come to nothing take the note away, others are filed with their ends stripped. |
| HistoryStore.HistoryStore.CreateVersion | custom_components/dashboard_history/store.py:1376-1408 | Made exactly where no checkpoint stands, nothing is in the way of the name, the revision is stored and git takes the name; each refusal is decided both ways; then it is one tag more and no other is touched. |
| HistoryStore.HistoryStore.RemoveVersion | custom_components/dashboard_history/store.py:1588-1647 | Takes a tag exactly where no checkpoint stands and it is this dashboard's and there, and each refusal is decided; then that one goes, no other, and the answer is what was taken. |
| HistoryStore.HistoryStore.Endure | custom_components/dashboard_history/store.py:864-884 | Crash recovery converges: after any sequence of crashed restarts and refused writes, one restart that is not interrupted ends at the disk of an uninterrupted forget, generation raised by exactly one. |
| HistoryStore.HonestPlanIsAccepted | custom_components/dashboard_history/store.py:1066-1144 | A checkpoint written by a forget passes validation at every instant until it is deleted. |
| HistoryStore.PlannedObjectsSurvive | custom_components/dashboard_history/store.py:2123-2160 | Everything a plan points at is among what the pruning spares. |
| HistoryStore.NeededHolds | custom_components/dashboard_history/store.py:2123-2160 | A collection spares every commit and every text HEAD or a tag leads to, every tag object, and every text the index stages. |
| HistoryStore.NeededIsReached | custom_components/dashboard_history/store.py:2123-2160 | And it spares nothing else. |
| HistoryStore.StillInFlight | custom_components/dashboard_history/store.py:2027-2120 | A step that touches only what the plan is about keeps the plan finishable. |
| HistoryStore.EveryoneElseKeepsTheirHistory | custom_components/dashboard_history/store.py:1751-1868 | On the finished disk every other dashboard's rows read as before the forget. |
| HistoryStore.VersionsMarkTheSameBytes | custom_components/dashboard_history/store.py:2310-2373 | On the finished disk every remaining tag is reachable and marks the same bytes for every other dashboard; of the others on the history only those are gone that had nothing left to mark. |
| HistoryStore.ForgottenForGood | custom_components/dashboard_history/store.py:2027-2120 | On the finished disk the two files are in no reachable commit, no tagged tree and not in the index, and the store holds exactly what refs and index need. |
| ReadRace.InvNext | custom_components/dashboard_history/store.py:2071-2120 | What every step of a forget, a save, a crash and a restart keeps about HEAD, notes, tags, generation and checkpoint. |
| ReadRace.AcceptedIsOneGeneration | custom_components/dashboard_history/store.py:2557-2623 | Everything read between two equal looks at HEAD is of one generation of HEAD, notes and tags, if no forget stood past its HEAD move at the first and HEAD did not leave and come back. |
| ReadRace.TrustedIsOneGeneration | custom_components/dashboard_history/store.py:2557-2623 | What the retry returns over a run - looks and checkpoint readings being observations at instants of it - is of one generation at every instant of the returned build, under the same two conditions. |
| ReadRace.SafeExactlyOutsideAForget | custom_components/dashboard_history/store.py:2604-2619 | Both directions: an accepted attempt can be trusted if and only if it did not begin between a forget's HEAD move and the deletion of its checkpoint. |
| ReadRace.HeadReturnsUnnoticed | custom_components/dashboard_history/store.py:2597-2599 | A run of saves and forget steps in which HEAD leaves and comes back within one attempt and the notes are gone in between. |
| ReadRace.RetryingAForgetRace | custom_components/dashboard_history/store.py:2557-2623 | One to three builds: the loop ends at the first attempt that is trusted, or the third; a failed build ends it only where it is trusted or the last, and what is returned is the value of a trusted attempt. |
| ReadRace.CounterStandsStill | custom_components/dashboard_history/store.py:2058-2072 | Between two equal looks at HEAD, the second with no checkpoint, the generation does not change. |
| ReadRace.NeverSilentExactlyWhenSound | custom_components/dashboard_history/store.py:2897-2908 | Both directions: a cursor and a generation can never come back as an empty page if and only if HEAD accounts for the generation already, or the forget under way keeps the cursor. |
| ReadRace.CursorNeverEndsSilently | custom_components/dashboard_history/operations.py:455-482 | A cursor and a generation handed out by one accepted attempt come back, at any later point of any run, as the older tail, a restart or a retry. |
| ReadRace.SilentEndBetweenTheLooks | custom_components/dashboard_history/operations.py:708-732 | With HEAD and checkpoint looked at one after the other a run exists in which the page is silently empty. |
| Watched.EveryWriteIsSeen | custom_components/dashboard_history/store.py:2027-2120 | The readers' state machine covers the store: for whatever `FinishForget` wrote, and wherever it died, there is a run of it that shows the disk after every single write, in order. |
| Watched.RestartIsSeen | custom_components/dashboard_history/store.py:1870-1950 | A repair that begins again is a step of that machine, whatever the crash left. |
| Watched.AcceptedMetOneState | custom_components/dashboard_history/store.py:2557-2623 | A read accepted between two equal looks at HEAD met, on every disk in between, the whole state before the forget, or every time the whole state after it: HEAD, descriptions and tags. |
| Watched.CursorGivesTheRest | custom_components/dashboard_history/operations.py:455-482 | A cursor and a generation handed out by one accepted attempt come back at any later point of any run as exactly the rest of the list the cursor was in, or as a restart or another try. |
| RevisionIndex.IndexIsUnique | custom_components/dashboard_history/store.py:2780-2803 | What an index over a walk holds is determined by the walk: keys, order, names and the newest removed metadata. |
| RevisionIndex.IndexWalk | custom_components/dashboard_history/store.py:2780-2803 | One pass over a walk, newest first, builds the index of that walk. |
| RevisionIndex.BuiltIndex | custom_components/dashboard_history/store.py:2780-2803 | The index from nothing is the index of the whole history. |
| RevisionIndex.ExtendedIndex | custom_components/dashboard_history/store.py:2806-2870 | Extending answers None for each of the three reasons, and otherwise the index of the new commits followed by the old ones. |
| RevisionIndex.ExtendedIsBuilt | custom_components/dashboard_history/store.py:2806-2870 | Where the cached HEAD is an ancestor, the extended index equals the rebuilt one in every field, the newest deletion included. |
| RevisionIndex.IndexCache.RevisionIndex | custom_components/dashboard_history/store.py:2700-2747 | Over any number of calls the cached index is the index of today's history, however it came about. |
| RevisionIndex.TouchingIsChanges | custom_components/dashboard_history/store.py:2872-2914 | What the index files under a dashboard is what a walk filtered on its paths finds. |
| Paging.IndexedRevisions | custom_components/dashboard_history/store.py:2872-2914 | The indexed answer is the path-filtered history, all of it or what is older than the cursor; None exactly for a cursor off the history. |
| Paging.WalkedChanges | custom_components/dashboard_history/store.py:2625-2698 | The walk with its look-ahead of one or two entries gives the first `limit` changes with their true predecessors. |
| Paging.ListChanges | custom_components/dashboard_history/store.py:2408-2522 | Both routes give the same: the changes asked for, each with the state really before it. |
| Paging.PreviousChange | custom_components/dashboard_history/store.py:3049-3102 | The predecessor of a change by either route, and None for a commit that is not the dashboard's. |
| Paging.NextIsPrevious | custom_components/dashboard_history/store.py:2509-2522 | In a whole list the predecessor of a change is the next entry, so the listing agrees with `previous_change`. |
| Paging.History | custom_components/dashboard_history/operations.py:556-591 | One entry more than asked decides the cursor: it is there exactly where something older is. |
| Paging.PagesAreExact | custom_components/dashboard_history/operations.py:485-618 | Whatever is saved between requests, the pages put together are the history as of the first one: no gap, no repeat. |
| SectionMoves.RunBound | custom_components/dashboard_history/analyze/matching.py:508-531 | No rising run is longer than the table says. |
| SectionMoves.LongestTable | custom_components/dashboard_history/analyze/matching.py:517-521 | The table, filled from the back, holds the length of the longest rising run from each position. |
| SectionMoves.KeptRun | custom_components/dashboard_history/analyze/matching.py:522-530 | The forward pick is the greedy run of that length. |
| SectionMoves.KeptIsLongestAndFirst | custom_components/dashboard_history/analyze/matching.py:508-531 | What stays rises, no rising run is longer, and of the longest it is the one whose positions come first: where another differs it is later at the first difference. |
| SectionMoves.Moved | custom_components/dashboard_history/analyze/matching.py:508-531 | Moved and kept are all the pairs, each once, and the moved ones come in the order their sections stood in before. |
| Claims.ClaimedIsMaximal | custom_components/dashboard_history/analyze/matching.py:324-337 | After an exact pass no old and new card of one key are both left unclaimed. |
| Claims.LeftOver | custom_components/dashboard_history/analyze/matching.py:324-337 | What a pass leaves of a key is exactly the surplus of one side, and nothing on the other. |
| CardMatching.Pass | custom_components/dashboard_history/analyze/matching.py:316-337 | The bucketed loop is the plain rule: each old card in turn takes the first free new one of its key. |
| CardMatching.ClaimBest | custom_components/dashboard_history/analyze/matching.py:350-354 | Best first: every candidate is claimed or lost one of its cards to one that ranks before it. |
| CardMatching.ClaimUnique | custom_components/dashboard_history/analyze/matching.py:145-160 | Pairs exactly the groups with one card on each side. |
| CardMatching.Renamed | custom_components/dashboard_history/analyze/matching.py:173-202 | Pairs the text cards of one kind in one list, nothing claimed before, exactly where one is left on each side. |
| CardMatching.Swapped | custom_components/dashboard_history/analyze/matching.py:227-262 | Pairs the named entity cards alike in all but the entity in one list, nothing claimed before, exactly where one is left on each side. |
| CardMatching.PairedByContent | custom_components/dashboard_history/analyze/matching.py:266-282 | Text cards first and the swapped ones off what that leaves; badges have no second step. |
| CardMatching.Reordered | custom_components/dashboard_history/analyze/matching.py:379-418 | Exactly the in-place cards whose rank among the survivors of their list changed. |
| CardMatching.ReorderedIsReported | custom_components/dashboard_history/analyze/matching.py:379-418 | Of two cards that stayed in one list and changed their order one is reported moved. |
| CardMatching.ReportedIsReordered | custom_components/dashboard_history/analyze/matching.py:379-418 | A card reported moved within its list changed its order with another that is still in it. |
| CardMatching.MatchSlots | custom_components/dashboard_history/analyze/matching.py:286-369 | The four passes give a matching: exact passes as specified, edited pairs best matched and then the only ones of their kind in one translated place, the rest left over. |
| BestMatch.CloserIsTheSurvivor | custom_components/dashboard_history/analyze/matching.py:44-61 | Of two cards of one weak key in a list, one gone and one edited, the one taken as edited is the one with the larger share of its fields in common with the new card, or the same share and further ahead; the other is the one removed. |
| BestMatch.EditIsSeen | custom_components/dashboard_history/analyze/matching.py:91-97 | The same between two states of a whole dashboard, with nothing else reported. |
| BestMatch.RenamedExactly | custom_components/dashboard_history/analyze/matching.py:173-202 | A card counts as renamed if and only if it is the one text card of its kind left in its list and exactly one of that kind is left there now. |
| BestMatch.SwappedExactly | custom_components/dashboard_history/analyze/matching.py:227-262 | A card counts as swapped if and only if it is the one left in its list with this content but for the entity, and exactly one such is left there now. |
| CardMatching.EveryCardOnce | custom_components/dashboard_history/analyze/matching.py:286-369 | Every old card is in place, displaced, edited or removed, and in only one of them; and dually for every new card. |
| CardMatching.ContentIsCounted | custom_components/dashboard_history/analyze/matching.py:286-369 | Of every content the old cards left removed or edited number exactly the surplus of old over new, and dually: never both sides. |
| CardMatching.NothingChangedNothingReported | custom_components/dashboard_history/analyze/matching.py:286-369 | Slots matched with themselves, no section moved, report nothing. |
| RoundTrip.NothingAgainstItself | custom_components/dashboard_history/analyze/matching.py:76-130 | A dashboard compared with itself, sections and all, reports nothing. |
| CardMatching.DeletionIsSeenAsDeletion | custom_components/dashboard_history/analyze/matching.py:95-99 | Deleting any cards from lists that hold none twice reports exactly those as removed and nothing else, even with identical cards untouched in other lists. |
| Deletions.DeletionsAreSeenExactly | custom_components/dashboard_history/analyze/matching.py:76-130 | Cards deleted from any lists of a dashboard at once, none of which holds a card twice: exactly those are reported removed if and only if no section that lost a card is, as it was, what another of its view that lost one has become; and then nothing else is reported. |
| Deletions.ReadsAsTheOther | custom_components/dashboard_history/analyze/matching.py:95-99 | Two sections, the second one a copy of what the first becomes: the first one's card that is still there is reported, the second one's that went is not. |
| Deletions.DeletionsOutsideSectionsAreSeen | custom_components/dashboard_history/analyze/matching.py:76-130 | Deletions that touch no card of a section are reported as exactly that, without a further condition. |
| CardMatching.LeftClaimTheirPlaces | custom_components/dashboard_history/analyze/matching.py:316-337 | After a deletion every card still there claims its own list, whatever stands twice. |
| SectionPairs.PairViewSections | custom_components/dashboard_history/analyze/matching.py:422-477 | Identical at the same index, identical anywhere first free first, then same index with only settings or only cards changed; no section twice. |
| SectionPairs.NoTwinLeft | custom_components/dashboard_history/analyze/matching.py:422-477 | Of the sections left over no old one equals a new one. |
| SectionPairs.OneSectionsCards | custom_components/dashboard_history/analyze/matching.py:461-472 | Where only one section's cards, or only its settings, differ every section is paired with itself. |
| GapPairing.SectionsPairAround | custom_components/dashboard_history/analyze/matching.py:422-477 | One section gone, whatever stands twice: the last one like it is left over, and every other section before and every section now has its equal. |
| GapPairing.EarlierFirst | custom_components/dashboard_history/analyze/matching.py:324-337 | Of two sections alike the one asked first is never left without a partner while the other has one. |
| Reordering.ReorderingMovesNoCard | custom_components/dashboard_history/analyze/matching.py:112-119 | Whatever order the sections of however many views were put in, and whatever stands twice: no card is reported gone, added, edited or in another list. |
| Reordering.ResettingMovesNoCard | custom_components/dashboard_history/analyze/matching.py:422-477 | Another setting of a section moves none of its cards and reports none. |
| Reordering.PairedExactly | custom_components/dashboard_history/analyze/matching.py:481-504 | Sections are compared if and only if both views have one layout and one identity: the path where there is one, else the place. |
| Dashboard.BlocksApart | custom_components/dashboard_history/analyze/model.py:514-521 | Where no two views share a path, no two card lists of a dashboard are at one place. |
| Dashboard.BlocksBut | custom_components/dashboard_history/analyze/model.py:123-133 | Writing one card list anew changes that list in the flat order of all lists, and no other. |
| FindRemoved.PairSections | custom_components/dashboard_history/analyze/matching.py:481-504 | Every view of both states that kept its layout is paired, and no other. |
| FindRemoved.MatchCards | custom_components/dashboard_history/analyze/matching.py:76-130 | Sections first, then the passes over the shared views' cards with places followed through the pairing. |
| FindRemoved.SectionAnchor | custom_components/dashboard_history/analyze/matching.py:727-770 | The loop over the section's cards gives the survivors, how many of them stood ahead, and the neighbours that left within the view. |
| FindRemoved.FindRemoved | custom_components/dashboard_history/analyze/removed.py:19-105 | The items of all views, in order, of one comparison of the two states. |
| FindRemoved.OfferedOnlyIfMissing | custom_components/dashboard_history/analyze/removed.py:26-27 | A card is offered back only where today's dashboard has fewer of it: one that merely moved never is. |
| PutBack.FindInOrder | custom_components/dashboard_history/restore.py:107-119 | The greedy search answers exactly where the survivors embed in order in today's cards, and each at the earliest place any embedding has. |
| PutBack.AnchoredIndex | custom_components/dashboard_history/restore.py:75-120 | Answers exactly where the section is recognised, with the index behind the last survivor that stood ahead or before the first. |
| PutBack.BesideKeepsTheOrder | custom_components/dashboard_history/restore.py:115-120 | However the section grew, inserting there keeps survivors and card in the order they had. |
| PutBack.BesideIsThePlace | custom_components/dashboard_history/restore.py:115-120 | Where nothing was added since, that index is the old place. |
| PutBack.FoundAgainExactly | custom_components/dashboard_history/restore.py:42-57 | An item finds its view again if and only if no view ahead has its path or, for a view without one, everything ahead is a view: the recorded position does not count entries that are none. |
| PutBack.Reinsert | custom_components/dashboard_history/restore.py:206-293 | Refuses exactly where the item's conditions fail; otherwise the item is inserted at its place and nothing else changes. |
| PutBack.Park | custom_components/dashboard_history/restore.py:376-399 | A card goes to the end of the view's own cards, a section to the end of its sections; refused exactly where the view is gone. |
| PutBack.PutBackOrParked | custom_components/dashboard_history/restore.py:310-327 | An item is never both put back and parked, and in a sections view found by its path it is always one of them. |
| RoundTrip.ExactlyTheGone | custom_components/dashboard_history/analyze/matching.py:286-369 | With cards gone from one list of all different cards exactly those are given up on, whatever stands twice in other lists. |
| RoundTrip.ComparedExactly | custom_components/dashboard_history/analyze/removed.py:32-43 | For such a deletion the comparison gives up on the cards gone and on nothing else, and nothing left for another list. |
| RoundTrip.OfferedIsGone | custom_components/dashboard_history/analyze/removed.py:87-104 | Every item offered is one of the cards gone, with every card still there as its anchor. |
| RoundTrip.GoneIsOffered | custom_components/dashboard_history/analyze/removed.py:87-104 | Every card gone is offered. |
| RoundTrip.NotRefused | custom_components/dashboard_history/restore.py:264-293 | A card offered back to its section is not refused. |
| RoundTrip.BackInItsSection | custom_components/dashboard_history/restore.py:264-293 | It goes exactly where it was. |
| RoundTrip.PutBackInAnyOrder | custom_components/dashboard_history/restore.py:206-293 | Several cards gone from one section: along any run of put-backs each step restores one card in its place, and the last one the dashboard as it was. |
| RoundTrip.NeverStuck | custom_components/dashboard_history/restore.py:206-293 | Items are offered if and only if a card is gone, and none that is offered is refused. |
| RoundTrip.PutAllBack | custom_components/dashboard_history/restore.py:206-293 | Finding what is gone and putting one of it back, picked at will, as often as there are cards gone ends at the original dashboard. |
| Dragging.ComparedAfterDrag | custom_components/dashboard_history/analyze/matching.py:76-130 | Cards deleted from a section while others of it are dragged to other lists: exactly the deleted are removed, each dragged one is found where it went, and nothing is added or edited. |
| Dragging.OfferedAfterDrag | custom_components/dashboard_history/analyze/removed.py:35-42 | Then exactly the deleted cards are offered, each with every card still in the section as its anchor and the cards dragged within the view as departed. |
| Dragging.NotRefusedAfterDrag | custom_components/dashboard_history/restore.py:75-175 | Such an item is not refused if and only if a card of the section still stands in it, or no card dragged away within the view stands more than once, or in another section with the same settings. |
| Dragging.BackAfterDrag | custom_components/dashboard_history/restore.py:115-120 | It goes back among the cards still there, to its place between them. |
| SectionTrip.ProvenWholeExactly | custom_components/dashboard_history/analyze/matching.py:545-601 | A section that went is proven to have gone whole if and only if it held a card; of several alike it is the last one that is said to have gone. |
| SectionTrip.OfferedAlone | custom_components/dashboard_history/analyze/removed.py:63-86 | A section that went with its cards is offered as one item, at the place of the last one like it, and no card and no other view or section beside it. |
| SectionTrip.WholeSectionRoundTrips | custom_components/dashboard_history/restore.py:246-262 | The item is refused if and only if a section between the one that went and the last like it does not compare equal to them, and put back it makes the dashboard what it was if and only if those between are the same. |
| SectionTrip.DifferentSectionsRoundTrip | custom_components/dashboard_history/restore.py:246-262 | In a view whose sections all differ a section that held a card is offered, not refused, and put back the dashboard is what it was. |
| SectionTrip.FirstOfTwinsIsRefused | custom_components/dashboard_history/restore.py:246-262 | Of two like sections with another between them, the first one deleted is offered as the second and refused. |
| SectionTrip.SectionBackOrRefused | custom_components/dashboard_history/restore.py:231-262 | Whatever happened to a dashboard in between, and whatever stands twice: a section offered is refused, or its view gets back the very row of sections it had. |
| SectionTrip.ParkedIsOfferedNoMore | custom_components/dashboard_history/restore.py:376-399 | A section that was offered and parked is offered no more, in whatever later comparison. |
| RoundTrip.BackInAPlainListExactly | custom_components/dashboard_history/restore.py:289-292 | In a plain list a card goes back to its place if and only if nothing ahead of it is still gone or nothing behind it is left. |
| RoundTrip.OneCardOfAPlainList | custom_components/dashboard_history/restore.py:289-292 | A single deletion from a plain list round-trips. |
| RoundTrip.SecondFirstGoesAstray | custom_components/dashboard_history/restore.py:289-292 | Two cards put back the other way round end up behind the one they stood ahead of. |
| ViewTrip.ViewOfferedExactly | custom_components/dashboard_history/analyze/removed.py:45-62 | A view that went is offered if and only if it has a path or no view without one stands right behind it, which then has its key. |
| ViewTrip.ViewBackExactly | custom_components/dashboard_history/restore.py:218-229 | Put back it stands where it stood if and only if there are only views like it between its position among the views and its old place. |
| ViewTrip.NamedViewRoundTrips | custom_components/dashboard_history/restore.py:218-229 | A view with a path is offered, not refused, and comes back to its place if and only if every entry ahead of it is a view. |
| ViewTrip.PathlessViewComesBackExactly | custom_components/dashboard_history/restore.py:218-229 | A view without a path is offered, not refused and back in its place if and only if no view without one stands right behind it, none is like it, and every entry ahead of it is a view; for a path written as the empty text, if only its like stand between its position among the views and its place. |
| Undo.ApplyUndo | custom_components/dashboard_history/restore.py:498-603 | Removals highest first, insertions lowest first, parked ones last; or a refusal, and the lists handed in stay. |
| Undo.AppliedExactlyWhenItFits | custom_components/dashboard_history/restore.py:498-603 | A plan goes through if and only if each of its steps fits the dashboard as it is handed in: the expected item at its index, the list or a view for badges there, the view to park into there. |
| Undo.UndoConserves | custom_components/dashboard_history/restore.py:524-588 | Of every list and every content: what is left plus what was taken is what was there plus what was put in. |
| Undo.RemovalsTakeOut | custom_components/dashboard_history/restore.py:541-548 | In that order every removal takes the very item that stood at its index. |
| Undo.RefusedExactlyWhenMissing | custom_components/dashboard_history/restore.py:425-430 | All removals pass if and only if each expected item stands at its index in the state as it is. |
| Undo.InsertionsFill | custom_components/dashboard_history/restore.py:571-583 | In that order every insertion lands at the index it was given. |
| Undo.UndoRestoresTheList | custom_components/dashboard_history/restore.py:498-603 | A plan that takes out exactly the positions outside a kept run and fills exactly those of the earlier list outside it leaves that list and behind it what was parked into it, with the steps of any other lists in between. |
| TagNames.RefuseCollidingName | custom_components/dashboard_history/store.py:1667-1702 | The walk over the name's own prefixes and the names below finds every name in the way. |
| TagNames.RefusedExactlyWhenUnholdable | custom_components/dashboard_history/store.py:1667-1702 | A name is refused if and only if it exists already or git could not hold it beside the others. |
| TagNames.NamesStayApart | custom_components/dashboard_history/store.py:1667-1702 | Over any run of versions made, removed and forgotten no name is ever a directory of another. |
| Versions.ParseIsExact | custom_components/dashboard_history/versions.py:43-58 | A name reads as a number if and only if it is that number's name - or that with a line feed behind it, which `$` lets through. |
| Versions.Latest | custom_components/dashboard_history/versions.py:61-70 | The highest number among the names, None exactly where no name is a number. |
| Versions.Highest | custom_components/dashboard_history/versions.py:91-110 | The version that carries the number `latest` answers. |
| Versions.BumpIsNext | custom_components/dashboard_history/versions.py:113-122 | The next version at a level is the lowest one above with nothing but zeros below that level. |
| Versions.CandidatesAreAbove | custom_components/dashboard_history/versions.py:125-143 | Every candidate exceeds every existing number of its key, is no existing name, and is the current one once made. |
| Versions.CandidatesNeverCollide | custom_components/dashboard_history/versions.py:125-143 | A candidate and a version with a number are never in each other's way as tags. |
| Versions.FirstAutomaticIsOne | custom_components/dashboard_history/versions.py:251-264 | On a dashboard without a number the first automatic version is v1.0.0. |
| VersionWords.WordsComeBackExactly | custom_components/dashboard_history/store.py:344-365 | Title and description come back, ends stripped, if and only if the title has no blank line of its own. |
| VersionWords.MarkerComesBack | custom_components/dashboard_history/versions.py:176-191 | What a person wrote comes back from behind the marker, and the marker as a flag, for every text. |
| VersionWords.FlagIsCarriedOver | custom_components/dashboard_history/store.py:1487-1494 | Behind a title without a blank line a version reads as automatic exactly where it was made so or its words open with the marker. |
| VersionWords.FlagSurvivesExactly | custom_components/dashboard_history/store.py:1487-1497 | An automatic version given a new title stays automatic if and only if the title has no blank line of its own or opens with the marker again behind it. |
| VersionWords.PretendsExactly | custom_components/dashboard_history/versions.py:181-191 | Any other version reads as automatic if and only if its words pretend to: they open with the marker behind the title, or behind the first blank line of the title. |
| DayMarks.EndOfPreviousDay | custom_components/dashboard_history/versions.py:222-248 | The first state of another day than the newest one; all before it are of the newest one's day. |
| DayMarks.PredictionIsTheRule | custom_components/dashboard_history/versions.py:342-395 | The prediction equals the day rule run on the history after one more save now, window cut included. |
| DayMarks.ReturnsExactly | custom_components/dashboard_history/versions.py:342-395 | A mark comes back if and only if its state is within reach of the window, of another day, and everything behind it is of today. |
| DayMarks.FalseStaysFalse | custom_components/dashboard_history/versions.py:385-389 | A state of an earlier day that does not come back now never does, whatever is saved. |
| DayMarks.FalseIsPermanentExactly | custom_components/dashboard_history/versions.py:385-389 | Both directions: False is permanent unless the state is the newest there is and today is not over. |
| Milestones.NoMarkIsMissed | custom_components/dashboard_history/versions.py:267-300 | The bound on the marks looked up loses none that is about the day. |
| Milestones.RetitledReads | custom_components/dashboard_history/store.py:1487-1497 | New words leave a version reading as automatic exactly where it did and they keep the flag, or where it did not and they pretend. |
| Milestones.StepKeeps | custom_components/dashboard_history/milestones.py:345-482 | Every step of a save, a person, the floor and the day mark keeps: tags made after their states, counting ones numbered, one a day, and what the running pass has read is still true where it matters. |
| Milestones.AtMostOneADay | custom_components/dashboard_history/milestones.py:143-193 | Over every interleaving of floor, day marks, saves, creates, retitles with any words and removals no two versions that count mark states of one day, whichever way of counting. |
| Milestones.OneReadingAutomaticADay | custom_components/dashboard_history/milestones.py:345-482 | From nothing recorded: at most one version that reads as automatic a day, blank lines in titles and all, while nobody's words pretend to be one. |
| Milestones.OneMadeByThePassADay | custom_components/dashboard_history/milestones.py:345-482 | From nothing recorded: at most one version made by the pass a day, whatever words pretend, while no retitle loses the marker. |
| Milestones.LostMarkerMarksTwice | custom_components/dashboard_history/store.py:1425-1431 | Any one title that loses the marker, given to the first version, and a later save are enough for a run in which the pass makes two versions of one day. |
| DayPass.PassMarksExactly | custom_components/dashboard_history/milestones.py:345-482 | A pass nobody gets in the way of makes exactly the mark that is due: on the last state of the day before, if it has no version, no automatic one is about its day, the highest version holds another state and the next name is free; and otherwise none. |
| DayPass.FloorIsLaidExactly | custom_components/dashboard_history/milestones.py:143-196 | The floor is laid as v1.0.0 on the oldest state if and only if no name is a number yet, that state can be marked and nothing is in the way. |
| DayPass.AutomaticCountsPatches | custom_components/dashboard_history/versions.py:251-264 | Behind a number the next automatic version is one patch above the highest. |
| Wording.ReadCounts | custom_components/dashboard_history/analyze/explain.py:606-625 | The peeling loop is the plain rule: the first lead-in that leaves nothing but counts. |
| Wording.LeadInIsPeeled | custom_components/dashboard_history/analyze/explain.py:606-625 | Whatever a dashboard is called - colons, commas, counts in its name - the name is peeled off whole. |
| Wording.CountsComeBack | custom_components/dashboard_history/analyze/explain.py:538-590 | Off the message of a save exactly the parts printed are read, for any name and any counts. |
| Wording.LineIsInItsWords | custom_components/dashboard_history/analyze/explain.py:538-590 | Every count of a change is printed in its own words, singular and plural, in one order, and nothing else is. |
| Wording.OutsideExactly | custom_components/dashboard_history/analyze/explain.py:538-560 | A change is said to come from outside if and only if it was found by comparison and changed the configuration. |
| Wording.RenamedExactly | custom_components/dashboard_history/analyze/explain.py:499-510 | It is called renamed if and only if there is a title now and it was another or none before. |
| Wording.OthersHaveNoCounts | custom_components/dashboard_history/analyze/explain.py:499-510 | A rename to any title, a change of metadata, a first state, an outside change and "no card changes" never read as counts. |
| Wording.AddsExactly | custom_components/dashboard_history/analyze/explain.py:629-652 | A save's message says it added something if and only if cards, sections or views were added. |

## Left out

- The object store's format, packs, locks, reflogs and `os.walk` sizes: a foreign library and disk I/O; the store is a set of objects and refs.
- Merge commits, tags on commits off HEAD's history (planned as deleted), keys with a slash in forget: the class makes no merges and its trees have two levels.
- HistoryStore.HistoryStore.RepairPendingForget: the checkpoint it reads is the one a forget wrote; a checkpoint file that is not well formed and an unreadable generation file are disk faults outside the model.
- HistoryStore.HistoryStore.SetDescription: takes the commit a revision names as a parameter; how the library resolves an abbreviated one is not in it.
- HistoryStore.HistoryStore.CreateVersion: the library's own check of a name is the parameter `accepted`.
- Log lines and the wording of refusals.
- RevisionIndex.ExtendedIndex: on a diverged HEAD what the library's walk hands over is a premise; only the three reasons to build again are modelled.
- ReadRace.RetryingAForgetRace: takes the looks and builds of its attempts as given; `TrustedIsOneGeneration` ties them to a run. A resolve that fails in the synchronous version is not caught there.
- A forget whose reader holds on to objects already pruned: a read sees one instant, not a snapshot of the object store.
- Search, survey, measuring, restoring a whole state, the panel, services and capture.
- CardMatching.MatchSlots: a card brings its fingerprint, weak key and sibling key with it; how they are read off its fields, and that fingerprints of different cards differ, is assumed. `==` compares bodies, so `1` and `true` are alike there and not in fingerprints; a section's or view's own settings are one text, alike exactly when equal.
- FindRemoved.MatchCards: pairs sections and cards; which sections moved is decided in SectionMoves, which went whole in `FindRemoved.WentWhole`, and sections added are not settled. It is the call for cards, not the one for badges.
- FindRemoved.FindRemoved: labels and titles of items, and badges, are not in it.
- SectionTrip.ParkedIsOfferedNoMore: a view whose path is the empty text is parked into by the first view with that text; stated where that is the view itself.
- PutBack.Reinsert: works on values where the source changes a deep copy; a list of sections that is null and a missing one are the same.
- PutBack.Park: a `cards:` entry that is not a list, which the source refuses, has no counterpart.
- Undo.ApplyUndo: card and badge steps on a dashboard whose views share no path, of a plan that is not blocked; steps on whole views, on settings and on the list of sections are not modelled, nor is how a plan is made.
- Versions.ParseIsExact: digits are ASCII digits; the source's `\d` also takes other decimal digits.
- VersionWords.WordsComeBackExactly: white space is ASCII white space, and UTF-8 encoding is left out.
- Milestones.AtMostOneADay: one dashboard, one running instance and one time zone; a forget in between, a cancelled pass whose thread still writes and a clock set back are left out. Reads of immutable data (the time of a commit, whether two states are equal) are one step with the read before.
- Wording.OthersHaveNoCounts: metadata fields are named by words, without a digit at the head, a colon or a comma. How a change is counted is not modelled.
- Slots and views that are no objects hold no cards; other malformed configurations are not modelled.
