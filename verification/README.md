# Proofs about an agent's desktop runtime

This project models the parts of the repository whose correctness depends on state,
interleaving or byte arithmetic, and proves what they promise. `dafny verify dfyconfig.toml`
checks all of it.

Protocols are state machines: one action for every stretch of code that runs without
interruption (between two lock operations or attribute accesses, between two awaits, one
database transaction), and theorems over every run. Beside each machine a class has the
source's own operations as methods, specified by the machine's step function. Algorithms with
loops are methods proved against specifications, whose own properties are then proved as lemmas.
Lemmas named `…Exactly`, and those about whole runs or two calls in a row, say what the specifications
come to without naming them: in terms of the rows, fields, lines and bytes before and after.

| module | what it models |
|---|---|
| `AccessibilityEnablement` | switching accessibility attributes on and back, with two levels of locks and two counters |
| `StableElementRefs` | names of interface elements that survive from one observation to the next |
| `WindowMirrors`, `WindowMirrorSteps`, `MirrorSessions` | opening and closing window mirrors on one actor, with leases |
| `AccessibilityWalk` | the bounded walk over an accessibility tree and the warning about it |
| `ObservationDiff`, `RecentStates` | comparing observations by fingerprints; states that expire |
| `ActivityDatabase`, `ActivityStore`, `ActivityTransactions` | the activity store: capture, wait, compare and commit; what each transaction does to each table |
| `SessionMerge` | the greedy merge of adjacent sessions |
| `DailyReport` | the daily summary row that reports and refreshes share |
| `SnapshotRotation` | storage tiers and paged eviction |
| `ToolReplacements`, `ToolBudget` | which tool results the model no longer needs; the request budget |
| `CodeModeCell` | concurrent host calls of one script, closing and draining |
| `ShellOutput` | shell excerpts in UTF-8 within a byte budget |
| `DailyNotes`, `Texts` | sections and entries of the daily note; trimming and lines |
| `ThinkingLevels` | levels of thinking and provider values |
| `PromptRefresh` | goal and date blocks in prompts |
| `Decimal`, `Wrappers` | numerals; optional values |

## Where the code does not keep a promise

For each of these a theorem says exactly when the code does keep it, and a lemma gives an
example in which it does not.

- Deleting a snapshot removes its recognised text by cascade without resetting the saved
  analysis. Analyses stay fresh exactly if no analysed session held that text
  (`RetentionExact`, `StaleExample`). `AlwaysFresh` is for steps without retention deletions.
- A text update looks the snapshot's session up before its transaction. If the snapshot's text
  belongs to another session by then, it is removed without resetting that one. Analyses stay
  fresh exactly if the update writes nothing or no analysed session other than the one looked
  up holds text of the snapshot (`OcrExact`, for every session looked up; `StaleExample`, in a
  database that `ExampleReached` reaches from the empty store). `AlwaysFresh` takes text updates
  within that condition.
- A merge of adjacent sessions is no fixed point. A second pass merges nothing exactly if no
  block meets the rule against its left neighbour (`SecondPassExactly`); a block does exactly if
  it is close enough, its first session shares no application with the left block, and the
  sessions it absorbed brought one that it shares (`PairMeetsExactly`; example
  `SecondPassMerges`).
- The comment on the selection of a thinking level says that an explicit null is not
  projected. The code projects it by position like a level that is not mentioned: it has no
  answer exactly if nothing is offered (`SelectionByPosition`, `NullExample`).
- Refreshing the date in a user message replaces the date put there before exactly if nothing
  stood in front before, or what the user wrote is at the end of the text, or is the text with
  some of the closing lines of the prefix before it (`LastReminderWins`). Otherwise the text
  grows (`Grows`). The refresh of the emotion block can bring such a message about
  (`EmotionBreaks`, `MessageExample`).
- A section reads back as its new content exactly if that has no heading line of its own
  (`ReadsBack`); otherwise it reads as what stands before the first one (`ReadsFirstPart`,
  `ReadsBackExample`).

## Model

| member | source | states |
|---|---|---|
| AccessibilityEnablement.InvStep | native/computer-use/AccessibilityEnablement.swift:14-44 | every step of every thread keeps: one entry per process and none unreferenced, both counters exact, one owner per entry lock, and attributes that fit the stage of the lock owner |
| AccessibilityEnablement.InvRun | native/computer-use/AccessibilityEnablement.swift:14-44 | the invariant holds after any interleaving of any number of threads and processes |
| AccessibilityEnablement.BodyRunsEnabled | native/computer-use/AccessibilityEnablement.swift:21-43 | while any body of a process runs, both of its attributes are on |
| AccessibilityEnablement.OneEntryPerProcess | native/computer-use/AccessibilityEnablement.swift:15-41 | two registered calls share an entry exactly if they are for the same process, and the table has an entry exactly while some call refers to it |
| AccessibilityEnablement.SectionsExclusive | native/computer-use/AccessibilityEnablement.swift:21-37 | no two threads are inside the attribute sections of one process at once |
| AccessibilityEnablement.BaselineRun | native/computer-use/AccessibilityEnablement.swift:23-24 | the value an attribute will be restored to is the original one exactly unless a read of it has failed |
| AccessibilityEnablement.QuietFits | native/computer-use/AccessibilityEnablement.swift:31-37 | when no call of a process is active, the attributes have the values to be restored |
| AccessibilityEnablement.AttributesRestored | native/computer-use/AccessibilityEnablement.swift:22-36 | over a whole run: once no call of a process is active, each attribute is what it was before the run, except that it is off exactly if a read of it has failed |
| AccessibilityEnablement.SectionRun | native/computer-use/AccessibilityEnablement.swift:21-37 | operations one thread performs in a row act on its own view alone, so a section can be taken as one step |
| AccessibilityEnablement.EnterRun | native/computer-use/AccessibilityEnablement.swift:21-29 | the operations of the entering section, run in a row, amount to one update |
| AccessibilityEnablement.LeaveRun | native/computer-use/AccessibilityEnablement.swift:30-37 | the same for the leaving section |
| AccessibilityEnablement.Enablement.Register | native/computer-use/AccessibilityEnablement.swift:15-19 | the first section takes exactly the registering step |
| AccessibilityEnablement.Enablement.Enter | native/computer-use/AccessibilityEnablement.swift:21-29 | the second section reads and switches on only for the first active call, and counts the call |
| AccessibilityEnablement.Enablement.Leave | native/computer-use/AccessibilityEnablement.swift:30-37 | the third section restores only after the last active call |
| AccessibilityEnablement.Enablement.Unregister | native/computer-use/AccessibilityEnablement.swift:38-41 | the last section removes the entry only when nobody refers to it |
| StableElementRefs.NamesSound | native/computer-use/StableElementRefs.swift:39-52 | one assignment gives distinct names, each kept with a unique match on both sides or newly numbered, whatever the order of keys |
| StableElementRefs.NumberFresh | native/computer-use/StableElementRefs.swift:48 | the next number is neither an old name nor one given in this assignment |
| StableElementRefs.EntrySound | native/computer-use/StableElementRefs.swift:42-52 | a name in use after an observation names an equal element as before, or carries a number from this observation |
| StableElementRefs.NamesStable | native/computer-use/StableElementRefs.swift:20-55 | over any run: a name seen in two results names equal elements and is in every result between them |
| StableElementRefs.NamesNotReused | native/computer-use/StableElementRefs.swift:48 | over any run: a name that was dropped is never given again |
| StableElementRefs.NamesDistinct | native/computer-use/StableElementRefs.swift:39-52 | different elements of one result have different names |
| StableElementRefs.KeptExactly | native/computer-use/StableElementRefs.swift:45-49 | an element has an old name exactly if it matches that one old element alone and no other new element matches it |
| StableElementRefs.BucketScan | native/computer-use/StableElementRefs.swift:41-43 | looking into the bucket of the hash finds what a scan of everything finds |
| StableElementRefs.SingleMatch | native/computer-use/StableElementRefs.swift:45 | one match found in a list means that the set of matching names is that one name, and the other way round |
| StableElementRefs.MatchesDecide | native/computer-use/StableElementRefs.swift:27-45 | the two bucket lookups decide exactly as the full pairwise comparison |
| StableElementRefs.Bucket | native/computer-use/StableElementRefs.swift:27-30 | every bucket holds the elements of its hash, all of them, in order |
| StableElementRefs.AssignNames | native/computer-use/StableElementRefs.swift:31-52 | the loop gives the specified names |
| StableElementRefs.Assigner.Assign | native/computer-use/StableElementRefs.swift:20-55 | the whole call: expiry, eviction, names, and the state remembered |
| StableElementRefs.AssignFirst | native/computer-use/StableElementRefs.swift:25-52 | the first call for a key numbers all elements in a new namespace, in the order of their keys |
| StableElementRefs.NumbersInOrder | native/computer-use/StableElementRefs.swift:39-52 | elements that keep no name get the next numbers in the order of their keys |
| StableElementRefs.AssignAgain | native/computer-use/StableElementRefs.swift:20-55 | two calls for one key: less than 60 seconds apart the namespace and the numbers go on, and an element has an earlier name exactly if each is the only match of the other; from 60 seconds on all are numbered in a new namespace; calls for fewer other keys than the limit make no difference |
| RecentStates.MakeRoom | native/computer-use/StableElementRefs.swift:23-26 | expired states go, and the oldest one too if a new key would exceed the limit |
| RecentStates.RoomBounded | native/computer-use/ObservationDiff.swift:26-32 | storing a state never makes the number of states exceed the limit |
| RecentStates.FoundForAMinute | native/computer-use/ObservationDiff.swift:26-32 | a state is found again for 60 seconds and no longer, as long as fewer other keys than the limit were used as recently |
| WindowMirrors.InvStep | native/computer-use/WindowMirrors.swift:65-152 | every stretch of code between two awaits keeps: mirrors and sessions of the same windows with the same leases, at most eight windows, every reservation held by one call under way, no mirror while its reserving call waits |
| WindowMirrors.InvRun | native/computer-use/WindowMirrors.swift:65-152 | the invariant holds at every await of any mix of opens and closes |
| WindowMirrors.MirrorsMatchSessions | native/computer-use/WindowMirrors.swift:65-152 | at every await, mirrors and sessions have the same windows, and with the reservations there are at most eight |
| WindowMirrors.BeginHasRoom | native/computer-use/WindowMirrors.swift:85-89 | when the window list arrives for a call that still holds its reservation, begin never refuses for the session limit, an existing session or a changed identity |
| WindowMirrors.StaleLeaseHarmless | native/computer-use/WindowMirrors.swift:72-143 | after any run: however many frames, failures, ends of startups, resuming calls and closing panels act with other leases, a session and its mirror stay as they are |
| WindowMirrors.HooksMatchMirrors | native/computer-use/WindowMirrors.swift:95-143 | after any run, the close hooks still set are exactly those of the mirrors there are, each for its own window and lease |
| WindowMirrors.GoneForGood | native/computer-use/MirrorSessions.swift:20-32 | the lease of a session that has ended is never that of a session again |
| WindowMirrors.NoSlotLeaks | native/computer-use/WindowMirrors.swift:80-85 | once no call is under way, no window stays reserved |
| WindowMirrors.FailedStartupClears | native/computer-use/WindowMirrors.swift:122-125 | after any run: a startup that fails while its session lasts removes mirror, session, reservation and hook of the window, and its lease is never that of a session again |
| WindowMirrors.CloseRemovesClosing | native/computer-use/WindowMirrors.swift:133-148 | closing one window and closing all remove exactly the windows the request may close, with the hooks of their mirrors |
| WindowMirrors.Mirrors.Open | native/computer-use/WindowMirrors.swift:65-82 | up to the first await: which calls join, which reserve, which are declined for which reason, and that nothing else changes |
| WindowMirrors.Mirrors.Begin | native/computer-use/WindowMirrors.swift:85-95 | after the await: the session that begins, its mirror and its hook, or the reason why there is none |
| WindowMirrors.Mirrors.Receive | native/computer-use/WindowMirrors.swift:96-104 | an error marks and a picture updates the session of its own lease only |
| WindowMirrors.Mirrors.HandleMinimize | native/computer-use/WindowMirrors.swift:230-234 | the session of the mirror is shown or marked |
| WindowMirrors.Mirrors.Close | native/computer-use/WindowMirrors.swift:133-152 | closing windows one by one: which mirrors, sessions, reservations and hooks are left, and how many ended |
| WindowMirrors.Mirrors.PanelClosed | native/computer-use/WindowMirrors.swift:95 | a hook closes its window without looking at leases, and does nothing once it is cleared |
| WindowMirrorSteps.MirrorOfItsOpen | native/computer-use/WindowMirrors.swift:65-95 | after any run: a mirror has the request and the process of the open call it began for, and the lease given when its window list arrived |
| WindowMirrorSteps.CloseTakes | native/computer-use/WindowMirrors.swift:133-148 | after any run: closing for a request takes a mirror, its session and its hook exactly if it was opened for that request, and a reservation likewise; closing for no request takes either; nothing else goes |
| WindowMirrorSteps.ClosingSteps | native/computer-use/WindowMirrors.swift:133-148 | the actor's closing of one window, and of all it lists, is the step of the state machine |
| WindowMirrorSteps.OpenJoins | native/computer-use/WindowMirrors.swift:70-78 | an open call for a mirror of its request and process waits for that mirror's startup |
| WindowMirrorSteps.OpenReserves | native/computer-use/WindowMirrors.swift:79-84 | one for a window without a mirror reserves it if it may record and fewer than eight windows are taken |
| WindowMirrorSteps.OpenDeclined | native/computer-use/WindowMirrors.swift:66-82 | any other open call changes nothing |
| WindowMirrorSteps.ArrivedExactly | native/computer-use/WindowMirrors.swift:85-95 | the window list begins session, mirror and hook exactly for a call that holds its reservation, with the window there and the process asked for; any other call ends with its own reservation |
| WindowMirrorSteps.StartupOfEnded | native/computer-use/WindowMirrors.swift:117-125 | a startup that ends after its session changes nothing else |
| WindowMirrorSteps.StartupSucceeds | native/computer-use/WindowMirrors.swift:117-121 | a startup that succeeds shows its session and nothing else, if it is to |
| WindowMirrorSteps.StartupFails | native/computer-use/WindowMirrors.swift:122-125 | a startup that fails, or cannot show its mirror, closes the window and no other |
| WindowMirrorSteps.ResumeExactly | native/computer-use/WindowMirrors.swift:74-77 | a call that waited ends, and shows the mirror of another's startup unless that failed or it waits for minimizing |
| WindowMirrorSteps.FrameExactly | native/computer-use/WindowMirrors.swift:96-104 | a frame and an error change time and error of the session of their lease |
| WindowMirrorSteps.MinimizeExactly | native/computer-use/WindowMirrors.swift:230-234 | the session of a minimized window is shown or marked |
| WindowMirrorSteps.PanelExactly | native/computer-use/WindowMirrors.swift:95 | a closing panel closes its window exactly if its hook is set |
| WindowMirrorSteps.OpenWorks | native/computer-use/WindowMirrors.swift:65-131 | an open call that nothing interrupts ends with a mirror of its request that is shown, and with nothing reserved |
| MirrorSessions.Sessions.Begin | native/computer-use/MirrorSessions.swift:20-31 | a session begins, exists already, or is refused for the first reason that applies |
| MirrorSessions.Sessions.Present | native/computer-use/MirrorSessions.swift:33-36 | only the session of the lease is shown |
| MirrorSessions.Sessions.Frame | native/computer-use/MirrorSessions.swift:37-41 | a frame sets the time and clears the error of the session of its lease only |
| MirrorSessions.Sessions.Fail | native/computer-use/MirrorSessions.swift:42-45 | a failure marks the session of its lease only |
| MirrorSessions.Sessions.Close | native/computer-use/MirrorSessions.swift:46 | the session of the window goes and is returned |
| MirrorSessions.BeginExactly | native/computer-use/MirrorSessions.swift:20-31 | which windows, processes and numbers of sessions begin, exist already, or are refused, and for which reason |
| MirrorSessions.UpdatesExactly | native/computer-use/MirrorSessions.swift:33-45 | showing, a frame and a failure change their own fields of the one session with the lease |
| AccessibilityWalk.Walk.PermitsVisit | native/computer-use/AccessibilityElement.swift:54-58 | each flag goes up exactly when its bound is met and never down; a visit is permitted exactly if none is up |
| AccessibilityWalk.Walk.AxWalk | native/computer-use/main.swift:494-519 | lists a prefix of the depth-bounded preorder, the whole of it exactly if no flag is up in the end, and not beyond the limit |
| AccessibilityWalk.Walk.VisitChild | native/computer-use/main.swift:513-517 | one child and what is below it |
| AccessibilityWalk.Walk.List | native/computer-use/main.swift:503-514 | one element takes the next number in listing and table |
| AccessibilityWalk.Walk.WalkOnce | native/computer-use/main.swift:739-760 | a whole attempt: unless the deadline passed, exactly the first elements up to the limit, and the limit reported exactly if there are more |
| AccessibilityWalk.ListingExact | native/computer-use/main.swift:504-514 | the k-th listed element has reference e(k), in the listing and in the table |
| AccessibilityWalk.TableExact | native/computer-use/main.swift:506 | the table knows the window and the listed elements and nothing else |
| AccessibilityWalk.FailuresCounted | native/computer-use/main.swift:509-513 | the failure count is zero exactly if every listed element gave its children |
| AccessibilityWalk.IncompleteExactly | native/computer-use/AccessibilityElement.swift:88-99 | the incomplete-tree warning is given exactly if elements are missing or a listed element failed to give its children |
| AccessibilityWalk.NoWarningComplete | native/computer-use/AccessibilityElement.swift:88-99 | no warning at a positive depth means that the bounded tree is listed completely, element by element |
| AccessibilityWalk.ReadingExactly | native/computer-use/AccessibilityElement.swift:40-47 | how the status of a reading decides between children, none, and a failure |
| AccessibilityWalk.PreorderPaths | native/computer-use/main.swift:494-519 | the bounded preorder holds what every path of at most the depth leads to, each once, in preorder of the paths |
| AccessibilityWalk.RefExactly | native/computer-use/main.swift:505 | references are e and a number |
| AccessibilityWalk.WindowFirst | native/computer-use/main.swift:746-756 | the window is listed first as e0, and the count is that of the elements below it |
| AccessibilityWalk.LimitExactly | native/computer-use/main.swift:494-500 | unless the deadline passes, the first elements up to the limit are listed, and the limit is reported exactly if there are more |
| AccessibilityWalk.FailureCount | native/computer-use/main.swift:509-513 | the failure count is the number of listed elements that failed |
| AccessibilityWalk.FailuresTold | native/computer-use/main.swift:746-756 | an observation counts the listed elements that failed, and the window if it did |
| AccessibilityWalk.WarningExactly | native/computer-use/AccessibilityElement.swift:88-104 | each warning is given exactly under its condition, and none at depth zero |
| ObservationDiff.JoinedInjective | native/computer-use/ObservationDiff.swift:9 | length-prefixed joining is injective on lists of fields of any length |
| ObservationDiff.FingerprintInjective | native/computer-use/ObservationDiff.swift:3-10 | fingerprints are equal exactly if all fields are |
| ObservationDiff.CountByFingerprint | native/computer-use/ObservationDiff.swift:30 | counting equal fingerprints by position counts equal elements |
| ObservationDiff.ChangedExactly | native/computer-use/ObservationDiff.swift:31 | the change test on fingerprints is true exactly if the list of elements changed |
| ObservationDiff.RoomMirrored | native/computer-use/ObservationDiff.swift:26-29 | expiry and eviction of fingerprints are those of the elements they stand for |
| ObservationDiff.ObservationDiffStore.Compare | native/computer-use/ObservationDiff.swift:22-34 | the call answers as a direct comparison of the elements would, and the store stays within its limit |
| ObservationDiff.SameCountIs | native/computer-use/ObservationDiff.swift:30 | the count of unchanged elements is that of the positions at which both lists have the same one |
| ObservationDiff.CompareFirst | native/computer-use/ObservationDiff.swift:28-31 | the first call for a key always reports a change |
| ObservationDiff.CompareAgain | native/computer-use/ObservationDiff.swift:22-34 | two calls for one key: less than 60 seconds apart a change is reported exactly if the lists differ, with the number of equal positions; later always; calls for fewer other keys than the limit make no difference |
| Decimal.NumeralInjective | native/computer-use/ObservationDiff.swift:9 | different numbers have different numerals |
| Decimal.NumeralMonotone | src/agent/shellOutputProjection.ts:28-29 | a smaller number never has a longer numeral |
| Decimal.NumeralValue | src/agent/shellOutputProjection.ts:28-29 | a numeral has digits only, no leading zero, and the value of its number |
| ActivityStore.StepKeeps | src/activity/store.ts:1379-1437 | every transaction keeps: rows filed consistently, and no saved analysis older than its session's contents |
| ActivityStore.AlwaysFresh | src/activity/store.ts:1216-1437 | over any interleaving of analyses with inserts, look-ups, text updates within the condition of OcrExact, merges, retries, deletions and clears, a saved analysis was computed from exactly the applications, events and texts its session has now |
| ActivityStore.RevisionMonotone | src/activity/store.ts:1840-1867 | the clear revision never goes back |
| ActivityStore.ClearStopsCommits | src/activity/store.ts:1379-1399 | what was captured before a clear or a deletion is never committed after it |
| ActivityStore.RaceLost | src/activity/store.ts:1379-1399 | of two analyses of the same state, the second to finish writes nothing unless the first changed nothing |
| ActivityStore.WithoutTextExact | src/activity/schema.ts:39 | losing the text of a snapshot without a reset keeps analyses fresh exactly if no analysed session held that text |
| ActivityStore.RetentionExact | src/activity/store.ts:2273-2290 | deleting a snapshot for retention keeps analyses fresh exactly under that condition |
| ActivityStore.OcrExact | src/activity/store.ts:1216-1260 | whatever session was seen when a snapshot was looked up, the later text update keeps analyses fresh exactly if it writes nothing or takes no text from another, analysed session |
| ActivityStore.StaleExample | src/activity/store.ts:1216-1229 | a concrete database in which both losses leave a stale analysis |
| ActivityStore.ExampleReached | src/activity/store.ts:1216-1229 | a run from the empty store reaches that database, with the late text update still waiting |
| ActivityStore.Store.ResetSessionAnalysis | src/activity/store.ts:1422-1437 | only the outcome of the one session changes |
| ActivityStore.Store.StoreRows | src/activity/store.ts:1977-2042 | an event row, or a snapshot row with its text, and nothing else |
| ActivityStore.Store.RecordEvent | src/activity/store.ts:1965-2066 | one transaction: the rows, the counts, the applications and the reset; a known capture changes nothing |
| ActivityStore.Store.UpdateSnapshotOcr | src/activity/store.ts:1216-1260 | the text of one snapshot is replaced and the session looked up earlier is reset |
| ActivityStore.Store.ReadAnalysisSnapshot | src/activity/store.ts:1365-1376 | what an analysis takes away is one committed state |
| ActivityStore.Store.CommitAnalysisIfCurrent | src/activity/store.ts:1379-1399 | commits exactly if the state is still the captured one |
| ActivityStore.Store.RetryFailedAnalysis | src/activity/store.ts:1440-1454 | exactly the ended, failed sessions are queued again, and their number is returned |
| ActivityStore.Store.DeleteSession | src/activity/store.ts:1763-1793 | an ended session goes with all its rows; an open or unknown one stays |
| ActivityTransactions.DeletedExactly | src/activity/store.ts:1763-1781 | deleting an ended session takes its row and everything filed under it or under its snapshots; every other row of every table stays as it was |
| ActivityTransactions.NotDeleted | src/activity/store.ts:1768-1772 | an unknown or unfinished session is not deleted |
| ActivityTransactions.ClearedExactly | src/activity/store.ts:1840-1853 | clearing empties all four tables |
| ActivityTransactions.RetainedExactly | src/activity/store.ts:2273-2290 | retention takes one snapshot and its text |
| ActivityTransactions.NotRecorded | src/activity/store.ts:1959-1974 | a capture that is there already, or an unknown session, changes nothing |
| ActivityTransactions.RecordedSession | src/activity/store.ts:2041-2064 | recording counts, adds the application, and queues the session again |
| ActivityTransactions.RecordedRows | src/activity/store.ts:1977-2040 | recording adds one event, or one snapshot with its text, filed under the session |
| ActivityTransactions.TextReplaced | src/activity/store.ts:1227-1255 | a text update leaves one text of the snapshot, or none, and queues the session looked up |
| ActivityTransactions.TextRefused | src/activity/store.ts:1227-1255 | a text for a session or snapshot that is gone changes nothing |
| ActivityTransactions.EndedExactly | src/activity/store.ts:490-498 | a session gets an end once, and nothing else changes |
| ActivityTransactions.CapturedExactly | src/activity/store.ts:1365-1376 | what an analysis takes away is the row, the inputs and the revision of an ended session |
| ActivityTransactions.CommittedExactly | src/activity/store.ts:1379-1399 | a commit over an unchanged session changes its outcome alone; any other commit changes nothing |
| ActivityTransactions.RetriedExactly | src/activity/store.ts:1440-1454 | exactly the ended, failed sessions are queued again |
| ActivityTransactions.MergedRows | src/activity/store.ts:726-731 | merging refiles every row of the absorbed session and changes no other |
| ActivityTransactions.MergedSessions | src/activity/store.ts:732-766 | the absorbed session goes; the other one has the end and the applications given, the events of both, both snapshot counts, and no analysis |
| ActivityTransactions.MergeRefused | src/activity/store.ts:726-731 | rows are never moved to a session that is gone |
| ActivityTransactions.MergeOfNothing | src/activity/store.ts:726-766 | a session without rows goes even if the other one is gone |
| ActivityTransactions.StepsAreTransactions | src/activity/store.ts:490-1867 | the steps of a run are these transactions, on what was looked up or captured before, and a merge is done whole or not at all |
| ActivityTransactions.PairsRefused | src/activity/store.ts:713-772 | a merge is rolled back exactly if rows would be moved to a session that is gone |
| ActivityTransactions.CountsRun | src/activity/store.ts:2047-2064 | over every run, a session's counters are the numbers of its events and of its snapshots |
| SessionMerge.MergePendingAdjacent | src/activity/store.ts:692-775 | the loop absorbs the greedy partition of the rows and returns how many sessions it removed, or changes nothing exactly if rows would have to move to a session that is gone |
| SessionMerge.GreedyUnique | src/activity/store.ts:711-724 | the rule determines the partition: two greedy partitions of the same rows are equal |
| SessionMerge.SurvivorFirst | src/activity/store.ts:726-731 | the rows of every session of a block end up in the first session of the block |
| SessionMerge.SurvivorOutside | src/activity/store.ts:726-731 | rows of other sessions stay where they are |
| SessionMerge.GroupRow | src/activity/store.ts:742-762 | the surviving row of a block: its end, its applications, its event count, no analysis |
| SessionMerge.BlockApps | src/activity/store.ts:732-765 | a block has the applications of all its rows, each once, those of the first row first, and keeps the order it had with fewer rows |
| SessionMerge.MeetsExactly | src/activity/store.ts:716-725 | a row is absorbed exactly if it follows the last one closely enough and shares an application with some row of the block, or has none, or they have none |
| SessionMerge.GreedyExactly | src/activity/store.ts:711-767 | the partition in terms of the rows alone: each row after the first of a block follows those before it, and no block could go on |
| SessionMerge.AllElsewhere | src/activity/store.ts:709-769 | sessions outside the selected rows are untouched |
| SessionMerge.MergeConserves | src/activity/store.ts:709-774 | whatever became of the selected rows before: every event, snapshot and text is kept once under its block's session, event counts equal event rows, the snapshot total is unchanged if the sessions that stay exist, and the reported number of sessions is gone exactly if those absorbed existed |
| SessionMerge.LedAllowed | src/activity/store.ts:709-774 | a merge whose surviving sessions exist is never refused |
| SessionMerge.SecondPassExactly | src/activity/store.ts:711-767 | a second pass over the blocks merges nothing exactly if no block meets the rule against its left neighbour |
| SessionMerge.PairMeetsExactly | src/activity/store.ts:716-725 | a block does so exactly if it is close enough, its first session shares no application with the left block, and its absorbed sessions brought one |
| SessionMerge.SecondPassMerges | src/activity/store.ts:711-767 | an example in which a second pass merges more |
| DailyReport.InvStep | src/activity/analyzer.ts:572-597 | every write of the row keeps: generations belong to the report that wrote them last |
| DailyReport.RunFacts | src/activity/analyzer.ts:581-596 | reports stay as persisted, and the write count moves exactly with writes |
| DailyReport.NarrativeCommits | src/activity/reportNarrative.ts:45-46 | a narrative commits exactly if nobody wrote or deleted the row since its own report was persisted |
| DailyReport.OneNarrative | src/activity/reportNarrative.ts:45-46 | a report takes at most one narrative |
| DailyReport.RefreshWins | src/activity/summary.ts:154-163 | a refresh is never undone by a report persisted before it |
| DailyReport.RefreshCommits | src/activity/summary.ts:178-222 | a narrated refresh commits exactly over the row value it had read, and always if nobody wrote |
| DailyReport.NarrationEnds | src/activity/reportNarrative.ts:24-57 | a narration ends as narrated or as its fallback exactly if nobody wrote the row meanwhile, and is aborted otherwise |
| DailyReport.SummaryRow.UpsertSummary | src/activity/store.ts:1068-1096 | the row is created or overwritten, and keeps its identity and creation time if it existed |
| DailyReport.SummaryRow.WriteDailyReportCache | src/activity/store.ts:1014-1036 | commits exactly if the generation is owned, and changes the report fields of the row it finds and nothing else |
| DailyReport.SummaryRow.CommitSummaryIfCurrent | src/activity/store.ts:1047-1066 | commits exactly over the row it was read from |
| DailyReport.SummaryRow.FinishNarrative | src/activity/reportNarrative.ts:39-56 | the end of a narration writes only when it is narrated |
| DailyReport.RefreshWrites | src/activity/store.ts:1047-1096 | a refresh that writes puts its whole record into the row, which keeps its identity and loses its report |
| DailyReport.ReportWrites | src/activity/store.ts:1014-1036 | a report that writes changes the report of the row alone, or makes a new row around it |
| DailyReport.OthersWriteNothing | src/activity/store.ts:1014-1066 | a narrative whose report is gone and a commit over another row change nothing |
| DailyReport.SummaryLasts | src/activity/store.ts:1014-1096 | whatever reports follow, the row keeps the summary of the last refresh |
| DailyReport.IdentityLasts | src/activity/store.ts:1068-1096 | until it is deleted a row keeps identifier and creation time |
| SnapshotRotation.EvictShortestPrefix | src/activity/store.ts:2236-2251 | the global rule removes the shortest oldest-first prefix of stored files that reaches the target, or all of them |
| SnapshotRotation.EvictSuffices | src/activity/store.ts:2234-2251 | afterwards the true total is at the low-water mark, or no stored file is left |
| SnapshotRotation.RemovedBytes | src/activity/store.ts:2249 | the bytes subtracted are those of the removed files |
| SnapshotRotation.DeleteOldest | src/activity/store.ts:2237-2249 | deleting the oldest stored row is the next move of the rule |
| SnapshotRotation.Snapshots.EnforceCap | src/activity/store.ts:2230-2251 | the paged loop leaves exactly what the global rule leaves, and it terminates |
| SnapshotRotation.WithoutExact | src/activity/store.ts:2289 | deleting by identifier takes out exactly the row with it, if there is one, and keeps the others in order |
| SnapshotRotation.RotationMonotone | src/activity/store.ts:2108-2211 | however rotations interleave, a row moves only from hot to warm to cold, its bytes never grow, and a row whose bytes shrank has moved on |
| SnapshotRotation.OnePublishes | src/activity/store.ts:2162-2205 | of several rotations that encoded the same candidate, only one publishes |
| SnapshotRotation.EvictedExactly | src/activity/store.ts:2236-2251 | a row is removed exactly if it has a file with bytes and more than the target would remain with all older ones removed |
| SnapshotRotation.EvictedInOrder | src/activity/store.ts:2236-2251 | the rows that stay keep their order |
| SnapshotRotation.CapAndTarget | src/activity/store.ts:2228-2229 | the cap is in mebibytes, at least one, and the low-water mark three quarters of it |
| SnapshotRotation.RotatedExactly | src/activity/store.ts:2125-2205 | when an uninterrupted rotation moves a row on, and when its size changes |
| SnapshotRotation.RotatesTable | src/activity/store.ts:2125-2205 | in the table: the look leaves a row for encoding or does all there is to do, and the write after it the rest |
| SnapshotRotation.ChangedRowStays | src/activity/store.ts:2168-2172 | nothing is written over a row that has changed since it was read |
| SnapshotRotation.MovedWhenOld | src/activity/store.ts:2108-2211 | however rotations interleave, a row leaves hot only after a day and warm only after a week |
| SnapshotRotation.OneRowTouched | src/activity/store.ts:2125-2205 | every section touches its own row only |
| ToolReplacements.CoversTransitive | src/agent/toolResultProjection.ts:748-751 | covering a range is transitive |
| ToolReplacements.ReplacedExactly | src/agent/toolResultProjection.ts:250-313 | a result is replaced exactly if a later one of another step supersedes it, for a reason that holds, and archived exactly if some reason calls for it |
| ToolReplacements.MarkTells | src/agent/toolResultProjection.ts:302-313 | a mark always tells what the results visited so far say |
| ToolReplacements.SupersedingChain | src/agent/toolResultProjection.ts:257-298 | supersession has no cycle: a chain of later results ends in one that nothing supersedes |
| ToolReplacements.EvidenceChain | src/agent/toolResultProjection.ts:250-300 | every replaced result has a chain of strictly later results, each link crossing a step, that ends in one that is not replaced |
| ToolReplacements.CoveringSuccessor | src/agent/toolResultProjection.ts:267-278 | a covering successful read that nothing supersedes |
| ToolReplacements.RangesStayCovered | src/agent/toolResultProjection.ts:267-278 | every range a successful read returned stays covered by a successful read that is kept, if equal calls with equal results have equal ranges and status |
| ToolReplacements.LastExactIs | src/agent/toolResultProjection.ts:259-265 | the table of exact calls holds the last result of its key |
| ToolReplacements.LastSnapshotIs | src/agent/toolResultProjection.ts:280-287 | the table of snapshots holds the last successful one of its command |
| ToolReplacements.ReadsOfIs | src/agent/toolResultProjection.ts:267-278 | a bucket holds exactly the successful reads of its path |
| ToolReplacements.FailuresOfIs | src/agent/toolResultProjection.ts:289-297 | the failures of a call are exactly its failed results |
| ToolReplacements.Mark | src/agent/toolResultProjection.ts:302-313 | the first reason stays, and archiving once asked for stays |
| ToolReplacements.MarkHits | src/agent/toolResultProjection.ts:270-295 | exactly the results of other steps that are hit are marked |
| ToolReplacements.VisitExact | src/agent/toolResultProjection.ts:259-265 | the rule for equal calls |
| ToolReplacements.VisitRead | src/agent/toolResultProjection.ts:267-278 | the rule for covered reads |
| ToolReplacements.VisitSnapshot | src/agent/toolResultProjection.ts:280-287 | the rule for newer snapshots |
| ToolReplacements.VisitFailure | src/agent/toolResultProjection.ts:289-297 | the rule for failures followed by a success |
| ToolReplacements.FindReplacements | src/agent/toolResultProjection.ts:250-300 | the single pass marks exactly what the rules say of all pairs |
| ToolReplacements.CoversPositions | src/agent/toolResultProjection.ts:748-751 | a range covers another exactly if it holds every position of it, unless that has none |
| ToolReplacements.CoversEmpty | src/agent/toolResultProjection.ts:748-751 | a page that returned nothing is covered exactly by a read of the file that spans the bounds it gives |
| ToolReplacements.PositionsStay | src/agent/toolResultProjection.ts:267-278 | every position a successful read of the turn returned is a position of a successful read that is kept |
| ToolReplacements.MarkedExactly | src/agent/toolResultProjection.ts:250-313 | a result is marked exactly if a later one supersedes it, by the first reason of the first that does, and archived exactly if a covering read or a newer snapshot does, every rule spelled out in the fields of the results |
| ToolBudget.CollectToolResults | src/agent/toolResultProjection.ts:218-248 | one slot for every tool result in order, with the step of the last call of its id before it, and the current turn exactly after the last user message |
| ToolBudget.ConsiderReplacing | src/agent/toolResultProjection.ts:199-213 | one position keeps the running total equal to the true size |
| ToolBudget.EnforceBudget | src/agent/toolResultProjection.ts:194-214 | the running total equals the true size and never grows; the pass ends at the first moment the rest fits, or after every eligible result |
| ToolBudget.ViewAt | src/agent/toolResultProjection.ts:199-213 | every eligible position holds its own marker, every other one what it held |
| ToolBudget.ViewTotal | src/agent/toolResultProjection.ts:196-211 | the true size is the old size less what the replacements saved |
| ToolBudget.TotalReplaced | src/agent/toolResultProjection.ts:208-211 | replacing one result changes the total by its difference alone |
| ToolBudget.ViewSafe | src/agent/toolResultProjection.ts:199-213 | number, order and call ids stay; results of kept steps stay; nothing is replaced without its own archive path or by something larger |
| ToolBudget.StepIs | src/agent/toolResultProjection.ts:236-244 | the step of a result is the last message before it that made its call, or the result itself |
| ToolBudget.TotalOfParts | src/agent/toolResultProjection.ts:194-196 | the total size is the sum over the results |
| ToolBudget.ReplacedExactly | src/agent/toolResultProjection.ts:199-213 | among the results passed, exactly the older ones of other steps that are text, stand for themselves, and have an archive path and a smaller marker are replaced, each by its own marker |
| ToolBudget.OthersStay | src/agent/toolResultProjection.ts:199-213 | messages that are no results stay |
| CodeModeCell.InvStep | src/agent/codeMode.ts:155-255 | every step keeps: numbered child calls, and a fatal error for every failure taken for fatal |
| CodeModeCell.OkExplained | src/agent/codeMode.ts:308-344 | a cell that reports success returned after every operation had settled and been handled, none of them failed for good, caught by the script or not |
| CodeModeCell.AfterReturn | src/agent/codeMode.ts:335-344 | what was decided at return stays decided |
| CodeModeCell.UnknownExactly | src/agent/codeMode.ts:324-366 | the final report: unknown exactly if an operation pending at return outlives the drain, and successful exactly if the script returned without throwing, abort or fatal error, nothing was pending, and its output was kept |
| CodeModeCell.NoLateStart | src/agent/codeMode.ts:176-180 | after a fatal error, an abort or the end of the cell no tool is started |
| CodeModeCell.ChildCallsDistinct | src/agent/codeMode.ts:245-246 | nested calls are numbered in the order they start, and no two share an id |
| CodeModeCell.HistoryTold | src/agent/codeMode.ts:155-337 | after any run, the stage of every operation, the fatal and aborted flags and the number of child calls say exactly what has happened: which calls were accepted, prepared, started, settled how, reacted to and with what verdict |
| CodeModeCell.Cell.CallBridge | src/agent/codeMode.ts:198-214 | a bridge accepts exactly while the cell is open |
| CodeModeCell.Cell.Start | src/agent/codeMode.ts:243-248 | the last check before a tool runs |
| CodeModeCell.Cell.ReactTo | src/agent/codeMode.ts:215-228 | what becomes of a failure, depending on whether it is recoverable and the cell is open |
| CodeModeCell.Cell.FailDeadline | src/agent/codeMode.ts:164-168 | a deadline is fatal only while the cell is open |
| CodeModeCell.Cell.Close | src/agent/codeMode.ts:324-337 | the provisional result, and the operations still pending |
| CodeModeCell.Cell.DrainHostOperations | src/agent/codeMode.ts:338-344 | the final result |
| ShellOutput.EncodeInjective | src/agent/shellOutputProjection.ts:40 | whole code points can be read back from their bytes in one way only |
| ShellOutput.StartOrContinuation | src/agent/shellOutputProjection.ts:48-50 | a byte begins a code point exactly if it is no continuation byte (section 3 of RFC 3629) |
| ShellOutput.StartBefore | src/agent/shellOutputProjection.ts:31-32 | the backward loop ends at the last start of a code point, at most three bytes back |
| ShellOutput.StartAfter | src/agent/shellOutputProjection.ts:33-34 | the forward loop ends at the first start of a code point, at most three bytes on |
| ShellOutput.ShellOutputExcerpt | src/agent/shellOutputProjection.ts:25-42 | the excerpt is the text, or head, marker and tail cut between code points as late and as early as the budget allows |
| ShellOutput.CutWithinBudget | src/agent/shellOutputProjection.ts:28-41 | marker included it fits; kept and omitted bytes add up; at most six available bytes are lost |
| ShellOutput.ExcerptWithinBudget | src/agent/shellOutputProjection.ts:25-42 | for every text and budget: within the budget, nothing lost count of, and nothing omitted exactly if the text fits |
| ShellOutput.ExcerptUnique | src/agent/shellOutputProjection.ts:31-35 | the cuts and the excerpt are determined by the text and the budget |
| ShellOutput.SharedFairly | src/agent/shellOutputProjection.ts:12-22 | both streams together stay within 12288 bytes, are both whole exactly if they fit, and a stream of at most half the budget is always whole |
| ShellOutput.ProjectShellStreams | src/agent/shellOutputProjection.ts:12-22 | the two excerpts are those of the shares |
| ShellOutput.ScalarEncoded | src/agent/shellOutputProjection.ts:40 | every scalar value of Unicode has a code point of bytes (section 3 of RFC 3629) |
| ShellOutput.CodePointScalar | src/agent/shellOutputProjection.ts:40 | code points of bytes are exactly those of scalar values |
| ShellOutput.MarkerShown | src/agent/shellOutputProjection.ts:26-30 | the marker says in words how many bytes are omitted |
| ShellOutput.ExcerptShown | src/agent/shellOutputProjection.ts:25-42 | the excerpt is the first and the last bytes with the marker between them, half of the spare bytes each up to three, or nothing where the marker does not fit |
| ShellOutput.SharesExactly | src/agent/shellOutputProjection.ts:12-22 | a stream of at most half the budget takes what it has, the other one the rest, two longer ones half each |
| DailyNotes.NormalizeSectionHeading | src/activity/dailyNotes.ts:218-221 | a heading is trimmed, on one line and of level two, or refused |
| DailyNotes.ReadDailySection | src/activity/dailyNotes.ts:209-216 | the loop reads the specified lines |
| DailyNotes.ReplaceDailySection | src/activity/dailyNotes.ts:190-207 | the loop finds the specified lines to replace |
| DailyNotes.SectionByLines | src/activity/dailyNotes.ts:209-216 | finding a section by indices and by going through the note agree |
| DailyNotes.ReadsBack | src/activity/dailyNotes.ts:190-216 | after a section is replaced it reads as the trimmed content exactly if that has no heading line of level one or two |
| DailyNotes.ReadsFirstPart | src/activity/dailyNotes.ts:190-216 | a replaced section reads as its new content up to the first heading line in it |
| DailyNotes.ReadsBackExample | src/activity/dailyNotes.ts:190-216 | an example: two lines are written and only the one before the heading is read |
| DailyNotes.OtherSectionsKept | src/activity/dailyNotes.ts:190-207 | every other section reads as before, apart from the legacy heading the activity section absorbs, if no heading is indented and the content does not name the other section |
| DailyNotes.ReplaceIdempotent | src/activity/dailyNotes.ts:190-207 | writing the same content again leaves the same file |
| DailyNotes.SectionPlain | src/activity/dailyNotes.ts:209-216 | what is read from a note without indented headings has no heading line |
| DailyNotes.EntryAdded | src/activity/dailyNotes.ts:113-120 | a new entry stands after the earlier ones; one whose key is there already changes nothing |
| DailyNotes.EntryOnce | src/activity/dailyNotes.ts:113-120 | appending one key twice leaves the file as appending it once |
| DailyNotes.HeadingExactly | src/activity/dailyNotes.ts:199 | headings are lines that begin with one or two number signs and a space |
| DailyNotes.TitleExactly | src/activity/dailyNotes.ts:218-221 | which titles are refused, and which get the sign of a heading |
| DailyNotes.SectionExactly | src/activity/dailyNotes.ts:209-216 | a section reads as the lines between its heading and the next one, trimmed |
| DailyNotes.NamesExactly | src/activity/dailyNotes.ts:193-195 | the activity section is also found under the name it had before |
| DailyNotes.ReplacedExactly | src/activity/dailyNotes.ts:190-207 | replacing puts heading and content in the place of the section, or after all else |
| DailyNotes.EntryExactly | src/activity/dailyNotes.ts:117 | an entry is the marker of its key and its text |
| DailyNotes.EntryShown | src/activity/dailyNotes.ts:113-120 | after appending, the section is as it was, or has the entry as a paragraph after it |
| DailyNotes.DailyNote.UpsertSection | src/activity/dailyNotes.ts:81-95 | an invalid title, a conflict with what the caller saw, or exactly the replaced section |
| DailyNotes.DailyNote.AppendEntry | src/activity/dailyNotes.ts:103-121 | an invalid title, or exactly the note with the entry |
| Texts.SplitOn | src/activity/dailyNotes.ts:192 | splitting a note is done line by line |
| Texts.ContainsTrim | src/activity/dailyNotes.ts:115 | trimming does not hide a marker |
| Texts.TrimExactly | src/activity/dailyNotes.ts:191 | trimming takes white space off both ends and nothing else |
| ThinkingLevels.SnapCanonicalNatives | src/ai/capabilities.ts:183-189 | the loop maps a level to its own name exactly if the map had that value |
| ThinkingLevels.ProjectThinkingLevelMap | src/ai/capabilities.ts:166-177 | the loop places the values evenly and snaps |
| ThinkingLevels.CompleteThinkingLevelMap | src/ai/capabilities.ts:220-230 | the loop fills in what is not stated |
| ThinkingLevels.DistinctReasoningEfforts | src/ai/capabilities.ts:237-249 | exactly the levels kept for their values, in canonical order |
| ThinkingLevels.ProjectionReadsBack | src/ai/capabilities.ts:166-189 | after projecting a set of levels, a level is kept for its value exactly if it was declared |
| ThinkingLevels.EffortsOfDeclared | src/ai/capabilities.ts:166-249 | projecting declared levels and reading the map back offers exactly these levels, in canonical order |
| ThinkingLevels.EffortsOfStated | src/ai/capabilities.ts:28-40 | stating declared levels under their own names and completing the map offers exactly these levels, in canonical order |
| ThinkingLevels.ProjectionDeclared | src/ai/capabilities.ts:166-177 | every level maps to a declared value that is not blank, or no level to anything |
| ThinkingLevels.DistinctInOrder | src/ai/capabilities.ts:167 | values without repetitions are in the order of their first places |
| ThinkingLevels.ProjectedExactly | src/ai/capabilities.ts:166-189 | every level gets the value nearest to it on the even grid of the declared values, in their order, unless its own name is placed |
| ThinkingLevels.SnapIdempotent | src/ai/capabilities.ts:183-189 | snapping twice is snapping once |
| ThinkingLevels.CompletionIdempotent | src/ai/capabilities.ts:220-230 | completion keeps what is stated and is idempotent |
| ThinkingLevels.CompletedExactly | src/ai/capabilities.ts:220-230 | completion keeps every level and the switch that are stated, and projects the stated values into the gaps |
| ThinkingLevels.ValuesListed | src/ai/capabilities.ts:221-223 | the values that are projected are those that are not blank, in the order of their levels |
| ThinkingLevels.LevelNames | src/ai/capabilities.ts:20 | the names of the six levels in canonical order |
| ThinkingLevels.OneEffortPerValue | src/ai/capabilities.ts:237-249 | every value of the map is that of exactly one offered level |
| ThinkingLevels.SelectionKeepsValue | src/ai/capabilities.ts:196-206 | a level with a value gets an offered level with the same value, and an offered level itself |
| ThinkingLevels.ProjectThinkingSelection | src/ai/capabilities.ts:196-217 | there is no answer exactly if no effort has the value, or, for a level without one, if no effort has any; an explicit null is a level without a value |
| ThinkingLevels.SelectionByPosition | src/ai/capabilities.ts:207-216 | a level without a value gets the offered effort at its place on the even grid |
| ThinkingLevels.NullExample | src/ai/capabilities.ts:207-216 | an explicit null that gets an answer, against the comment on the function |
| PromptRefresh.BlockReplaced | src/agent/prompts.ts:542-548 | a block whose body has no angle bracket is taken out with its own end, and nothing else |
| PromptRefresh.Escaped | src/agent/prompts.ts:230-233 | no angle bracket is left of any goal text |
| PromptRefresh.LastGoalWins | src/agent/prompts.ts:227-245 | for a prompt without a goal block, the last refresh alone decides, and no goal text ends the block early |
| PromptRefresh.ClearingRestores | src/agent/prompts.ts:227-229 | clearing the goal gives back the prompt without trailing white space |
| PromptRefresh.EscapedReadsBack | src/agent/prompts.ts:230-233 | a reader of the JSON finds the goal as it was before escaping |
| PromptRefresh.GoalShown | src/agent/prompts.ts:227-245 | the goal stands at the end of the prompt between its markers |
| PromptRefresh.LastDateWins | src/agent/prompts.ts:335-370 | for every system prompt, the last date alone decides |
| PromptRefresh.DateShown | src/agent/prompts.ts:335-370 | the date stands at the end of the prompt, after the prompt without its last date |
| PromptRefresh.UndatedKept | src/agent/prompts.ts:336-339 | a prompt without a date loses trailing white space only |
| PromptRefresh.DateTakenOut | src/agent/prompts.ts:336-339 | the last date is taken out of wherever it is, and what stands around it stays |
| PromptRefresh.ReminderShown | src/agent/prompts.ts:341-368 | the first date in a message stands in a block of its own in front of what the user wrote |
| PromptRefresh.LastReminderWins | src/agent/prompts.ts:341-368 | for every user message, of one text or of parts, the last date alone decides exactly if nothing stood in front before, or what the user wrote ends the text, or is the text with some of the closing lines before it |
| PromptRefresh.Grows | src/agent/prompts.ts:341-368 | where it does not, the text gets longer with the second refresh |
| PromptRefresh.EmotionReplaced | src/agent/prompts.ts:325-332 | refreshing the emotion rewrites the first emotion block of a message the runtime wrote into, and nothing around it |
| PromptRefresh.EmotionByParts | src/agent/prompts.ts:555-565 | of a message in parts, every text is refreshed by itself and no other part touched |
| PromptRefresh.EmotionUntouched | src/agent/prompts.ts:325-329 | a message without the runtime's block, and any for a blank emotion, stays |
| PromptRefresh.ReminderReplaced | src/agent/prompts.ts:352-361 | a date in front, with whatever follows it, is replaced by the new one |
| PromptRefresh.BrokenReminder | src/agent/prompts.ts:356-361 | a date that is not closed goes with its block, and what follows stays behind a new one |
| PromptRefresh.EmotionBreaks | src/agent/prompts.ts:325-368 | how such a message comes about: the user wrote an emotion block, and refreshing the emotion rewrites it |
| PromptRefresh.MessageExample | src/agent/prompts.ts:325-368 | the same for one concrete message |
| PromptRefresh.UserMessage.Refresh | src/agent/prompts.ts:341-368 | the message is rewritten in place and its original recorded once |
| PromptRefresh.StripDate | src/agent/prompts.ts:336-339 | the last date block goes |
| PromptRefresh.RefreshRuntimeDateContext | src/agent/prompts.ts:335-371 | the system prompt and the last user message get the date, no other message changes |

## Left out

- AccessibilityEnablement.AttributesRestored: assumes that nobody else writes the attributes; that waiting threads get on is not claimed.
- StableElementRefs.Assigner.Assign: the sorted order of the keys is a parameter, so the comparator of the sort is not modelled; the random prefix is a parameter too.
- WindowMirrors.Mirrors.Open: models the call up to its first await; `Begin` goes on after it, and what the startup task does is the state machine. Capture streams, panels, privacy files and timers are not modelled; presenting may succeed or fail at will.
- AccessibilityWalk.Walk.AxWalk: the tree answers the same way throughout one walk, and the deadline passes at any chosen reading of the clock; the retries for lazily built trees, the collecting thread and its time-out are left out.
- ObservationDiff.FingerprintInjective: compares fields byte by byte; comparison of strings up to Unicode canonical equivalence is not modelled, nor the rendering of attribute values.
- ActivityStore.AlwaysFresh: for steps without retention deletions, and for text updates within the condition of `OcrExact` (see above). Equal captured states stand for equal serialized states; SQL, schema migration and the columns for total bytes and update times are left out.
- SessionMerge.MergePendingAdjacent: the selected rows are a parameter, so the query for the newest 200 pending sessions is not modelled, nor duration and byte totals.
- DailyReport.RefreshWins: for generations that are never drawn twice.
- SnapshotRotation.Snapshots.EnforceCap: removing a file succeeds; closing and reopening the store in the middle of a rotation, and the deletion of old cold snapshots before it, are left out.
- ToolReplacements.RangesStayCovered: which fields a read range is taken from, which results count as successful or failed, and which commands are snapshots are given with each result.
- ToolBudget.ViewSafe: that an archive path is that of the result itself is given with it.
- ToolBudget.EnforceBudget: the size of a replacement and its archive path are given; the steps before the budget pass are left out.
- CodeModeCell.OkExplained: scripts, the sandbox and its limits, tool discovery and the archiving of console output are left out; how an operation ends is arbitrary.
- ShellOutput.ShellOutputExcerpt: text is a sequence of code points, so lone surrogates of a JavaScript string are not modelled; budgets are not negative.
- DailyNotes.OtherSectionsKept: the file lock, the queue of writers and the temporary file are left out; a change of the file is one step. The digest of an entry key is a parameter.
- ThinkingLevels.ProjectionReadsBack: model-name patterns, defaults and the token budget of a model are left out.
- PromptRefresh.RefreshRuntimeDateContext: takes the user messages only; the wording around the date is any text without an angle bracket, as in the source. Parts of a message are texts or something else.
- PromptRefresh.LastGoalWins: the wording around a goal and its serialization are arbitrary texts; the wording in the source has no angle bracket, and that is all that is used of it.
- HTTP server, agent processes, schedulers, retries, input synthesis, overlays, recognition of text and calendar access have little to prove and are not modelled.
