# Verified model of TIMEFLOW's sync, daily store and tracker

TIMEFLOW tracks the time spent in applications and files. Its daemons keep a SQLite database on each
device, elect a master over UDP beacons and sync the databases over the LAN. This project models, in
Dafny 4.11, the parts where a mistake loses or invents data, and proves what they promise. Nothing
was executed; every statement is checked by the verifier alone.

    dafny verify dfyconfig.toml

## What is modelled

**The sync merge** (`Sync*.dfy`). A database is a value `Db`: projects by name, applications by
executable, sessions by application id and start time, manual sessions, tombstones, and whether the
tombstone triggers are installed. `SyncMerge` says what merging a payload means, phase by phase, as
folds over its rows; `SyncDatabase` has the class whose methods change the tables in place, loop by
loop, and are proved to do that; the other files prove what follows. `SyncFate` says what the tombstone
phase does to each record. `SyncPeers` holds the core of convergence: one key seen from two peers, as a
record and a set of deletions; `SyncCycle`, `SyncSessions`, `SyncManuals` and `SyncLimits` carry it to the
databases, and `SyncTouch` tells before a merge what the repair after it will stamp. `SyncColumns` follows
every column of a record from one database through export, merge and repair into the other. `SyncTwice` is
about a payload merged a second time. `SyncSlave` is the slave's import with its replays, `SyncMaster` the
master's cycle with failures, lost answers, markers and the collection of tombstones (`SyncGc`), `SyncNext`
the step from one cycle to the next.

**Master election** (`Election.dfy`). Devices with fixed uptimes, a growing set of beacons ever sent,
each of which may arrive at any time, any number of times or never; the four role rules and the startup election.

**The daily store** (`Daily*.dfy`). The tables of the store as a class that a save edits in place, and
the loads as loops over rows.

**Activity spans** (`ActivitySpans`, `ActivityGroups`, `ActivityCap`). Sort, merge within 30 seconds,
and the cap of 100 spans.

**The tracker's file index** (`TextLimits`, `FileIndex`, `FileTracker`), what a tick writes on the file it is
credited to (`FileTimeline`), and the tracker together with its store (`TrackerStore`).

**The process tree** (`ProcessTree`), where the class `Walk` holds the list and the visited set that the
source passes by mutable reference.

## Hypotheses

The code meets some promises only under conditions. They are stated in the lemmas, as exact as they could be made:

- Time stamps are numbers, so that string order is time order. `EPOCH` is 0.
- *Restamping*: an UPDATE that leaves updated_at alone fires a trigger that sets it to now
  (dashboard/src-tauri/resources/sql/schema.sql:108, 149, 457, 476). In a merge this happens to the rows that lose
  their link to a deleted project, in a repair to every row it touches. The triggers on project_name
  (dashboard/src-tauri/src/db_migrations/m20_session_project_name.rs:48-90) relabel a session whose project changes, and
  stamp a manual session that takes a new project with the time of the import, whatever stamp the row came with.
  One reading of the clock, `now`, is taken for each merge or repair. Older contents can so win over newer ones (`SyncLimits.RestampLosesEdit`).
- *The clock* is ahead of all stamps and deletions in both databases when a cycle starts, and the slave imports later
  than the master (`SyncCycle.Clocked`). `SyncSafety.ProtectedIff` shows that protection from resurrection needs it.
- *Dated*: applications and sessions have stamps after EPOCH. The insert triggers see to it (schema.sql:117, 159; for older
  rows dashboard/src-tauri/src/db_migrations/m13_fix_updated_at.rs:29-40), and `SyncSessions.MergedKeepsDated` that it stays so.
- *The cutoff* of a delta pull is the time of the slave's marker, which is made after the import and has its own reading of
  the clock (`SyncSlave.Env`). It is not assumed to be in the second of the import: `SyncNext.StampedIsMissed` shows what is
  missed where it is not.
- *Stuck* (`SyncPeers.Stuck`): one side holds a record that the other lacks and refuses for a deletion,
  while that deletion does not reach the first. This can happen only because a second deletion of a key
  is ignored (src/sync_common.rs:384-392) and because the earliest is adopted. Projects converge exactly
  where nobody is stuck; one tombstone a key, equal where both have one, is enough.
- *Tied*: equal stamps with different fields. The local record stays (src/sync_common.rs:610).
- A project's rate that is not positive is dropped when sent (src/sync_common.rs:1300-1304).
- *Agreement* of applications and sessions (`SyncPeers.Cycled.Agrees`) is stated for all deletions, on what the replay of
  deletions leaves on each side (`SyncConvergence.AppKept`, `SessionKept`), which `SyncFate` gives from the database
  before the merge: neither side refuses a newer row of the other's, and nothing on the slave is stamped anew.
  Deletions both sides know never stand in the way (`SyncLimits.SharedDeletionsAgreeOnApp`, `SharedDeletionsAgreeOnSession`).
- Session keys: the executable name holds no `|`. `SyncSafety.ProtectedIff` shows that this is exact.
- No project and no session is at or below a tombstone of its own to begin with; merges and repairs keep it so while the clock is ahead. For
  applications a merge does not always keep it (`SyncLimits.MergedUncoversAppIff` says exactly when), and their
  agreement does not ask for it.
- Links to projects are not among the synced fields: a missing remote link keeps the local one.

## Where the code and its comments disagree

The model follows the code in each case.

- A full snapshot carries tombstones (src/lan_server.rs:1508-1510 asks for them); the comment at src/lan_server.rs:1549-1552 calls them delta-only.
- `extend_activity_spans` merges at a gap of 30 seconds, not only below 30 (shared/daily_store/types.rs:95, 109).
- The fallback of `record_app_activity` is meant to keep one file when the title changes
  (src/tracker.rs:439-440). It compares the name in memory, uncut until it is stored, with the cut one, so a new name of
  more than 260 characters gets a second file if its title changes before the next save (`FileIndex.RecordKeepsNamesIff`,
  `FileTracker.RunKeepsNames`).
- A retry of db-ready after a failed marker insert finds no file (src/lan_server.rs:984-1002): the import has happened, and
  no answer will ever say so (`SyncSlave.ImportIsFinal`).

## Model

| member | source | states |
|---|---|---|
| SyncTypes.SplitOnceSound | src/sync_common.rs:427-450 | splitting a sync key at the first separator gives parts that put the key back together, the first without a separator |
| SyncTypes.SplitOnceInverse | src/sync_common.rs:843-846 | the session key of an executable and a start time splits back into the two, exactly if the executable name holds no separator |
| SyncTypes.SplitManualInverse | dashboard/src-tauri/resources/sql/schema.sql:449-454 | the key that the deletion of a manual session leaves reads back as its start time and title exactly if the start time holds no separator; the title may hold any |
| SyncDatabase.Database.ReplayTombstone | src/sync_common.rs:477-551 | deleting what a peer deleted, with the clean-up of references and the stamps the updated_at triggers give the rows cleaned up, reaches the state the replay specification gives |
| SyncDatabase.Database.MergeTombstones | src/sync_common.rs:376-563 | the loop over the payload's tombstones gives the fold of the adoption step; the triggers stay dropped |
| SyncDatabase.Database.MergeProjectRows | src/sync_common.rs:567-684 | the loop over project rows gives the last-writer-wins fold |
| SyncDatabase.Database.RemoteNames | src/sync_common.rs:694-717 | the loops build the peer's id-to-name maps, later rows over earlier ones, without ids that are not positive and empty names |
| SyncDatabase.Database.MergeAppRows | src/sync_common.rs:744-809 | the loop over application rows gives the fold, keeps the map of local ids up to date, and fails exactly if a row that wins has no display name |
| SyncDatabase.Database.MergeSessionRows | src/sync_common.rs:811-955 | the loop over session rows gives the fold with both ids translated by name, the trigger that relabels a session whose link changes included, and fails exactly if a row without an end time wins over a stored session |
| SyncDatabase.Database.MergeManualRows | src/sync_common.rs:957-1041 | the loop over manual sessions gives the fold, an untranslatable project id becoming 0 and a new project stamping the row with the clock, and fails exactly if a row that wins misses a NOT NULL column |
| SyncDatabase.Database.MergeTables | src/sync_common.rs:356-1056 | the whole transaction, with the stamps and labels its triggers give, ends in the merged state, or fails exactly if one of the phases fails |
| SyncDatabase.Database.MergeIncoming | src/sync_common.rs:326-356 | text that does not parse or a failed row leaves the database as it was; otherwise it is the merged state |
| SyncDatabase.AppsFailEarly | src/sync_common.rs:744-809 | a NOT NULL failure on a prefix of the rows fails the whole phase: no later row can undo it |
| SyncDatabase.SessionsFailEarly | src/sync_common.rs:811-955 | the same for sessions |
| SyncDatabase.ManualsFailEarly | src/sync_common.rs:957-1041 | the same for manual sessions |
| SyncDatabase.AppsFailIff | dashboard/src-tauri/resources/sql/schema.sql:96-107 | the application phase fails exactly if a row that wins when its turn comes has no display name |
| SyncDatabase.SessionsFailIff | dashboard/src-tauri/resources/sql/schema.sql:131-147 | the session phase fails exactly if a row without an end time wins over a session that is there when its turn comes |
| SyncDatabase.ManualsFailIff | src/sync_common.rs:985-1033 | the manual session phase fails exactly if a row that wins when its turn comes misses its kind, end time or date |
| SyncDatabase.Database.Verify | src/sync_common.rs:1149-1280 | the statements of the integrity pass, run in place one after the other, with the updated_at triggers they fire, give the repaired state; the result is that of the integrity check |
| SyncDatabase.Database.DeleteOrphans | src/sync_common.rs:1233-1268 | only sessions without an application are deleted, with the triggers dropped meanwhile, and only if the foreign key check finds anything |
| SyncDatabase.Database.FetchTombstones | src/lan_server.rs:1512-1579 | the selection from a time on, sorted by deleted_at, lists every tombstone once and no other |
| SyncDatabase.Database.BuildDelta | src/lan_server.rs:1512-1579 | what is exported lists all projects and applications and the sessions, manual sessions and tombstones from a time on, each exactly once |
| SyncInvariants.ApplyTombstonesShrinks | src/sync_common.rs:376-563 | replaying deletions adds no record, changes no id and loses no tombstone; a row that stays is as it was, or has lost its project link and is stamped now |
| SyncInvariants.MergedKeepsIds | src/sync_common.rs:326-1059 | any payload, well formed or not, leaves local ids unique and below the next id, and every session under the id of a former or present application |
| SyncInvariants.MergedKeepsRefs | src/sync_common.rs:477-515 | if no session, application or manual session pointed at a missing record before a merge, none does after |
| SyncFate.ProjectFate | src/sync_common.rs:384-515 | the tombstone phase takes a project exactly if the first deletion the payload has for its name is adopted and no older than the project, and leaves it as it was otherwise |
| SyncFate.OutlivesIff | src/sync_common.rs:405-425 | replayed in order of time, a deletion of an application is skipped exactly if the application is newer or lost its link before, or a session that is still there is newer or lost its link before |
| SyncFate.TombstoneFate | dashboard/src-tauri/resources/sql/schema.sql:108-157 | for tombstones in order and a clock ahead of them, stated on the database before: which applications and sessions go, and that a row that stays is changed exactly if its project goes, to no link and the stamp now |
| SyncManuals.DeletionNames | dashboard/src-tauri/resources/sql/schema.sql:449-454 | the deletion of a manual session, under whatever project id the peer had it, covers the manual session here, and names it if its start time holds no separator |
| SyncManuals.ManualDeletionReaches | src/sync_common.rs:537-548 | a manual session no newer than a peer's deletion of it goes and stays covered, unless its project goes first or a deletion under that text was known |
| SyncLinks.LinkKeepsMeaning | src/sync_common.rs:694-742 | the sender's id of a project translates to the receiver's id of the project of the same name |
| SyncLinks.RemoteAppsAreLast | src/sync_common.rs:707-717 | whatever the payload, a positive id stands for the last application name the payload gives to it, and no other id for any |
| SyncLinks.RemoteProjectsAreLast | src/sync_common.rs:694-705 | the same for project ids |
| SyncLinks.LocalKeysDistinct | src/sync_common.rs:827-846 | two session rows of one export never meet in one local session |
| SyncLinks.SessionTakesProject | src/sync_common.rs:851-947 | a session that takes the peer's row is linked to the project of the same name as on the peer; without a project there it keeps its own link |
| SyncLinks.AppTakesProject | src/sync_common.rs:760-808 | the same for an application |
| SyncLinks.MovedSessionIsRelabelled | dashboard/src-tauri/src/db_migrations/m20_session_project_name.rs:56-63 | a stored session that a peer's row moves to another project ends with that project's name, whatever label the row carries |
| SyncColumns.ManualTakesProject | src/sync_common.rs:979-1018 | a manual session that takes the peer's row ends with the id of the project of the same name, and with 0 exactly if the peer's has no project or one the receiver ends without, whatever it had before |
| SyncColumns.ProjectArrivesWhole | src/sync_common.rs:640-682 | round trip: a project the receiver lacks arrives exactly if no deletion known by then covers it, with the sender's folder, creation time, colour, markers and stamps, its rate only if positive |
| SyncColumns.MarkersOfAnyRow | src/sync_common.rs:614-625 | whatever the payload, a project that takes its only row of that name keeps the merge markers the row does not mention, as rows of old peers do not, and loses those it gives as null |
| SyncColumns.AppArrivesWhole | src/sync_common.rs:790-807 | the same for an application: display name, stamp (the clock's for one without) and the project of the same name, or none |
| SyncColumns.SessionArrivesWhole | src/sync_common.rs:918-945 | the same for a session: date, end, duration, rate, comment, hidden, stamp, the project of the same name, and its label or else the name of its project |
| SyncColumns.ManualArrivesWhole | src/sync_common.rs:1020-1033 | the same for a manual session: kind, end, duration, date, application and project by name, when it was made; where it has a project it is labelled by that and stamped by the clock |
| SyncColumns.ProjectTakesRow | src/sync_common.rs:609-640 | told before the merge: a project is what the replay of deletions leaves unless the sender's is newer than that and than the deletions; then it takes the sender's columns and keeps its id, folder and creation time |
| SyncColumns.AppTakesRow | src/sync_common.rs:760-788 | the same for an application, which keeps its project if the sender's has none here |
| SyncColumns.SessionTakesRow | src/sync_common.rs:851-916 | the same for a session, which keeps its date, and its project and label if the sender's row brings none; where its project changes it is labelled by that |
| SyncColumns.ManualTakesRow | src/sync_common.rs:985-1018 | the same for a manual session, whose project and application are the sender's by name or none, labelled by the project and stamped by the clock exactly if that is one it did not have; when it was made stays its own |
| SyncColumns.ProjectThroughRepair | src/sync_common.rs:1216-1231 | a project that names a missing one as its merge target loses marker and merge time and is stamped now; every other column and every other project stays |
| SyncColumns.AppThroughRepair | src/sync_common.rs:1207-1214 | an application with the id of a missing project loses it and is stamped now; nothing else changes |
| SyncColumns.ManualThroughRepair | src/sync_common.rs:1198-1205 | a manual session with the id of a missing project takes 0 and is stamped now; nothing else changes |
| SyncColumns.SessionThroughRepair | src/sync_common.rs:1154-1193 | a session whose project is there stays; another takes the project its label names if that is there, else none, and what changes is stamped now |
| SyncSafety.TombstonesAdopted | src/sync_common.rs:384-392 | after the tombstone phase a key that had tombstones has the same ones, any other exactly the payload's first for it with its own time |
| SyncSafety.MergeMintsNothing | src/tombstone_triggers.rs:17-74 | with the delete triggers modelled, every tombstone after a merge was stored before or is the payload's own; the triggers are back, and what the clock says makes no difference to them |
| SyncSafety.MergedUncoversProjects | src/sync_common.rs:593-599 | a merge never leaves a project at or below a tombstone of its name if none was there before |
| SyncSafety.MergedUncoversSessions | src/sync_common.rs:843-849 | the same for the sessions of an executable without a separator in its name, if the clock is ahead of the deletions stored by then |
| SyncSafety.NoResurrection | src/sync_common.rs:264-283 | in any sequence of merges and repairs a tombstone stored at any point stays ahead of every later project of its name and every later session of its executable and start time, if the clock of each step is ahead of the deletions stored by then |
| SyncSafety.ProtectedIff | src/sync_common.rs:427-450 | every merge at a time, of deletions up to another, keeps the sessions of an executable ahead of their deletions exactly if its name holds no separator and the first time is after the second |
| SyncSafety.SeparatorEscapes | src/sync_common.rs:264-283 | the concrete state and payload: a session deletion that misses its session because the executable name holds a separator |
| SyncSafety.ClockEscapes | dashboard/src-tauri/resources/sql/schema.sql:149-157 | the concrete state and payload for a clock that is behind: a project deletion stamps a session at or below its own tombstone |
| SyncDelivery.ProjectSurvives | src/sync_common.rs:396-551 | a live project is live after the merge with no smaller stamp unless a payload tombstone for its name is at least as new |
| SyncDelivery.AppSurvives | src/sync_common.rs:396-513 | the same for an application, down to the smaller of its stamp and the clock, which stamps it if it loses its project |
| SyncDelivery.SessionSurvives | src/sync_common.rs:396-551 | the same for a session, which may also go with its application |
| SyncDelivery.ProjectArrives | src/sync_common.rs:609-682 | a project row of the payload is live afterwards at its stamp or later unless a tombstone covers it |
| SyncDelivery.AppArrives | src/sync_common.rs:775-807 | the same for an application row |
| SyncDelivery.SessionArrives | src/sync_common.rs:895-945 | the same for a session row, under the local id of its application, unless a tombstone covers it or a row of its application |
| SyncRepair.RepairedIsSound | src/sync_common.rs:1187-1231 | from any state no project id, application id or merge marker dangles after the pass |
| SyncRepair.RepairedKeepsIds | src/sync_common.rs:1149-1268 | the pass keeps every project, application and manual session, their ids and all tombstones; a project or application changes exactly if it has a dangling marker or link, which it loses, and is then stamped now |
| SyncRepair.SessionAfterRepair | src/sync_common.rs:1154-1193 | a session is removed exactly if its application is missing; the others change exactly where their link dangles or is missing beside the name of a project that exists: they take that project or no link, and the stamp now |
| SyncRepair.CleanIsFixed | src/sync_common.rs:1149-1268 | a state with nothing to repair is left alone |
| SyncRepair.RepairedTwice | src/sync_common.rs:1149-1268 | the pass is idempotent from any state |
| SyncPeers.CycleAgreesIff | src/sync_common.rs:1886-1898 | for one key, master merging slave and slave merging master end in the same presence and stamp exactly if neither side is stuck: holding a record the other refuses for a deletion that does not reach back |
| SyncPeers.CycleEqualIff | src/sync_common.rs:1886-1898 | the contents agree as well exactly if there is also no tie between different contents and nothing is changed by sending it |
| SyncExport.ExportNamesApps | src/lan_server.rs:1512-1579 | the ids in an export name exactly the exporter's applications with a non-empty name, in both directions |
| SyncExport.ExportListsEarliest | src/lan_server.rs:1512-1579 | the first tombstone an export lists for a key is the earliest the exporter holds |
| SyncConvergence.ProjectReceived | src/sync_common.rs:376-684 | what a merge of a full export does to one project is the rule SyncPeers states for two records and their deletions |
| SyncConvergence.AppReceived | src/sync_common.rs:376-809 | what it does to one application, deletions of it and of projects included: what the tombstone phase leaves of the row, then the newer of that and the sender's row unless a deletion known by then covers the latter |
| SyncConvergence.SessionReceived | src/sync_common.rs:376-947 | the same for a session, found by executable and start time under different local ids, and nothing where the application is gone |
| SyncCycle.ExportNeverFails | src/sync_common.rs:744-1041 | what a peer exports breaks no NOT NULL constraint of another |
| SyncCycle.ProjectStampConverges | src/sync_common.rs:376-684 | after a full cycle presence and updated_at of a project agree exactly if neither peer was stuck with it |
| SyncCycle.ProjectConverges | src/sync_common.rs:609-682 | all synced fields agree exactly if nobody was stuck, no equal stamps hid different fields and no rate is dropped on the way |
| SyncCycle.ProjectHashesConverge | src/lan_common.rs:203-211 | the hash inputs of the projects table are equal after the cycle exactly if no project was stuck |
| SyncCycle.RepairedCycleConverges | src/sync_common.rs:1212-1231 | with the repair after each merge, which stamps what it clears, both databases end with the same projects, synced fields and stamps exactly if every name settles: where the master's repair clears a marker no rate is lost, elsewhere nobody is stuck or tied and no rate is lost |
| SyncCycle.ProjectStuckExample | src/sync_common.rs:384-392 | the concrete pair of databases that does not converge: both hold their own deletion, so neither learns the other's |
| SyncCycle.SharedDeletionsNeverStick | src/sync_common.rs:384-392 | with at most one tombstone a name on each side, the same where both hold one, no project is ever stuck |
| SyncSessions.MergedKeepsDated | dashboard/src-tauri/resources/sql/schema.sql:117-167 | no merge and no repair leaves an application or session without a stamp, whatever the payload |
| SyncSessions.AppConverges | src/sync_common.rs:744-809 | through a cycle with its repairs, deletions included, presence and stamp of an application agree exactly if neither side refuses a newer row of the other's and no replay or repair on the slave stamps the row; what it is called agrees exactly if moreover equal stamps did not hide different names |
| SyncSessions.SessionConverges | src/sync_common.rs:811-947 | the same for presence, stamp and synced fields of a session of an application both sides end with |
| SyncSessions.SessionHashesConverge | src/lan_common.rs:203-225 | the hash inputs of applications and sessions are both equal after the cycle exactly if every application agrees and every session of those both sides end with |
| SyncManuals.ManualFate | src/sync_common.rs:516-548 | for tombstones in any order and a clock ahead of them, stated on the database before: which manual sessions the replay takes, and that one that stays is changed exactly if its project goes, to project 0 and the stamp now |
| SyncManuals.ManualReceived | src/sync_common.rs:957-1041 | what a merge of a full export does to one manual session: what the replay leaves of it, then the newer of that and the sender's row, with the stamp now where it takes a new project |
| SyncManuals.ManualConverges | src/sync_common.rs:957-1041 | through a cycle with its repairs, presence and stamp of a manual session agree exactly if neither side refuses a newer row of the other's and nothing on the slave stamps it: no replay, no repair, and no project it takes from the master's row; the contents agree exactly if moreover equal stamps hid no difference |
| SyncManuals.ManualHashesConverge | src/lan_common.rs:219-222 | the hash inputs of the manual sessions are equal after the cycle exactly if every manual session agrees |
| SyncManuals.NewManualDisagrees | dashboard/src-tauri/src/db_migrations/m20_session_project_name.rs:65-72 | a manual session of a project both know that only the master ends with, sent to the slave for the first time, takes the stamp of the import there and so never agrees in that cycle |
| SyncLimits.SharedDeletionsAgreeOnApp | src/sync_common.rs:376-809 | between two sides that know the same deletions an application agrees, exactly unless the slave's repair stamps it |
| SyncLimits.SharedDeletionsAgreeOnSession | src/sync_common.rs:811-947 | the same for a session |
| SyncTouch.SharedDeletionsAgree | src/sync_common.rs:376-809 | between sides with valid references that know the same deletions, and hold the application ahead of them, it always agrees |
| SyncTouch.EndsAs | src/sync_common.rs:811-947 | told before a merge: whether a session is there after it, whether it has a project, and the label it has without one |
| SyncTouch.SessionTouchedIff | src/sync_common.rs:1171-1193 | told before a merge into a database with valid references: the repair after it stamps a session exactly if that ends without a project beside the name of one the receiver ends with |
| SyncTouch.SessionConvergesTold | src/sync_common.rs:811-947 | so between sides with valid references the exact condition for a session to agree is told on the databases that each of the two merges starts from |
| SyncLimits.MergedUncoversAppIff | src/sync_common.rs:405-425 | a merge keeps an application ahead of its deletions exactly if it does not stay only for the sake of a session, or the payload has a row of it that is newer than all of them |
| SyncLimits.AppDeletionDiverges | src/sync_common.rs:405-425 | the concrete states in which a deletion is refused for good: the application stays on the slave for a fresh session and off the master, whatever is sent |
| SyncLimits.RestampLosesEdit | dashboard/src-tauri/resources/sql/schema.sql:149-157 | the concrete states in which an edit is lost: the deletion of a project stamps the slave's session at the import, and its older contents win over the master's newer ones |
| SyncTwice.MergedTwice | src/sync_common.rs:326-1059 | a second merge of a payload, at any later time, changes nothing exactly if it fails and rolls back or no manual session that took a new project in the first merge has a stamp after the clock that stamped it then |
| SyncTwice.MergedAgainIff | src/sync_common.rs:326-1059 | whatever the payload, once the clock has reached its manual sessions, a merge of it that goes through changes something exactly if one of them still wins; its other rows never do |
| SyncTwice.RedeliveryWrites | dashboard/src-tauri/src/db_migrations/m20_session_project_name.rs:65-72 | the concrete database and payload: a manual session of a known project from after the receiver's clock, which a second delivery writes again |
| SyncRedelivery.DeltaIsExport | src/lan_server.rs:1512-1579 | the part of a full export from a time on is what a pull since that time answers |
| SyncRedelivery.DeltaRefinesFull | src/lan_server.rs:1512-1579 | a master that has absorbed what is older, and whose clock has reached the cutoff, ends in the same state, failures included, whether it merges the delta or the full export |
| SyncNext.CycleAbsorbs | src/lan_sync_orchestrator.rs:826-842 | after a finished cycle, with later edits on the slave and any progress on the master, collected deletions included, and for any cutoff: the master has absorbed what is older exactly if it knows the old deletions the slave still lists, and every old session and manual session of the slave agreed after the cycle or the master has it otherwise |
| SyncNext.OnlyStampsMatter | src/lan_sync_orchestrator.rs:826-842 | while the master forgets no deletion and both ended with the applications in use, the rows a pull from a cutoff misses are exactly those the slave's import stamped before the cutoff, ahead of what the master has |
| SyncNext.StampedIsMissed | src/lan_server.rs:990-1002 | the slave's cutoff is its marker's time, read after the import: where that is from a later second, the next delta pull misses every session the import stamped |
| SyncNext.ImportStampsMissed | src/lan_server.rs:990-1002 | the concrete states: the deletion of a project stamps the slave's session at the import, and the next delta pull misses it |
| SyncNext.KnownWhileRemembered | src/sync_common.rs:384-392 | a master that forgets nothing knows every deletion of the slave from before the cutoff, and those of applications, if the slave deleted none since |
| SyncNext.KnownBetweenTwo | src/lan_server.rs:1034-1047 | between two devices the slave, once it heard of the end of a cycle, lists no deletion from before its marker, so unless it still lists one of an application none can be missed, whatever the master forgot |
| SyncNext.ForgottenIsMissed | src/sync_common.rs:1078-1092 | a deletion the slave still lists and the master has forgotten is never absorbed |
| SyncSlave.SlaveServer.HandleDbReady | src/lan_server.rs:887-1032 | one request changes database, files, markers and remembered answer as the request function says, the stamps of the import and the time of the markers read apart, a failed merge or verify leaving all as before |
| SyncSlave.SlaveServer.HandleUnfreeze | src/lan_server.rs:1034-1040 | at the end of a cycle the slave forgets exactly the deletions that are older than a marker of every paired peer |
| SyncSlave.ImportsAtMostOnce | src/lan_server.rs:887-1032 | after any number of requests with one marker the slave is as before the first or as after one of them |
| SyncSlave.ImportsIff | src/lan_server.rs:902-987 | a request takes the file and merges it exactly if it is new, the file is there and parses, no row fails, and backup and integrity check succeed; every other leaves the slave as it was |
| SyncSlave.ImportIsFinal | src/lan_server.rs:984-1032 | once a request has imported, no further request changes the slave; a retry gets the same answer exactly if the request carries a marker and the slave's own was inserted, and otherwise is told for ever that there is no file |
| SyncSlave.RetriesAreHarmless | src/lan_server.rs:902-1032 | requests leave the slave as it was or as after the first that imports, and one of them is answered with success exactly if that one could insert its marker |
| SyncMaster.MasterDaemon.MergeFromSlave | src/lan_sync_orchestrator.rs:576-653 | pull, backup, merge and verify leave the master repaired after the merge, or exactly as it was |
| SyncMaster.MasterDaemon.AskSlave | src/lan_sync_orchestrator.rs:709-760 | the retry loop leaves the slave as the requests that reach it do, and succeeds exactly if a success is answered in time |
| SyncMaster.MasterDaemon.SendToSlave | src/lan_sync_orchestrator.rs:655-769 | after the merge: the master stores its marker, the slave gets the export and the requests, and its marker is stored exactly if a success is heard of |
| SyncMaster.MasterDaemon.SyncWithSlave | src/lan_sync_orchestrator.rs:576-769 | from the pull to the slave's answer: the two databases change as CycleDone says, with every failure point, and the master stores its own marker before the upload and the slave's after a success |
| SyncMaster.MasterDaemon.ExecuteMasterSync | src/lan_sync_orchestrator.rs:576-779 | the whole cycle: after a success the slave, if it hears of it, and the master forget the deletions that have reached every peer of theirs; after a failure nothing is forgotten |
| SyncMaster.AnsweredIsMarked | src/lan_server.rs:995-1002 | a slave that answers a new request with success has stored its own marker for it |
| SyncMaster.SuccessMarksBoth | src/lan_sync_orchestrator.rs:655-769 | after a success both sides hold both markers with their own times and partners, so that each finds the other's at the next negotiation |
| SyncMaster.TwoDevicesForget | src/lan_server.rs:1034-1040 | between two devices a slave that hears of the end of a cycle forgets every deletion from before its marker, the cutoff of the next pull |
| SyncMaster.AskImportsOnce | src/lan_sync_orchestrator.rs:709-748 | however requests and answers get lost, the slave imports the upload once or not at all, and once if the master hears of a success |
| SyncMaster.CycleImportsOnce | src/lan_sync_orchestrator.rs:668-748 | after any cycle the slave's database is as before or as after one import of the master's export; the latter after a success |
| SyncMaster.CycleEndsEarly | src/lan_sync_orchestrator.rs:600-690 | a cycle that fails before its merge is verified leaves both sides and the markers as they were; one that fails later keeps the merge, and the marker once stored, and the slave as it was |
| SyncMaster.FullCycleConverges | src/lan_sync_orchestrator.rs:576-773 | a successful cycle that pulled everything leaves the same projects with the same synced fields on both sides exactly if every name settles |
| SyncMaster.DeltaCycleIsFull | src/lan_sync_orchestrator.rs:826-842 | a successful cycle that pulled only what is new is one that pulled everything, if the master had absorbed the rest |
| SyncMaster.PullsFromReported | src/lan_sync_orchestrator.rs:826-842 | a delta cycle pulls exactly the sessions from the time the slave reported on; only for a slave that reports none does the master's lookup decide, and without either all come, as in full mode |
| SyncMaster.LookupMisses | src/lan_sync_orchestrator.rs:826-829 | where the master's lookup is ahead, what the slave wrote in between is pulled if the slave reports its time and missed if it does not |
| SyncMaster.DeltaMissesNothing | src/lan_sync_orchestrator.rs:826-842 | a delta cycle of a slave that reports its time is a full one, whatever the master's lookup says, if the master had absorbed what is older by the slave's clock |
| SyncMaster.DeltaCycleConverges | src/lan_sync_orchestrator.rs:826-842 | so it leaves the same projects on both sides in the same states as a full one |
| SyncMaster.DeltaCycleHashesConverge | src/lan_common.rs:203-225 | and equal hash inputs of applications and sessions |
| SyncMaster.FullCycleSessionsConverge | src/lan_sync_orchestrator.rs:576-773 | a successful full cycle brings a session of an application both sides end with to agree exactly where the two-peer rule says, the repairs, restamped rows and deletions included |
| SyncMaster.FullCycleSessionsTold | src/lan_sync_orchestrator.rs:576-773 | the same between sides with valid references, with what the repairs stamp told before each of the two merges |
| SyncMaster.FullCycleHashesConverge | src/lan_common.rs:203-225 | after it the hash inputs of applications and sessions are equal exactly if every application and session agrees |
| SyncMaster.FullCycleManualsConverge | src/lan_common.rs:219-222 | and those of the manual sessions exactly if every one of them agrees |
| SyncGc.LastSync | src/sync_common.rs:1111-1128 | the newest marker that concerns a peer, or none exactly if there is none |
| SyncGc.ComputeCutoff | src/sync_common.rs:1100-1132 | without peers the age limit; with peers the oldest of their last syncs, and none exactly if one never synced |
| SyncGc.GcTombstones | src/sync_common.rs:1078-1092 | what stays is exactly the tombstones for which not every paired peer has a newer marker, or without peers those within the age limit |
| SyncGc.RememberedIff | src/sync_common.rs:1078-1132 | a deletion stays exactly if some paired peer has no marker newer than it, or without peers exactly if it is not past the age limit |
| Election.Device.HandleBeacon | src/lan_discovery.rs:980-1077 | a beacon enters the peer map and, unless it is the device's own or the role is forced, an undecided device becomes master exactly if the beacon is of no master and its own uptime, up to 30 days, is the longer or equal with the lower id; a master yields to another exactly where that does not hold; a slave stays |
| Election.Device.StartupElection | src/lan_discovery.rs:384-407 | a starting device becomes master exactly if it heard of no master and of no device with a longer uptime or the same and a lower id, else slave |
| Election.RunKeepsInv | src/lan_discovery.rs:1018-1070 | in every reachable state whoever claims mastership, now or in a beacon under way, has a master at or above it |
| Election.UndecidedDecides | src/lan_discovery.rs:1021-1052 | the rule for undecided devices written out, for the network as a whole: no other device changes |
| Election.StartupDecides | src/lan_discovery.rs:384-407 | the startup election written out, for the network as a whole |
| Election.HighestClaimStays | src/lan_discovery.rs:1018-1070 | in every reachable state there is, for each device that ever announced itself as master, a master with a longer uptime, up to 30 days, or an equal one and no higher id |
| Election.MasterPersists | src/lan_discovery.rs:1018-1070 | with beacons lost, repeated, delayed and reordered, once any device is master some device is master for ever |
| Election.QuietIffOneMaster | src/lan_discovery.rs:1018-1070 | with two or more devices a reachable state is one where no current beacon changes a role exactly if one device is master and all others are slaves |
| Election.ExchangeLeavesOne | src/lan_discovery.rs:1053-1067 | of two masters that exchange their beacons in any reachable state the one with the longer uptime, up to 30 days, is left, and of equals the lower id, whoever hears of the other first |
| Election.SoleMasterPersists | src/lan_discovery.rs:1018-1070 | once one device is master and all others are slaves they stay so for ever, whatever old beacons still arrive |
| Election.ChangesPaidFor | src/lan_discovery.rs:1018-1070 | every role change lowers twice the number of undecided devices plus the number of masters |
| Election.AtMostTwiceEach | src/lan_discovery.rs:1018-1070 | a run of n devices changes roles at most 2n times |
| Election.CanSettle | src/lan_discovery.rs:1018-1070 | every reachable state can be led to a single master by at most one more beacon for each change still possible |
| DailyStore.Store.DedupeFiles | shared/daily_store/types.rs:54-67 | the backward loop keeps the last file of each name and path |
| DailyTables.DedupedIsLast | shared/daily_store/types.rs:54-67 | deduplication keeps exactly one file for each key that occurs, the last one, in the original order |
| DailyStore.Store.ReplaceDay | shared/daily_store/write.rs:7-265 | upsert, trim, cascade and the deletion through the temp table leave the tables as if the day had been thrown away and written again, and the signature returned is the one read afterwards |
| DailyStore.Store.LoadSignature | shared/daily_store/read.rs:308-331 | the signature of a day is the time and revision of its header, none for a day never saved |
| DailyStore.Store.DeleteRemovedApps | shared/daily_store/write.rs:45-75 | the day's applications the snapshot no longer has are deleted with their sessions and files, nothing else |
| DailyStore.Store.SaveSessions | shared/daily_store/write.rs:157-182 | upserting by index and trimming leaves exactly the given sessions of the application |
| DailyStore.Store.SaveFiles | shared/daily_store/write.rs:184-245 | upserting and deleting what is not in the temp table leaves exactly the deduplicated files of the application |
| DailyStore.Store.LoadDay | shared/daily_store/read.rs:15-153 | the row loops rebuild a snapshot with the day's header, applications, sessions by index and files by ordinal |
| DailyStore.Store.LoadRange | shared/daily_store/read.rs:155-306 | one pass over all rows of a range gives for each day with a header what loading that day gives |
| DailyTables.LoadAfterReplace | shared/daily_store/write.rs:7-250 | from any earlier tables, loading a day after saving it gives the snapshot with its files deduplicated and an empty path read as none |
| DailyTables.OtherDaysUntouched | shared/daily_store/write.rs:7-250 | a save changes what is loaded of no other day |
| DailySteps.LoadedUnique | shared/daily_store/read.rs:15-153 | where the files of each application have different ordinals two loads give the same snapshot: the ORDER BY leaves nothing open |
| DailySteps.SavedOrdinalsDistinct | shared/daily_store/write.rs:191-236 | the files of an application have different ordinals after a save |
| DailyRuns.HistoryKeepsOk | shared/daily_store/write.rs:7-250 | any history of saves keeps every session and file row with an application and the ordinals of each application's files distinct, on all days |
| DailyRuns.LoadAfterHistory | shared/daily_store/read.rs:15-153 | after any history of saves a day loads as the last snapshot saved of it, and a day never saved as it did at first |
| DailyRuns.RevisionCounts | shared/daily_store/write.rs:14-41 | after any history of saves the revision of a day is its first one, 0 where there was none, plus the number of saves of that day, up to the largest 64-bit number; a day not saved keeps its header |
| DailyRuns.HeaderOfLastSave | shared/daily_store/write.rs:24-41 | the rest of the header is from the last save of the day |
| DailyRuns.RevisionTells | shared/daily_store/read.rs:308-331 | two states between which a day was saved have different signatures of it, until the numbers are used up |
| DailyRuns.LoadsAgree | shared/daily_store/read.rs:155-306 | after any history of saves from sound tables all loads of a day agree, so the range load gives what the day load gives |
| ActivitySpans.ExtendActivitySpans | shared/daily_store/types.rs:97-137 | sort, merge pass and cap loop compute the specification function |
| ActivitySpans.MergeSpans | shared/daily_store/types.rs:106-117 | the merge pass, extending the last span in place, computes the left-to-right merge |
| ActivitySpans.FindSmallestGap | shared/daily_store/types.rs:120-128 | the scan finds the first of the smallest gaps |
| ActivitySpans.SortSorts | shared/daily_store/types.rs:104 | the sort keeps every span and orders them by start |
| ActivitySpans.MergedSound | shared/daily_store/types.rs:102-117 | whatever the list was, merging gives sorted spans with gaps over 30 seconds that cover every old span and the new one |
| ActivityGroups.GroupsUnique | shared/daily_store/types.rs:95-117 | a set of points has only one list of groups: from point to point, more than 30 seconds apart, no longer gap inside |
| ActivityGroups.PointJoinsGroups | shared/daily_store/types.rs:102-117 | recording a point turns the groups of the points so far into the groups with it |
| ActivityGroups.OrderDoesNotMatter | shared/daily_store/types.rs:95-117 | the same points recorded in any order and any number of times give the same spans, while the cap is not reached |
| ActivityGroups.FewPointsStayBelowCap | shared/daily_store/types.rs:119 | up to 100 points never reach the cap |
| ActivityCap.CappedCount | shared/daily_store/types.rs:119-134 | the cap loop ends with exactly 100 spans, or with as many as there were, if fewer |
| ActivityCap.CappedCloses | shared/daily_store/types.rs:119-134 | it only closes gaps, and none it closes is wider than any it leaves open |
| ActivityCap.JoinedDuration | shared/daily_store/types.rs:119-134 | for every way to close gaps the time covered is the whole stretch less the gaps left open |
| ActivityCap.CapIsOptimal | shared/daily_store/types.rs:95-134 | of all ways to close gaps that leave at most 100 spans, the loop's covers the least time |
| ActivityCap.ExtendedSound | shared/daily_store/types.rs:97-137 | the result has at most 100 spans in order, more than 30 seconds apart, covering every span there was and the new one |
| TextLimits.TrimSplits | src/storage.rs:78-80 | trimming takes all white space off both ends and nothing else |
| TextLimits.TruncateMiddle | src/storage.rs:49-76 | a value within the limit is as long as before, a longer one exactly as long as the limit |
| TextLimits.TruncatedShows | src/storage.rs:49-76 | of a longer value the beginning and the end are kept around three dots, the end by at most one character the longer, together as long as the limit |
| TextLimits.SanitizeTwice | src/storage.rs:49-80 | cleaning a text again changes nothing, exactly unless the limit is 2 or 3 and cuts the value behind a space |
| TextLimits.SafeLimits | src/storage.rs:49-80 | cleaning is idempotent for all texts exactly if the limit is neither 2 nor 3 |
| TextLimits.SanitizeSettles | src/storage.rs:82-96 | for larger limits the cleaned text fits, has no space at its ends, is stable, and is empty exactly if the text was blank |
| TextLimits.NormalizeHistory | src/storage.rs:109-123 | the loop keeps the last 12 of the cleaned, different, non-empty titles |
| TextLimits.HistoryPrepared | src/storage.rs:109-123 | a prepared history is fit for the store, and preparing leaves exactly the fit ones alone |
| TextLimits.HistoryKeepsNewest | src/storage.rs:109-123 | a prepared history holds at most 12 titles in the order in which they first occur, and what is left out of it first occurs before all that are kept |
| TextLimits.PushKeepsOk | src/tracker.rs:238-250 | pushing a title keeps a history fit and leaves the title in it |
| TextLimits.PushedLast | src/tracker.rs:238-250 | a new title comes last; the others stay in their order, and only at 12 the oldest makes room |
| TextLimits.PreparedTwice | src/storage.rs:98-126 | preparing a file for storage again changes nothing |
| TextLimits.PreparedShows | src/storage.rs:98-126 | storing trims the texts of a file and cuts those over 260, 240, 512 and 180 characters to that length; its seconds, times, kind and spans stay |
| FileIndex.TitleKeySplits | src/tracker.rs:65-69 | title keys of cleaned titles are equal exactly if names and titles are, unless the names clash: one goes on after a newline where the other ends, as far as a cleaned title can |
| FileIndex.NamesShareKeyIff | src/tracker.rs:44-72 | two different names of files without a path are given one cache key, under some window titles, exactly if they clash |
| FileIndex.TitleKeysCollide | src/tracker.rs:65-69 | two concrete files whose names clash have one key |
| FileIndex.KeySurvivesStorage | src/tracker.rs:44-72 | a stored file has the cache key it had before |
| FileIndex.RebuiltSound | src/tracker.rs:21-38 | whatever the files are, a rebuilt index leads every key to a file it describes and has the key of every file that has one |
| FileIndex.RebuiltLeadsToLast | src/tracker.rs:21-38 | of files with one key a rebuilt index leads to the last |
| FileIndex.RebuiltSurvivesStorage | src/tracker.rs:21-38 | the index rebuilt after a restart is the one rebuilt before it |
| FileIndex.RecordKeepsSound | src/tracker.rs:428-497 | after recording, every key leads to a valid position: a path key to a file of that path, a title or name key to a file of that name without a path |
| FileIndex.RecordedKeyLeads | src/tracker.rs:460-497 | after a tick the key that the written file has now leads to it, and the key of the tick is kept only if it is that one |
| FileIndex.RecordCreditsOne | src/tracker.rs:428-497 | an activity with a name adds its seconds to exactly one file, one of its path or, without a path, of its name or one whose keys can be those of its name; an activity without a name to none |
| FileIndex.RecordKeepsPaths | src/tracker.rs:441-496 | recording never opens a second file for a path |
| FileIndex.RecordKeepsNamesIff | src/tracker.rs:439-496 | recording opens a second file without a path for a name exactly if no key leads to the first and that is in memory under another spelling than the cleaned one |
| FileIndex.RecordKeepsCleanIff | src/tracker.rs:439-496 | names stay as they are stored exactly unless a file without a path is opened under a name of more than 260 characters |
| FileIndex.StorageCleansNames | src/storage.rs:98-126 | storing the files makes every name one that is found again, and splits none |
| FileIndex.ChangedTitleOneFile | src/tracker.rs:439-458 | two ticks of one name from an empty list, without a path and with no save between them, end in one file exactly if their keys are equal or the name has at most 260 characters |
| FileTracker.Tracker.RecordAppActivity | src/tracker.rs:363-498 | the in-place updates of the day and the cache give the recorded state, of which FileTimeline says what it shows |
| FileTimeline.RecordWritesOne | src/tracker.rs:299-350 | a tick that names a file writes exactly one: its last-seen is the tick's, its first-seen is as it was or the tick's if it is new, the tick's moment and every earlier span lie in its spans, at most 100 and more than 30 seconds apart, and its title, path and kind are the tick's where it has them and else the old ones |
| FileTimeline.RunWritesOne | src/tracker.rs:363-498 | so it is at any point of any run; the tick's app gains the time and keeps its display name, and no other app changes |
| FileTimeline.TicksStayShown | src/tracker.rs:299-313 | between reloads the moment of every tick that named a file stays on the timeline of its app, whatever ticks and saves follow |
| FileTracker.Tracker.RebuildFileIndexCache | src/tracker.rs:21-38 | the loops rebuild the index of every application |
| FileTracker.Tracker.PrepareDailyForStorage | src/storage.rs:98-126 | the in-place loops prepare every file of every application and change nothing else |
| FileTracker.RunKeepsSound | src/tracker.rs:363-498 | through any activity, saves and reloads every cached key leads to a file it describes |
| FileTracker.RunKeepsTidy | src/tracker.rs:363-498 | through them no path is ever split over two files, if what is loaded has named files and no path twice |
| FileTracker.RunKeepsNames | src/tracker.rs:363-498 | through any activity, saves and reloads no name without a path is ever split over two files, if names of more than 260 characters are stored before the next tick and what is loaded had been stored |
| FileTracker.RunConserves | src/tracker.rs:400-497 | between reloads an application gains exactly the seconds of its ticks, and its files together exactly those of the ticks that name a file |
| TrackerStore.LoadIsStoredDay | src/storage.rs:186-204 | whatever tables a history of saves from empty ones has left, loading a day gives the last snapshot saved of it with its files normalized, or none |
| TrackerStore.LifeStaysTidy | src/tracker.rs:574-595 | from an empty store, through any ticks, saves, restarts and changes of day, failed ones included, every cached key leads to a file it describes and no path is ever split over two files |
| TrackerStore.LifeKeepsNames | src/tracker.rs:574-595 | through any such life no name without a path is split either, if names of more than 260 characters are saved, or their day left, before the next tick |
| TrackerStore.LifeLoadsLastSave | src/storage.rs:186-204 | in any life a day that is opened again has the apps, seconds and sessions of its last written save, and of the files of one name and path the last |
| TrackerStore.LifeRestores | src/storage.rs:186-204 | where names of more than 260 characters are saved in time, the day that is opened is the day that was saved |
| ProcessTree.Walk.CollectDescendants | src/title_parser.rs:30-45 | on any process table, cycles and shared children included, the search ends; it newly visits only what the start reaches, and with every process it newly visits all its children; all but the start are listed, and nothing the start does not reach |
| ProcessTree.CollectAppPids | src/monitor_macos.rs:260-283 | the root processes, ascending and each once, are those of the executable and those running from below the application's path |
| ProcessTree.UnderPathIff | src/monitor_macos.rs:260-283 | however many slashes end the app's path, a process runs from below it exactly if its path goes on with a slash where the app's ends, so that foo.app 2 is not below foo.app |
| ProcessTree.SearchRoots | src/monitor_macos.rs:293-302 | the search from all roots lists exactly the processes some root reaches |
| ProcessTree.AppProcesses | src/monitor_macos.rs:285-304 | the processes whose time is summed are exactly those reachable from the roots, ascending and each once |

## Left out

- SyncDatabase.Database.MergeSessionRows: local row ids, split_source columns and the conflict log are not modelled, because nothing that is proved reads them.
- SyncDatabase.Database.ReplayTombstone: keys without a separator and the numeric CAST fallback of session keys are not modelled; LIKE matching of manual sessions is taken as equality of start time and title, and at most one manual session has a given start time and title.
- SyncDatabase.Database.MergeTombstones: leaves out what ReplayTombstone does.
- SyncColumns.AppArrivesWhole: columns that no export carries, such as is_imported, status and client of a project or the colour of an application, are not modelled, nor are the defaults an insert gives them.
- SyncMaster.FullCycleConverges: links to projects are not compared, because a missing remote link keeps the local one.
- SyncDatabase.Database.MergeManualRows: at most one manual session has a given start time and title, while the schema also tells them apart by project; the application id of manual sessions is stored but, as in the code, neither cascade nor repair cleans it, and nothing is claimed of it.
- SyncRedelivery.DeltaRefinesFull: asks that no application tombstone in the full export is news to the master, because an application deletion that arrives late can take fresh sessions with it.
- SyncTwice.MergedTwice: asks that the payload lists a manual session only once, as exports do; SyncTwice.MergedAgainIff is about any payload.
- SyncSlave.ImportIsFinal: asks that the uploaded file is removed after the import; the code ignores a failure there (src/lan_server.rs:986), after which a retry without a stored marker would import again. ImportsAtMostOnce, RetriesAreHarmless and the lemmas of SyncMaster rest on this too.
- SyncMaster.MasterDaemon.SyncWithSlave: storing the other side's marker always succeeds, while the code ignores a failure there; the tables hash in the markers is left out.
- FileTracker.RunConserves: holds between reloads only, because a reload replaces the day by what the store holds.
- Election.MasterPersists: uptimes are fixed ranks; in the program they grow, and roles are reset after a sync.
- ActivityGroups.OrderDoesNotMatter: asks that no call had to close a gap, because which gaps are smallest depends on the order.
- SyncGc.GcTombstones: no claim that a dropped tombstone had been delivered, because a marker does not prove it with three devices or after a failed import.
- The blacklist of project names and the trigger that carries a project's new name into merge markers; projects are not renamed by a merge.
- Parsing and formatting of JSON and of time stamps, and unparsable stamps in stored spans, which the code treats as infinitely far apart.
- Seconds are unbounded numbers; the 64-bit counters of the tracker overflow only after more seconds than a day can hold. The revision of a day does saturate in the model.
- The sessions of record_app_activity, which depend on a wall clock and a monotonic clock, and total_time_formatted.
- The fraction of a core computed from two CPU snapshots; only the set of processes is modelled.
- Sockets, HTTP, freezing and unfreezing, preflight, negotiation, circuit breaker and progress reports. A cycle's mode and the times known for its markers are inputs.
- The pointer file that older masters rely on in db-ready.
- Backup and restore are copies of the state and do not fail to restore; the transaction is atomic.
- Forced roles in the network model (a single device's handling of them is modelled), the growth of uptimes between a beacon and its arrival, and device ids as text.
- The order of ORDER BY name in exports; rows are listed in any order. The LEFT JOIN of the range load is modelled as days first, then their applications.
- Legacy JSON files of the daily store, schema migration.
- Dashboard, tray, translations, licensing, pairing, online sync and encryption.
