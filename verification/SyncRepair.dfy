/** verify_merge_integrity: the repair pass that follows every merge. */
module SyncRepair {
  import opened Options
  import opened SyncTypes
  import opened SyncMerge
  import opened SyncInvariants

  /** The session carries the name of a project that exists here. */
  predicate NamesProject(db: Db, s: Session) {
    s.projectName.Some? && s.projectName.value != "" && s.projectName.value in db.projects.rows
  }

  /** The link of a session found again by the project name it carries. */
  function ReattachedLink(db: Db, s: Session): Option<int> {
    if NamesProject(db, s) && (s.projectId.None? || !ProjectExists(db.projects.rows, s.projectId.value))
    then Some(db.projects.rows[s.projectName.value].id)
    else s.projectId
  }

  /** Each UPDATE of the pass leaves updated_at alone, so the triggers stamp every row it touches now. */
  function Reattach(db: Db, now: Time): Db {
    db.(sessions := map k | k in db.sessions ::
      if ReattachedLink(db, db.sessions[k]) != db.sessions[k].projectId
      then db.sessions[k].(projectId := ReattachedLink(db, db.sessions[k]), updatedAt := now)
      else db.sessions[k])
  }

  predicate Dangling(db: Db, link: Option<int>) {
    link.Some? && !ProjectExists(db.projects.rows, link.value)
  }

  function ClearSessionLinks(db: Db, now: Time): Db {
    db.(sessions := map k | k in db.sessions ::
      if Dangling(db, db.sessions[k].projectId) then db.sessions[k].(projectId := None, updatedAt := now)
          else db.sessions[k])
  }

  function ClearManualLinks(db: Db, now: Time): Db {
    db.(manuals := map k | k in db.manuals ::
      if db.manuals[k].projectId == 0 || ProjectExists(db.projects.rows, db.manuals[k].projectId) then db.manuals[k]
      else db.manuals[k].(projectId := 0, updatedAt := now))
  }

  function ClearAppLinks(db: Db, now: Time): Db {
    db.(apps := db.apps.(rows := map e | e in db.apps.rows ::
      if Dangling(db, db.apps.rows[e].projectId) then db.apps.rows[e].(projectId := None, updatedAt := now)
          else db.apps.rows[e]))
  }

  predicate DanglingMerge(db: Db, f: ProjectFields) {
    f.mergedInto.Some? && f.mergedInto.value !in db.projects.rows
  }

  function ClearedMarker(p: Project, now: Time): Project {
    p.(fields := p.fields.(mergedInto := None, mergedAt := None), updatedAt := now)
  }

  function ClearMergeMarkers(db: Db, now: Time): Db {
    db.(projects := db.projects.(rows := map n | n in db.projects.rows ::
      if DanglingMerge(db, db.projects.rows[n].fields) then ClearedMarker(db.projects.rows[n], now)
          else db.projects.rows[n]))
  }

  function Orphans(db: Db): set<SessionKey> {
    set k | k in db.sessions && !AppExists(db.apps.rows, k.appId)
  }

  /** What foreign_key_check still finds at this point: sessions without an application,
      and manual sessions that hold the sentinel 0. */
  predicate HasViolations(db: Db) {
    Orphans(db) != {} || exists k :: k in db.manuals && db.manuals[k].projectId == 0
  }

  /** The clean-up runs with the triggers dropped and installs them again. */
  function DropOrphans(db: Db, now: Time): Db {
    if HasViolations(db) then
      DeleteSessions(db.(triggersOn := false), Orphans(db), now).(triggersOn := true)
    else db
  }

  function Relinked(db: Db, now: Time): Db {
    ClearMergeMarkers(ClearAppLinks(ClearManualLinks(ClearSessionLinks(Reattach(db, now), now), now), now), now)
  }

  function Repaired(db: Db, now: Time): Db {
    DropOrphans(Relinked(db, now), now)
  }

  // ----- what the repair promises -----

  /** The pass drops sessions only, after the statements that touch links and markers. */
  lemma RepairedTables(db: Db, now: Time)
    ensures var r, d := Repaired(db, now), Relinked(db, now);
            r.projects == d.projects && r.apps == d.apps && r.manuals == d.manuals && r.tombstones == d.tombstones
  {
  }

  lemma RelinkedApps(db: Db, now: Time)
    ensures Relinked(db, now).apps == ClearAppLinks(db, now).apps
    ensures Relinked(db, now).tombstones == db.tombstones
    ensures Relinked(db, now).manuals.Keys == db.manuals.Keys
  {
    assert Reattach(db, now).projects == db.projects;
    assert ClearManualLinks(ClearSessionLinks(Reattach(db, now), now), now).apps == db.apps;
  }

  lemma RelinkedProjects(db: Db, now: Time)
    ensures Relinked(db, now).projects == ClearMergeMarkers(db, now).projects
  {
    assert ClearAppLinks(ClearManualLinks(ClearSessionLinks(Reattach(db, now), now), now), now).projects == db.projects;
  }

  /** Names, ids and applications stay; a project id exists after exactly when it did before. A stamp
      changes exactly where a statement of the pass touches the row, and then to now. */
  lemma RepairedKeepsIds(db: Db, now: Time)
    ensures var r := Repaired(db, now);
            && r.projects.rows.Keys == db.projects.rows.Keys
            && r.apps.rows.Keys == db.apps.rows.Keys
            && r.manuals.Keys == db.manuals.Keys
            && r.tombstones == db.tombstones
            && r.projects.next == db.projects.next
            && r.apps.next == db.apps.next
    ensures forall n :: n in db.projects.rows ==> Repaired(db, now).projects.rows[n] == RepairedProject(db, n, now)
    ensures forall e :: e in db.apps.rows ==> Repaired(db, now).apps.rows[e] == RepairedApp(db, e, now)
    ensures forall id :: ProjectExists(Repaired(db, now).projects.rows, id) <==> ProjectExists(db.projects.rows, id)
  {
    RepairedTables(db, now);
    RelinkedApps(db, now);
    RelinkedProjects(db, now);
    SameIds(db, ClearMergeMarkers(db, now));
  }

  lemma SameIds(db: Db, d: Db)
    requires d.projects.rows.Keys == db.projects.rows.Keys
    requires forall n :: n in db.projects.rows ==> d.projects.rows[n].id == db.projects.rows[n].id
    ensures forall id :: ProjectExists(d.projects.rows, id) <==> ProjectExists(db.projects.rows, id)
  {
    forall id ensures ProjectExists(d.projects.rows, id) <==> ProjectExists(db.projects.rows, id) {
      if ProjectExists(db.projects.rows, id) {
        var n :| n in db.projects.rows && db.projects.rows[n].id == id;
        assert n in d.projects.rows;
      }
      if ProjectExists(d.projects.rows, id) {
        var n :| n in d.projects.rows && d.projects.rows[n].id == id;
        assert n in db.projects.rows;
      }
    }
  }

  function RepairedProject(db: Db, n: string, now: Time): Project
    requires n in db.projects.rows
  {
    if DanglingMerge(db, db.projects.rows[n].fields) then ClearedMarker(db.projects.rows[n], now)
        else db.projects.rows[n]
  }

  function RepairedApp(db: Db, e: string, now: Time): App
    requires e in db.apps.rows
  {
    if Dangling(db, db.apps.rows[e].projectId) then db.apps.rows[e].(projectId := None, updatedAt := now)
        else db.apps.rows[e]
  }

  /** The link a session ends with: its own if that project exists, else the one its label names, else none. */
  function RepairedLink(db: Db, s: Session): Option<int> {
    var link := ReattachedLink(db, s);
    if Dangling(db, link) then None else link
  }

  /** A statement of the pass touches the session. */
  predicate TouchesSession(db: Db, s: Session) {
    RepairedLink(db, s) != s.projectId
  }

  function RepairedSession(db: Db, s: Session, now: Time): Session {
    if TouchesSession(db, s) then s.(projectId := RepairedLink(db, s), updatedAt := now) else s
  }

  lemma SessionsAfterDrop(db: Db, now: Time, k: SessionKey)
    requires k in db.sessions
    ensures var r := DropOrphans(db, now);
            (k in r.sessions <==> AppExists(db.apps.rows, k.appId)) &&
                (k in r.sessions ==> r.sessions[k] == db.sessions[k])
  {
    assert k in Orphans(db) <==> !AppExists(db.apps.rows, k.appId);
  }

  /** A session survives exactly when its application exists; it keeps all but a link to nothing, which
      is replaced by the project its label names or by none, and then it is stamped now. */
  lemma SessionAfterRepair(db: Db, now: Time, k: SessionKey)
    requires k in db.sessions
    ensures var r := Repaired(db, now);
            && (k in r.sessions <==> AppExists(db.apps.rows, k.appId))
            && (k in r.sessions ==> r.sessions[k] == RepairedSession(db, db.sessions[k], now))
            && (k in r.sessions ==> LinkOk(r.projects.rows, r.sessions[k].projectId))
            && (k in r.sessions && NamesProject(db, db.sessions[k]) ==> r.sessions[k].projectId.Some?)
  {
    RepairedKeepsIds(db, now);
    LinksAfterRepair(db, now, k);
    AppsAfterLinks(db, Relinked(db, now));
    NamedIsLinked(db, db.sessions[k]);
    SessionsAfterDrop(Relinked(db, now), now, k);
  }

  lemma NamedIsLinked(db: Db, s: Session)
    ensures LinkOk(db.projects.rows, RepairedLink(db, s))
    ensures NamesProject(db, s) ==> RepairedLink(db, s).Some?
  {
  }

  lemma LinksAfterRepair(db: Db, now: Time, k: SessionKey)
    requires k in db.sessions
    ensures var d := Relinked(db, now);
            && k in d.sessions
            && d.sessions[k] == RepairedSession(db, db.sessions[k], now)
            && d.apps.rows.Keys == db.apps.rows.Keys
            && (forall e :: e in db.apps.rows ==> d.apps.rows[e].id == db.apps.rows[e].id)
  {
    var d1 := Reattach(db, now);
    var link := ReattachedLink(db, db.sessions[k]);
    assert d1.sessions[k].projectId == link;
    assert Dangling(d1, link) == Dangling(db, link);
  }

  lemma AppsAfterLinks(db: Db, d: Db)
    requires d.apps.rows.Keys == db.apps.rows.Keys
    requires forall e :: e in db.apps.rows ==> d.apps.rows[e].id == db.apps.rows[e].id
    ensures forall id :: AppExists(d.apps.rows, id) <==> AppExists(db.apps.rows, id)
  {
    forall id ensures AppExists(d.apps.rows, id) <==> AppExists(db.apps.rows, id) {
      if AppExists(db.apps.rows, id) {
        var e :| e in db.apps.rows && db.apps.rows[e].id == id;
        assert e in d.apps.rows;
      }
      if AppExists(d.apps.rows, id) {
        var e :| e in d.apps.rows && d.apps.rows[e].id == id;
        assert e in db.apps.rows;
      }
    }
  }

  lemma RepairedManuals(db: Db, now: Time)
    ensures ManualRefsOk(Repaired(db, now))
  {
    RepairedTables(db, now);
    RepairedKeepsIds(db, now);
    var d := ClearSessionLinks(Reattach(db, now), now);
    assert Relinked(db, now).manuals == ClearManualLinks(d, now).manuals;
    assert d.projects == db.projects;
  }

  lemma RepairedSessions(db: Db, now: Time)
    ensures SessionRefsOk(Repaired(db, now))
  {
    var r := Repaired(db, now);
    RepairedKeepsIds(db, now);
    AppsAfterLinks(db, r);
    forall k | k in r.sessions ensures AppExists(r.apps.rows, k.appId) &&
        LinkOk(r.projects.rows, r.sessions[k].projectId) {
      SessionAfterRepair(db, now, k);
    }
  }

  /** No reference dangles, whatever the state before. */
  lemma RepairedIsSound(db: Db, now: Time)
    ensures RefsOk(Repaired(db, now))
    ensures var r := Repaired(db, now); forall n :: n in r.projects.rows ==>
              !DanglingMerge(r, r.projects.rows[n].fields)
  {
    RepairedSessions(db, now);
    RepairedManuals(db, now);
    RepairedKeepsIds(db, now);
  }

  /** Nothing is left to repair: each statement of the pass leaves such a state alone. */
  ghost predicate Clean(db: Db) {
    && RefsOk(db)
    && (forall n :: n in db.projects.rows ==> !DanglingMerge(db, db.projects.rows[n].fields))
    && (forall k :: k in db.sessions && NamesProject(db, db.sessions[k]) ==> db.sessions[k].projectId.Some?)
    && (HasViolations(db) ==> db.triggersOn)
  }

  lemma NothingToReattach(db: Db, now: Time)
    requires Clean(db)
    ensures Reattach(db, now) == db
  {
    forall k | k in db.sessions ensures ReattachedLink(db, db.sessions[k]) == db.sessions[k].projectId {
    }
    assert Reattach(db, now).sessions == db.sessions;
  }

  lemma NothingToClear(db: Db, now: Time)
    requires Clean(db)
    ensures ClearSessionLinks(db, now) == db && ClearManualLinks(db, now) == db
    ensures ClearAppLinks(db, now) == db && ClearMergeMarkers(db, now) == db
  {
    assert ClearSessionLinks(db, now).sessions == db.sessions;
    assert ClearManualLinks(db, now).manuals == db.manuals;
    assert ClearAppLinks(db, now).apps.rows == db.apps.rows;
    assert ClearMergeMarkers(db, now).projects.rows == db.projects.rows;
  }

  lemma CleanIsFixed(db: Db, now: Time)
    requires Clean(db)
    ensures Repaired(db, now) == db
  {
    NothingToReattach(db, now);
    NothingToClear(db, now);
    assert Orphans(db) == {};
    assert db.sessions - {} == db.sessions;
  }

  /** The repair is idempotent from any state. */
  lemma RepairedTwice(db: Db, now: Time, later: Time)
    ensures Repaired(Repaired(db, now), later) == Repaired(db, now)
  {
    var r := Repaired(db, now);
    RepairedIsSound(db, now);
    RepairedKeepsIds(db, now);
    forall k | k in r.sessions && NamesProject(r, r.sessions[k])
      ensures r.sessions[k].projectId.Some?
    {
      SessionAfterRepair(db, now, k);
    }
    assert Clean(r);
    CleanIsFixed(r, later);
  }
}
