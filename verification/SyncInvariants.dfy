/** What every merge keeps: ids stay unique, references stay valid, tombstones only accumulate. */
module SyncInvariants {
  import opened Options
  import opened SyncTypes
  import opened SyncMerge

  // ----- the tombstone phase only removes -----

  /** A row of `b` is one of `a`, or one that lost its link to a project and was stamped now. */
  ghost predicate AppKeptOrUnlinked(a: App, b: App, now: Time) {
    b == a || (a.projectId.Some? && b == a.(projectId := None, updatedAt := now))
  }

  ghost predicate SessionKeptOrUnlinked(a: Session, b: Session, now: Time) {
    b == a || (a.projectId.Some? && b == a.(projectId := None, updatedAt := now))
  }

  ghost predicate ManualKeptOrUnlinked(a: Manual, b: Manual, now: Time) {
    b == a || b == a.(projectId := 0, updatedAt := now)
  }

  /** `b` holds a part of the rows of `a`, unchanged but for lost links, and no fewer tombstones. */
  ghost predicate Shrinks(a: Db, b: Db, now: Time) {
    && (forall n :: n in b.projects.rows ==> n in a.projects.rows && b.projects.rows[n] == a.projects.rows[n])
    && (forall e :: e in b.apps.rows ==> e in a.apps.rows && AppKeptOrUnlinked(a.apps.rows[e], b.apps.rows[e], now))
    && (forall k :: k in b.sessions ==> k in a.sessions && SessionKeptOrUnlinked(a.sessions[k], b.sessions[k], now))
    && (forall k :: k in b.manuals ==> k in a.manuals && ManualKeptOrUnlinked(a.manuals[k], b.manuals[k], now))
    && b.projects.next == a.projects.next
    && b.apps.next == a.apps.next
    && a.tombstones <= b.tombstones
    && a.triggersOn == b.triggersOn
  }

  lemma ReplayShrinks(db: Db, t: Tombstone, now: Time)
    requires !db.triggersOn
    ensures Shrinks(db, Replay(db, t, now), now)
    ensures Replay(db, t, now).tombstones == db.tombstones
  {
  }

  lemma ApplyTombstoneShrinks(db: Db, t: Tombstone, now: Time)
    requires !db.triggersOn
    ensures Shrinks(db, ApplyTombstone(db, t, now), now)
    ensures ApplyTombstone(db, t, now).tombstones <= db.tombstones + {t}
  {
    ReplayShrinks(db, t, now);
  }

  lemma ShrinksTransitive(a: Db, b: Db, c: Db, now: Time)
    requires Shrinks(a, b, now) && Shrinks(b, c, now)
    ensures Shrinks(a, c, now)
  {
  }

  lemma {:induction false} ApplyTombstonesShrinks(db: Db, ts: seq<Tombstone>, now: Time)
    requires !db.triggersOn
    ensures Shrinks(db, ApplyTombstones(db, ts, now), now)
    ensures forall t :: t in ApplyTombstones(db, ts, now).tombstones ==> t in db.tombstones || t in ts
  {
    if ts != [] {
      var init, last := ts[..|ts| - 1], ts[|ts| - 1];
      ApplyTombstonesShrinks(db, init, now);
      ApplyTombstoneShrinks(ApplyTombstones(db, init, now), last, now);
      ShrinksTransitive(db, ApplyTombstones(db, init, now), ApplyTombstones(db, ts, now), now);
    }
  }

  // ----- ids -----

  ghost predicate ProjectIdsOk(table: ProjectTable) {
    && (forall n :: n in table.rows ==> 0 < table.rows[n].id < table.next)
    && (forall m, n :: m in table.rows && n in table.rows && table.rows[m].id == table.rows[n].id ==> m == n)
    && 0 < table.next
  }

  ghost predicate AppIdsOk(table: AppTable) {
    && (forall e :: e in table.rows ==> 0 < table.rows[e].id < table.next)
    && (forall d, e :: d in table.rows && e in table.rows && table.rows[d].id == table.rows[e].id ==> d == e)
    && 0 < table.next
  }

  ghost predicate SessionsBelow(sessions: map<SessionKey, Session>, next: int) {
    forall k :: k in sessions ==> k.appId < next
  }

  /** AUTOINCREMENT: ids are positive, unique and never handed out again. */
  ghost predicate IdsOk(db: Db) {
    ProjectIdsOk(db.projects) && AppIdsOk(db.apps) && SessionsBelow(db.sessions, db.apps.next)
  }

  lemma ShrinksKeepsIds(a: Db, b: Db, now: Time)
    requires Shrinks(a, b, now) && IdsOk(a)
    ensures IdsOk(b)
  {
  }

  /** Merging projects keeps every row and its id; new rows get fresh ids. */
  lemma {:induction false} MergeProjectsKeepsIds(table: ProjectTable, tombs: set<Tombstone>, rows: seq<ProjectRow>)
    requires ProjectIdsOk(table)
    ensures ProjectIdsOk(MergeProjects(table, tombs, rows))
    ensures forall n :: n in table.rows ==>
                          && n in MergeProjects(table, tombs, rows).rows
                          && MergeProjects(table, tombs, rows).rows[n].id == table.rows[n].id
                          && MergeProjects(table, tombs, rows).rows[n].updatedAt >= table.rows[n].updatedAt
  {
    if rows != [] {
      MergeProjectsKeepsIds(table, tombs, rows[..|rows| - 1]);
    }
  }

  /** Rows stay with their ids and no smaller stamp; new rows get fresh ids. */
  ghost predicate AppsGrow(a: AppTable, b: AppTable) {
    && a.next <= b.next
    && (forall e :: e in a.rows ==> e in b.rows && b.rows[e].id == a.rows[e].id &&
                                    b.rows[e].updatedAt >= a.rows[e].updatedAt)
    && (forall e :: e in b.rows && e !in a.rows ==> b.rows[e].id >= a.next)
  }

  lemma MergeAppKeepsIds(table: AppTable, tombs: set<Tombstone>, projects: Links, r: AppRow, now: Time)
    requires AppIdsOk(table)
    ensures AppIdsOk(MergeApp(table, tombs, projects, r, now))
    ensures AppsGrow(table, MergeApp(table, tombs, projects, r, now))
  {
    var after := MergeApp(table, tombs, projects, r, now);
    forall e | e in after.rows
      ensures if e in table.rows then after.rows[e].id == table.rows[e].id else e == r.exe &&
                                                                                after.rows[e].id == table.next
    {
    }
  }

  lemma {:induction false} MergeAppsKeepsIds(table: AppTable, tombs: set<Tombstone>, projects: Links,
                                             rows: seq<AppRow>, now: Time)
    requires AppIdsOk(table)
    ensures AppIdsOk(MergeApps(table, tombs, projects, rows, now))
    ensures AppsGrow(table, MergeApps(table, tombs, projects, rows, now))
  {
    if rows != [] {
      MergeAppsKeepsIds(table, tombs, projects, rows[..|rows| - 1], now);
      MergeAppKeepsIds(MergeApps(table, tombs, projects, rows[..|rows| - 1], now), tombs, projects, rows[|rows| - 1],
          now);
    }
  }

  /** Sessions are only added under ids of known applications, and never lose time. */
  lemma {:induction false} MergeSessionsKeys(sessions: map<SessionKey, Session>, tombs: set<Tombstone>, apps: Links,
                                             projects: Links, rows: seq<SessionRow>, now: Time)
    ensures forall k :: k in sessions ==>
                          && k in MergeSessions(sessions, tombs, apps, projects, rows, now)
                          && MergeSessions(sessions, tombs, apps, projects, rows,
                               now)[k].updatedAt >= sessions[k].updatedAt
    ensures forall k :: k in MergeSessions(sessions, tombs, apps, projects, rows, now) && k !in sessions ==>
                          exists exe :: exe in apps.local && apps.local[exe] == k.appId
  {
    if rows != [] {
      var init, r := rows[..|rows| - 1], rows[|rows| - 1];
      MergeSessionsKeys(sessions, tombs, apps, projects, init, now);
      if LocalSessionKey(apps, r).Some? {
        assert apps.remote[r.appId] in apps.local;
      }
    }
  }

  /** Any payload, well formed or not, leaves unique ids behind. */
  lemma MergedKeepsIds(db: Db, p: Payload, now: Time)
    requires IdsOk(db)
    ensures IdsOk(Merged(db, p, now))
  {
    var d0 := db.(triggersOn := false);
    var d1, d2, d3 := AfterTombstones(db, p, now), AfterProjects(db, p, now), AfterApps(db, p, now);
    ApplyTombstonesShrinks(d0, p.tombstones, now);
    ShrinksKeepsIds(d0, d1, now);
    MergeProjectsKeepsIds(d1.projects, d1.tombstones, p.projects);
    MergeAppsKeepsIds(d2.apps, d2.tombstones, ProjectLinks(d2, p), p.apps, now);
    MergeSessionsKeys(d3.sessions, d3.tombstones, AppLinks(d3, p), ProjectLinks(d3, p), p.sessions, now);
    var after := AfterSessions(db, p, now).sessions;
    forall k | k in after ensures k.appId < d3.apps.next {
      if k !in d3.sessions {
        var exe :| exe in AppIds(d3.apps) && AppIds(d3.apps)[exe] == k.appId;
        assert exe in d3.apps.rows;
      }
    }
  }

  // ----- references -----

  predicate ProjectExists(projects: map<string, Project>, id: int) {
    exists n :: n in projects && projects[n].id == id
  }

  predicate AppExists(apps: map<string, App>, id: int) {
    exists e :: e in apps && apps[e].id == id
  }

  ghost predicate LinkOk(projects: map<string, Project>, link: Option<int>) {
    link.Some? ==> ProjectExists(projects, link.value)
  }

  ghost predicate SessionRefsOk(db: Db) {
    forall k :: k in db.sessions ==> AppExists(db.apps.rows, k.appId) &&
                                     LinkOk(db.projects.rows, db.sessions[k].projectId)
  }

  ghost predicate AppRefsOk(db: Db) {
    forall e :: e in db.apps.rows ==> LinkOk(db.projects.rows, db.apps.rows[e].projectId)
  }

  ghost predicate ManualRefsOk(db: Db) {
    forall k :: k in db.manuals ==> db.manuals[k].projectId == 0 ||
                                    ProjectExists(db.projects.rows, db.manuals[k].projectId)
  }

  /** Every application id of a session and every project id in use exists. */
  ghost predicate RefsOk(db: Db) {
    SessionRefsOk(db) && AppRefsOk(db) && ManualRefsOk(db)
  }

  lemma ProjectOutlivesDelete(projects: map<string, Project>, name: string, id: int)
    requires ProjectExists(projects, id) && name in projects && projects[name].id != id
    ensures ProjectExists(projects - {name}, id)
  {
    var n :| n in projects && projects[n].id == id;
    assert n in projects - {name};
  }

  lemma ReplayProjectKeepsRefs(db: Db, t: Tombstone, now: Time)
    requires !db.triggersOn && IdsOk(db) && RefsOk(db) && t.table == Projects
    ensures RefsOk(Replay(db, t, now))
  {
    if t.key in db.projects.rows {
      var id := db.projects.rows[t.key].id;
      var u, d := UnlinkProject(db, id, now), Replay(db, t, now);
      forall k | k in d.sessions ensures AppExists(d.apps.rows, k.appId) &&
          LinkOk(d.projects.rows, d.sessions[k].projectId) {
        var e :| e in db.apps.rows && db.apps.rows[e].id == k.appId;
        assert e in d.apps.rows && d.apps.rows[e].id == k.appId;
        if d.sessions[k].projectId.Some? { ProjectOutlivesDelete(db.projects.rows, t.key,
            d.sessions[k].projectId.value); }
      }
      forall e | e in d.apps.rows ensures LinkOk(d.projects.rows, d.apps.rows[e].projectId) {
        if d.apps.rows[e].projectId.Some? { ProjectOutlivesDelete(db.projects.rows, t.key,
            d.apps.rows[e].projectId.value); }
      }
      forall k | k in d.manuals ensures d.manuals[k].projectId == 0 ||
          ProjectExists(d.projects.rows, d.manuals[k].projectId) {
        if d.manuals[k].projectId != 0 { ProjectOutlivesDelete(db.projects.rows, t.key, d.manuals[k].projectId); }
      }
    }
  }

  lemma ReplayAppKeepsRefs(db: Db, t: Tombstone, now: Time)
    requires !db.triggersOn && IdsOk(db) && RefsOk(db) && t.table == Applications
    ensures RefsOk(Replay(db, t, now))
  {
    if t.key in db.apps.rows {
      var d := Replay(db, t, now);
      assert d.apps.rows == db.apps.rows - {t.key};
      assert d.projects == db.projects && d.manuals == db.manuals;
      forall k | k in d.sessions ensures AppExists(d.apps.rows, k.appId) {
        assert k in db.sessions && k.appId != db.apps.rows[t.key].id;
        var e :| e in db.apps.rows && db.apps.rows[e].id == k.appId;
        assert e in d.apps.rows;
      }
    }
  }

  lemma ApplyTombstoneKeepsRefs(db: Db, t: Tombstone, now: Time)
    requires !db.triggersOn && IdsOk(db) && RefsOk(db)
    ensures RefsOk(ApplyTombstone(db, t, now))
  {
    match t.table
    case Projects => ReplayProjectKeepsRefs(db, t, now);
    case Applications => ReplayAppKeepsRefs(db, t, now);
    case Sessions =>
    case ManualSessions =>
    case Unknown(_) =>
  }

  lemma {:induction false} ApplyTombstonesKeepsRefs(db: Db, ts: seq<Tombstone>, now: Time)
    requires !db.triggersOn && IdsOk(db) && RefsOk(db)
    ensures RefsOk(ApplyTombstones(db, ts, now))
  {
    if ts != [] {
      var init, last := ts[..|ts| - 1], ts[|ts| - 1];
      ApplyTombstonesKeepsRefs(db, init, now);
      ApplyTombstonesShrinks(db, init, now);
      ShrinksKeepsIds(db, ApplyTombstones(db, init, now), now);
      ApplyTombstoneKeepsRefs(ApplyTombstones(db, init, now), last, now);
    }
  }

  lemma TranslateExists(projects: ProjectTable, remote: map<int, string>, id: Option<int>)
    ensures LinkOk(projects.rows, Links(remote, ProjectIds(projects)).Translate(id))
  {
    if id.Some? && id.value in remote && remote[id.value] in ProjectIds(projects) {
      assert remote[id.value] in projects.rows;
    }
  }

  lemma {:induction false} MergeAppsKeepsLinks(table: AppTable, tombs: set<Tombstone>, projects: ProjectTable,
                                               remote: map<int, string>, rows: seq<AppRow>, now: Time)
    requires forall e :: e in table.rows ==> LinkOk(projects.rows, table.rows[e].projectId)
    ensures forall e :: e in MergeApps(table, tombs, Links(remote, ProjectIds(projects)), rows, now).rows ==>
                          LinkOk(projects.rows,
                              MergeApps(table, tombs, Links(remote, ProjectIds(projects)), rows, now).rows[e].projectId)
  {
    if rows != [] {
      MergeAppsKeepsLinks(table, tombs, projects, remote, rows[..|rows| - 1], now);
      TranslateExists(projects, remote, rows[|rows| - 1].projectId);
    }
  }

  lemma {:induction false} MergeSessionsKeepsLinks(sessions: map<SessionKey, Session>, tombs: set<Tombstone>,
                                                   apps: Links, projects: ProjectTable, remote: map<int, string>,
                                                   rows: seq<SessionRow>, now: Time)
    requires forall k :: k in sessions ==> LinkOk(projects.rows, sessions[k].projectId)
    ensures forall k :: k in MergeSessions(sessions, tombs, apps, Links(remote, ProjectIds(projects)), rows, now) ==>
                          LinkOk(projects.rows,
                              MergeSessions(sessions, tombs, apps, Links(remote, ProjectIds(projects)), rows,
                              now)[k].projectId)
  {
    if rows != [] {
      MergeSessionsKeepsLinks(sessions, tombs, apps, projects, remote, rows[..|rows| - 1], now);
      TranslateExists(projects, remote, rows[|rows| - 1].projectId);
    }
  }

  lemma {:induction false} MergeManualsKeepsLinks(manuals: map<ManualKey, Manual>, tombs: set<Tombstone>, apps: Links,
                                                  projects: ProjectTable, remote: map<int, string>,
                                                  rows: seq<ManualRow>, now: Time)
    requires forall k :: k in manuals ==> manuals[k].projectId == 0 ||
                                          ProjectExists(projects.rows, manuals[k].projectId)
    ensures forall k :: k in MergeManuals(manuals, tombs, apps, Links(remote, ProjectIds(projects)), rows, now) ==>
                          var id := MergeManuals(manuals, tombs, apps, Links(remote, ProjectIds(projects)),
                              rows, now)[k].projectId;
                          id == 0 || ProjectExists(projects.rows, id)
  {
    if rows != [] {
      MergeManualsKeepsLinks(manuals, tombs, apps, projects, remote, rows[..|rows| - 1], now);
      TranslateExists(projects, remote, rows[|rows| - 1].projectId);
    }
  }

  lemma ProjectExistsGrows(a: ProjectTable, b: ProjectTable, id: int)
    requires forall n :: n in a.rows ==> n in b.rows && b.rows[n].id == a.rows[n].id
    requires ProjectExists(a.rows, id)
    ensures ProjectExists(b.rows, id)
  {
    var n :| n in a.rows && a.rows[n].id == id;
    assert n in b.rows;
  }

  lemma AppExistsGrows(a: AppTable, b: AppTable, id: int)
    requires forall n :: n in a.rows ==> n in b.rows && b.rows[n].id == a.rows[n].id
    requires AppExists(a.rows, id)
    ensures AppExists(b.rows, id)
  {
    var n :| n in a.rows && a.rows[n].id == id;
    assert n in b.rows;
  }

  lemma AfterProjectsKeepsRefs(db: Db, p: Payload, now: Time)
    requires IdsOk(db) && RefsOk(db)
    ensures RefsOk(AfterProjects(db, p, now)) && IdsOk(AfterProjects(db, p, now))
  {
    var d0 := db.(triggersOn := false);
    var d1, d2 := AfterTombstones(db, p, now), AfterProjects(db, p, now);
    ApplyTombstonesShrinks(d0, p.tombstones, now);
    ShrinksKeepsIds(d0, d1, now);
    ApplyTombstonesKeepsRefs(d0, p.tombstones, now);
    MergeProjectsKeepsIds(d1.projects, d1.tombstones, p.projects);
    forall id | ProjectExists(d1.projects.rows, id) ensures ProjectExists(d2.projects.rows, id) {
      ProjectExistsGrows(d1.projects, d2.projects, id);
    }
  }

  /** Merging any payload leaves no dangling reference where there was none. */
  lemma MergedKeepsRefs(db: Db, p: Payload, now: Time)
    requires IdsOk(db) && RefsOk(db)
    ensures RefsOk(Merged(db, p, now))
  {
    var d2, d3, d4, d5 := AfterProjects(db, p, now), AfterApps(db, p, now), AfterSessions(db, p, now),
        AfterManuals(db, p, now);
    AfterProjectsKeepsRefs(db, p, now);
    MergeAppsKeepsIds(d2.apps, d2.tombstones, ProjectLinks(d2, p), p.apps, now);
    MergeAppsKeepsLinks(d2.apps, d2.tombstones, d2.projects, RemoteProjects(p.projects), p.apps, now);
    MergeSessionsKeys(d3.sessions, d3.tombstones, AppLinks(d3, p), ProjectLinks(d3, p), p.sessions, now);
    MergeSessionsKeepsLinks(d3.sessions, d3.tombstones, AppLinks(d3, p), d3.projects, RemoteProjects(p.projects),
        p.sessions, now);
    MergeManualsKeepsLinks(d4.manuals, d4.tombstones, AppLinks(d4, p), d4.projects, RemoteProjects(p.projects),
        p.manuals, now);
    forall k | k in d4.sessions ensures AppExists(d4.apps.rows, k.appId) {
      if k in d3.sessions {
        AppExistsGrows(d2.apps, d3.apps, k.appId);
      } else {
        var exe :| exe in AppIds(d3.apps) && AppIds(d3.apps)[exe] == k.appId;
        assert exe in d4.apps.rows;
      }
    }
    assert SessionRefsOk(d5);
  }
}
