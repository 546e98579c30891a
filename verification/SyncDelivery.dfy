/** What a merge delivers: nothing live is lost but to a deletion at least as new, every row
    of the payload arrives unless a deletion covers it, and links keep their meaning.
 */
module SyncDelivery {
  import opened Options
  import opened SyncTypes
  import opened SyncMerge
  import opened SyncInvariants

  /** The stamp a row cannot fall below: losing its link it may be stamped by a clock that is behind. */
  function Floor(updatedAt: Time, now: Time): Time {
    if updatedAt <= now then updatedAt else now
  }

  /** The payload deletes this key, at or after `updatedAt`. */
  ghost predicate DeletedBy(ts: seq<Tombstone>, table: TableName, key: string, updatedAt: Time) {
    exists i :: 0 <= i < |ts| && ts[i].table == table && ts[i].key == key && ts[i].deletedAt >= updatedAt
  }

  /** The payload deletes this session, at or after `updatedAt`. */
  ghost predicate SessionDeletedBy(ts: seq<Tombstone>, exe: string, start: string, updatedAt: Time) {
    exists i :: 0 <= i < |ts| && ts[i].table == Sessions && SplitOnce(ts[i].key) == Some((exe, start)) &&
                ts[i].deletedAt >= updatedAt
  }

  lemma DeletedByMore(ts: seq<Tombstone>, table: TableName, key: string, updatedAt: Time)
    requires ts != [] && DeletedBy(ts[..|ts| - 1], table, key, updatedAt)
    ensures DeletedBy(ts, table, key, updatedAt)
  {
    var init := ts[..|ts| - 1];
    var i :| 0 <= i < |init| && init[i].table == table && init[i].key == key && init[i].deletedAt >= updatedAt;
    assert ts[i] == init[i];
  }

  lemma SessionDeletedByMore(ts: seq<Tombstone>, exe: string, start: string, updatedAt: Time)
    requires ts != [] && SessionDeletedBy(ts[..|ts| - 1], exe, start, updatedAt)
    ensures SessionDeletedBy(ts, exe, start, updatedAt)
  {
    var init := ts[..|ts| - 1];
    var i :| 0 <= i < |init| && init[i].table == Sessions && SplitOnce(init[i].key) == Some((exe, start)) &&
        init[i].deletedAt >= updatedAt;
    assert ts[i] == init[i];
  }

  // ----- the tombstone phase -----

  lemma {:induction false} TombstonesSpareProject(db: Db, ts: seq<Tombstone>, now: Time, name: string)
    requires !db.triggersOn && name in db.projects.rows
    ensures name in ApplyTombstones(db, ts, now).projects.rows ||
              DeletedBy(ts, Projects, name, db.projects.rows[name].updatedAt)
  {
    if ts != [] {
      var init, last := ts[..|ts| - 1], ts[|ts| - 1];
      TombstonesSpareProject(db, init, now, name);
      ApplyTombstonesShrinks(db, init, now);
      if name in ApplyTombstones(db, init, now).projects.rows {
        if last.table == Projects && last.key == name && last.deletedAt >= db.projects.rows[name].updatedAt {
          assert ts[|ts| - 1] == last;
        }
      } else {
        DeletedByMore(ts, Projects, name, db.projects.rows[name].updatedAt);
      }
    }
  }

  lemma {:induction false} TombstonesSpareApp(db: Db, ts: seq<Tombstone>, now: Time, exe: string)
    requires !db.triggersOn && exe in db.apps.rows
    ensures exe in ApplyTombstones(db, ts, now).apps.rows ||
              DeletedBy(ts, Applications, exe, Floor(db.apps.rows[exe].updatedAt, now))
  {
    if ts != [] {
      var init, last, floor := ts[..|ts| - 1], ts[|ts| - 1], Floor(db.apps.rows[exe].updatedAt, now);
      TombstonesSpareApp(db, init, now, exe);
      ApplyTombstonesShrinks(db, init, now);
      if exe in ApplyTombstones(db, init, now).apps.rows {
        if last.table == Applications && last.key == exe && last.deletedAt >= floor {
          assert ts[|ts| - 1] == last;
        }
      } else {
        DeletedByMore(ts, Applications, exe, floor);
      }
    }
  }

  lemma ApplyTombstoneSparesSession(db: Db, t: Tombstone, now: Time, exe: string, start: string)
    requires !db.triggersOn && IdsOk(db) && exe in db.apps.rows
    requires SessionKey(db.apps.rows[exe].id, start) in db.sessions
    ensures var key := SessionKey(db.apps.rows[exe].id, start);
            var d := ApplyTombstone(db, t, now);
            || (exe in d.apps.rows && key in d.sessions)
            || (t.table == Applications && t.key == exe && t.deletedAt >= db.sessions[key].updatedAt)
            || (t.table == Sessions && SplitOnce(t.key) == Some((exe, start)) &&
                 t.deletedAt >= db.sessions[key].updatedAt)
  {
    var key := SessionKey(db.apps.rows[exe].id, start);
    var d := ApplyTombstone(db, t, now);
    match t.table
    case Projects =>
    case Applications =>
      if t.key == exe && t.deletedAt < db.sessions[key].updatedAt {
        assert SessionNewer(db, db.apps.rows[exe].id, t.deletedAt);
      }
    case Sessions =>
    case ManualSessions =>
    case Unknown(_) =>
  }

  lemma {:induction false} TombstonesSpareSession(db: Db, ts: seq<Tombstone>, now: Time, exe: string, start: string)
    requires !db.triggersOn && IdsOk(db) && exe in db.apps.rows
    requires SessionKey(db.apps.rows[exe].id, start) in db.sessions
    ensures var key := SessionKey(db.apps.rows[exe].id, start);
            var d, floor := ApplyTombstones(db, ts, now), Floor(db.sessions[key].updatedAt, now);
            || (exe in d.apps.rows && key in d.sessions)
            || DeletedBy(ts, Applications, exe, floor)
            || SessionDeletedBy(ts, exe, start, floor)
  {
    if ts != [] {
      var key := SessionKey(db.apps.rows[exe].id, start);
      var init, last, floor := ts[..|ts| - 1], ts[|ts| - 1], Floor(db.sessions[key].updatedAt, now);
      var d := ApplyTombstones(db, init, now);
      TombstonesSpareSession(db, init, now, exe, start);
      ApplyTombstonesShrinks(db, init, now);
      if exe in d.apps.rows && key in d.sessions {
        ShrinksKeepsIds(db, d, now);
        ApplyTombstoneSparesSession(d, last, now, exe, start);
        assert ts[|ts| - 1] == last;
      } else if DeletedBy(init, Applications, exe, floor) {
        DeletedByMore(ts, Applications, exe, floor);
      } else {
        SessionDeletedByMore(ts, exe, start, floor);
      }
    }
  }

  // ----- no loss -----

  lemma ProjectSurvives(db: Db, p: Payload, now: Time, name: string)
    requires IdsOk(db) && name in db.projects.rows
    ensures var after := Merged(db, p, now).projects.rows;
            || (name in after && after[name].updatedAt >= db.projects.rows[name].updatedAt)
            || DeletedBy(p.tombstones, Projects, name, db.projects.rows[name].updatedAt)
  {
    var d0, d1 := db.(triggersOn := false), AfterTombstones(db, p, now);
    TombstonesSpareProject(d0, p.tombstones, now, name);
    ApplyTombstonesShrinks(d0, p.tombstones, now);
    ShrinksKeepsIds(d0, d1, now);
    MergeProjectsKeepsIds(d1.projects, d1.tombstones, p.projects);
  }

  lemma AppSurvives(db: Db, p: Payload, now: Time, exe: string)
    requires IdsOk(db) && exe in db.apps.rows
    ensures var after, floor := Merged(db, p, now).apps.rows, Floor(db.apps.rows[exe].updatedAt, now);
            || (exe in after && after[exe].id == db.apps.rows[exe].id && after[exe].updatedAt >= floor)
            || DeletedBy(p.tombstones, Applications, exe, floor)
  {
    var d0, d1, d2 := db.(triggersOn := false), AfterTombstones(db, p, now), AfterProjects(db, p, now);
    TombstonesSpareApp(d0, p.tombstones, now, exe);
    ApplyTombstonesShrinks(d0, p.tombstones, now);
    ShrinksKeepsIds(d0, d1, now);
    MergeAppsKeepsIds(d1.apps, d1.tombstones, ProjectLinks(d2, p), p.apps, now);
  }

  lemma SessionSurvives(db: Db, p: Payload, now: Time, exe: string, start: string)
    requires IdsOk(db) && exe in db.apps.rows && SessionKey(db.apps.rows[exe].id, start) in db.sessions
    ensures var key := SessionKey(db.apps.rows[exe].id, start);
            var after, floor := Merged(db, p, now), Floor(db.sessions[key].updatedAt, now);
            || (&& exe in after.apps.rows
                && after.apps.rows[exe].id == key.appId
                && key in after.sessions
                && after.sessions[key].updatedAt >= floor)
            || DeletedBy(p.tombstones, Applications, exe, floor)
            || SessionDeletedBy(p.tombstones, exe, start, floor)
  {
    var d0, d1 := db.(triggersOn := false), AfterTombstones(db, p, now);
    var d2, d3 := AfterProjects(db, p, now), AfterApps(db, p, now);
    TombstonesSpareSession(d0, p.tombstones, now, exe, start);
    ApplyTombstonesShrinks(d0, p.tombstones, now);
    ShrinksKeepsIds(d0, d1, now);
    MergeAppsKeepsIds(d1.apps, d1.tombstones, ProjectLinks(d2, p), p.apps, now);
    MergeSessionsKeys(d3.sessions, d3.tombstones, AppLinks(d3, p), ProjectLinks(d3, p), p.sessions, now);
  }

  // ----- every row of the payload arrives -----

  lemma {:induction false} ProjectRowsArrive(table: ProjectTable, tombs: set<Tombstone>, rows: seq<ProjectRow>, i: nat)
    requires ProjectIdsOk(table) && i < |rows| && rows[i].name != ""
    ensures var after := MergeProjects(table, tombs, rows).rows;
            || Covers(tombs, Projects, rows[i].name, rows[i].updatedAt)
            || (rows[i].name in after && after[rows[i].name].updatedAt >= rows[i].updatedAt)
  {
    var init := rows[..|rows| - 1];
    if i < |init| {
      ProjectRowsArrive(table, tombs, init, i);
      assert init[i] == rows[i];
    }
  }

  lemma {:induction false} AppRowsArrive(table: AppTable, tombs: set<Tombstone>, projects: Links, rows: seq<AppRow>,
                                         i: nat, now: Time)
    requires i < |rows| && rows[i].exe != ""
    ensures var after := MergeApps(table, tombs, projects, rows, now).rows;
            || Covers(tombs, Applications, rows[i].exe, rows[i].updatedAt)
            || (rows[i].exe in after && after[rows[i].exe].updatedAt >= rows[i].updatedAt)
  {
    var init := rows[..|rows| - 1];
    if i < |init| {
      AppRowsArrive(table, tombs, projects, init, i, now);
      assert init[i] == rows[i];
    }
  }

  lemma {:induction false} SessionRowsArrive(sessions: map<SessionKey, Session>, tombs: set<Tombstone>, apps: Links,
                                             projects: Links, rows: seq<SessionRow>, i: nat, now: Time)
    requires i < |rows| && LocalSessionKey(apps, rows[i]).Some? && rows[i].end.Some?
    ensures var key := LocalSessionKey(apps, rows[i]).value;
            var after := MergeSessions(sessions, tombs, apps, projects, rows, now);
            || Covers(tombs, Sessions, SessionKeyText(apps.remote[rows[i].appId], rows[i].start), rows[i].updatedAt)
            || (key in after && after[key].updatedAt >= rows[i].updatedAt)
  {
    var init := rows[..|rows| - 1];
    if i < |init| {
      SessionRowsArrive(sessions, tombs, apps, projects, init, i, now);
      assert init[i] == rows[i];
    }
  }

  lemma {:induction false} RemoteAppsHaveRows(rows: seq<AppRow>, id: int)
    requires id in RemoteApps(rows)
    ensures id > 0
    ensures exists i :: 0 <= i < |rows| && rows[i].id == id && rows[i].exe == RemoteApps(rows)[id] && rows[i].exe != ""
  {
    var init, last := rows[..|rows| - 1], |rows| - 1;
    if rows[last].id == id && id > 0 && rows[last].exe != "" {
      assert rows[last].exe == RemoteApps(rows)[id];
    } else {
      RemoteAppsHaveRows(init, id);
      var i :| 0 <= i < |init| && init[i].id == id && init[i].exe == RemoteApps(init)[id] && init[i].exe != "";
      assert rows[i] == init[i];
    }
  }

  /** A project of the payload is live afterwards, at its stamp or later, unless a stored tombstone covers it. */
  lemma ProjectArrives(db: Db, p: Payload, now: Time, i: nat)
    requires IdsOk(db) && i < |p.projects| && p.projects[i].name != ""
    ensures var r, after := p.projects[i], Merged(db, p, now);
            || Covers(after.tombstones, Projects, r.name, r.updatedAt)
            || (r.name in after.projects.rows && after.projects.rows[r.name].updatedAt >= r.updatedAt)
  {
    var d0, d1 := db.(triggersOn := false), AfterTombstones(db, p, now);
    ApplyTombstonesShrinks(d0, p.tombstones, now);
    ShrinksKeepsIds(d0, d1, now);
    ProjectRowsArrive(d1.projects, d1.tombstones, p.projects, i);
  }

  lemma AppArrives(db: Db, p: Payload, now: Time, i: nat)
    requires i < |p.apps| && p.apps[i].exe != ""
    ensures var r, after := p.apps[i], Merged(db, p, now);
            || Covers(after.tombstones, Applications, r.exe, r.updatedAt)
            || (r.exe in after.apps.rows && after.apps.rows[r.exe].updatedAt >= r.updatedAt)
  {
    var d2 := AfterProjects(db, p, now);
    AppRowsArrive(d2.apps, d2.tombstones, ProjectLinks(d2, p), p.apps, i, now);
  }

  /** A session of the payload whose application the payload names is live afterwards under the local
      id of that application, unless a tombstone covers it or a row of its application. */
  lemma SessionArrives(db: Db, p: Payload, now: Time, i: nat)
    requires i < |p.sessions| && p.sessions[i].start != "" && p.sessions[i].end.Some? &&
               p.sessions[i].appId in RemoteApps(p.apps)
    ensures var r, after := p.sessions[i], Merged(db, p, now);
            var exe := RemoteApps(p.apps)[r.appId];
            || Covers(after.tombstones, Sessions, SessionKeyText(exe, r.start), r.updatedAt)
            || (exists j :: 0 <= j < |p.apps| && p.apps[j].exe == exe &&
                            Covers(after.tombstones, Applications, exe, p.apps[j].updatedAt))
            || (&& exe in after.apps.rows
                && SessionKey(after.apps.rows[exe].id, r.start) in after.sessions
                && after.sessions[SessionKey(after.apps.rows[exe].id, r.start)].updatedAt >= r.updatedAt)
  {
    var r, d3, after := p.sessions[i], AfterApps(db, p, now), Merged(db, p, now);
    var exe := RemoteApps(p.apps)[r.appId];
    RemoteAppsHaveRows(p.apps, r.appId);
    if exe in d3.apps.rows {
      SessionRowsArrive(d3.sessions, d3.tombstones, AppLinks(d3, p), ProjectLinks(d3, p), p.sessions, i, now);
    } else {
      var j :| 0 <= j < |p.apps| && p.apps[j].id == r.appId && p.apps[j].exe == exe && p.apps[j].exe != "";
      AppArrives(db, p, now, j);
    }
  }
}
