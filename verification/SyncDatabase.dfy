/** The dashboard database as the daemon changes it in place, statement by statement and row
    by row. Each method is proved against the specification in SyncMerge, SyncRepair or SyncExport.
 */
module SyncDatabase {
  import opened Options
  import opened SyncTypes
  import opened SyncMerge
  import opened SyncInvariants
  import opened SyncRepair
  import opened SyncExport

  // ----- a failure among the first rows is a failure of all -----

  lemma {:induction false} AppsFailEarly(table: AppTable, tombs: set<Tombstone>, projects: Links, rows: seq<AppRow>,
                                         n: nat, now: Time)
    requires n <= |rows| && AppsFail(table, tombs, projects, rows[..n], now)
    ensures AppsFail(table, tombs, projects, rows, now)
  {
    if n == |rows| {
      assert rows[..n] == rows;
    } else {
      assert rows[..|rows| - 1][..n] == rows[..n];
      AppsFailEarly(table, tombs, projects, rows[..|rows| - 1], n, now);
    }
  }

  lemma {:induction false} SessionsFailEarly(sessions: map<SessionKey, Session>, tombs: set<Tombstone>, apps: Links,
                                             projects: Links, rows: seq<SessionRow>, n: nat, now: Time)
    requires n <= |rows| && SessionsFail(sessions, tombs, apps, projects, rows[..n], now)
    ensures SessionsFail(sessions, tombs, apps, projects, rows, now)
  {
    if n == |rows| {
      assert rows[..n] == rows;
    } else {
      assert rows[..|rows| - 1][..n] == rows[..n];
      SessionsFailEarly(sessions, tombs, apps, projects, rows[..|rows| - 1], n, now);
    }
  }

  lemma {:induction false} ManualsFailEarly(manuals: map<ManualKey, Manual>, tombs: set<Tombstone>, apps: Links,
                                            projects: Links, rows: seq<ManualRow>, n: nat, now: Time)
    requires n <= |rows| && ManualsFail(manuals, tombs, apps, projects, rows[..n], now)
    ensures ManualsFail(manuals, tombs, apps, projects, rows, now)
  {
    if n == |rows| {
      assert rows[..n] == rows;
    } else {
      assert rows[..|rows| - 1][..n] == rows[..n];
      ManualsFailEarly(manuals, tombs, apps, projects, rows[..|rows| - 1], n, now);
    }
  }

  /** Row `i` wins when its turn comes and misses a column that may not be NULL. */
  predicate AppBreaks(table: AppTable, tombs: set<Tombstone>, projects: Links, rows: seq<AppRow>, now: Time, i: int) {
    && 0 <= i < |rows| && rows[i].display.None?
    && !AppRowLoses(MergeApps(table, tombs, projects, rows[..i], now), tombs, rows[i])
  }

  /** For a session only if it is there: an INSERT is ignored. */
  predicate SessionBreaks(sessions: map<SessionKey, Session>, tombs: set<Tombstone>, apps: Links, projects: Links,
                          rows: seq<SessionRow>, now: Time, i: int) {
    && 0 <= i < |rows| && rows[i].end.None?
    && var before := MergeSessions(sessions, tombs, apps, projects, rows[..i], now);
       !SessionRowLoses(before, tombs, apps, rows[i]) && LocalSessionKey(apps, rows[i]).value in before
  }

  predicate ManualBreaks(manuals: map<ManualKey, Manual>, tombs: set<Tombstone>, apps: Links, projects: Links,
                         rows: seq<ManualRow>, now: Time, i: int) {
    && 0 <= i < |rows| && (rows[i].kind.None? || rows[i].end.None? || rows[i].date.None?)
    && !ManualRowLoses(MergeManuals(manuals, tombs, apps, projects, rows[..i], now), tombs, rows[i])
  }

  lemma {:induction false} AppsFailIff(table: AppTable, tombs: set<Tombstone>, projects: Links, rows: seq<AppRow>,
                                       now: Time)
    ensures AppsFail(table, tombs, projects, rows, now) <==> exists i :: AppBreaks(table, tombs, projects, rows, now, i)
  {
    if rows != [] {
      var init, last := rows[..|rows| - 1], |rows| - 1;
      AppsFailIff(table, tombs, projects, init, now);
      forall i | 0 <= i < last
        ensures AppBreaks(table, tombs, projects, init, now, i) <==> AppBreaks(table, tombs, projects, rows, now, i)
      {
        assert init[..i] == rows[..i];
      }
      assert AppBreaks(table, tombs, projects, rows, now, last) <==>
             AppFails(MergeApps(table, tombs, projects, init, now), tombs, rows[last]);
    }
  }

  lemma {:induction false} SessionsFailIff(sessions: map<SessionKey, Session>, tombs: set<Tombstone>, apps: Links,
                                           projects: Links, rows: seq<SessionRow>, now: Time)
    ensures SessionsFail(sessions, tombs, apps, projects, rows, now) <==>
              exists i :: SessionBreaks(sessions, tombs, apps, projects, rows, now, i)
  {
    if rows != [] {
      var init, last := rows[..|rows| - 1], |rows| - 1;
      SessionsFailIff(sessions, tombs, apps, projects, init, now);
      forall i | 0 <= i < last
        ensures SessionBreaks(sessions, tombs, apps, projects, init, now, i) <==>
                SessionBreaks(sessions, tombs, apps, projects, rows, now, i)
      {
        assert init[..i] == rows[..i];
      }
      assert SessionBreaks(sessions, tombs, apps, projects, rows, now, last) <==>
             SessionFails(MergeSessions(sessions, tombs, apps, projects, init, now), tombs, apps, rows[last]);
    }
  }

  lemma {:induction false} ManualsFailIff(manuals: map<ManualKey, Manual>, tombs: set<Tombstone>, apps: Links,
                                          projects: Links, rows: seq<ManualRow>, now: Time)
    ensures ManualsFail(manuals, tombs, apps, projects, rows, now) <==>
              exists i :: ManualBreaks(manuals, tombs, apps, projects, rows, now, i)
  {
    if rows != [] {
      var init, last := rows[..|rows| - 1], |rows| - 1;
      ManualsFailIff(manuals, tombs, apps, projects, init, now);
      forall i | 0 <= i < last
        ensures ManualBreaks(manuals, tombs, apps, projects, init, now, i) <==>
                ManualBreaks(manuals, tombs, apps, projects, rows, now, i)
      {
        assert init[..i] == rows[..i];
      }
      assert ManualBreaks(manuals, tombs, apps, projects, rows, now, last) <==>
             ManualFails(MergeManuals(manuals, tombs, apps, projects, init, now), tombs, rows[last]);
    }
  }

  // ----- one more row -----

  lemma NextApp(table: AppTable, tombs: set<Tombstone>, projects: Links, rows: seq<AppRow>, i: nat, now: Time)
    requires i < |rows|
    ensures MergeApps(table, tombs, projects, rows[..i + 1], now) ==
              MergeApp(MergeApps(table, tombs, projects, rows[..i], now), tombs, projects, rows[i], now)
    ensures AppsFail(table, tombs, projects, rows[..i + 1], now) <==>
              || AppsFail(table, tombs, projects, rows[..i], now)
              || AppFails(MergeApps(table, tombs, projects, rows[..i], now), tombs, rows[i])
  {
    assert rows[..i + 1][..i] == rows[..i];
  }

  lemma IdsAfter(table: AppTable, exe: string, row: App)
    ensures AppIds(table.(rows := table.rows[exe := row])) == AppIds(table)[exe := row.id]
    ensures exe in table.rows && row.id == table.rows[exe].id ==>
              AppIds(table.(rows := table.rows[exe := row])) == AppIds(table)
  {
  }

  lemma NextSession(sessions: map<SessionKey, Session>, tombs: set<Tombstone>, apps: Links, projects: Links,
                    rows: seq<SessionRow>, i: nat, now: Time)
    requires i < |rows|
    ensures MergeSessions(sessions, tombs, apps, projects, rows[..i + 1], now) ==
              MergeSession(MergeSessions(sessions, tombs, apps, projects, rows[..i], now), tombs, apps, projects,
                           rows[i], now)
    ensures SessionsFail(sessions, tombs, apps, projects, rows[..i + 1], now) <==>
              || SessionsFail(sessions, tombs, apps, projects, rows[..i], now)
              || SessionFails(MergeSessions(sessions, tombs, apps, projects, rows[..i], now), tombs, apps, rows[i])
  {
    assert rows[..i + 1][..i] == rows[..i];
  }

  lemma NextManual(manuals: map<ManualKey, Manual>, tombs: set<Tombstone>, apps: Links, projects: Links,
                   rows: seq<ManualRow>, i: nat, now: Time)
    requires i < |rows|
    ensures MergeManuals(manuals, tombs, apps, projects, rows[..i + 1], now) ==
              MergeManual(MergeManuals(manuals, tombs, apps, projects, rows[..i], now), tombs, apps, projects,
                  rows[i], now)
    ensures ManualsFail(manuals, tombs, apps, projects, rows[..i + 1], now) <==>
              || ManualsFail(manuals, tombs, apps, projects, rows[..i], now)
              || ManualFails(MergeManuals(manuals, tombs, apps, projects, rows[..i], now), tombs, rows[i])
  {
    assert rows[..i + 1][..i] == rows[..i];
  }

  class Database {
    var projects: map<string, Project>
    var nextProject: int
    var apps: map<string, App>
    var nextApp: int
    var sessions: map<SessionKey, Session>
    var manuals: map<ManualKey, Manual>
    var tombstones: set<Tombstone>
    var triggersOn: bool

    ghost function State(): Db
      reads this
    {
      Db(ProjectTable(projects, nextProject), AppTable(apps, nextApp), sessions, manuals, tombstones, triggersOn)
    }

    constructor (db: Db)
      ensures State() == db
    {
      projects, nextProject := db.projects.rows, db.projects.next;
      apps, nextApp := db.apps.rows, db.apps.next;
      sessions, manuals, tombstones, triggersOn := db.sessions, db.manuals, db.tombstones, db.triggersOn;
    }

    /** The values of all tables, as a backup file holds them. */
    method Snapshot() returns (db: Db)
      ensures db == State()
    {
      db := Db(ProjectTable(projects, nextProject), AppTable(apps, nextApp), sessions, manuals, tombstones, triggersOn);
    }

    method Restore(db: Db)
      modifies this
      ensures State() == db
    {
      projects, nextProject := db.projects.rows, db.projects.next;
      apps, nextApp := db.apps.rows, db.apps.next;
      sessions, manuals, tombstones, triggersOn := db.sessions, db.manuals, db.tombstones, db.triggersOn;
    }

    // ----- tombstones -----

    /** The three UPDATEs leave updated_at alone, so the updated_at triggers stamp what they touch. */
    method NullProjectLinks(id: int, now: Time)
      modifies this
      ensures State() == UnlinkProject(old(State()), id, now)
    {
      sessions := map k | k in sessions ::
        if sessions[k].projectId == Some(id) then sessions[k].(projectId := None, updatedAt := now) else sessions[k];
      manuals := map k | k in manuals ::
        if manuals[k].projectId == id then manuals[k].(projectId := 0, updatedAt := now) else manuals[k];
      apps := map e | e in apps ::
        if apps[e].projectId == Some(id) then apps[e].(projectId := None, updatedAt := now) else apps[e];
    }

    /** Deletes what a peer deleted, with the triggers already dropped. */
    method ReplayTombstone(t: Tombstone, now: Time)
      requires !triggersOn
      modifies this
      ensures State() == Replay(old(State()), t, now)
    {
      match t.table
      case Projects =>
        if t.key in projects {
          NullProjectLinks(projects[t.key].id, now);
          projects := projects - {t.key};
        }
      case Applications =>
        if t.key in apps {
          var id := apps[t.key].id;
          sessions := sessions - set k | k in sessions && k.appId == id;
          apps := apps - {t.key};
        }
      case Sessions =>
        var parts := SplitOnce(t.key);
        if parts.Some? && parts.value.0 in apps {
          sessions := sessions - {SessionKey(apps[parts.value.0].id, parts.value.1)};
        }
      case ManualSessions =>
        var key := SplitManualKey(t.key);
        if key.Some? {
          manuals := manuals - {key.value};
        }
      case Unknown(_) =>
    }

    /** A record that was written after its deletion stays; only the tombstone is recorded. */
    method Spares(t: Tombstone) returns (spared: bool)
      ensures spared == Outlives(State(), t)
    {
      match t.table
      case Projects =>
        spared := t.key in projects && projects[t.key].updatedAt > t.deletedAt;
      case Applications =>
        spared := false;
        if t.key in apps {
          var id := apps[t.key].id;
          spared := apps[t.key].updatedAt > t.deletedAt
                    || exists k :: k in sessions && k.appId == id && sessions[k].updatedAt > t.deletedAt;
        }
      case Sessions =>
        var parts := SplitOnce(t.key);
        spared := false;
        if parts.Some? && parts.value.0 in apps {
          var k := SessionKey(apps[parts.value.0].id, parts.value.1);
          spared := k in sessions && sessions[k].updatedAt > t.deletedAt;
        }
      case ManualSessions =>
        var key := SplitManualKey(t.key);
        spared := key.Some? && key.value in manuals && manuals[key.value].updatedAt > t.deletedAt;
      case Unknown(_) =>
        spared := false;
    }

    method MergeTombstones(ts: seq<Tombstone>, now: Time)
      requires !triggersOn
      modifies this
      ensures State() == ApplyTombstones(old(State()), ts, now)
      ensures !triggersOn
    {
      for i := 0 to |ts|
        invariant !triggersOn
        invariant State() == ApplyTombstones(old(State()), ts[..i], now)
      {
        var t := ts[i];
        assert ts[..i + 1][..i] == ts[..i];
        var known := exists u :: u in tombstones && u.table == t.table && u.key == t.key;
        if t.table != Unknown("") && t.key != "" && !known {
          var spared := Spares(t);
          if !spared {
            ReplayTombstone(t, now);
          }
          tombstones := tombstones + {t};
        }
      }
      assert ts[..|ts|] == ts;
    }

    // ----- rows -----

    method MergeProjectRows(rows: seq<ProjectRow>)
      modifies this`projects, this`nextProject
      ensures State() == old(State()).(projects := MergeProjects(old(State()).projects, tombstones, rows))
    {
      for i := 0 to |rows|
        invariant ProjectTable(projects, nextProject) ==
                    MergeProjects(old(ProjectTable(projects, nextProject)), tombstones, rows[..i])
      {
        var r := rows[i];
        assert rows[..i + 1][..i] == rows[..i];
        if r.name != "" && !Covers(tombstones, Projects, r.name, r.updatedAt) {
          if r.name in projects {
            var local := projects[r.name];
            if local.updatedAt < r.updatedAt {
              var fields := ProjectFieldsOf(r, r.mergedInto.Over(local.fields.mergedInto),
                  r.mergedAt.Over(local.fields.mergedAt));
              projects := projects[r.name := local.(fields := fields, updatedAt := r.updatedAt)];
            }
          } else {
            var fields := ProjectFieldsOf(r, r.mergedInto.ToOption(), r.mergedAt.ToOption());
            projects := projects[r.name := Project(nextProject, fields, r.createdAt, r.folder, r.updatedAt)];
            nextProject := nextProject + 1;
          }
        }
      }
      assert rows[..|rows|] == rows;
    }

    /** The maps from the peer's ids to names, built once and used for every row. */
    method RemoteNames(p: Payload) returns (remoteApps: map<int, string>, remoteProjects: map<int, string>)
      ensures remoteApps == RemoteApps(p.apps) && remoteProjects == RemoteProjects(p.projects)
    {
      remoteApps, remoteProjects := map[], map[];
      for i := 0 to |p.apps|
        invariant remoteApps == RemoteApps(p.apps[..i])
      {
        assert p.apps[..i + 1][..i] == p.apps[..i];
        if p.apps[i].id > 0 && p.apps[i].exe != "" {
          remoteApps := remoteApps[p.apps[i].id := p.apps[i].exe];
        }
      }
      for i := 0 to |p.projects|
        invariant remoteProjects == RemoteProjects(p.projects[..i])
      {
        assert p.projects[..i + 1][..i] == p.projects[..i];
        if p.projects[i].id > 0 && p.projects[i].name != "" {
          remoteProjects := remoteProjects[p.projects[i].id := p.projects[i].name];
        }
      }
      assert p.apps[..|p.apps|] == p.apps && p.projects[..|p.projects|] == p.projects;
    }

    /** `appIds` is kept up with the inserted applications. */
    method MergeAppRows(rows: seq<AppRow>, projectLinks: Links, now: Time) returns (ok: bool, appIds: map<string, int>)
      modifies this`apps, this`nextApp
      ensures ok == !AppsFail(old(State()).apps, tombstones, projectLinks, rows, now)
      ensures ok ==> State() == old(State()).(apps := MergeApps(old(State()).apps, tombstones, projectLinks, rows, now))
      ensures ok ==> appIds == AppIds(State().apps)
    {
      appIds := map e | e in apps :: apps[e].id;
      for i := 0 to |rows|
        invariant AppTable(apps, nextApp) ==
                    MergeApps(old(AppTable(apps, nextApp)), tombstones, projectLinks, rows[..i], now)
        invariant !AppsFail(old(AppTable(apps, nextApp)), tombstones, projectLinks, rows[..i], now)
        invariant appIds == AppIds(AppTable(apps, nextApp))
      {
        var r := rows[i];
        NextApp(old(AppTable(apps, nextApp)), tombstones, projectLinks, rows, i, now);
        if r.exe != "" && !Covers(tombstones, Applications, r.exe, r.updatedAt) {
          var link := projectLinks.Translate(r.projectId);
          if r.exe !in apps || apps[r.exe].updatedAt < r.updatedAt {
            if r.display.None? {
              AppsFailEarly(old(AppTable(apps, nextApp)), tombstones, projectLinks, rows, i + 1, now);
              return false, appIds;
            }
            if r.exe in apps {
              var local := apps[r.exe];
              IdsAfter(AppTable(apps, nextApp), r.exe, local.(display := r.display.value,
                       projectId := link.Or(local.projectId), updatedAt := r.updatedAt));
              apps := apps[r.exe := local.(display := r.display.value, projectId := link.Or(local.projectId),
                                           updatedAt := r.updatedAt)];
            } else {
              IdsAfter(AppTable(apps, nextApp), r.exe, App(nextApp, r.display.value, link, Stamped(r.updatedAt, now)));
              apps := apps[r.exe := App(nextApp, r.display.value, link, Stamped(r.updatedAt, now))];
              appIds := appIds[r.exe := nextApp];
              nextApp := nextApp + 1;
            }
          }
        }
      }
      assert rows[..|rows|] == rows;
      ok := true;
    }

    method MergeSessionRows(rows: seq<SessionRow>, appLinks: Links, projectLinks: Links, now: Time) returns (ok: bool)
      modifies this`sessions
      ensures ok == !SessionsFail(old(sessions), tombstones, appLinks, projectLinks, rows, now)
      ensures ok ==> sessions == MergeSessions(old(sessions), tombstones, appLinks, projectLinks, rows, now)
    {
      for i := 0 to |rows|
        invariant sessions == MergeSessions(old(sessions), tombstones, appLinks, projectLinks, rows[..i], now)
        invariant !SessionsFail(old(sessions), tombstones, appLinks, projectLinks, rows[..i], now)
      {
        var r := rows[i];
        NextSession(old(sessions), tombstones, appLinks, projectLinks, rows, i, now);
        if r.start != "" && r.appId != 0 && r.appId in appLinks.remote && appLinks.remote[r.appId] in appLinks.local {
          var exe := appLinks.remote[r.appId];
          var key := SessionKey(appLinks.local[exe], r.start);
          if !Covers(tombstones, Sessions, SessionKeyText(exe, r.start), r.updatedAt) {
            var link, name := projectLinks.Translate(r.projectId), SessionLabel(projectLinks, r);
            if key in sessions {
              var local := sessions[key];
              if local.updatedAt < r.updatedAt {
                if r.end.None? {
                  SessionsFailEarly(old(sessions), tombstones, appLinks, projectLinks, rows, i + 1, now);
                  return false;
                }
                var fields := SessionFields(r.end.value, r.duration, r.rate, r.comment, r.hidden);
                var row := Session(fields, local.date, link.Or(local.projectId), name.Or(local.projectName),
                    r.updatedAt);
                if link.Some? && link != local.projectId {
                  row := row.(projectName := Some(projectLinks.remote[r.projectId.value]));
                }
                sessions := sessions[key := row];
              }
            } else if r.end.Some? {
              var fields := SessionFields(r.end.value, r.duration, r.rate, r.comment, r.hidden);
              sessions := sessions[key := Session(fields, r.date, link, name, Stamped(r.updatedAt, now))];
            }
          }
        }
      }
      assert rows[..|rows|] == rows;
      ok := true;
    }

    method MergeManualRows(rows: seq<ManualRow>, appLinks: Links, projectLinks: Links, now: Time) returns (ok: bool)
      modifies this`manuals
      ensures ok == !ManualsFail(old(manuals), tombstones, appLinks, projectLinks, rows, now)
      ensures ok ==> manuals == MergeManuals(old(manuals), tombstones, appLinks, projectLinks, rows, now)
    {
      for i := 0 to |rows|
        invariant manuals == MergeManuals(old(manuals), tombstones, appLinks, projectLinks, rows[..i], now)
        invariant !ManualsFail(old(manuals), tombstones, appLinks, projectLinks, rows[..i], now)
      {
        var r := rows[i];
        var key := ManualKey(r.title, r.start);
        NextManual(old(manuals), tombstones, appLinks, projectLinks, rows, i, now);
        if r.title != "" && r.start != "" && !CoversManual(tombstones, key, r.updatedAt) {
          var projectId := projectLinks.Translate(r.projectId).GetOr(0);
          if key !in manuals || manuals[key].updatedAt < r.updatedAt {
            if r.kind.None? || r.end.None? || r.date.None? {
              ManualsFailEarly(old(manuals), tombstones, appLinks, projectLinks, rows, i + 1, now);
              return false;
            }
            var fields := ManualFields(r.kind.value, appLinks.Translate(r.appId), r.end.value, r.duration,
                r.date.value);
            var reassigned := projectId != 0 && (key !in manuals || manuals[key].projectId != projectId);
            if key in manuals {
              manuals := manuals[key := manuals[key].(fields := fields, projectId := projectId,
                                                      updatedAt := r.updatedAt)];
            } else {
              manuals := manuals[key := Manual(fields, projectId, None, r.createdAt, r.updatedAt)];
            }
            if reassigned {
              var name := projectLinks.Label(r.projectId);
              manuals := manuals[key := manuals[key].(projectName := name, updatedAt := now)];
            }
          }
        }
      }
      assert rows[..|rows|] == rows;
      ok := true;
    }

    /** The body of the transaction. */
    method MergeTables(p: Payload, now: Time) returns (ok: bool)
      modifies this
      ensures ok == !MergeFails(old(State()), p, now)
      ensures ok ==> State() == Merged(old(State()), p, now)
    {
      ghost var before := State();
      triggersOn := false;
      MergeTombstones(p.tombstones, now);
      assert State() == AfterTombstones(before, p, now);
      MergeProjectRows(p.projects);
      assert State() == AfterProjects(before, p, now);
      var remoteApps, remoteProjects := RemoteNames(p);
      var projectIds := map n | n in projects :: projects[n].id;
      var projectLinks := Links(remoteProjects, projectIds);
      assert projectLinks == ProjectLinks(State(), p);
      var appIds;
      ok, appIds := MergeAppRows(p.apps, projectLinks, now);
      if !ok { return; }
      assert State() == AfterApps(before, p, now);
      var appLinks := Links(remoteApps, appIds);
      assert appLinks == AppLinks(State(), p) && projectLinks == ProjectLinks(State(), p);
      ok := MergeSessionRows(p.sessions, appLinks, projectLinks, now);
      if !ok { return; }
      assert State() == AfterSessions(before, p, now);
      ok := MergeManualRows(p.manuals, appLinks, projectLinks, now);
      if !ok { return; }
      assert State() == AfterManuals(before, p, now);
      triggersOn := true;
    }

    /** merge_incoming_data: one transaction. `archive` is None when the text does not parse or is too large. */
    method MergeIncoming(archive: Option<Payload>, now: Time) returns (ok: bool)
      modifies this
      ensures ok == (archive.Some? && !MergeFails(old(State()), archive.value, now))
      ensures State() == if archive.Some? then MergeOutcome(old(State()), archive.value, now) else old(State())
    {
      if archive.None? {
        return false;
      }
      var before := Snapshot();
      ok := MergeTables(archive.value, now);
      if !ok {
        Restore(before);
      }
    }

    // ----- repair -----

    /** The ids of the projects table. */
    method ProjectIdSet() returns (ids: set<int>)
      ensures forall id :: id in ids <==> ProjectExists(State().projects.rows, id)
    {
      ids := set n | n in projects :: projects[n].id;
    }

    method ReattachSessions(ids: set<int>, now: Time)
      requires forall id :: id in ids <==> ProjectExists(State().projects.rows, id)
      modifies this`sessions
      ensures State() == Reattach(old(State()), now)
    {
      sessions := map k | k in sessions ::
        if && sessions[k].projectName.Some? && sessions[k].projectName.value != ""
           && (sessions[k].projectId.None? || sessions[k].projectId.value !in ids)
           && sessions[k].projectName.value in projects
        then sessions[k].(projectId := Some(projects[sessions[k].projectName.value].id), updatedAt := now)
        else sessions[k];
      assert State().sessions == Reattach(old(State()), now).sessions;
    }

    method NullSessionLinks(ids: set<int>, now: Time)
      requires forall id :: id in ids <==> ProjectExists(State().projects.rows, id)
      modifies this`sessions
      ensures State() == ClearSessionLinks(old(State()), now)
    {
      sessions := map k | k in sessions ::
        if sessions[k].projectId.Some? && sessions[k].projectId.value !in ids
        then sessions[k].(projectId := None, updatedAt := now) else sessions[k];
      assert State().sessions == ClearSessionLinks(old(State()), now).sessions;
    }

    method ZeroManualLinks(ids: set<int>, now: Time)
      requires forall id :: id in ids <==> ProjectExists(State().projects.rows, id)
      modifies this`manuals
      ensures State() == ClearManualLinks(old(State()), now)
    {
      manuals := map k | k in manuals ::
        if manuals[k].projectId !in ids && manuals[k].projectId != 0
        then manuals[k].(projectId := 0, updatedAt := now) else manuals[k];
      assert State().manuals == ClearManualLinks(old(State()), now).manuals;
    }

    method NullAppLinks(ids: set<int>, now: Time)
      requires forall id :: id in ids <==> ProjectExists(State().projects.rows, id)
      modifies this`apps
      ensures State() == ClearAppLinks(old(State()), now)
    {
      apps := map e | e in apps ::
        if apps[e].projectId.Some? && apps[e].projectId.value !in ids
        then apps[e].(projectId := None, updatedAt := now) else apps[e];
      assert State().apps.rows == ClearAppLinks(old(State()), now).apps.rows;
    }

    method ClearMarkers(now: Time)
      modifies this`projects
      ensures State() == ClearMergeMarkers(old(State()), now)
    {
      projects := map n | n in projects ::
        if projects[n].fields.mergedInto.Some? && projects[n].fields.mergedInto.value !in projects
        then projects[n].(fields := projects[n].fields.(mergedInto := None, mergedAt := None), updatedAt := now)
        else projects[n];
      assert State().projects.rows == ClearMergeMarkers(old(State()), now).projects.rows;
    }

    /** Deletes sessions without an application, with the triggers suppressed, if the check reports violations. */
    method DeleteOrphans(now: Time)
      modifies this`sessions, this`triggersOn
      ensures State() == DropOrphans(old(State()), now)
    {
      var appIds := set e | e in apps :: apps[e].id;
      assert forall id :: id in appIds <==> AppExists(State().apps.rows, id);
      var orphans := set k | k in sessions && k.appId !in appIds;
      assert orphans == Orphans(State());
      if orphans != {} || exists k :: k in manuals && manuals[k].projectId == 0 {
        triggersOn := false;
        sessions := sessions - orphans;
        triggersOn := true;
      }
    }

    /** verify_merge_integrity. The statements before the integrity check take effect whatever it finds. */
    method Verify(now: Time, integrityOk: bool) returns (ok: bool)
      modifies this
      ensures ok == integrityOk
      ensures State() == Repaired(old(State()), now)
    {
      var ids := ProjectIdSet();
      ReattachSessions(ids, now);
      NullSessionLinks(ids, now);
      ZeroManualLinks(ids, now);
      NullAppLinks(ids, now);
      ClearMarkers(now);
      DeleteOrphans(now);
      ok := integrityOk;
    }

    // ----- export -----

    method FetchProjects() returns (rows: seq<ProjectRow>)
      ensures ListsProjects(rows, projects)
    {
      rows := [];
      var left := projects.Keys;
      while left != {}
        invariant left <= projects.Keys
        invariant forall i :: 0 <= i < |rows| ==>
                    rows[i].name in projects && rows[i].name !in left &&
                    rows[i] == ProjectRowOf(rows[i].name, projects[rows[i].name])
        invariant forall n :: n in projects && n !in left ==> exists i :: 0 <= i < |rows| && rows[i].name == n
        invariant forall i, j :: 0 <= i < j < |rows| ==> rows[i].name != rows[j].name
        decreases left
      {
        ghost var before := rows;
        var name :| name in left;
        rows := rows + [ProjectRowOf(name, projects[name])];
        left := left - {name};
        assert rows[|before|].name == name && forall i :: 0 <= i < |before| ==> rows[i] == before[i];
      }
    }

    method FetchApps() returns (rows: seq<AppRow>)
      ensures ListsApps(rows, apps)
    {
      rows := [];
      var left := apps.Keys;
      while left != {}
        invariant left <= apps.Keys
        invariant forall i :: 0 <= i < |rows| ==>
                    rows[i].exe in apps && rows[i].exe !in left && rows[i] == AppRowOf(rows[i].exe, apps[rows[i].exe])
        invariant forall e :: e in apps && e !in left ==> exists i :: 0 <= i < |rows| && rows[i].exe == e
        invariant forall i, j :: 0 <= i < j < |rows| ==> rows[i].exe != rows[j].exe
        decreases left
      {
        ghost var before := rows;
        var exe :| exe in left;
        rows := rows + [AppRowOf(exe, apps[exe])];
        left := left - {exe};
        assert rows[|before|].exe == exe && forall i :: 0 <= i < |before| ==> rows[i] == before[i];
      }
    }

    method FetchSessions(since: Time) returns (rows: seq<SessionRow>)
      ensures ListsSessions(rows, sessions, since)
    {
      rows := [];
      var left := set k | k in sessions && sessions[k].updatedAt >= since;
      while left != {}
        invariant forall k :: k in left ==> k in sessions && sessions[k].updatedAt >= since
        invariant forall i :: 0 <= i < |rows| ==>
                    && KeyOf(rows[i]) in sessions && KeyOf(rows[i]) !in left
                    && rows[i] == SessionRowOf(KeyOf(rows[i]), sessions[KeyOf(rows[i])]) && rows[i].updatedAt >= since
        invariant forall k :: k in sessions && sessions[k].updatedAt >= since && k !in left ==>
                    exists i :: 0 <= i < |rows| && KeyOf(rows[i]) == k
        invariant forall i, j :: 0 <= i < j < |rows| ==> KeyOf(rows[i]) != KeyOf(rows[j])
        decreases left
      {
        ghost var before := rows;
        var k :| k in left;
        rows := rows + [SessionRowOf(k, sessions[k])];
        left := left - {k};
        assert KeyOf(rows[|before|]) == k && forall i :: 0 <= i < |before| ==> rows[i] == before[i];
      }
    }

    method FetchManuals(since: Time) returns (rows: seq<ManualRow>)
      ensures ListsManuals(rows, manuals, since)
    {
      rows := [];
      var left := set k | k in manuals && manuals[k].updatedAt >= since;
      while left != {}
        invariant forall k :: k in left ==> k in manuals && manuals[k].updatedAt >= since
        invariant forall i :: 0 <= i < |rows| ==>
                    && ManualKeyOf(rows[i]) in manuals && ManualKeyOf(rows[i]) !in left
                    && rows[i] == ManualRowOf(ManualKeyOf(rows[i]), manuals[ManualKeyOf(rows[i])]) &&
                         rows[i].updatedAt >= since
        invariant forall k :: k in manuals && manuals[k].updatedAt >= since && k !in left ==>
                    exists i :: 0 <= i < |rows| && ManualKeyOf(rows[i]) == k
        invariant forall i, j :: 0 <= i < j < |rows| ==> ManualKeyOf(rows[i]) != ManualKeyOf(rows[j])
        decreases left
      {
        ghost var before := rows;
        var k :| k in left;
        rows := rows + [ManualRowOf(k, manuals[k])];
        left := left - {k};
        assert ManualKeyOf(rows[|before|]) == k && forall i :: 0 <= i < |before| ==> rows[i] == before[i];
      }
    }

    /** ORDER BY deleted_at. */
    method FetchTombstones(since: Time) returns (ts: seq<Tombstone>)
      ensures ListsTombstones(ts, tombstones, since)
    {
      ts := [];
      ghost var wanted := set t | t in tombstones && t.deletedAt >= since;
      var left := set t | t in tombstones && t.deletedAt >= since;
      while left != {}
        invariant PartListed(ts, left, wanted)
        decreases left
      {
        OldestExists(left);
        var t :| t in left && forall u :: u in left ==> t.deletedAt <= u.deletedAt;
        ListNext(ts, left, wanted, t);
        ts := ts + [t];
        left := left - {t};
      }
    }

    /** build_delta_for_pull; a full snapshot is the delta since EPOCH. */
    method BuildDelta(since: Time) returns (p: Payload)
      ensures IsExport(State(), since, p)
    {
      var projectRows := FetchProjects();
      var appRows := FetchApps();
      var sessionRows := FetchSessions(since);
      var manualRows := FetchManuals(since);
      var ts := FetchTombstones(since);
      p := Payload(projectRows, appRows, sessionRows, manualRows, ts);
    }
  }

  /** `ts` lists what is wanted but for `left`, which is no older than anything listed. */
  ghost predicate PartListed(ts: seq<Tombstone>, left: set<Tombstone>, wanted: set<Tombstone>) {
    && left <= wanted
    && (forall i :: 0 <= i < |ts| ==> ts[i] in wanted - left)
    && (forall t :: t in wanted - left ==> t in ts)
    && (forall i, t :: 0 <= i < |ts| && t in left ==> ts[i].deletedAt <= t.deletedAt)
    && InOrder(ts)
    && NoRepeats(ts)
  }

  lemma ListNext(ts: seq<Tombstone>, left: set<Tombstone>, wanted: set<Tombstone>, t: Tombstone)
    requires PartListed(ts, left, wanted)
    requires t in left && forall u :: u in left ==> t.deletedAt <= u.deletedAt
    ensures PartListed(ts + [t], left - {t}, wanted)
  {
  }

  lemma {:induction false} OldestExists(tombs: set<Tombstone>)
    requires tombs != {}
    ensures exists t :: t in tombs && forall u :: u in tombs ==> t.deletedAt <= u.deletedAt
  {
    var x :| x in tombs;
    var rest := tombs - {x};
    if rest == {} {
      assert tombs == {x};
    } else {
      OldestExists(rest);
      var y :| y in rest && forall u :: u in rest ==> y.deletedAt <= u.deletedAt;
      var oldest := if x.deletedAt <= y.deletedAt then x else y;
      assert oldest in tombs && forall u :: u in tombs ==> u == x || u in rest;
    }
  }
}
