/** A full cycle: the master merges the slave's export, then the slave merges the master's.
    Key by key, the merge of an export is what SyncPeers.Received says; the convergence of
    projects, applications and sessions follows from that.
 */
module SyncConvergence {
  import opened Options
  import opened SyncTypes
  import opened SyncMerge
  import opened SyncInvariants
  import opened SyncPeers
  import opened SyncSafety
  import opened SyncExport
  import opened SyncFate

  ghost function ProjectRecord(rows: map<string, Project>, name: string): Option<Record<ProjectFields>> {
    if name in rows then Some(Record(rows[name].fields, rows[name].updatedAt)) else None
  }

  ghost function AppRecord(rows: map<string, App>, exe: string): Option<Record<string>> {
    if exe in rows then Some(Record(rows[exe].display, rows[exe].updatedAt)) else None
  }

  ghost function SessionRecord(apps: map<string, App>, sessions: map<SessionKey, Session>, exe: string,
                               start: string): Option<Record<SessionFields>> {
    if exe in apps && SessionKey(apps[exe].id, start) in sessions
    then Some(Record(sessions[SessionKey(apps[exe].id, start)].fields,
        sessions[SessionKey(apps[exe].id, start)].updatedAt))
    else None
  }

  ghost function ProjectPeer(db: Db, name: string): Peer<ProjectFields> {
    Peer(ProjectRecord(db.projects.rows, name), DeathsOf(db.tombstones, Projects, name))
  }

  ghost function AppPeer(db: Db, exe: string): Peer<string> {
    Peer(AppRecord(db.apps.rows, exe), DeathsOf(db.tombstones, Applications, exe))
  }

  ghost function SessionPeer(db: Db, exe: string, start: string): Peer<SessionFields> {
    Peer(SessionRecord(db.apps.rows, db.sessions, exe, start),
        DeathsOf(db.tombstones, Sessions, SessionKeyText(exe, start)))
  }

  // ----- what the tombstone phase leaves of one key -----

  ghost function ProjectKept(db: Db, ts: seq<Tombstone>, name: string): Option<Record<ProjectFields>> {
    if Doomed(db, ts, name) then None else ProjectRecord(db.projects.rows, name)
  }

  ghost function AppKept(db: Db, ts: seq<Tombstone>, exe: string, now: Time): Option<Record<string>> {
    if exe !in db.apps.rows || AppFalls(db, ts, exe) then None
    else Restamped(AppRecord(db.apps.rows, exe), LosesLink(db, ts, db.apps.rows[exe].projectId), now)
  }

  ghost function SessionKept(db: Db, ts: seq<Tombstone>, exe: string, start: string,
                             now: Time): Option<Record<SessionFields>> {
    if exe !in db.apps.rows || SessionKey(db.apps.rows[exe].id, start) !in db.sessions then None
    else if AppFalls(db, ts, exe) || SessionFalls(db, ts, exe, start) then None
    else
      var cut := LosesLink(db, ts, db.sessions[SessionKey(db.apps.rows[exe].id, start)].projectId);
      Restamped(SessionRecord(db.apps.rows, db.sessions, exe, start), cut, now)
  }

  lemma ProjectAfterTombstones(db: Db, ts: seq<Tombstone>, now: Time, name: string)
    requires !db.triggersOn
    ensures ProjectRecord(ApplyTombstones(db, ts, now).projects.rows, name) == ProjectKept(db, ts, name)
  {
    ProjectFate(db, ts, now, name);
  }

  lemma AppAfterTombstones(db: Db, ts: seq<Tombstone>, now: Time, exe: string)
    requires !db.triggersOn && IdsOk(db) && InOrder(ts) && AheadOf(ts, now) && exe != ""
    ensures AppRecord(ApplyTombstones(db, ts, now).apps.rows, exe) == AppKept(db, ts, exe, now)
  {
    TombstoneFate(db, ts, now, exe);
  }

  lemma SessionAfterTombstones(db: Db, ts: seq<Tombstone>, now: Time, exe: string, start: string)
    requires !db.triggersOn && IdsOk(db) && InOrder(ts) && AheadOf(ts, now) && exe != ""
    ensures var d := ApplyTombstones(db, ts, now);
            SessionRecord(d.apps.rows, d.sessions, exe, start) == SessionKept(db, ts, exe, start, now)
  {
    TombstoneFate(db, ts, now, exe);
    if exe in ApplyTombstones(db, ts, now).apps.rows {
      assert SessionFated(db, ts, now, exe, start, ApplyTombstones(db, ts, now));
    }
  }

  // ----- what the row phases leave of one key -----

  /** What a project looks like once it has been sent: json_f64_opt drops a rate that is not positive. */
  ghost function SentFields(f: ProjectFields): ProjectFields {
    f.(rate := PositiveRate(f.rate))
  }

  ghost function SentRecord(row: Option<Record<ProjectFields>>): Option<Record<ProjectFields>> {
    if row.Some? then Some(row.value.(fields := SentFields(row.value.fields))) else None
  }

  ghost function SentProject(p: Peer<ProjectFields>): Peer<ProjectFields> {
    Peer(SentRecord(p.row), p.deaths)
  }

  ghost function ProjectIn(rows: seq<ProjectRow>, name: string): Option<Record<ProjectFields>> {
    if exists i :: 0 <= i < |rows| && rows[i].name == name then
      var i :| 0 <= i < |rows| && rows[i].name == name;
      Some(Record(ProjectFieldsOf(rows[i], rows[i].mergedInto.ToOption(), rows[i].mergedAt.ToOption()),
          rows[i].updatedAt))
    else None
  }

  lemma {:induction false} ProjectAfterRows(table: ProjectTable, tombs: set<Tombstone>, rows: seq<ProjectRow>,
                                            name: string)
    requires name != ""
    requires forall i, j :: 0 <= i < j < |rows| ==> rows[i].name != rows[j].name
    requires forall i :: 0 <= i < |rows| ==> !rows[i].mergedInto.Absent? && !rows[i].mergedAt.Absent?
    ensures ProjectRecord(MergeProjects(table, tombs, rows).rows, name) ==
              Taken(ProjectRecord(table.rows, name), ProjectIn(rows, name), DeathsOf(tombs, Projects, name))
  {
    if rows != [] {
      var init, last := rows[..|rows| - 1], |rows| - 1;
      ProjectAfterRows(table, tombs, init, name);
      ProjectInLast(rows, name);
      DeathsMeanCovers(tombs, Projects, name, rows[last].updatedAt);
    }
  }

  /** Of rows with distinct names, the last one is the row of its name and of no other. */
  lemma ProjectInLast(rows: seq<ProjectRow>, name: string)
    requires rows != [] && forall i, j :: 0 <= i < j < |rows| ==> rows[i].name != rows[j].name
    ensures var init, last := rows[..|rows| - 1], rows[|rows| - 1];
            if last.name == name
            then ProjectIn(init, name) == None && ProjectIn(rows, name) == ProjectIn([last], name)
            else ProjectIn(rows, name) == ProjectIn(init, name)
  {
    var init, last := rows[..|rows| - 1], rows[|rows| - 1];
    if last.name == name {
      assert rows[|rows| - 1].name == name && [last][0].name == name;
    } else {
      assert forall i :: 0 <= i < |rows| && rows[i].name == name ==> i < |init| && init[i] == rows[i];
      assert forall i :: 0 <= i < |init| ==> init[i] == rows[i];
    }
  }

  ghost function AppIn(rows: seq<AppRow>, exe: string): Option<Record<string>> {
    if exists i :: 0 <= i < |rows| && rows[i].exe == exe then
      var i :| 0 <= i < |rows| && rows[i].exe == exe;
      Some(Record(rows[i].display.GetOr(""), rows[i].updatedAt))
    else None
  }

  lemma AppAfterRow(table: AppTable, tombs: set<Tombstone>, projects: Links, r: AppRow, exe: string, now: Time)
    requires exe != "" && r.updatedAt > EPOCH
    ensures AppRecord(MergeApp(table, tombs, projects, r, now).rows, exe) ==
              Taken(AppRecord(table.rows, exe), if r.exe == exe then Some(Record(r.display.GetOr(""), r.updatedAt))
                  else None,
                    DeathsOf(tombs, Applications, exe))
  {
    DeathsMeanCovers(tombs, Applications, exe, r.updatedAt);
  }

  lemma {:induction false} AppAfterRows(table: AppTable, tombs: set<Tombstone>, projects: Links, rows: seq<AppRow>,
                                        exe: string, now: Time)
    requires exe != ""
    requires forall i, j :: 0 <= i < j < |rows| ==> rows[i].exe != rows[j].exe
    requires forall i :: 0 <= i < |rows| ==> rows[i].updatedAt > EPOCH
    ensures AppRecord(MergeApps(table, tombs, projects, rows, now).rows, exe) ==
              Taken(AppRecord(table.rows, exe), AppIn(rows, exe), DeathsOf(tombs, Applications, exe))
  {
    if rows != [] {
      var init, last := rows[..|rows| - 1], rows[|rows| - 1];
      AppAfterRows(table, tombs, projects, init, exe, now);
      AppAfterRow(MergeApps(table, tombs, projects, init, now), tombs, projects, last, exe, now);
      AppInLast(rows, exe);
    }
  }

  lemma AppInLast(rows: seq<AppRow>, exe: string)
    requires rows != [] && forall i, j :: 0 <= i < j < |rows| ==> rows[i].exe != rows[j].exe
    ensures var init, last := rows[..|rows| - 1], rows[|rows| - 1];
            if last.exe == exe
            then AppIn(init, exe) == None && AppIn(rows, exe) == Some(Record(last.display.GetOr(""), last.updatedAt))
            else AppIn(rows, exe) == AppIn(init, exe)
  {
    var init, last := rows[..|rows| - 1], rows[|rows| - 1];
    if last.exe == exe {
      assert forall i :: 0 <= i < |init| ==> init[i].exe != exe;
    } else {
      assert forall i :: 0 <= i < |rows| && rows[i].exe == exe ==> i < |init| && init[i] == rows[i];
      assert forall i :: 0 <= i < |init| ==> init[i] == rows[i];
    }
  }

  ghost function KeyRecord(sessions: map<SessionKey, Session>, k: SessionKey): Option<Record<SessionFields>> {
    if k in sessions then Some(Record(sessions[k].fields, sessions[k].updatedAt)) else None
  }

  ghost function SessionIn(rows: seq<SessionRow>, k: SessionKey): Option<Record<SessionFields>> {
    if exists i :: 0 <= i < |rows| && KeyOf(rows[i]) == k then
      var i :| 0 <= i < |rows| && KeyOf(rows[i]) == k;
      Some(RowRecord(rows[i]))
    else None
  }

  ghost function RowRecord(r: SessionRow): Record<SessionFields> {
    Record(SessionFields(r.end.GetOr(""), r.duration, r.rate, r.comment, r.hidden), r.updatedAt)
  }

  /** `remote` is the peer's id of the executable; both id maps are injective on it. */
  ghost predicate Names(apps: Links, remote: int, exe: string) {
    && remote != 0
    && remote in apps.remote
    && apps.remote[remote] == exe
    && exe in apps.local
    && (forall id :: id in apps.remote && apps.remote[id] == exe ==> id == remote)
    && (forall e :: e in apps.local && apps.local[e] == apps.local[exe] ==> e == exe)
  }

  lemma SessionAfterRow(sessions: map<SessionKey, Session>, tombs: set<Tombstone>, apps: Links, projects: Links,
                        r: SessionRow,
                        exe: string, remote: int, start: string, now: Time)
    requires start != "" && Names(apps, remote, exe) && r.end.Some? && r.updatedAt > EPOCH
    ensures var k := SessionKey(apps.local[exe], start);
            KeyRecord(MergeSession(sessions, tombs, apps, projects, r, now), k) ==
              Taken(KeyRecord(sessions, k), if KeyOf(r) == SessionKey(remote, start) then Some(RowRecord(r)) else None,
                    DeathsOf(tombs, Sessions, SessionKeyText(exe, start)))
  {
    var k := SessionKey(apps.local[exe], start);
    DeathsMeanCovers(tombs, Sessions, SessionKeyText(exe, start), r.updatedAt);
    if KeyOf(r) == SessionKey(remote, start) {
      assert LocalSessionKey(apps, r) == Some(k);
    } else {
      assert LocalSessionKey(apps, r) != Some(k);
    }
  }

  lemma {:induction false} SessionAfterRows(sessions: map<SessionKey, Session>, tombs: set<Tombstone>, apps: Links,
                                            projects: Links,
                                            rows: seq<SessionRow>, exe: string, remote: int, start: string, now: Time)
    requires start != "" && Names(apps, remote, exe)
    requires forall i, j :: 0 <= i < j < |rows| ==> KeyOf(rows[i]) != KeyOf(rows[j])
    requires forall i :: 0 <= i < |rows| ==> rows[i].end.Some? && rows[i].updatedAt > EPOCH
    ensures var k := SessionKey(apps.local[exe], start);
            KeyRecord(MergeSessions(sessions, tombs, apps, projects, rows, now), k) ==
              Taken(KeyRecord(sessions, k), SessionIn(rows, SessionKey(remote, start)),
                    DeathsOf(tombs, Sessions, SessionKeyText(exe, start)))
  {
    if rows != [] {
      var init, last, target := rows[..|rows| - 1], |rows| - 1, SessionKey(remote, start);
      SessionAfterRows(sessions, tombs, apps, projects, init, exe, remote, start, now);
      SessionAfterRow(MergeSessions(sessions, tombs, apps, projects, init, now), tombs, apps, projects, rows[last],
          exe, remote, start, now);
      SessionInLast(rows, target);
    }
  }

  /** Of rows with distinct keys, the last one is the row of its key and of no other. */
  lemma SessionInLast(rows: seq<SessionRow>, k: SessionKey)
    requires rows != []
    requires forall i, j :: 0 <= i < j < |rows| ==> KeyOf(rows[i]) != KeyOf(rows[j])
    ensures var init, last := rows[..|rows| - 1], rows[|rows| - 1];
            if KeyOf(last) == k then SessionIn(init, k).None? && SessionIn(rows, k) == Some(RowRecord(last))
            else SessionIn(rows, k) == SessionIn(init, k)
  {
    var init, last := rows[..|rows| - 1], |rows| - 1;
    if KeyOf(rows[last]) == k {
      assert forall i :: 0 <= i < |init| ==> KeyOf(init[i]) != k;
    } else {
      assert forall i :: 0 <= i < |rows| && KeyOf(rows[i]) == k ==> i < last && init[i] == rows[i];
      assert forall i :: 0 <= i < |init| ==> init[i] == rows[i];
    }
  }

  // ----- merging a full export, key by key -----

  lemma DeathsAfterMerge(db: Db, sender: Db, p: Payload, now: Time, table: TableName, key: string)
    requires IsExport(sender, EPOCH, p) && table != Unknown("") && key != ""
    ensures var before, sent := DeathsOf(db.tombstones, table, key), DeathsOf(sender.tombstones, table, key);
            && DeathsOf(Merged(db, p, now).tombstones, table, key) ==
                 before + (if before == {} && sent != {} then {Earliest(sent)} else {})
            && Adopted(db.(triggersOn := false), p.tombstones, table, key) ==
                 (if before == {} && sent != {} then Some(Earliest(sent)) else None)
  {
    var before, sent := DeathsOf(db.tombstones, table, key), DeathsOf(sender.tombstones, table, key);
    TombstonesAdopted(db.(triggersOn := false), p.tombstones, now);
    ExportListsEarliest(p.tombstones, sender.tombstones, table, key);
    DeathsMeanCovers(db.tombstones, table, key, 0);
    var after := DeathsOf(Merged(db, p, now).tombstones, table, key);
    var added := if before == {} && sent != {} then {Earliest(sent)} else {};
    forall d ensures d in after <==> d in before + added {
      var t := Tombstone(table, key, d);
      assert d in after <==> t in Merged(db, p, now).tombstones;
      assert d in before <==> t in db.tombstones;
    }
  }

  /** Both databases' clocks: `now` is ahead of every deletion the sender holds. */
  lemma ListedAreAhead(ts: seq<Tombstone>, tombs: set<Tombstone>, now: Time)
    requires ListsTombstones(ts, tombs, EPOCH) && Ahead(tombs, now)
    ensures AheadOf(ts, now)
  {
  }

  lemma ExportedProject(table: ProjectTable, tombs: set<Tombstone>, sender: Db, p: Payload, name: string)
    requires ListsProjects(p.projects, sender.projects.rows) && name != ""
    ensures ProjectRecord(MergeProjects(table, tombs, p.projects).rows, name) ==
              Taken(ProjectRecord(table.rows, name), SentRecord(ProjectRecord(sender.projects.rows, name)),
                  DeathsOf(tombs, Projects, name))
  {
    ProjectAfterRows(table, tombs, p.projects, name);
    ProjectListed(sender, p, name);
  }

  lemma ProjectMerged(db: Db, sender: Db, p: Payload, now: Time, name: string)
    requires IsExport(sender, EPOCH, p) && name != ""
    ensures var told := Told(ProjectPeer(db, name), SentProject(ProjectPeer(sender, name)));
            ProjectPeer(Merged(db, p, now), name) ==
              Peer(Taken(ProjectKept(db, p.tombstones, name), SentRecord(ProjectRecord(sender.projects.rows, name)),
                  told), told)
  {
    var d, d0 := AfterTombstones(db, p, now), db.(triggersOn := false);
    DeathsAfterMerge(db, sender, p, now, Projects, name);
    ProjectAfterTombstones(d0, p.tombstones, now, name);
    assert ProjectKept(d0, p.tombstones, name) == ProjectKept(db, p.tombstones, name);
    ExportedProject(d.projects, d.tombstones, sender, p, name);
  }

  /** A merge of a full export acts on a project as the rule of SyncPeers for two peers says. */
  lemma ProjectReceived(db: Db, sender: Db, p: Payload, now: Time, name: string)
    requires IsExport(sender, EPOCH, p) && name != ""
    ensures ProjectPeer(Merged(db, p, now), name) ==
              Received(ProjectPeer(db, name), SentProject(ProjectPeer(sender, name)))
  {
    var local, sent := ProjectPeer(db, name), SentProject(ProjectPeer(sender, name));
    ProjectMerged(db, sender, p, now, name);
    DeathsAfterMerge(db, sender, p, now, Projects, name);
    if local.row.Some? && Learned(local, sent) != {} {
      assert Dead(Learned(local, sent), local.row.value.updatedAt) <==>
          Earliest(sent.deaths) >= local.row.value.updatedAt;
    }
  }

  lemma ProjectListed(sender: Db, p: Payload, name: string)
    requires ListsProjects(p.projects, sender.projects.rows)
    ensures ProjectIn(p.projects, name) == SentRecord(ProjectRecord(sender.projects.rows, name))
  {
    if name in sender.projects.rows {
      var i :| 0 <= i < |p.projects| && p.projects[i].name == name;
    }
  }

  lemma AppListed(sender: Db, p: Payload, exe: string)
    requires ListsApps(p.apps, sender.apps.rows)
    ensures AppIn(p.apps, exe) == AppRecord(sender.apps.rows, exe)
  {
    if exe in sender.apps.rows {
      var i :| 0 <= i < |p.apps| && p.apps[i].exe == exe;
    }
  }

  lemma SessionListed(sender: Db, p: Payload, k: SessionKey)
    requires ListsSessions(p.sessions, sender.sessions, EPOCH)
    ensures SessionIn(p.sessions, k) == KeyRecord(sender.sessions, k)
  {
    if k in sender.sessions {
      var i :| 0 <= i < |p.sessions| && KeyOf(p.sessions[i]) == k;
    }
  }

  /** Rows come with a stamp: the AFTER INSERT triggers leave none at EPOCH. */
  ghost predicate Dated(db: Db) {
    && (forall e :: e in db.apps.rows ==> db.apps.rows[e].updatedAt > EPOCH)
    && (forall k :: k in db.sessions ==> db.sessions[k].updatedAt > EPOCH)
  }

  /** What a merge of a full export makes of one application. */
  lemma AppReceived(db: Db, sender: Db, p: Payload, now: Time, exe: string)
    requires IsExport(sender, EPOCH, p) && Ahead(sender.tombstones, now) && Dated(sender) && IdsOk(db) && exe != ""
    ensures var told := Told(AppPeer(db, exe), AppPeer(sender, exe));
            AppPeer(Merged(db, p, now), exe) ==
              Peer(Taken(AppKept(db, p.tombstones, exe, now), AppRecord(sender.apps.rows, exe), told), told)
  {
    var d, d0 := AfterProjects(db, p, now), db.(triggersOn := false);
    ListedAreAhead(p.tombstones, sender.tombstones, now);
    DeathsAfterMerge(db, sender, p, now, Applications, exe);
    AppAfterTombstones(d0, p.tombstones, now, exe);
    SameKept(db, p.tombstones, exe, now);
    AppAfterRows(d.apps, d.tombstones, ProjectLinks(d, p), p.apps, exe, now);
    AppListed(sender, p, exe);
  }

  /** Nothing of this depends on whether the triggers are installed. */
  lemma SameKept(db: Db, ts: seq<Tombstone>, exe: string, now: Time)
    ensures AppKept(db.(triggersOn := false), ts, exe, now) == AppKept(db, ts, exe, now)
  {
  }

  /** New applications get ids no session carries yet, so the application phase shows no session. */
  lemma SessionAcrossApps(db: Db, p: Payload, now: Time, exe: string, start: string)
    requires IdsOk(db)
    ensures var d1, d3 := AfterTombstones(db, p, now), AfterApps(db, p, now);
            && IdsOk(d3)
            && d3.sessions == d1.sessions
            && SessionRecord(d3.apps.rows, d3.sessions, exe, start) ==
                 SessionRecord(d1.apps.rows, d1.sessions, exe, start)
  {
    var d1, d2 := AfterTombstones(db, p, now), AfterProjects(db, p, now);
    ApplyTombstonesShrinks(db.(triggersOn := false), p.tombstones, now);
    ShrinksKeepsIds(db.(triggersOn := false), d1, now);
    MergeProjectsKeepsIds(d1.projects, d1.tombstones, p.projects);
    MergeAppsKeepsIds(d2.apps, d2.tombstones, ProjectLinks(d2, p), p.apps, now);
  }

  /** The sender's id of an executable, and no other, names it in an export. */
  lemma RemoteIdOf(sender: Db, p: Payload, exe: string)
    requires IsExport(sender, EPOCH, p) && IdsOk(sender) && exe != ""
    ensures if exe in sender.apps.rows then
              var remote := sender.apps.rows[exe].id;
              && remote != 0 && remote in RemoteApps(p.apps) && RemoteApps(p.apps)[remote] == exe
              && forall id :: id in RemoteApps(p.apps) && RemoteApps(p.apps)[id] == exe ==> id == remote
            else forall id :: id in RemoteApps(p.apps) ==> RemoteApps(p.apps)[id] != exe
  {
    ExportNamesApps(sender, EPOCH, p);
  }

  /** What the session phase makes of one key, from the state `d` it starts in. */
  lemma SessionAcrossPhase(d: Db, sender: Db, p: Payload, exe: string, start: string, now: Time)
    requires IsExport(sender, EPOCH, p) && IdsOk(d) && IdsOk(sender) && Dated(sender) && exe in d.apps.rows &&
               exe != "" && start != ""
    ensures var sessions := MergeSessions(d.sessions, d.tombstones, AppLinks(d, p), ProjectLinks(d, p), p.sessions,
              now);
            SessionRecord(d.apps.rows, sessions, exe, start) ==
              Taken(SessionRecord(d.apps.rows, d.sessions, exe, start),
                  SessionRecord(sender.apps.rows, sender.sessions, exe, start),
                    DeathsOf(d.tombstones, Sessions, SessionKeyText(exe, start)))
  {
    RemoteIdOf(sender, p, exe);
    if exe in sender.apps.rows {
      SharedAppRows(d, sender, p, exe, start, now);
    } else {
      SessionUntouched(d.sessions, d.tombstones, AppLinks(d, p), ProjectLinks(d, p), p.sessions, exe, start, now);
    }
  }

  lemma SharedAppRows(d: Db, sender: Db, p: Payload, exe: string, start: string, now: Time)
    requires ListsSessions(p.sessions, sender.sessions, EPOCH) && AppIdsOk(d.apps) && Dated(sender) && start != ""
    requires exe in d.apps.rows && exe in sender.apps.rows
    requires var remote := sender.apps.rows[exe].id;
             && remote != 0 && remote in RemoteApps(p.apps) && RemoteApps(p.apps)[remote] == exe
             && forall id :: id in RemoteApps(p.apps) && RemoteApps(p.apps)[id] == exe ==> id == remote
    ensures var sessions := MergeSessions(d.sessions, d.tombstones, AppLinks(d, p), ProjectLinks(d, p), p.sessions,
              now);
            SessionRecord(d.apps.rows, sessions, exe, start) ==
              Taken(SessionRecord(d.apps.rows, d.sessions, exe, start),
                  SessionRecord(sender.apps.rows, sender.sessions, exe, start),
                    DeathsOf(d.tombstones, Sessions, SessionKeyText(exe, start)))
  {
    SessionListed(sender, p, SessionKey(sender.apps.rows[exe].id, start));
    RowsForKey(d, p, exe, sender.apps.rows[exe].id, start, now);
  }

  lemma RowsForKey(d: Db, p: Payload, exe: string, remote: int, start: string, now: Time)
    requires AppIdsOk(d.apps) && exe in d.apps.rows && start != ""
    requires remote != 0 && remote in RemoteApps(p.apps) && RemoteApps(p.apps)[remote] == exe
    requires forall id :: id in RemoteApps(p.apps) && RemoteApps(p.apps)[id] == exe ==> id == remote
    requires forall i, j :: 0 <= i < j < |p.sessions| ==> KeyOf(p.sessions[i]) != KeyOf(p.sessions[j])
    requires forall i :: 0 <= i < |p.sessions| ==> p.sessions[i].end.Some? && p.sessions[i].updatedAt > EPOCH
    ensures var sessions := MergeSessions(d.sessions, d.tombstones, AppLinks(d, p), ProjectLinks(d, p), p.sessions,
              now);
            SessionRecord(d.apps.rows, sessions, exe, start) ==
              Taken(SessionRecord(d.apps.rows, d.sessions, exe, start),
                  SessionIn(p.sessions, SessionKey(remote, start)),
                    DeathsOf(d.tombstones, Sessions, SessionKeyText(exe, start)))
  {
    assert Names(AppLinks(d, p), remote, exe);
    SessionAfterRows(d.sessions, d.tombstones, AppLinks(d, p), ProjectLinks(d, p), p.sessions, exe, remote, start, now);
  }

  /** What a merge of a full export makes of one session, whatever the ids on either side: nothing is left
      where the application is gone, and otherwise the newer record, unless a deletion covers the sender's. */
  lemma SessionReceived(db: Db, sender: Db, p: Payload, now: Time, exe: string, start: string)
    requires IsExport(sender, EPOCH, p) && Ahead(sender.tombstones, now) && Dated(sender) && IdsOk(db) && IdsOk(sender)
    requires exe != "" && start != ""
    ensures var told := Told(SessionPeer(db, exe, start), SessionPeer(sender, exe, start));
            SessionPeer(Merged(db, p, now), exe, start) ==
              Peer(if exe !in Merged(db, p, now).apps.rows then None
                   else Taken(SessionKept(db, p.tombstones, exe, start, now), SessionPeer(sender, exe, start).row,
                       told), told)
  {
    var d0, key := db.(triggersOn := false), SessionKeyText(exe, start);
    ListedAreAhead(p.tombstones, sender.tombstones, now);
    DeathsAfterMerge(db, sender, p, now, Sessions, key);
    SessionAfterTombstones(d0, p.tombstones, now, exe, start);
    SameSessionKept(db, p.tombstones, exe, start, now);
    SessionAcrossApps(db, p, now, exe, start);
    if exe in Merged(db, p, now).apps.rows {
      SessionAcrossPhase(AfterApps(db, p, now), sender, p, exe, start, now);
    }
  }

  lemma SameSessionKept(db: Db, ts: seq<Tombstone>, exe: string, start: string, now: Time)
    ensures SessionKept(db.(triggersOn := false), ts, exe, start, now) == SessionKept(db, ts, exe, start, now)
  {
  }

  /** Rows of other applications leave the key alone. */
  lemma {:induction false} SessionUntouched(sessions: map<SessionKey, Session>, tombs: set<Tombstone>, apps: Links,
                                            projects: Links, rows: seq<SessionRow>, exe: string, start: string,
                                            now: Time)
    requires exe in apps.local
    requires forall id :: id in apps.remote ==> apps.remote[id] != exe
    requires forall e :: e in apps.local && apps.local[e] == apps.local[exe] ==> e == exe
    ensures KeyRecord(MergeSessions(sessions, tombs, apps, projects, rows, now), SessionKey(apps.local[exe], start)) ==
              KeyRecord(sessions, SessionKey(apps.local[exe], start))
  {
    if rows != [] {
      SessionUntouched(sessions, tombs, apps, projects, rows[..|rows| - 1], exe, start, now);
    }
  }
}
