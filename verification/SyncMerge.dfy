/** What merge_incoming_data computes: the database after a payload has been merged into it. Each phase is a left
    fold over the rows of the payload, defined from the last row so that a loop over the rows keeps "state == fold of
    the rows read so far". */
module SyncMerge {
  import opened Options
  import opened SyncTypes

  // ----- tombstones -----

  predicate HasTombstone(tombs: set<Tombstone>, table: TableName, key: string) {
    exists t :: t in tombs && t.table == table && t.key == key
  }

  /** local_tombstone_covers: the newest tombstone of the key is at least as new as the record. */
  predicate Covers(tombs: set<Tombstone>, table: TableName, key: string, updatedAt: Time) {
    exists t :: t in tombs && t.table == table && t.key == key && t.deletedAt >= updatedAt
  }

  predicate CoversManual(tombs: set<Tombstone>, key: ManualKey, updatedAt: Time) {
    exists t :: t in tombs && t.table == ManualSessions && t.deletedAt >= updatedAt
             && EndsWith(t.key, "|" + key.start + "|" + key.title)
  }

  predicate SessionNewer(db: Db, appId: int, than: Time) {
    exists k :: k in db.sessions && k.appId == appId && db.sessions[k].updatedAt > than
  }

  /** The record a tombstone names was written after the deletion, so the deletion is stale.
      An application counts as written when any of its sessions was. */
  predicate Outlives(db: Db, t: Tombstone) {
    match t.table
    case Projects =>
      t.key in db.projects.rows && db.projects.rows[t.key].updatedAt > t.deletedAt
    case Applications =>
      && t.key in db.apps.rows
      && (|| db.apps.rows[t.key].updatedAt > t.deletedAt
          || SessionNewer(db, db.apps.rows[t.key].id, t.deletedAt))
    case Sessions =>
      (match SplitOnce(t.key)
       case None => false
       case Some((exe, start)) =>
         && exe in db.apps.rows
         && SessionKey(db.apps.rows[exe].id, start) in db.sessions
         && db.sessions[SessionKey(db.apps.rows[exe].id, start)].updatedAt > t.deletedAt)
    case ManualSessions =>
      (match SplitManualKey(t.key)
       case None => false
       case Some(key) => key in db.manuals && db.manuals[key].updatedAt > t.deletedAt)
    case Unknown(_) => false
  }

  // ----- single statements; `now` is the clock an installed trigger would stamp -----

  function Minted(db: Db, tombs: set<Tombstone>): set<Tombstone> {
    if db.triggersOn then db.tombstones + tombs else db.tombstones
  }

  function DeleteSessions(db: Db, doomed: set<SessionKey>, now: Time): Db {
    var named := set k, exe | k in doomed && k in db.sessions && exe in db.apps.rows && db.apps.rows[exe].id == k.appId
                   :: Tombstone(Sessions, SessionKeyText(exe, k.start), now);
    var orphaned := set k | k in doomed && k in db.sessions && !exists exe :: exe in db.apps.rows &&
                                                                              db.apps.rows[exe].id == k.appId
                      :: Tombstone(Sessions, SessionKeyText(IdText(k.appId), k.start), now);
    db.(sessions := db.sessions - doomed, tombstones := Minted(db, named + orphaned))
  }

  function DeleteApp(db: Db, exe: string, now: Time): Db {
    if exe !in db.apps.rows then db
    else db.(apps := db.apps.(rows := db.apps.rows - {exe}),
             tombstones := Minted(db, {Tombstone(Applications, exe, now)}))
  }

  function DeleteProject(db: Db, name: string, now: Time): Db {
    if name !in db.projects.rows then db
    else db.(projects := db.projects.(rows := db.projects.rows - {name}),
             tombstones := Minted(db, {Tombstone(Projects, name, now)}))
  }

  function DeleteManual(db: Db, key: ManualKey, now: Time): Db {
    if key !in db.manuals then db
    else
      var text := IdText(db.manuals[key].projectId) + "|" + key.start + "|" + key.title;
      db.(manuals := db.manuals - {key}, tombstones := Minted(db, {Tombstone(ManualSessions, text, now)}))
  }

  /** Sessions and applications of the project lose their link, manual sessions get the sentinel 0. An UPDATE
      that leaves updated_at alone fires the table's trg_*_updated_at trigger, which stamps the row now. */
  function UnlinkProject(db: Db, id: int, now: Time): Db {
    db.(
      sessions := map k | k in db.sessions ::
        if db.sessions[k].projectId == Some(id) then db.sessions[k].(projectId := None, updatedAt := now)
            else db.sessions[k],
      manuals := map k | k in db.manuals ::
        if db.manuals[k].projectId == id then db.manuals[k].(projectId := 0, updatedAt := now) else db.manuals[k],
      apps := db.apps.(rows := map e | e in db.apps.rows ::
        if db.apps.rows[e].projectId == Some(id) then db.apps.rows[e].(projectId := None, updatedAt := now)
            else db.apps.rows[e]))
  }

  function SessionsOfApp(db: Db, appId: int): set<SessionKey> {
    set k | k in db.sessions && k.appId == appId
  }

  // ----- phase 1: tombstones -----

  /** Replays one deletion, together with the references to the deleted record. */
  function Replay(db: Db, t: Tombstone, now: Time): Db {
    match t.table
    case Projects =>
      if t.key in db.projects.rows
      then DeleteProject(UnlinkProject(db, db.projects.rows[t.key].id, now), t.key, now)
      else db
    case Applications =>
      if t.key in db.apps.rows
      then DeleteApp(DeleteSessions(db, SessionsOfApp(db, db.apps.rows[t.key].id), now), t.key, now)
      else db
    case Sessions =>
      (match SplitOnce(t.key)
       case None => db
       case Some((exe, start)) =>
         if exe in db.apps.rows then DeleteSessions(db, {SessionKey(db.apps.rows[exe].id, start)}, now) else db)
    case ManualSessions =>
      (match SplitManualKey(t.key)
       case None => db
       case Some(key) => DeleteManual(db, key, now))
    case Unknown(_) => db
  }

  predicate Blank(t: Tombstone) {
    t.table == Unknown("") || t.key == ""
  }

  /** A tombstone is adopted once per key: a later one for a key already recorded is ignored. */
  function ApplyTombstone(db: Db, t: Tombstone, now: Time): Db {
    if Blank(t) || HasTombstone(db.tombstones, t.table, t.key) then db
    else
      var kept := if Outlives(db, t) then db else Replay(db, t, now);
      kept.(tombstones := kept.tombstones + {t})
  }

  function ApplyTombstones(db: Db, ts: seq<Tombstone>, now: Time): Db {
    if ts == [] then db
    else ApplyTombstone(ApplyTombstones(db, ts[..|ts| - 1], now), ts[|ts| - 1], now)
  }

  // ----- phase 2: projects -----

  /** json_f64_opt: a rate that is not positive reads as no rate. */
  function PositiveRate(rate: Option<real>): Option<real> {
    if rate.Some? && rate.value > 0.0 then rate else None
  }

  function ProjectFieldsOf(r: ProjectRow, mergedInto: Option<string>, mergedAt: Option<Time>): ProjectFields {
    ProjectFields(r.color, PositiveRate(r.rate), r.excludedAt, r.frozenAt, mergedInto, mergedAt)
  }

  function MergeProject(table: ProjectTable, tombs: set<Tombstone>, r: ProjectRow): ProjectTable {
    if r.name == "" || Covers(tombs, Projects, r.name, r.updatedAt) then table
    else if r.name in table.rows then
      var local := table.rows[r.name];
      if local.updatedAt >= r.updatedAt then table
      else
        var fields := ProjectFieldsOf(r, r.mergedInto.Over(local.fields.mergedInto),
            r.mergedAt.Over(local.fields.mergedAt));
        table.(rows := table.rows[r.name := local.(fields := fields, updatedAt := r.updatedAt)])
    else
      var fields := ProjectFieldsOf(r, r.mergedInto.ToOption(), r.mergedAt.ToOption());
      ProjectTable(table.rows[r.name := Project(table.next, fields, r.createdAt, r.folder, r.updatedAt)],
          table.next + 1)
  }

  function MergeProjects(table: ProjectTable, tombs: set<Tombstone>, rows: seq<ProjectRow>): ProjectTable {
    if rows == [] then table
    else MergeProject(MergeProjects(table, tombs, rows[..|rows| - 1]), tombs, rows[|rows| - 1])
  }

  // ----- id maps -----

  /** Peer ids to executable names; ids that are not positive and empty names are left out. */
  function RemoteApps(rows: seq<AppRow>): map<int, string> {
    if rows == [] then map[]
    else
      var before, r := RemoteApps(rows[..|rows| - 1]), rows[|rows| - 1];
      if r.id > 0 && r.exe != "" then before[r.id := r.exe] else before
  }

  function RemoteProjects(rows: seq<ProjectRow>): map<int, string> {
    if rows == [] then map[]
    else
      var before, r := RemoteProjects(rows[..|rows| - 1]), rows[|rows| - 1];
      if r.id > 0 && r.name != "" then before[r.id := r.name] else before
  }

  function ProjectIds(table: ProjectTable): map<string, int> {
    map name | name in table.rows :: table.rows[name].id
  }

  function AppIds(table: AppTable): map<string, int> {
    map exe | exe in table.rows :: table.rows[exe].id
  }

  /** How the ids of a payload translate: peer id to name, name to local id. */
  datatype Links = Links(remote: map<int, string>, local: map<string, int>) {
    function Translate(id: Option<int>): Option<int> {
      if id.Some? && id.value in remote && remote[id.value] in local then Some(local[remote[id.value]]) else None
    }

    function Label(id: Option<int>): Option<string> {
      if id.Some? && id.value in remote then Some(remote[id.value]) else None
    }
  }

  // ----- phase 3: applications -----

  /** The AFTER INSERT triggers of applications and sessions stamp a row now that comes without a stamp. */
  function Stamped(updatedAt: Time, now: Time): Time {
    if updatedAt == EPOCH then now else updatedAt
  }

  predicate AppRowLoses(table: AppTable, tombs: set<Tombstone>, r: AppRow) {
    || r.exe == ""
    || Covers(tombs, Applications, r.exe, r.updatedAt)
    || (r.exe in table.rows && table.rows[r.exe].updatedAt >= r.updatedAt)
  }

  function MergeApp(table: AppTable, tombs: set<Tombstone>, projects: Links, r: AppRow, now: Time): AppTable {
    if AppRowLoses(table, tombs, r) then table
    else if r.exe in table.rows then
      var local := table.rows[r.exe];
      table.(rows := table.rows[r.exe := local.(display := r.display.GetOr(""),
                                                projectId := projects.Translate(r.projectId).Or(local.projectId),
                                                updatedAt := r.updatedAt)])
    else
      var row := App(table.next, r.display.GetOr(""), projects.Translate(r.projectId), Stamped(r.updatedAt, now));
      AppTable(table.rows[r.exe := row], table.next + 1)
  }

  function MergeApps(table: AppTable, tombs: set<Tombstone>, projects: Links, rows: seq<AppRow>, now: Time): AppTable {
    if rows == [] then table
    else MergeApp(MergeApps(table, tombs, projects, rows[..|rows| - 1], now), tombs, projects, rows[|rows| - 1], now)
  }

  /** A winning row without a display name violates NOT NULL. */
  predicate AppFails(table: AppTable, tombs: set<Tombstone>, r: AppRow) {
    !AppRowLoses(table, tombs, r) && r.display.None?
  }

  predicate AppsFail(table: AppTable, tombs: set<Tombstone>, projects: Links, rows: seq<AppRow>, now: Time) {
    rows != [] &&
    (|| AppsFail(table, tombs, projects, rows[..|rows| - 1], now)
     || AppFails(MergeApps(table, tombs, projects, rows[..|rows| - 1], now), tombs, rows[|rows| - 1]))
  }

  // ----- phase 4: sessions -----

  /** The local key of a remote session, if its application is known on both sides. */
  function LocalSessionKey(apps: Links, r: SessionRow): Option<SessionKey> {
    var appId := apps.Translate(Some(r.appId));
    if r.start == "" || r.appId == 0 || appId.None? then None else Some(SessionKey(appId.value, r.start))
  }

  predicate SessionRowLoses(sessions: map<SessionKey, Session>, tombs: set<Tombstone>, apps: Links, r: SessionRow) {
    var key := LocalSessionKey(apps, r);
    || key.None?
    || Covers(tombs, Sessions, SessionKeyText(apps.remote[r.appId], r.start), r.updatedAt)
    || (key.value in sessions && sessions[key.value].updatedAt >= r.updatedAt)
  }

  /** The label is the peer's own project_name if it has one, else the name of the peer's project. */
  function SessionLabel(projects: Links, r: SessionRow): Option<string> {
    if r.projectName.Some? && r.projectName.value != "" then r.projectName else projects.Label(r.projectId)
  }

  /** The label after an UPDATE: where the link changes, trg_sessions_sync_project_name_upd overwrites it with the
      name of the project now linked. (On an INSERT the label is never missing beside a link, so its trigger has
      nothing to do.) */
  function Relabelled(projects: Links, r: SessionRow, local: Session): Option<string> {
    var link := projects.Translate(r.projectId);
    if link.Some? && link != local.projectId then projects.Label(r.projectId)
    else SessionLabel(projects, r).Or(local.projectName)
  }

  function MergeSession(sessions: map<SessionKey, Session>, tombs: set<Tombstone>, apps: Links, projects: Links,
                        r: SessionRow, now: Time): map<SessionKey, Session> {
    if SessionRowLoses(sessions, tombs, apps, r) then sessions
    else
      var key := LocalSessionKey(apps, r).value;
      var fields := SessionFields(r.end.GetOr(""), r.duration, r.rate, r.comment, r.hidden);
      var link, name := projects.Translate(r.projectId), SessionLabel(projects, r);
      if key in sessions then
        var local := sessions[key];
        sessions[key := Session(fields, local.date, link.Or(local.projectId), Relabelled(projects, r, local),
            r.updatedAt)]
      else if r.end.None? then sessions  // INSERT OR IGNORE skips a row that violates NOT NULL
      else sessions[key := Session(fields, r.date, link, name, Stamped(r.updatedAt, now))]
  }

  function MergeSessions(sessions: map<SessionKey, Session>, tombs: set<Tombstone>, apps: Links, projects: Links,
                         rows: seq<SessionRow>, now: Time): map<SessionKey, Session> {
    if rows == [] then sessions
    else MergeSession(MergeSessions(sessions, tombs, apps, projects, rows[..|rows| - 1], now), tombs, apps, projects,
        rows[|rows| - 1], now)
  }

  /** A winning UPDATE without an end time violates NOT NULL. */
  predicate SessionFails(sessions: map<SessionKey, Session>, tombs: set<Tombstone>, apps: Links, r: SessionRow) {
    !SessionRowLoses(sessions, tombs, apps, r) && r.end.None? && LocalSessionKey(apps, r).value in sessions
  }

  predicate SessionsFail(sessions: map<SessionKey, Session>, tombs: set<Tombstone>, apps: Links, projects: Links,
                         rows: seq<SessionRow>, now: Time) {
    rows != [] &&
    (|| SessionsFail(sessions, tombs, apps, projects, rows[..|rows| - 1], now)
     || SessionFails(MergeSessions(sessions, tombs, apps, projects, rows[..|rows| - 1], now), tombs, apps,
          rows[|rows| - 1]))
  }

  // ----- phase 5: manual sessions -----

  predicate ManualRowLoses(manuals: map<ManualKey, Manual>, tombs: set<Tombstone>, r: ManualRow) {
    var key := ManualKey(r.title, r.start);
    || r.title == ""
    || r.start == ""
    || CoversManual(tombs, key, r.updatedAt)
    || (key in manuals && manuals[key].updatedAt >= r.updatedAt)
  }

  /** Where a manual session gets a project it did not have, trg_manual_sessions_sync_project_name_ins or _upd writes
      the project's name, and since that UPDATE leaves updated_at alone, trg_manual_sessions_updated_at stamps the
      row now. */
  predicate Reassigned(manuals: map<ManualKey, Manual>, key: ManualKey, projectId: int) {
    projectId != 0 && (key !in manuals || manuals[key].projectId != projectId)
  }

  /** The label the triggers give a manual session: the name of a project it takes. The peer's label is not read. */
  function ManualLabel(manuals: map<ManualKey, Manual>, key: ManualKey, projects: Links, r: ManualRow): Option<string> {
    if Reassigned(manuals, key, projects.Translate(r.projectId).GetOr(0)) then projects.Label(r.projectId)
    else if key in manuals then manuals[key].projectName
    else None
  }

  /** An id that does not translate becomes the sentinel 0, never NULL. */
  function MergeManual(manuals: map<ManualKey, Manual>, tombs: set<Tombstone>, apps: Links, projects: Links,
                       r: ManualRow, now: Time): map<ManualKey, Manual> {
    if ManualRowLoses(manuals, tombs, r) then manuals
    else
      var fields := ManualFields(r.kind.GetOr(""), apps.Translate(r.appId), r.end.GetOr(""), r.duration,
          r.date.GetOr(""));
      var key, projectId := ManualKey(r.title, r.start), projects.Translate(r.projectId).GetOr(0);
      manuals[key := Manual(fields, projectId, ManualLabel(manuals, key, projects, r),
                            if key in manuals then manuals[key].createdAt else r.createdAt,
                            if Reassigned(manuals, key, projectId) then now else r.updatedAt)]
  }

  function MergeManuals(manuals: map<ManualKey, Manual>, tombs: set<Tombstone>, apps: Links, projects: Links,
                        rows: seq<ManualRow>, now: Time): map<ManualKey, Manual> {
    if rows == [] then manuals
    else MergeManual(MergeManuals(manuals, tombs, apps, projects, rows[..|rows| - 1], now), tombs, apps, projects,
        rows[|rows| - 1], now)
  }

  predicate ManualFails(manuals: map<ManualKey, Manual>, tombs: set<Tombstone>, r: ManualRow) {
    !ManualRowLoses(manuals, tombs, r) && (r.kind.None? || r.end.None? || r.date.None?)
  }

  predicate ManualsFail(manuals: map<ManualKey, Manual>, tombs: set<Tombstone>, apps: Links, projects: Links,
                        rows: seq<ManualRow>, now: Time) {
    rows != [] &&
    (|| ManualsFail(manuals, tombs, apps, projects, rows[..|rows| - 1], now)
     || ManualFails(MergeManuals(manuals, tombs, apps, projects, rows[..|rows| - 1], now), tombs, rows[|rows| - 1]))
  }

  // ----- the whole merge -----

  function AfterTombstones(db: Db, p: Payload, now: Time): Db {
    ApplyTombstones(db.(triggersOn := false), p.tombstones, now)
  }

  function AfterProjects(db: Db, p: Payload, now: Time): Db {
    var d := AfterTombstones(db, p, now);
    d.(projects := MergeProjects(d.projects, d.tombstones, p.projects))
  }

  function ProjectLinks(d: Db, p: Payload): Links {
    Links(RemoteProjects(p.projects), ProjectIds(d.projects))
  }

  function AppLinks(d: Db, p: Payload): Links {
    Links(RemoteApps(p.apps), AppIds(d.apps))
  }

  function AfterApps(db: Db, p: Payload, now: Time): Db {
    var d := AfterProjects(db, p, now);
    d.(apps := MergeApps(d.apps, d.tombstones, ProjectLinks(d, p), p.apps, now))
  }

  function AfterSessions(db: Db, p: Payload, now: Time): Db {
    var d := AfterApps(db, p, now);
    d.(sessions := MergeSessions(d.sessions, d.tombstones, AppLinks(d, p), ProjectLinks(d, p), p.sessions, now))
  }

  function AfterManuals(db: Db, p: Payload, now: Time): Db {
    var d := AfterSessions(db, p, now);
    d.(manuals := MergeManuals(d.manuals, d.tombstones, AppLinks(d, p), ProjectLinks(d, p), p.manuals, now))
  }

  /** The committed state of a merge that does not fail. */
  function Merged(db: Db, p: Payload, now: Time): Db {
    AfterManuals(db, p, now).(triggersOn := true)
  }

  /** Some row breaks a NOT NULL constraint, which aborts the transaction. */
  predicate MergeFails(db: Db, p: Payload, now: Time) {
    var d := AfterProjects(db, p, now);
    var e := AfterApps(db, p, now);
    var f := AfterSessions(db, p, now);
    || AppsFail(d.apps, d.tombstones, ProjectLinks(d, p), p.apps, now)
    || SessionsFail(e.sessions, e.tombstones, AppLinks(e, p), ProjectLinks(e, p), p.sessions, now)
    || ManualsFail(f.manuals, f.tombstones, AppLinks(f, p), ProjectLinks(f, p), p.manuals, now)
  }

  /** A failed merge rolls back. */
  function MergeOutcome(db: Db, p: Payload, now: Time): Db {
    if MergeFails(db, p, now) then db else Merged(db, p, now)
  }
}
