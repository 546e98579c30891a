/** build_delta_for_pull: what a peer sends, as a relation between its database and the payload. */
module SyncExport {
  import opened Options
  import opened SyncTypes
  import opened SyncMerge
  import opened SyncInvariants
  import opened SyncPeers
  import opened SyncSafety

  function Explicit<T>(value: Option<T>): Json<T> {
    if value.Some? then Value(value.value) else Null
  }

  function ProjectRowOf(name: string, p: Project): ProjectRow {
    ProjectRow(p.id, name, p.fields.color, p.fields.rate, p.createdAt, p.fields.excludedAt, p.fields.frozenAt, p.folder,
               Explicit(p.fields.mergedInto), Explicit(p.fields.mergedAt), p.updatedAt)
  }

  function AppRowOf(exe: string, a: App): AppRow {
    AppRow(a.id, exe, Some(a.display), a.projectId, a.updatedAt)
  }

  function SessionRowOf(k: SessionKey, s: Session): SessionRow {
    SessionRow(k.appId, k.start, Some(s.fields.end), s.fields.duration, s.date, s.fields.rate, s.fields.comment,
               s.fields.hidden, s.projectId, s.projectName, s.updatedAt)
  }

  function ManualRowOf(k: ManualKey, m: Manual): ManualRow {
    ManualRow(k.title, k.start, Some(m.fields.kind), Some(m.projectId), m.projectName, m.fields.appId,
              Some(m.fields.end), m.fields.duration, Some(m.fields.date), m.createdAt, m.updatedAt)
  }

  // ----- each table is listed, one row a key -----

  ghost predicate ListsProjects(rows: seq<ProjectRow>, projects: map<string, Project>) {
    && (forall i :: 0 <= i < |rows| ==> rows[i].name in projects &&
                                        rows[i] == ProjectRowOf(rows[i].name, projects[rows[i].name]))
    && (forall n :: n in projects ==> exists i :: 0 <= i < |rows| && rows[i].name == n)
    && (forall i, j :: 0 <= i < j < |rows| ==> rows[i].name != rows[j].name)
  }

  ghost predicate ListsApps(rows: seq<AppRow>, apps: map<string, App>) {
    && (forall i :: 0 <= i < |rows| ==> rows[i].exe in apps && rows[i] == AppRowOf(rows[i].exe, apps[rows[i].exe]))
    && (forall e :: e in apps ==> exists i :: 0 <= i < |rows| && rows[i].exe == e)
    && (forall i, j :: 0 <= i < j < |rows| ==> rows[i].exe != rows[j].exe)
  }

  function KeyOf(r: SessionRow): SessionKey {
    SessionKey(r.appId, r.start)
  }

  ghost predicate ListsSessions(rows: seq<SessionRow>, sessions: map<SessionKey, Session>, since: Time) {
    && (forall i :: 0 <= i < |rows| ==>
          && KeyOf(rows[i]) in sessions
          && rows[i] == SessionRowOf(KeyOf(rows[i]), sessions[KeyOf(rows[i])])
          && rows[i].updatedAt >= since)
    && (forall k :: k in sessions && sessions[k].updatedAt >= since ==>
         exists i :: 0 <= i < |rows| && KeyOf(rows[i]) == k)
    && (forall i, j :: 0 <= i < j < |rows| ==> KeyOf(rows[i]) != KeyOf(rows[j]))
  }

  function ManualKeyOf(r: ManualRow): ManualKey {
    ManualKey(r.title, r.start)
  }

  ghost predicate ListsManuals(rows: seq<ManualRow>, manuals: map<ManualKey, Manual>, since: Time) {
    && (forall i :: 0 <= i < |rows| ==>
          && ManualKeyOf(rows[i]) in manuals
          && rows[i] == ManualRowOf(ManualKeyOf(rows[i]), manuals[ManualKeyOf(rows[i])])
          && rows[i].updatedAt >= since)
    && (forall k :: k in manuals && manuals[k].updatedAt >= since ==>
         exists i :: 0 <= i < |rows| && ManualKeyOf(rows[i]) == k)
    && (forall i, j :: 0 <= i < j < |rows| ==> ManualKeyOf(rows[i]) != ManualKeyOf(rows[j]))
  }

  ghost predicate InOrder(ts: seq<Tombstone>) {
    forall i, j :: 0 <= i < j < |ts| ==> ts[i].deletedAt <= ts[j].deletedAt
  }

  ghost predicate NoRepeats(ts: seq<Tombstone>) {
    forall i, j :: 0 <= i < j < |ts| ==> ts[i] != ts[j]
  }

  /** Each tombstone comes once, in the order of the times. */
  ghost predicate ListsTombstones(ts: seq<Tombstone>, tombs: set<Tombstone>, since: Time) {
    && (forall i :: 0 <= i < |ts| ==> ts[i] in tombs && ts[i].deletedAt >= since)
    && (forall t :: t in tombs && t.deletedAt >= since ==> t in ts)
    && NoRepeats(ts)
    && InOrder(ts)
  }

  /** `p` is what a peer with this database answers to a pull since `since`: projects and
      applications always in full, sessions and tombstones from the cutoff on. */
  ghost predicate IsExport(db: Db, since: Time, p: Payload) {
    && ListsProjects(p.projects, db.projects.rows)
    && ListsApps(p.apps, db.apps.rows)
    && ListsSessions(p.sessions, db.sessions, since)
    && ListsManuals(p.manuals, db.manuals, since)
    && ListsTombstones(p.tombstones, db.tombstones, since)
  }

  // ----- the id maps of an export -----

  lemma {:induction false} RemoteAppsExact(rows: seq<AppRow>, apps: AppTable)
    requires AppIdsOk(apps)
    requires forall i :: 0 <= i < |rows| ==> rows[i].exe in apps.rows && rows[i].id == apps.rows[rows[i].exe].id
    ensures forall id :: id in RemoteApps(rows) ==>
                           RemoteApps(rows)[id] in apps.rows && apps.rows[RemoteApps(rows)[id]].id == id &&
                               RemoteApps(rows)[id] != ""
    ensures forall i :: 0 <= i < |rows| && rows[i].exe != "" ==>
                          rows[i].id in RemoteApps(rows) && RemoteApps(rows)[rows[i].id] == rows[i].exe
  {
    if rows != [] {
      RemoteAppsExact(rows[..|rows| - 1], apps);
    }
  }

  lemma {:induction false} RemoteProjectsExact(rows: seq<ProjectRow>, projects: ProjectTable)
    requires ProjectIdsOk(projects)
    requires forall i :: 0 <= i < |rows| ==>
               rows[i].name in projects.rows && rows[i].id == projects.rows[rows[i].name].id
    ensures forall id :: id in RemoteProjects(rows) ==>
                           RemoteProjects(rows)[id] in projects.rows && projects.rows[RemoteProjects(rows)[id]].id == id
    ensures forall i :: 0 <= i < |rows| && rows[i].name != "" ==>
                          rows[i].id in RemoteProjects(rows) && RemoteProjects(rows)[rows[i].id] == rows[i].name
  {
    if rows != [] {
      RemoteProjectsExact(rows[..|rows| - 1], projects);
    }
  }

  /** A peer's id names the application, and the name finds the id, when the name is not empty. */
  lemma ExportNamesApps(db: Db, since: Time, p: Payload)
    requires IdsOk(db) && IsExport(db, since, p)
    ensures forall id :: id in RemoteApps(p.apps) ==>
                           RemoteApps(p.apps)[id] in db.apps.rows && db.apps.rows[RemoteApps(p.apps)[id]].id == id
    ensures forall e :: e in db.apps.rows && e != "" ==>
                          db.apps.rows[e].id in RemoteApps(p.apps) && RemoteApps(p.apps)[db.apps.rows[e].id] == e
  {
    RemoteAppsExact(p.apps, db.apps);
    forall e | e in db.apps.rows && e != ""
      ensures db.apps.rows[e].id in RemoteApps(p.apps) && RemoteApps(p.apps)[db.apps.rows[e].id] == e
    {
      var i :| 0 <= i < |p.apps| && p.apps[i].exe == e;
    }
  }

  lemma ExportNamesProjects(db: Db, since: Time, p: Payload)
    requires IdsOk(db) && IsExport(db, since, p)
    ensures forall n :: n in db.projects.rows && n != "" ==>
                          db.projects.rows[n].id in RemoteProjects(p.projects) &&
                              RemoteProjects(p.projects)[db.projects.rows[n].id] == n
  {
    RemoteProjectsExact(p.projects, db.projects);
    forall n | n in db.projects.rows && n != ""
      ensures db.projects.rows[n].id in RemoteProjects(p.projects) &&
                RemoteProjects(p.projects)[db.projects.rows[n].id] == n
    {
      var i :| 0 <= i < |p.projects| && p.projects[i].name == n;
    }
  }

  // ----- the tombstones of one key -----

  ghost function DeathsOf(tombs: set<Tombstone>, table: TableName, key: string): set<Time> {
    set t | t in tombs && t.table == table && t.key == key :: t.deletedAt
  }

  lemma DeathsMeanCovers(tombs: set<Tombstone>, table: TableName, key: string, u: Time)
    ensures Dead(DeathsOf(tombs, table, key), u) <==> Covers(tombs, table, key, u)
    ensures DeathsOf(tombs, table, key) != {} <==> HasTombstone(tombs, table, key)
  {
    if Dead(DeathsOf(tombs, table, key), u) {
      var d :| d in DeathsOf(tombs, table, key) && d >= u;
      assert Tombstone(table, key, d) in tombs;
    }
    if Covers(tombs, table, key, u) {
      var t :| t in tombs && t.table == table && t.key == key && t.deletedAt >= u;
      assert t.deletedAt in DeathsOf(tombs, table, key);
    }
    if HasTombstone(tombs, table, key) {
      var t :| t in tombs && t.table == table && t.key == key;
      assert t.deletedAt in DeathsOf(tombs, table, key);
    }
    if DeathsOf(tombs, table, key) != {} {
      var d :| d in DeathsOf(tombs, table, key);
      assert Tombstone(table, key, d) in tombs;
    }
  }

  lemma ListedIffDeleted(ts: seq<Tombstone>, tombs: set<Tombstone>, table: TableName, key: string)
    requires ListsTombstones(ts, tombs, EPOCH)
    ensures FirstFor(ts, table, key).Some? <==> DeathsOf(tombs, table, key) != {}
  {
    FirstForIsFirst(ts, table, key);
    if DeathsOf(tombs, table, key) != {} {
      var d :| d in DeathsOf(tombs, table, key);
      assert Tombstone(table, key, d) in ts;
    }
    if FirstFor(ts, table, key).Some? {
      var i :| 0 <= i < |ts| && ts[i].table == table && ts[i].key == key;
      assert ts[i].deletedAt in DeathsOf(tombs, table, key);
    }
  }

  /** What comes first in order of time is no later than any other. */
  lemma FirstIsNoLater(ts: seq<Tombstone>, table: TableName, key: string, t: Tombstone)
    requires InOrder(ts) && t in ts && t.table == table && t.key == key
    ensures FirstFor(ts, table, key).Some? && FirstFor(ts, table, key).value <= t.deletedAt
    ensures Tombstone(table, key, FirstFor(ts, table, key).value) in ts
  {
    FirstForIsFirst(ts, table, key);
    var j :| 0 <= j < |ts| && ts[j] == t;
    var i :| 0 <= i < |ts| && ts[i] == Tombstone(table, key, FirstFor(ts, table, key).value)
          && forall j :: 0 <= j < i ==> !(ts[j].table == table && ts[j].key == key);
    assert i <= j;
  }

  /** The first tombstone a full export lists for a key is the earliest one the sender holds. */
  lemma ExportListsEarliest(ts: seq<Tombstone>, tombs: set<Tombstone>, table: TableName, key: string)
    requires ListsTombstones(ts, tombs, EPOCH)
    ensures FirstFor(ts, table, key) ==
              if DeathsOf(tombs, table, key) == {} then None else Some(Earliest(DeathsOf(tombs, table, key)))
  {
    ListedIffDeleted(ts, tombs, table, key);
    var deaths := DeathsOf(tombs, table, key);
    if deaths != {} {
      var e := Tombstone(table, key, Earliest(deaths));
      assert e in ts;
      FirstIsNoLater(ts, table, key, e);
      assert FirstFor(ts, table, key).value in deaths;
    }
  }
}
