/** Ids differ from peer to peer; what they stand for does not. */
module SyncLinks {
  import opened Options
  import opened SyncTypes
  import opened SyncMerge
  import opened SyncInvariants
  import opened SyncExport

  /** A project id of the sender translates to the receiver's id of the project of the same name. */
  lemma LinkKeepsMeaning(db: Db, sender: Db, since: Time, p: Payload, now: Time, name: string)
    requires IdsOk(sender) && IsExport(sender, since, p)
    requires name != "" && name in sender.projects.rows && name in Merged(db, p, now).projects.rows
    ensures ProjectLinks(AfterProjects(db, p, now), p).Translate(Some(sender.projects.rows[name].id)) ==
              Some(Merged(db, p, now).projects.rows[name].id)
    ensures ProjectLinks(AfterProjects(db, p, now), p).Label(Some(sender.projects.rows[name].id)) == Some(name)
  {
    ExportNamesProjects(sender, since, p);
  }

  /** Row `i` is the last that gives this id a name. */
  ghost predicate LastAppOf(rows: seq<AppRow>, i: int, id: int) {
    && 0 <= i < |rows| && rows[i].id == id && rows[i].exe != ""
    && forall j :: i < j < |rows| ==> rows[j].id != id || rows[j].exe == ""
  }

  ghost predicate LastProjectOf(rows: seq<ProjectRow>, i: int, id: int) {
    && 0 <= i < |rows| && rows[i].id == id && rows[i].name != ""
    && forall j :: i < j < |rows| ==> rows[j].id != id || rows[j].name == ""
  }

  /** Whatever the payload, a positive id stands for the last name it gives to it, and no other id for anything. */
  lemma {:induction false} RemoteAppsAreLast(rows: seq<AppRow>, id: int)
    ensures id in RemoteApps(rows) <==> id > 0 && exists i :: LastAppOf(rows, i, id)
    ensures forall i :: id > 0 && LastAppOf(rows, i, id) ==> RemoteApps(rows)[id] == rows[i].exe
  {
    if rows != [] {
      var init, last := rows[..|rows| - 1], |rows| - 1;
      RemoteAppsAreLast(init, id);
      if rows[last].id == id && rows[last].exe != "" {
        assert LastAppOf(rows, last, id);
      } else {
        assert forall i :: LastAppOf(rows, i, id) <==> LastAppOf(init, i, id);
      }
    }
  }

  lemma {:induction false} RemoteProjectsAreLast(rows: seq<ProjectRow>, id: int)
    ensures id in RemoteProjects(rows) <==> id > 0 && exists i :: LastProjectOf(rows, i, id)
    ensures forall i :: id > 0 && LastProjectOf(rows, i, id) ==> RemoteProjects(rows)[id] == rows[i].name
  {
    if rows != [] {
      var init, last := rows[..|rows| - 1], |rows| - 1;
      RemoteProjectsAreLast(init, id);
      if rows[last].id == id && rows[last].name != "" {
        assert LastProjectOf(rows, last, id);
      } else {
        assert forall i :: LastProjectOf(rows, i, id) <==> LastProjectOf(init, i, id);
      }
    }
  }

  lemma {:induction false} OtherRowsSpareKey(sessions: map<SessionKey, Session>, tombs: set<Tombstone>, apps: Links,
                                             projects: Links, rows: seq<SessionRow>, k: SessionKey, now: Time)
    requires forall i :: 0 <= i < |rows| ==> LocalSessionKey(apps, rows[i]) != Some(k)
    ensures var after := MergeSessions(sessions, tombs, apps, projects, rows, now);
            (k in after <==> k in sessions) && (k in after ==> after[k] == sessions[k])
  {
    if rows != [] {
      OtherRowsSpareKey(sessions, tombs, apps, projects, rows[..|rows| - 1], k, now);
    }
  }

  /** The one row of a key decides the whole session stored under it. */
  lemma {:induction false} OneRowDecides(sessions: map<SessionKey, Session>, tombs: set<Tombstone>, apps: Links,
                                         projects: Links, rows: seq<SessionRow>, i: nat, k: SessionKey, now: Time)
    requires i < |rows| && LocalSessionKey(apps, rows[i]) == Some(k)
    requires forall j :: 0 <= j < |rows| && j != i ==> LocalSessionKey(apps, rows[j]) != Some(k)
    ensures var after, one := MergeSessions(sessions, tombs, apps, projects, rows, now),
              MergeSession(sessions, tombs, apps, projects, rows[i], now);
            (k in after <==> k in one) && (k in after ==> after[k] == one[k])
  {
    var init, last := rows[..|rows| - 1], |rows| - 1;
    if i == last {
      OtherRowsSpareKey(sessions, tombs, apps, projects, init, k, now);
    } else {
      OneRowDecides(sessions, tombs, apps, projects, init, i, k, now);
      assert LocalSessionKey(apps, rows[last]) != Some(k);
    }
  }

  /** Keys stay distinct on the receiver: two rows of an export never meet in one local session. */
  lemma LocalKeysDistinct(db: Db, sender: Db, since: Time, p: Payload, now: Time, i: nat, j: nat)
    requires IdsOk(db) && IdsOk(sender) && IsExport(sender, since, p) && i < |p.sessions| && j < |p.sessions| && i != j
    requires LocalSessionKey(AppLinks(AfterApps(db, p, now), p), p.sessions[i]).Some?
    requires IdsOk(AfterApps(db, p, now))
    ensures LocalSessionKey(AppLinks(AfterApps(db, p, now), p),
              p.sessions[i]) != LocalSessionKey(AppLinks(AfterApps(db, p, now), p), p.sessions[j])
  {
    LinkedKeysDistinct(AfterApps(db, p, now), sender, since, p, i, j);
  }

  lemma LinkedKeysDistinct(d: Db, sender: Db, since: Time, p: Payload, i: nat, j: nat)
    requires IdsOk(d) && IdsOk(sender) && IsExport(sender, since, p) && i < |p.sessions| && j < |p.sessions| && i != j
    requires LocalSessionKey(AppLinks(d, p), p.sessions[i]).Some?
    ensures LocalSessionKey(AppLinks(d, p), p.sessions[i]) != LocalSessionKey(AppLinks(d, p), p.sessions[j])
  {
    ExportNamesApps(sender, since, p);
    assert KeyOf(p.sessions[if i < j then i else j]) != KeyOf(p.sessions[if i < j then j else i]);
  }

  lemma AfterAppsIdsOk(db: Db, p: Payload, now: Time)
    requires IdsOk(db)
    ensures IdsOk(AfterApps(db, p, now))
  {
    var d1, d2 := AfterTombstones(db, p, now), AfterProjects(db, p, now);
    ApplyTombstonesShrinks(db.(triggersOn := false), p.tombstones, now);
    ShrinksKeepsIds(db.(triggersOn := false), d1, now);
    MergeProjectsKeepsIds(d1.projects, d1.tombstones, p.projects);
    MergeAppsKeepsIds(d2.apps, d2.tombstones, ProjectLinks(d2, p), p.apps, now);
  }

  lemma SessionDecided(db: Db, sender: Db, since: Time, p: Payload, now: Time, i: nat)
    requires IdsOk(db) && IdsOk(sender) && IsExport(sender, since, p) && i < |p.sessions|
    requires LocalSessionKey(AppLinks(AfterApps(db, p, now), p), p.sessions[i]).Some?
    ensures var d, after := AfterApps(db, p, now), Merged(db, p, now);
            var k := LocalSessionKey(AppLinks(d, p), p.sessions[i]).value;
            var one := MergeSession(d.sessions, d.tombstones, AppLinks(d, p), ProjectLinks(d, p), p.sessions[i], now);
            (k in after.sessions <==> k in one) && (k in after.sessions ==> after.sessions[k] == one[k])
  {
    var d := AfterApps(db, p, now);
    var k := LocalSessionKey(AppLinks(d, p), p.sessions[i]).value;
    AfterAppsIdsOk(db, p, now);
    forall j | 0 <= j < |p.sessions| && j != i ensures LocalSessionKey(AppLinks(d, p), p.sessions[j]) != Some(k) {
      LocalKeysDistinct(db, sender, since, p, now, i, j);
    }
    OneRowDecides(d.sessions, d.tombstones, AppLinks(d, p), ProjectLinks(d, p), p.sessions, i, k, now);
  }

  lemma WinningRow(d: Db, p: Payload, r: SessionRow, now: Time)
    requires !SessionRowLoses(d.sessions, d.tombstones, AppLinks(d, p), r) && r.end.Some?
    ensures var k := LocalSessionKey(AppLinks(d, p), r).value;
            var one := MergeSession(d.sessions, d.tombstones, AppLinks(d, p), ProjectLinks(d, p), r, now);
            && k in one
            && one[k].updatedAt == (if k in d.sessions then r.updatedAt else Stamped(r.updatedAt, now))
            && one[k].projectId == ProjectLinks(d, p).Translate(r.projectId).Or(if k in d.sessions
                 then d.sessions[k].projectId else None)
  {
  }

  /** A session that takes the peer's row for a project present here points, afterwards, to
      the project of the same name as on the peer; without a project it keeps its own. */
  lemma SessionTakesProject(db: Db, sender: Db, since: Time, p: Payload, now: Time, i: nat, name: string)
    requires IdsOk(db) && IdsOk(sender) && IsExport(sender, since, p) && i < |p.sessions|
    requires var d := AfterApps(db, p, now); !SessionRowLoses(d.sessions, d.tombstones, AppLinks(d, p), p.sessions[i])
    ensures var d, r, after := AfterApps(db, p, now), p.sessions[i], Merged(db, p, now);
            var k := LocalSessionKey(AppLinks(d, p), r).value;
            && k in after.sessions
            && after.sessions[k].updatedAt == (if k in d.sessions then r.updatedAt else Stamped(r.updatedAt, now))
            && (&& name != "" && name in sender.projects.rows && name in after.projects.rows
                && r.projectId == Some(sender.projects.rows[name].id) ==>
                  after.sessions[k].projectId == Some(after.projects.rows[name].id))
            && (r.projectId.None? && k in d.sessions ==> after.sessions[k].projectId == d.sessions[k].projectId)
  {
    assert p.sessions[i].end.Some?;
    SessionDecided(db, sender, since, p, now, i);
    WinningRow(AfterApps(db, p, now), p, p.sessions[i], now);
    if name != "" && name in sender.projects.rows && name in Merged(db, p, now).projects.rows {
      LinkKeepsMeaning(db, sender, since, p, now, name);
    }
  }

  /** A stored session that is moved to another project by the peer's row carries, afterwards, the name of that
      project, whatever label the row came with. */
  lemma MovedSessionIsRelabelled(db: Db, sender: Db, since: Time, p: Payload, now: Time, i: nat, name: string)
    requires IdsOk(db) && IdsOk(sender) && IsExport(sender, since, p) && i < |p.sessions|
    requires var d := AfterApps(db, p, now); !SessionRowLoses(d.sessions, d.tombstones, AppLinks(d, p), p.sessions[i])
    requires name != "" && name in sender.projects.rows && name in Merged(db, p, now).projects.rows
    requires p.sessions[i].projectId == Some(sender.projects.rows[name].id)
    requires var d := AfterApps(db, p, now);
             var k := LocalSessionKey(AppLinks(d, p), p.sessions[i]).value;
             k in d.sessions && d.sessions[k].projectId != Some(Merged(db, p, now).projects.rows[name].id)
    ensures var k := LocalSessionKey(AppLinks(AfterApps(db, p, now), p), p.sessions[i]).value;
            k in Merged(db, p, now).sessions && Merged(db, p, now).sessions[k].projectName == Some(name)
  {
    assert p.sessions[i].end.Some?;
    SessionDecided(db, sender, since, p, now, i);
    LinkKeepsMeaning(db, sender, since, p, now, name);
  }

  lemma {:induction false} OtherRowsSpareApp(table: AppTable, tombs: set<Tombstone>, projects: Links,
                                             rows: seq<AppRow>, exe: string, now: Time)
    requires forall i :: 0 <= i < |rows| ==> rows[i].exe != exe
    ensures var after := MergeApps(table, tombs, projects, rows, now).rows;
            (exe in after <==> exe in table.rows) && (exe in after ==> after[exe] == table.rows[exe])
  {
    if rows != [] {
      OtherRowsSpareApp(table, tombs, projects, rows[..|rows| - 1], exe, now);
    }
  }

  lemma {:induction false} OneAppRowDecides(table: AppTable, tombs: set<Tombstone>, projects: Links,
                                            rows: seq<AppRow>, i: nat, now: Time)
    requires i < |rows| && forall j :: 0 <= j < |rows| && j != i ==> rows[j].exe != rows[i].exe
    requires !AppRowLoses(table, tombs, rows[i])
    ensures var after, exe := MergeApps(table, tombs, projects, rows, now).rows, rows[i].exe;
            && exe in after
            && after[exe].projectId == projects.Translate(rows[i].projectId).Or(if exe in table.rows
                 then table.rows[exe].projectId else None)
  {
    var init, last := rows[..|rows| - 1], |rows| - 1;
    if i == last {
      OtherRowsSpareApp(table, tombs, projects, init, rows[i].exe, now);
    } else {
      OneAppRowDecides(table, tombs, projects, init, i, now);
    }
  }

  /** The same for an application that takes the peer's row. */
  lemma AppTakesProject(db: Db, sender: Db, since: Time, p: Payload, now: Time, i: nat, name: string)
    requires IdsOk(sender) && IsExport(sender, since, p) && i < |p.apps|
    requires var d := AfterProjects(db, p, now); !AppRowLoses(d.apps, d.tombstones, p.apps[i])
    requires name != "" && name in sender.projects.rows && p.apps[i].projectId == Some(sender.projects.rows[name].id)
    requires name in Merged(db, p, now).projects.rows
    ensures var after := Merged(db, p, now);
            && p.apps[i].exe in after.apps.rows
            && after.apps.rows[p.apps[i].exe].projectId == Some(after.projects.rows[name].id)
  {
    var d := AfterProjects(db, p, now);
    forall j | 0 <= j < |p.apps| && j != i ensures p.apps[j].exe != p.apps[i].exe {
      assert p.apps[if i < j then i else j].exe != p.apps[if i < j then j else i].exe;
    }
    OneAppRowDecides(d.apps, d.tombstones, ProjectLinks(d, p), p.apps, i, now);
    LinkKeepsMeaning(db, sender, since, p, now, name);
  }
}
