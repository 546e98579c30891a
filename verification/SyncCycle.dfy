/** Convergence of the master cycle, and the exact states in which it fails. */
module SyncCycle {
  import opened Options
  import opened SyncTypes
  import opened SyncMerge
  import opened SyncInvariants
  import opened SyncPeers
  import opened SyncSafety
  import opened SyncRepair
  import opened SyncExport
  import opened SyncConvergence

  /** The master merges the slave's full export, then the slave the master's. */
  ghost predicate IsCycle(m: Db, s: Db, fromSlave: Payload, fromMaster: Payload, now: Time, later: Time) {
    IsExport(s, EPOCH, fromSlave) && IsExport(Merged(m, fromSlave, now), EPOCH, fromMaster)
  }

  lemma {:induction false} ExportedAppsFit(table: AppTable, tombs: set<Tombstone>, projects: Links, rows: seq<AppRow>,
                                           now: Time)
    requires forall i :: 0 <= i < |rows| ==> rows[i].display.Some?
    ensures !AppsFail(table, tombs, projects, rows, now)
  {
    if rows != [] {
      ExportedAppsFit(table, tombs, projects, rows[..|rows| - 1], now);
    }
  }

  lemma {:induction false} ExportedSessionsFit(sessions: map<SessionKey, Session>, tombs: set<Tombstone>, apps: Links,
                                               projects: Links, rows: seq<SessionRow>, now: Time)
    requires forall i :: 0 <= i < |rows| ==> rows[i].end.Some?
    ensures !SessionsFail(sessions, tombs, apps, projects, rows, now)
  {
    if rows != [] {
      ExportedSessionsFit(sessions, tombs, apps, projects, rows[..|rows| - 1], now);
    }
  }

  lemma {:induction false} ExportedManualsFit(manuals: map<ManualKey, Manual>, tombs: set<Tombstone>, apps: Links,
                                              projects: Links, rows: seq<ManualRow>, now: Time)
    requires forall i :: 0 <= i < |rows| ==> rows[i].kind.Some? && rows[i].end.Some? && rows[i].date.Some?
    ensures !ManualsFail(manuals, tombs, apps, projects, rows, now)
  {
    if rows != [] {
      ExportedManualsFit(manuals, tombs, apps, projects, rows[..|rows| - 1], now);
    }
  }

  /** What a peer exports never aborts the merge of another peer. */
  lemma ExportNeverFails(db: Db, sender: Db, since: Time, p: Payload, now: Time)
    requires IsExport(sender, since, p)
    ensures !MergeFails(db, p, now) && MergeOutcome(db, p, now) == Merged(db, p, now)
  {
    var d, e, f := AfterProjects(db, p, now), AfterApps(db, p, now), AfterSessions(db, p, now);
    ExportedAppsFit(d.apps, d.tombstones, ProjectLinks(d, p), p.apps, now);
    ExportedSessionsFit(e.sessions, e.tombstones, AppLinks(e, p), ProjectLinks(e, p), p.sessions, now);
    ExportedManualsFit(f.manuals, f.tombstones, AppLinks(f, p), ProjectLinks(f, p), p.manuals, now);
  }

  // ----- projects -----

  lemma CoherentProject(db: Db, name: string)
    requires ProjectsUncovered(db)
    ensures Coherent(ProjectPeer(db, name))
  {
    if name in db.projects.rows {
      DeathsMeanCovers(db.tombstones, Projects, name, db.projects.rows[name].updatedAt);
    }
  }

  ghost predicate ProjectStuck(m: Db, s: Db, name: string) {
    Stuck(ProjectPeer(m, name), ProjectPeer(s, name)) || Stuck(ProjectPeer(s, name), ProjectPeer(m, name))
  }

  /** Presence and updated_at, which is what the table hash covers, agree for a project
      after the cycle exactly when neither peer was stuck with it before. */
  lemma ProjectStampConverges(m: Db, s: Db, fromSlave: Payload, fromMaster: Payload, now: Time, later: Time,
                              name: string)
    requires IsCycle(m, s, fromSlave, fromMaster, now, later)
    requires ProjectsUncovered(m) && ProjectsUncovered(s) && name != ""
    ensures Stamp(ProjectPeer(Merged(m, fromSlave, now), name).row) ==
              Stamp(ProjectPeer(Merged(s, fromMaster, later), name).row) <==>
              !ProjectStuck(m, s, name)
  {
    var m1 := Merged(m, fromSlave, now);
    CoherentProject(m, name);
    CoherentProject(s, name);
    ProjectReceived(m, s, fromSlave, now, name);
    ProjectReceived(s, m1, fromMaster, later, name);
    CycleAgreesIff(ProjectPeer(m, name), ProjectPeer(s, name), SentProject(ProjectPeer(s, name)),
        SentProject(ProjectPeer(m1, name)));
  }

  /** Once sent, a record without a positive rate has no rate. */
  ghost predicate RateLost(x: Peer<ProjectFields>, y: Peer<ProjectFields>) {
    Sends(x, y) && SentRecord(x.row) != x.row
  }

  lemma SentTwice(row: Option<Record<ProjectFields>>)
    ensures SentRecord(SentRecord(row)) == SentRecord(row)
  {
  }

  /** The cycle on one project, seen from the two peers' records alone. */
  lemma ProjectPeersConverge(m: Peer<ProjectFields>, s: Peer<ProjectFields>)
    requires Coherent(m) && Coherent(s)
    ensures Received(m, SentProject(s)).row == Received(s, SentProject(Received(m, SentProject(s)))).row <==>
              && !Stuck(m, s)
              && !Stuck(s, m)
              && !Tied(m, s)
              && !RateLost(m, s)
              && !RateLost(s, m)
  {
    var slaveSent, m1 := SentProject(s), Received(m, SentProject(s));
    SentTwice(s.row);
    CycleEqualIff(m, s, slaveSent, SentProject(m1));
    if Sends(m, s) {
      assert m1.row == m.row;
    }
  }

  /** Nobody is stuck with the project, the peers do not hold different contents of it under
      one stamp, and the winning record has no rate that json_f64_opt drops. */
  ghost predicate Settles(m: Db, s: Db, name: string) {
    && !ProjectStuck(m, s, name)
    && !Tied(ProjectPeer(m, name), ProjectPeer(s, name))
    && !RateLost(ProjectPeer(m, name), ProjectPeer(s, name))
    && !RateLost(ProjectPeer(s, name), ProjectPeer(m, name))
  }

  /** The synced fields of a project agree after the cycle exactly in the states that settle. */
  lemma ProjectConverges(m: Db, s: Db, fromSlave: Payload, fromMaster: Payload, now: Time, later: Time, name: string)
    requires IsCycle(m, s, fromSlave, fromMaster, now, later)
    requires ProjectsUncovered(m) && ProjectsUncovered(s) && name != ""
    ensures ProjectRecord(Merged(m, fromSlave, now).projects.rows, name) ==
              ProjectRecord(Merged(s, fromMaster, later).projects.rows, name) <==>
              Settles(m, s, name)
  {
    var m1 := Merged(m, fromSlave, now);
    CoherentProject(m, name);
    CoherentProject(s, name);
    ProjectReceived(m, s, fromSlave, now, name);
    ProjectReceived(s, m1, fromMaster, later, name);
    ProjectPeersConverge(ProjectPeer(m, name), ProjectPeer(s, name));
  }

  /** What compute_table_hash reads of the projects. */
  ghost function ProjectStamps(db: Db): map<string, Time> {
    map n | n in db.projects.rows :: db.projects.rows[n].updatedAt
  }

  /** The hash inputs of the two peers are equal after the cycle exactly when no name was stuck. */
  lemma ProjectHashesConverge(m: Db, s: Db, fromSlave: Payload, fromMaster: Payload, now: Time, later: Time)
    requires IsCycle(m, s, fromSlave, fromMaster, now, later)
    requires ProjectsUncovered(m) && ProjectsUncovered(s)
    requires "" !in Merged(m, fromSlave, now).projects.rows && "" !in Merged(s, fromMaster, later).projects.rows
    ensures ProjectStamps(Merged(m, fromSlave, now)) == ProjectStamps(Merged(s, fromMaster, later)) <==>
              forall name :: name != "" ==> !ProjectStuck(m, s, name)
  {
    var m1, s1 := Merged(m, fromSlave, now), Merged(s, fromMaster, later);
    forall name | name != ""
      ensures !ProjectStuck(m, s, name) <==> Stamp(ProjectPeer(m1, name).row) == Stamp(ProjectPeer(s1, name).row)
    {
      ProjectStampConverges(m, s, fromSlave, fromMaster, now, later, name);
    }
    StampsAreEqualIff(m1, s1);
  }

  lemma StampsAreEqualIff(a: Db, b: Db)
    requires "" !in a.projects.rows && "" !in b.projects.rows
    ensures ProjectStamps(a) == ProjectStamps(b) <==>
              forall name :: name != "" ==> Stamp(ProjectPeer(a, name).row) == Stamp(ProjectPeer(b, name).row)
  {
    var x, y := ProjectStamps(a), ProjectStamps(b);
    if forall name :: name != "" ==> Stamp(ProjectPeer(a, name).row) == Stamp(ProjectPeer(b, name).row) {
      forall name ensures (name in x <==> name in y) && (name in x ==> x[name] == y[name]) {
        if name != "" {
          assert Stamp(ProjectPeer(a, name).row) == Stamp(ProjectPeer(b, name).row);
        }
      }
      assert x == y;
    }
    if x == y {
      forall name | name != "" ensures Stamp(ProjectPeer(a, name).row) == Stamp(ProjectPeer(b, name).row) {
        assert name in x <==> name in y;
      }
    }
  }

  // ----- the cycle as the orchestrator runs it, with a repair after each merge -----

  /** As IsCycle, with the repair that follows the master's merge; the slave's follows its own. */
  ghost predicate IsRepairedCycle(m: Db, s: Db, fromSlave: Payload, fromMaster: Payload, now: Time, later: Time) {
    && IsExport(s, EPOCH, fromSlave)
    && IsExport(MasterAfter(m, fromSlave, now), EPOCH, fromMaster)
    && Clocked(m, now) && Clocked(s, now) && now < later
  }

  ghost function MasterAfter(m: Db, fromSlave: Payload, now: Time): Db {
    Repaired(Merged(m, fromSlave, now), now)
  }

  ghost function SlaveAfter(s: Db, fromMaster: Payload, later: Time): Db {
    Repaired(Merged(s, fromMaster, later), later)
  }

  /** The clock is ahead of every stamp and every deletion in the database. */
  ghost predicate Clocked(db: Db, now: Time) {
    && Ahead(db.tombstones, now)
    && (forall n :: n in db.projects.rows ==> db.projects.rows[n].updatedAt < now)
    && (forall e :: e in db.apps.rows ==> db.apps.rows[e].updatedAt < now)
    && (forall k :: k in db.sessions ==> db.sessions[k].updatedAt < now)
    && (forall k :: k in db.manuals ==> db.manuals[k].updatedAt < now)
  }

  ghost predicate Dangles(row: Option<Record<ProjectFields>>, names: set<string>) {
    row.Some? && row.value.fields.mergedInto.Some? && row.value.fields.mergedInto.value !in names
  }

  /** What the repair leaves of a record, given the names of the projects that exist. */
  ghost function Cleared(row: Option<Record<ProjectFields>>, names: set<string>,
                         now: Time): Option<Record<ProjectFields>> {
    if Dangles(row, names) then Some(Record(row.value.fields.(mergedInto := None, mergedAt := None), now)) else row
  }

  lemma RepairedRecord(db: Db, now: Time, name: string)
    ensures ProjectRecord(Repaired(db, now).projects.rows, name) ==
              Cleared(ProjectRecord(db.projects.rows, name), db.projects.rows.Keys, now)
    ensures DeathsOf(Repaired(db, now).tombstones, Projects, name) == DeathsOf(db.tombstones, Projects, name)
    ensures Repaired(db, now).projects.rows.Keys == db.projects.rows.Keys
  {
    RepairedKeepsIds(db, now);
    if name in db.projects.rows {
      assert Repaired(db, now).projects.rows[name] == RepairedProject(db, name, now);
    }
  }

  /** One project through the cycle: where the master's repair clears a marker the record is sent under the
      newest stamp, so the sides agree if no rate gets lost; elsewhere they agree as without repairs. */
  ghost predicate SettlesOnce(m: Peer<ProjectFields>, s: Peer<ProjectFields>, names: set<string>) {
    var merged := Received(m, SentProject(s)).row;
    if Dangles(merged, names) then SentRecord(merged) == merged
    else !Stuck(m, s) && !Stuck(s, m) && !Tied(m, s) && !RateLost(m, s) && !RateLost(s, m)
  }

  lemma ClearedPeersConverge(m: Peer<ProjectFields>, s: Peer<ProjectFields>, names: set<string>, now: Time)
    requires Coherent(m) && Coherent(s) && Past(m, now) && Past(s, now)
    ensures var merged := Received(m, SentProject(s));
            var sent := Peer(Cleared(merged.row, names, now), merged.deaths);
            var after := Received(s, SentProject(sent)).row;
            && (sent.row == after <==> SettlesOnce(m, s, names))
            && (sent.row.Some? ==> sent.row.value.updatedAt <= now)
            && (after.Some? ==> after.value.updatedAt <= now)
  {
    var merged := Received(m, SentProject(s));
    if Dangles(merged.row, names) {
      var sent := Peer(Cleared(merged.row, names, now), merged.deaths);
      assert Told(s, SentProject(sent)) == Told(s, SentProject(m)) by { ToldBack(m, s, sent.row); }
      assert !Dead(Told(s, SentProject(sent)), now);
    } else {
      ProjectPeersConverge(m, s);
    }
  }

  lemma PastProject(db: Db, now: Time, name: string)
    requires Clocked(db, now)
    ensures Past(ProjectPeer(db, name), now)
  {
    forall d | d in DeathsOf(db.tombstones, Projects, name) ensures d < now {
      assert Tombstone(Projects, name, d) in db.tombstones;
    }
  }

  ghost predicate SettlesRepaired(m: Db, s: Db, merged: Db, name: string) {
    SettlesOnce(ProjectPeer(m, name), ProjectPeer(s, name), merged.projects.rows.Keys)
  }

  /** What the master holds and what the slave makes of it before its own repair. */
  lemma RepairedCycleAt(m: Db, s: Db, fromSlave: Payload, fromMaster: Payload, now: Time, later: Time, n: string)
    requires IsRepairedCycle(m, s, fromSlave, fromMaster, now, later) && n != ""
    requires ProjectsUncovered(m) && ProjectsUncovered(s)
    ensures var a := ProjectRecord(MasterAfter(m, fromSlave, now).projects.rows, n);
            var b := ProjectRecord(Merged(s, fromMaster, later).projects.rows, n);
            && (a == b <==> SettlesRepaired(m, s, Merged(m, fromSlave, now), n))
            && (a.Some? ==> a.value.updatedAt <= now)
            && (b.Some? ==> b.value.updatedAt <= now)
  {
    var m1 := Merged(m, fromSlave, now);
    CoherentProject(m, n);
    CoherentProject(s, n);
    PastProject(m, now, n);
    PastProject(s, now, n);
    ProjectReceived(m, s, fromSlave, now, n);
    RepairedRecord(m1, now, n);
    ProjectReceived(s, Repaired(m1, now), fromMaster, later, n);
    ClearedPeersConverge(ProjectPeer(m, n), ProjectPeer(s, n), m1.projects.rows.Keys, now);
  }

  ghost predicate SameProject(a: Db, b: Db, n: string) {
    ProjectRecord(a.projects.rows, n) == ProjectRecord(b.projects.rows, n)
  }

  /** The two databases hold the same projects with the same synced fields and stamps. */
  ghost predicate SameProjects(a: Db, b: Db) {
    forall n :: SameProject(a, b, n)
  }

  /** Every name settles; `merged` is what the master's merge makes of its database. */
  ghost predicate AllSettle(m: Db, s: Db, merged: Db) {
    forall n :: n != "" ==> SettlesRepaired(m, s, merged, n)
  }

  lemma SameProjectIff(m: Db, s: Db, fromSlave: Payload, fromMaster: Payload, now: Time, later: Time, a: Db, b: Db,
                       n: string)
    requires IsRepairedCycle(m, s, fromSlave, fromMaster, now, later) && n != ""
    requires ProjectsUncovered(m) && ProjectsUncovered(s)
    requires a == MasterAfter(m, fromSlave, now) && b == Merged(s, fromMaster, later)
    ensures SameProject(a, b, n) <==> SettlesRepaired(m, s, Merged(m, fromSlave, now), n)
  {
    RepairedCycleAt(m, s, fromSlave, fromMaster, now, later, n);
  }

  lemma BeforeSlaveRepair(m: Db, s: Db, fromSlave: Payload, fromMaster: Payload, now: Time, later: Time, a: Db, b: Db)
    requires IsRepairedCycle(m, s, fromSlave, fromMaster, now, later)
    requires ProjectsUncovered(m) && ProjectsUncovered(s)
    requires a == MasterAfter(m, fromSlave, now) && b == Merged(s, fromMaster, later)
    requires "" !in a.projects.rows && "" !in b.projects.rows
    ensures SameProjects(a, b) <==> AllSettle(m, s, Merged(m, fromSlave, now))
  {
    var merged := Merged(m, fromSlave, now);
    forall n | n != "" ensures SameProject(a, b, n) <==> SettlesRepaired(m, s, merged, n) {
      SameProjectIff(m, s, fromSlave, fromMaster, now, later, a, b, n);
    }
    NameByName(m, s, merged, a, b);
  }

  lemma NameByName(m: Db, s: Db, merged: Db, a: Db, b: Db)
    requires "" !in a.projects.rows && "" !in b.projects.rows
    requires forall n :: n != "" ==> (SameProject(a, b, n) <==> SettlesRepaired(m, s, merged, n))
    ensures SameProjects(a, b) <==> AllSettle(m, s, merged)
  {
    assert SameProject(a, b, "");
  }

  lemma MasterStampsArePast(m: Db, s: Db, fromSlave: Payload, fromMaster: Payload, now: Time, later: Time)
    requires IsRepairedCycle(m, s, fromSlave, fromMaster, now, later)
    requires ProjectsUncovered(m) && ProjectsUncovered(s) && "" !in MasterAfter(m, fromSlave, now).projects.rows
    ensures var rows := MasterAfter(m, fromSlave, now).projects.rows; forall n :: n in rows ==>
              rows[n].updatedAt < later
  {
    var rows := MasterAfter(m, fromSlave, now).projects.rows;
    forall n | n in rows ensures rows[n].updatedAt < later {
      RepairedCycleAt(m, s, fromSlave, fromMaster, now, later, n);
    }
  }

  /** After the repairs both databases hold the same projects with the same synced fields and stamps
      exactly if every name settles. */
  lemma RepairedCycleConverges(m: Db, s: Db, fromSlave: Payload, fromMaster: Payload, now: Time, later: Time)
    requires IsRepairedCycle(m, s, fromSlave, fromMaster, now, later)
    requires ProjectsUncovered(m) && ProjectsUncovered(s)
    requires "" !in MasterAfter(m, fromSlave, now).projects.rows && "" !in Merged(s, fromMaster, later).projects.rows
    ensures SameProjects(MasterAfter(m, fromSlave, now), SlaveAfter(s, fromMaster, later)) <==>
              AllSettle(m, s, Merged(m, fromSlave, now))
  {
    var a, b := MasterAfter(m, fromSlave, now), Merged(s, fromMaster, later);
    BeforeSlaveRepair(m, s, fromSlave, fromMaster, now, later, a, b);
    MasterIsPastAndSound(m, s, fromSlave, fromMaster, now, later, a);
    LaterRepairIsNoHelp(a, b, later);
  }

  lemma MasterIsPastAndSound(m: Db, s: Db, fromSlave: Payload, fromMaster: Payload, now: Time, later: Time, a: Db)
    requires IsRepairedCycle(m, s, fromSlave, fromMaster, now, later) && a == MasterAfter(m, fromSlave, now)
    requires ProjectsUncovered(m) && ProjectsUncovered(s) && "" !in a.projects.rows
    ensures forall n :: n in a.projects.rows ==> !DanglingMerge(a, a.projects.rows[n].fields)
    ensures forall n :: n in a.projects.rows ==> a.projects.rows[n].updatedAt < later
  {
    RepairedIsSound(Merged(m, fromSlave, now), now);
    MasterStampsArePast(m, s, fromSlave, fromMaster, now, later);
  }

  /** A repair stamps what it touches later than anything the master holds, so it makes nothing agree. */
  lemma LaterRepairIsNoHelp(a: Db, b: Db, later: Time)
    requires forall n :: n in a.projects.rows ==> !DanglingMerge(a, a.projects.rows[n].fields)
    requires forall n :: n in a.projects.rows ==> a.projects.rows[n].updatedAt < later
    ensures SameProjects(a, Repaired(b, later)) <==> SameProjects(a, b)
  {
    var r := Repaired(b, later);
    if forall n :: SameProject(a, b, n) {
      NothingMoreToClear(a, b, later);
      forall n ensures SameProject(a, r, n) {
        assert SameProject(a, b, n) && SameProject(r, b, n);
      }
    }
    forall n | SameProject(a, r, n) ensures SameProject(a, b, n) {
      RepairedRecord(b, later, n);
    }
  }

  /** A slave that holds the projects of a repaired master has no marker to clear. */
  lemma NothingMoreToClear(a: Db, b: Db, later: Time)
    requires forall n :: SameProject(a, b, n)
    requires forall n :: n in a.projects.rows ==> !DanglingMerge(a, a.projects.rows[n].fields)
    ensures forall n :: SameProject(Repaired(b, later), b, n)
  {
    forall n ensures n in a.projects.rows <==> n in b.projects.rows {
      assert SameProject(a, b, n);
    }
    forall n ensures SameProject(Repaired(b, later), b, n) {
      RepairedRecord(b, later, n);
      assert SameProject(a, b, n);
    }
  }

  /** A state in which the cycle does not converge: the slave deleted and made the project again
      before the master deleted it. Both keep their own deletion, so neither learns the other's. */
  lemma ProjectStuckExample() returns (m: Db, s: Db)
    ensures IdsOk(m) && IdsOk(s) && ProjectsUncovered(m) && ProjectsUncovered(s)
    ensures ProjectStuck(m, s, "site")
  {
    var fields := ProjectFields("", None, None, None, None, None);
    m := Db(ProjectTable(map[], 2), AppTable(map[], 1), map[], map[], {Tombstone(Projects, "site", 30)}, true);
    s := Db(ProjectTable(map["site" := Project(1, fields, "", None, 20)], 2), AppTable(map[], 1), map[], map[],
            {Tombstone(Projects, "site", 10)}, true);
    DeathsMeanCovers(m.tombstones, Projects, "site", 20);
    DeathsMeanCovers(s.tombstones, Projects, "site", 20);
    assert Tombstone(Projects, "site", 30) in m.tombstones && Tombstone(Projects, "site", 10) in s.tombstones;
    assert Stuck(ProjectPeer(s, "site"), ProjectPeer(m, "site"));
  }

  /** One deletion a name, the same on both peers where both hold one, leaves nobody stuck. */
  lemma SharedDeletionsNeverStick(m: Db, s: Db, name: string)
    requires ProjectsUncovered(m) && ProjectsUncovered(s)
    requires forall t, u :: t in m.tombstones + s.tombstones && u in m.tombstones + s.tombstones ==>
                              t.table == u.table == Projects && t.key == u.key == name ==> t == u
    ensures !ProjectStuck(m, s, name)
  {
    CoherentProject(m, name);
    CoherentProject(s, name);
    var a, b := DeathsOf(m.tombstones, Projects, name), DeathsOf(s.tombstones, Projects, name);
    forall d, e | d in a + b && e in a + b ensures d == e {
      assert Tombstone(Projects, name, d) in m.tombstones + s.tombstones;
      assert Tombstone(Projects, name, e) in m.tombstones + s.tombstones;
    }
  }
}
