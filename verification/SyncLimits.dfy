/** Where a cycle is sure to agree, and concrete states in which it does not: deletions that both sides
    know never stand in the way, deletions that are news to one side may.
 */
module SyncLimits {
  import opened Options
  import opened SyncTypes
  import opened SyncMerge
  import opened SyncInvariants
  import opened SyncPeers
  import opened SyncSafety
  import opened SyncRepair
  import opened SyncDelivery
  import opened SyncExport
  import opened SyncFate
  import opened SyncConvergence
  import opened SyncCycle
  import opened SyncSessions

  ghost predicate AppUncovered(db: Db, exe: string) {
    exe in db.apps.rows ==> !Covers(db.tombstones, Applications, exe, db.apps.rows[exe].updatedAt)
  }

  lemma CoherentApp(db: Db, exe: string)
    requires AppUncovered(db, exe)
    ensures Coherent(AppPeer(db, exe))
  {
    if exe in db.apps.rows {
      DeathsMeanCovers(db.tombstones, Applications, exe, db.apps.rows[exe].updatedAt);
    }
  }

  lemma CoherentSession(db: Db, exe: string, start: string)
    requires SessionsUncoveredOf(db, exe)
    ensures Coherent(SessionPeer(db, exe, start))
  {
    if exe in db.apps.rows && SessionKey(db.apps.rows[exe].id, start) in db.sessions {
      var k := SessionKey(db.apps.rows[exe].id, start);
      DeathsMeanCovers(db.tombstones, Sessions, SessionKeyText(exe, start), db.sessions[k].updatedAt);
    }
  }

  // ----- peers that know the same deletions -----

  lemma NothingAdopted(db: Db, ts: seq<Tombstone>)
    requires forall t :: t in ts ==> t in db.tombstones
    ensures forall table, key :: Adopted(db, ts, table, key).None?
    ensures forall link :: !LosesLink(db, ts, link)
  {
    forall table, key ensures Adopted(db, ts, table, key).None? {
      FirstForIsFirst(ts, table, key);
      if FirstFor(ts, table, key).Some? {
        var i :| 0 <= i < |ts| && ts[i] == Tombstone(table, key, FirstFor(ts, table, key).value)
              && forall j :: 0 <= j < i ==> !(ts[j].table == table && ts[j].key == key);
        assert ts[i] in ts;
      }
    }
  }

  /** Nothing is news to either side, and the master still knows what it knew. */
  lemma NoNews(m: Db, s: Db, fromSlave: Payload, fromMaster: Payload, now: Time, later: Time)
    requires IsRepairedCycle(m, s, fromSlave, fromMaster, now, later) && m.tombstones == s.tombstones
    ensures forall t :: t in fromSlave.tombstones ==> t in m.tombstones
    ensures forall t :: t in fromMaster.tombstones ==> t in s.tombstones
  {
    var m' := MasterAfter(m, fromSlave, now);
    RepairedKeepsIds(Merged(m, fromSlave, now), now);
    ApplyTombstonesShrinks(m.(triggersOn := false), fromSlave.tombstones, now);
    forall t | t in fromMaster.tombstones ensures t in s.tombstones {
      var i :| 0 <= i < |fromMaster.tombstones| && fromMaster.tombstones[i] == t;
      assert t in m'.tombstones;
      assert t in m.tombstones || t in fromSlave.tombstones;
    }
  }

  lemma NothingLost(db: Db, ts: seq<Tombstone>, exe: string, start: string, now: Time)
    requires forall t :: t in ts ==> t in db.tombstones
    ensures AppKept(db, ts, exe, now) == AppPeer(db, exe).row
    ensures SessionKept(db, ts, exe, start, now) == SessionPeer(db, exe, start).row
  {
    NothingAdopted(db, ts);
  }

  /** Two sides that know the same deletions agree on an application, unless the slave's repair stamps it. */
  lemma SharedDeletionsAgreeOnApp(m: Db, s: Db, fromSlave: Payload, fromMaster: Payload, now: Time, later: Time,
                                  exe: string)
    requires IsDatedCycle(m, s, fromSlave, fromMaster, now, later) && exe != ""
    requires m.tombstones == s.tombstones && AppUncovered(m, exe) && AppUncovered(s, exe)
    ensures var c := AppCycle(m, s, fromSlave, fromMaster, now, later, exe); c.Agrees() <==> !c.touchedS
  {
    NoNews(m, s, fromSlave, fromMaster, now, later);
    NothingLost(m, fromSlave.tombstones, exe, "", now);
    NothingLost(s, fromMaster.tombstones, exe, "", later);
    CoherentApp(m, exe);
    CoherentApp(s, exe);
    AppFollows(m, s, fromSlave, fromMaster, now, later, exe);
    AppCycle(m, s, fromSlave, fromMaster, now, later, exe).AgreesWhenShared();
  }

  /** And on its sessions. */
  lemma SharedDeletionsAgreeOnSession(m: Db, s: Db, fromSlave: Payload, fromMaster: Payload, now: Time, later: Time,
                                      exe: string, start: string)
    requires IsDatedCycle(m, s, fromSlave, fromMaster, now, later) && exe != "" && start != ""
    requires m.tombstones == s.tombstones && SessionsUncoveredOf(m, exe) && SessionsUncoveredOf(s, exe)
    requires BothHaveApp(m, s, fromSlave, fromMaster, now, later, exe)
    ensures var c := SessionCycle(m, s, fromSlave, fromMaster, now, later, exe, start); c.Agrees() <==> !c.touchedS
  {
    NoNews(m, s, fromSlave, fromMaster, now, later);
    NothingLost(m, fromSlave.tombstones, exe, start, now);
    NothingLost(s, fromMaster.tombstones, exe, start, later);
    CoherentSession(m, exe, start);
    CoherentSession(s, exe, start);
    SessionFollows(m, s, fromSlave, fromMaster, now, later, exe, start);
    SessionCycle(m, s, fromSlave, fromMaster, now, later, exe, start).AgreesWhenShared();
  }

  // ----- when a merge leaves an application at or below a deletion of its own -----

  /** The application stays for the sake of a session, at or below the deletion the merge adopts. */
  ghost predicate SparedForSession(db: Db, ts: seq<Tombstone>, exe: string) {
    && exe in db.apps.rows
    && Adopted(db, ts, Applications, exe).Some?
    && Adopted(db, ts, Applications, exe).value >= db.apps.rows[exe].updatedAt
    && !AppFalls(db, ts, exe)
    && !LosesLink(db, ts, db.apps.rows[exe].projectId)
  }

  ghost predicate CoveredIn(rows: map<string, App>, tombs: set<Tombstone>, exe: string) {
    exe in rows && Covers(tombs, Applications, exe, rows[exe].updatedAt)
  }

  lemma MergeAppCoveredIff(table: AppTable, tombs: set<Tombstone>, projects: Links, r: AppRow, exe: string, now: Time)
    requires Ahead(tombs, now) && exe != ""
    ensures CoveredIn(MergeApp(table, tombs, projects, r, now).rows, tombs, exe) <==>
              CoveredIn(table.rows, tombs, exe) && (r.exe == exe ==> Covers(tombs, Applications, exe, r.updatedAt))
  {
    if CoveredIn(table.rows, tombs, exe) && r.exe == exe && r.updatedAt <= table.rows[exe].updatedAt {
      var t :| t in tombs && t.table == Applications && t.key == exe && t.deletedAt >= table.rows[exe].updatedAt;
      assert t.deletedAt >= r.updatedAt;
    }
  }

  lemma {:induction false} MergeAppsCoveredIff(table: AppTable, tombs: set<Tombstone>, projects: Links,
                                               rows: seq<AppRow>, exe: string, now: Time)
    requires Ahead(tombs, now) && exe != ""
    ensures CoveredIn(MergeApps(table, tombs, projects, rows, now).rows, tombs, exe) <==>
              && CoveredIn(table.rows, tombs, exe)
              && forall i :: 0 <= i < |rows| && rows[i].exe == exe ==>
                   Covers(tombs, Applications, exe, rows[i].updatedAt)
  {
    if rows != [] {
      var init, last := rows[..|rows| - 1], |rows| - 1;
      MergeAppsCoveredIff(table, tombs, projects, init, exe, now);
      MergeAppCoveredIff(MergeApps(table, tombs, projects, init, now), tombs, projects, rows[last], exe, now);
      assert forall i :: 0 <= i < |init| ==> init[i] == rows[i];
    }
  }

  lemma CoveredAfterTombstones(db: Db, ts: seq<Tombstone>, now: Time, exe: string)
    requires !db.triggersOn && IdsOk(db) && InOrder(ts) && AheadOf(ts, now) && Ahead(db.tombstones, now)
    requires exe != "" && AppUncovered(db, exe)
    ensures var d := ApplyTombstones(db, ts, now);
            && Ahead(d.tombstones, now)
            && (CoveredIn(d.apps.rows, d.tombstones, exe) <==> SparedForSession(db, ts, exe))
  {
    var d := ApplyTombstones(db, ts, now);
    TombstoneFate(db, ts, now, exe);
    ApplyTombstonesShrinks(db, ts, now);
    TombstonesAdopted(db, ts, now);
    if SparedForSession(db, ts, exe) {
      assert Tombstone(Applications, exe, Adopted(db, ts, Applications, exe).value) in d.tombstones;
    }
  }

  /** A merge keeps an application ahead of its deletions exactly if it does not stay for a session's
      sake, or the payload has a row of it that is newer than them all. */
  lemma MergedUncoversAppIff(db: Db, p: Payload, now: Time, exe: string)
    requires IdsOk(db) && InOrder(p.tombstones) && AheadOf(p.tombstones, now) && Ahead(db.tombstones, now)
    requires exe != "" && AppUncovered(db, exe)
    ensures AppUncovered(Merged(db, p, now), exe) <==>
              || !SparedForSession(db, p.tombstones, exe)
              || exists i :: 0 <= i < |p.apps| && p.apps[i].exe == exe
                          && !Covers(Merged(db, p, now).tombstones, Applications, exe, p.apps[i].updatedAt)
  {
    var d0, d := db.(triggersOn := false), AfterProjects(db, p, now);
    CoveredAfterTombstones(d0, p.tombstones, now, exe);
    assert SparedForSession(d0, p.tombstones, exe) == SparedForSession(db, p.tombstones, exe);
    MergeAppsCoveredIff(d.apps, d.tombstones, ProjectLinks(d, p), p.apps, exe, now);
  }

  // ----- states in which the cycle does not agree -----

  /** The master deleted application x, and the slave wrote a session of it since. */
  function DeletedApp(): (Db, Db) {
    var session := Session(SessionFields("", 0, 1.0, None, 0), "", None, None, 30);
    (Db(ProjectTable(map[], 1), AppTable(map[], 2), map[], map[], {Tombstone(Applications, "x", 20)}, true),
     Db(ProjectTable(map[], 1), AppTable(map["x" := App(1, "", None, 10)], 2), map[SessionKey(1, "t") := session],
         map[], {}, true))
  }

  /** The slave is spared the deletion for the sake of the session, and the master refuses the old row
      of the application, cycle after cycle. */
  lemma AppDeletionDiverges(fromSlave: Payload, fromMaster: Payload, now: Time, later: Time)
    requires var (m, s) := DeletedApp(); IsDatedCycle(m, s, fromSlave, fromMaster, now, later)
    ensures var (m, s) := DeletedApp();
            && AppUncovered(m, "x") && AppUncovered(s, "x")
            && "x" !in MasterAfter(m, fromSlave, now).apps.rows
            && "x" in SlaveAfter(s, fromMaster, later).apps.rows
            && SparedForSession(s, fromMaster.tombstones, "x")
  {
    var (m, s) := DeletedApp();
    var t, c := Tombstone(Applications, "x", 20), AppCycle(m, s, fromSlave, fromMaster, now, later, "x");
    AppFollows(m, s, fromSlave, fromMaster, now, later, "x");
    DeathsMeanCovers(m.tombstones, Applications, "x", 10);
    assert t in m.tombstones;
    assert Dead(Told(c.m, c.s), 10);
    assert c.FinalM().None?;
    DeletionReachesSlave(fromSlave, fromMaster, now, later);
    assert SavesApp(s, Before(fromMaster.tombstones, Applications, "x"), "x", SessionKey(1, "t"), 20);
    assert c.keptS.Some?;
  }

  lemma DeletionReachesSlave(fromSlave: Payload, fromMaster: Payload, now: Time, later: Time)
    requires var (m, s) := DeletedApp(); IsDatedCycle(m, s, fromSlave, fromMaster, now, later)
    ensures Adopted(DeletedApp().1, fromMaster.tombstones, Applications, "x") == Some(20)
  {
    var (m, s) := DeletedApp();
    var t, m' := Tombstone(Applications, "x", 20), MasterAfter(m, fromSlave, now);
    RepairedKeepsIds(Merged(m, fromSlave, now), now);
    ApplyTombstonesShrinks(m.(triggersOn := false), fromSlave.tombstones, now);
    assert fromSlave.tombstones == [];
    assert t in m.tombstones && t in m'.tombstones && t in fromMaster.tombstones;
    FirstForIsFirst(fromMaster.tombstones, Applications, "x");
    var i :| 0 <= i < |fromMaster.tombstones| && fromMaster.tombstones[i] == t;
    assert forall j :: 0 <= j < |fromMaster.tombstones| ==> fromMaster.tombstones[j] in m'.tombstones;
  }

  /** The master deleted project A and edited a session since; the slave holds both as they were. */
  function DeletedProject(stale: SessionFields, edited: SessionFields): (Db, Db) {
    var project := Project(1, ProjectFields("", None, None, None, None, None), "", None, 5);
    var apps, k := AppTable(map["x" := App(1, "", None, 1)], 2), SessionKey(1, "t");
    (Db(ProjectTable(map[], 2), apps, map[k := Session(edited, "", None, None, 20)], map[],
        {Tombstone(Projects, "A", 20)}, true),
     Db(ProjectTable(map["A" := project], 2), apps, map[k := Session(stale, "", Some(1), None, 10)], map[], {}, true))
  }

  /** Two databases with application x and no deletion of it: what the merge of one into the other makes of the
      session. */
  lemma MergedSession(db: Db, sender: Db, p: Payload, now: Time)
    requires IsExport(sender, EPOCH, p) && Ahead(sender.tombstones, now) && Dated(sender) && IdsOk(db) && IdsOk(sender)
    requires "x" in db.apps.rows && forall t :: t in p.tombstones ==> t.table != Applications
    ensures var told := Told(SessionPeer(db, "x", "t"), SessionPeer(sender, "x", "t"));
            SessionPeer(Merged(db, p, now), "x", "t").row ==
              Taken(SessionKept(db, p.tombstones, "x", "t", now), SessionPeer(sender, "x", "t").row, told)
  {
    AppSurvives(db, p, now, "x");
    SessionReceived(db, sender, p, now, "x", "t");
  }

  lemma DeletedProjectOk(stale: SessionFields, edited: SessionFields)
    ensures var (m, s) := DeletedProject(stale, edited); IdsOk(m) && IdsOk(s) && Dated(m) && Dated(s)
  {
  }

  lemma DeletedProjectShown(stale: SessionFields, edited: SessionFields)
    ensures var (m, s) := DeletedProject(stale, edited);
            && SessionPeer(m, "x", "t") == Peer(Some(Record(edited, 20)), {})
            && SessionPeer(s, "x", "t") == Peer(Some(Record(stale, 10)), {})
            && "x" in m.apps.rows && "x" in s.apps.rows && s.tombstones == {}
  {
  }

  lemma EditStays(stale: SessionFields, edited: SessionFields, fromSlave: Payload, now: Time)
    requires IsExport(DeletedProject(stale, edited).1, EPOCH, fromSlave) && 20 < now
    ensures SessionPeer(Merged(DeletedProject(stale, edited).0, fromSlave, now), "x", "t").row ==
              Some(Record(edited, 20))
  {
    var (m, s) := DeletedProject(stale, edited);
    DeletedProjectOk(stale, edited);
    DeletedProjectShown(stale, edited);
    assert forall t :: t in fromSlave.tombstones ==> t in s.tombstones;
    NothingLost(m, fromSlave.tombstones, "x", "t", now);
    MergedSession(m, s, fromSlave, now);
  }

  lemma MasterStaysFit(stale: SessionFields, edited: SessionFields, fromSlave: Payload, now: Time)
    requires IsExport(DeletedProject(stale, edited).1, EPOCH, fromSlave) && 20 < now
    ensures var m1 := Merged(DeletedProject(stale, edited).0, fromSlave, now);
            m1.tombstones == {Tombstone(Projects, "A", 20)} && IdsOk(m1) && Dated(m1)
  {
    var (m, s) := DeletedProject(stale, edited);
    DeletedProjectOk(stale, edited);
    assert forall t :: t in fromSlave.tombstones ==> t in s.tombstones;
    ApplyTombstonesShrinks(m.(triggersOn := false), fromSlave.tombstones, now);
    MergedKeepsIds(m, fromSlave, now);
    MergedKeepsDated(m, fromSlave, now);
  }

  lemma SlaveUnlinks(stale: SessionFields, edited: SessionFields, ts: seq<Tombstone>, later: Time)
    requires ListsTombstones(ts, {Tombstone(Projects, "A", 20)}, EPOCH)
    ensures SessionKept(DeletedProject(stale, edited).1, ts, "x", "t", later) == Some(Record(stale, later))
  {
    var s := DeletedProject(stale, edited).1;
    assert Tombstone(Projects, "A", 20) in ts;
    FirstForIsFirst(ts, Projects, "A");
    FirstForIsFirst(ts, Applications, "x");
    FirstForIsFirst(ts, Sessions, SessionKeyText("x", "t"));
    assert Doomed(s, ts, "A");
  }

  lemma SlaveKeepsStale(stale: SessionFields, edited: SessionFields, m1: Db, fromMaster: Payload, later: Time)
    requires IsExport(m1, EPOCH, fromMaster) && IdsOk(m1) && Dated(m1) &&
               m1.tombstones == {Tombstone(Projects, "A", 20)} && 20 < later
    requires SessionPeer(m1, "x", "t").row == Some(Record(edited, 20))
    ensures SessionPeer(Merged(DeletedProject(stale, edited).1, fromMaster, later), "x", "t").row ==
              Some(Record(stale, later))
  {
    var s := DeletedProject(stale, edited).1;
    DeletedProjectOk(stale, edited);
    DeletedProjectShown(stale, edited);
    SlaveUnlinks(stale, edited, fromMaster.tombstones, later);
    MergedSession(s, m1, fromMaster, later);
  }

  /** Replaying the deletion unlinks the slave's session and stamps it with the time of the import, so the
      master's newer contents lose to the older ones. */
  lemma RestampLosesEdit(stale: SessionFields, edited: SessionFields, fromSlave: Payload, fromMaster: Payload,
                         now: Time, later: Time)
    requires IsExport(DeletedProject(stale, edited).1, EPOCH, fromSlave)
    requires IsExport(Merged(DeletedProject(stale, edited).0, fromSlave, now), EPOCH, fromMaster)
    requires 20 < now < later
    ensures var (m, s) := DeletedProject(stale, edited);
            && SessionPeer(Merged(m, fromSlave, now), "x", "t").row == Some(Record(edited, 20))
            && SessionPeer(Merged(s, fromMaster, later), "x", "t").row == Some(Record(stale, later))
  {
    EditStays(stale, edited, fromSlave, now);
    MasterStaysFit(stale, edited, fromSlave, now);
    SlaveKeepsStale(stale, edited, Merged(DeletedProject(stale, edited).0, fromSlave, now), fromMaster, later);
  }
}
