/** Applications and sessions through a full cycle with its repairs: what each side ends with, and
    exactly when the two sides agree.
 */
module SyncSessions {
  import opened Options
  import opened SyncTypes
  import opened SyncMerge
  import opened SyncInvariants
  import opened SyncPeers
  import opened SyncSafety
  import opened SyncRepair
  import opened SyncExport
  import opened SyncFate
  import opened SyncConvergence
  import opened SyncCycle

  // ----- what a merge and a repair keep -----

  ghost predicate AppsDated(rows: map<string, App>) {
    forall e :: e in rows ==> rows[e].updatedAt > EPOCH
  }

  ghost predicate SessionsDated(sessions: map<SessionKey, Session>) {
    forall k :: k in sessions ==> sessions[k].updatedAt > EPOCH
  }

  lemma MergeAppKeepsDated(table: AppTable, tombs: set<Tombstone>, projects: Links, r: AppRow, now: Time)
    requires now > EPOCH && AppsDated(table.rows)
    ensures AppsDated(MergeApp(table, tombs, projects, r, now).rows)
  {
    assert r.updatedAt >= EPOCH;
  }

  lemma {:induction false} MergeAppsKeepsDated(table: AppTable, tombs: set<Tombstone>, projects: Links,
                                               rows: seq<AppRow>, now: Time)
    requires now > EPOCH && AppsDated(table.rows)
    ensures AppsDated(MergeApps(table, tombs, projects, rows, now).rows)
  {
    if rows != [] {
      MergeAppsKeepsDated(table, tombs, projects, rows[..|rows| - 1], now);
      MergeAppKeepsDated(MergeApps(table, tombs, projects, rows[..|rows| - 1], now), tombs, projects,
          rows[|rows| - 1], now);
    }
  }

  lemma MergeSessionKeepsDated(sessions: map<SessionKey, Session>, tombs: set<Tombstone>, apps: Links,
                               projects: Links, r: SessionRow, now: Time)
    requires now > EPOCH && SessionsDated(sessions)
    ensures SessionsDated(MergeSession(sessions, tombs, apps, projects, r, now))
  {
    assert r.updatedAt >= EPOCH;
  }

  lemma {:induction false} MergeSessionsKeepsDated(sessions: map<SessionKey, Session>, tombs: set<Tombstone>,
                                                   apps: Links, projects: Links,
                                                   rows: seq<SessionRow>, now: Time)
    requires now > EPOCH && SessionsDated(sessions)
    ensures SessionsDated(MergeSessions(sessions, tombs, apps, projects, rows, now))
  {
    if rows != [] {
      var before := MergeSessions(sessions, tombs, apps, projects, rows[..|rows| - 1], now);
      MergeSessionsKeepsDated(sessions, tombs, apps, projects, rows[..|rows| - 1], now);
      MergeSessionKeepsDated(before, tombs, apps, projects, rows[|rows| - 1], now);
    }
  }

  lemma UnlinkedAreDated(db: Db, ts: seq<Tombstone>, now: Time)
    requires !db.triggersOn && Dated(db) && now > EPOCH
    ensures Dated(ApplyTombstones(db, ts, now))
  {
    ApplyTombstonesShrinks(db, ts, now);
  }

  /** No merge and no repair leaves a row without a stamp, whatever the payload. */
  lemma MergedKeepsDated(db: Db, p: Payload, now: Time)
    requires Dated(db) && now > EPOCH
    ensures Dated(Merged(db, p, now)) && Dated(Repaired(Merged(db, p, now), now))
  {
    var d2, d3 := AfterProjects(db, p, now), AfterApps(db, p, now);
    UnlinkedAreDated(db.(triggersOn := false), p.tombstones, now);
    MergeAppsKeepsDated(d2.apps, d2.tombstones, ProjectLinks(d2, p), p.apps, now);
    MergeSessionsKeepsDated(d3.sessions, d3.tombstones, AppLinks(d3, p), ProjectLinks(d3, p), p.sessions, now);
    RepairedKeepsDated(Merged(db, p, now), now);
  }

  lemma RepairedKeepsDated(db: Db, now: Time)
    requires Dated(db) && now > EPOCH
    ensures Dated(Repaired(db, now))
  {
    RepairedKeepsIds(db, now);
    var r := Repaired(db, now);
    forall e | e in r.apps.rows ensures r.apps.rows[e].updatedAt > EPOCH {
      assert r.apps.rows[e] == RepairedApp(db, e, now);
    }
    forall k | k in r.sessions ensures r.sessions[k].updatedAt > EPOCH {
      RepairedHasSession(db, now, k);
      SessionAfterRepair(db, now, k);
    }
  }

  /** The repair stamps the application anew. */
  predicate AppTouched(db: Db, exe: string) {
    exe in db.apps.rows && Dangling(db, db.apps.rows[exe].projectId)
  }

  predicate SessionTouched(db: Db, exe: string, start: string) {
    && exe in db.apps.rows && SessionKey(db.apps.rows[exe].id, start) in db.sessions
    && TouchesSession(db, db.sessions[SessionKey(db.apps.rows[exe].id, start)])
  }

  lemma AppAfterRepair(db: Db, now: Time, exe: string)
    ensures AppPeer(Repaired(db, now), exe) ==
              Peer(Restamped(AppRecord(db.apps.rows, exe), AppTouched(db, exe), now), AppPeer(db, exe).deaths)
  {
    RepairedKeepsIds(db, now);
    if exe in db.apps.rows {
      assert Repaired(db, now).apps.rows[exe] == RepairedApp(db, exe, now);
    }
  }

  lemma SessionShownAfterRepair(db: Db, now: Time, exe: string, start: string)
    ensures SessionPeer(Repaired(db, now), exe, start) ==
              Peer(Restamped(SessionPeer(db, exe, start).row, SessionTouched(db, exe, start), now),
                  SessionPeer(db, exe, start).deaths)
  {
    var r := Repaired(db, now);
    RepairedKeepsIds(db, now);
    if exe in db.apps.rows {
      assert r.apps.rows[exe] == RepairedApp(db, exe, now);
      var k := SessionKey(db.apps.rows[exe].id, start);
      if k in db.sessions {
        SessionAfterRepair(db, now, k);
        assert AppExists(db.apps.rows, k.appId);
      } else if k in r.sessions {
        RepairedHasSession(db, now, k);
      }
    }
  }

  // ----- the hypotheses of a cycle -----

  /** Two databases whose ids are unique and whose rows are dated, and a clock ahead of both. */
  ghost predicate IsDatedCycle(m: Db, s: Db, fromSlave: Payload, fromMaster: Payload, now: Time, later: Time) {
    && IsRepairedCycle(m, s, fromSlave, fromMaster, now, later)
    && IdsOk(m) && IdsOk(s) && Dated(m) && Dated(s) && EPOCH < now
  }

  /** What the slave merges is again an export of such a database, and all its deletions are past. */
  lemma MasterIsFit(m: Db, s: Db, fromSlave: Payload, fromMaster: Payload, now: Time, later: Time)
    requires IsDatedCycle(m, s, fromSlave, fromMaster, now, later)
    ensures var m' := MasterAfter(m, fromSlave, now); IdsOk(m') && Dated(m') && Ahead(m'.tombstones, later)
  {
    var m1 := Merged(m, fromSlave, now);
    MergedKeepsIds(m, fromSlave, now);
    RepairedIdsOk(m1, now);
    MergedKeepsDated(m, fromSlave, now);
    RepairedKeepsIds(m1, now);
    ApplyTombstonesShrinks(m.(triggersOn := false), fromSlave.tombstones, now);
  }

  lemma PastApp(db: Db, now: Time, exe: string)
    requires Clocked(db, now)
    ensures Past(AppPeer(db, exe), now)
  {
    forall d | d in DeathsOf(db.tombstones, Applications, exe) ensures d < now {
      assert Tombstone(Applications, exe, d) in db.tombstones;
    }
  }

  lemma PastSession(db: Db, now: Time, exe: string, start: string)
    requires Clocked(db, now)
    ensures Past(SessionPeer(db, exe, start), now)
  {
    forall d | d in DeathsOf(db.tombstones, Sessions, SessionKeyText(exe, start)) ensures d < now {
      assert Tombstone(Sessions, SessionKeyText(exe, start), d) in db.tombstones;
    }
  }

  // ----- applications -----

  /** The cycle on one application, by the rules of SyncPeers. */
  ghost function AppCycle(m: Db, s: Db, fromSlave: Payload, fromMaster: Payload, now: Time, later: Time,
                          exe: string): Cycled<string> {
    PlainCycle(AppPeer(m, exe), AppPeer(s, exe),
               AppKept(m, fromSlave.tombstones, exe, now), AppKept(s, fromMaster.tombstones, exe, later),
               AppTouched(Merged(m, fromSlave, now), exe), AppTouched(Merged(s, fromMaster, later), exe), now, later)
  }

  /** One half: the merge of a full export and the repair. */
  lemma AppHalf(db: Db, sender: Db, p: Payload, now: Time, exe: string, c: Cycled<string>)
    requires IsExport(sender, EPOCH, p) && Ahead(sender.tombstones, now) && Dated(sender) && IdsOk(db) && exe != ""
    ensures c.Result(AppPeer(db, exe), AppPeer(sender, exe), AppKept(db, p.tombstones, exe, now),
                     AppTouched(Merged(db, p, now), exe), now, AppPeer(Repaired(Merged(db, p, now), now), exe))
  {
    AppReceived(db, sender, p, now, exe);
    AppAfterRepair(Merged(db, p, now), now, exe);
  }

  lemma AppFollows(m: Db, s: Db, fromSlave: Payload, fromMaster: Payload, now: Time, later: Time, exe: string)
    requires IsDatedCycle(m, s, fromSlave, fromMaster, now, later) && exe != ""
    ensures var c := AppCycle(m, s, fromSlave, fromMaster, now, later, exe);
            && c.Ok()
            && AppPeer(MasterAfter(m, fromSlave, now), exe).row == c.FinalM()
            && AppPeer(SlaveAfter(s, fromMaster, later), exe).row == c.FinalS()
  {
    var m', c := MasterAfter(m, fromSlave, now), AppCycle(m, s, fromSlave, fromMaster, now, later, exe);
    AppHalf(m, s, fromSlave, now, exe, c);
    MasterIsFit(m, s, fromSlave, fromMaster, now, later);
    AppHalf(s, m', fromMaster, later, exe, c);
    PastApp(m, now, exe);
    PastApp(s, now, exe);
    c.FollowsTwoMerges(AppPeer(m', exe), AppPeer(SlaveAfter(s, fromMaster, later), exe));
  }

  /** Presence and stamp of an application agree after the cycle exactly if neither side refuses a newer row
      of the other's and the slave stamps nothing anew; what it is called agrees if moreover there was no tie. */
  lemma AppConverges(m: Db, s: Db, fromSlave: Payload, fromMaster: Payload, now: Time, later: Time, exe: string)
    requires IsDatedCycle(m, s, fromSlave, fromMaster, now, later) && exe != ""
    ensures var c := AppCycle(m, s, fromSlave, fromMaster, now, later, exe);
            var a, b := AppPeer(MasterAfter(m, fromSlave, now), exe).row,
                AppPeer(SlaveAfter(s, fromMaster, later), exe).row;
            && (Stamp(a) == Stamp(b) <==> c.Agrees())
            && (a == b <==> c.Agrees() && (c.touchedM || !Ties(c.keptM, c.keptS)))
  {
    AppFollows(m, s, fromSlave, fromMaster, now, later, exe);
    AppCycle(m, s, fromSlave, fromMaster, now, later, exe).AgreesIff();
  }

  // ----- sessions -----

  ghost function SessionCycle(m: Db, s: Db, fromSlave: Payload, fromMaster: Payload, now: Time, later: Time,
                              exe: string, start: string): Cycled<SessionFields>
  {
    PlainCycle(SessionPeer(m, exe, start), SessionPeer(s, exe, start),
               SessionKept(m, fromSlave.tombstones, exe, start, now),
               SessionKept(s, fromMaster.tombstones, exe, start, later),
               SessionTouched(Merged(m, fromSlave, now), exe, start),
               SessionTouched(Merged(s, fromMaster, later), exe, start), now, later)
  }

  /** Both sides end with the application. */
  ghost predicate BothHaveApp(m: Db, s: Db, fromSlave: Payload, fromMaster: Payload, now: Time, later: Time,
                              exe: string) {
    var c := AppCycle(m, s, fromSlave, fromMaster, now, later, exe);
    c.FinalM().Some? && c.FinalS().Some?
  }

  lemma SessionHalf(db: Db, sender: Db, p: Payload, now: Time, exe: string, start: string, c: Cycled<SessionFields>)
    requires IsExport(sender, EPOCH, p) && Ahead(sender.tombstones, now) && Dated(sender) && IdsOk(db) && IdsOk(sender)
    requires exe != "" && start != "" && exe in Merged(db, p, now).apps.rows
    ensures c.Result(SessionPeer(db, exe, start), SessionPeer(sender, exe, start),
              SessionKept(db, p.tombstones, exe, start, now),
                     SessionTouched(Merged(db, p, now), exe, start), now,
                         SessionPeer(Repaired(Merged(db, p, now), now), exe, start))
  {
    SessionReceived(db, sender, p, now, exe, start);
    SessionShownAfterRepair(Merged(db, p, now), now, exe, start);
  }

  lemma BothMerged(m: Db, s: Db, fromSlave: Payload, fromMaster: Payload, now: Time, later: Time, exe: string)
    requires IsDatedCycle(m, s, fromSlave, fromMaster, now, later) && exe != ""
    requires BothHaveApp(m, s, fromSlave, fromMaster, now, later, exe)
    ensures exe in Merged(m, fromSlave, now).apps.rows && exe in Merged(s, fromMaster, later).apps.rows
  {
    AppFollows(m, s, fromSlave, fromMaster, now, later, exe);
    AppAfterRepair(Merged(m, fromSlave, now), now, exe);
    AppAfterRepair(Merged(s, fromMaster, later), later, exe);
  }

  lemma SessionFollows(m: Db, s: Db, fromSlave: Payload, fromMaster: Payload, now: Time, later: Time, exe: string,
                       start: string)
    requires IsDatedCycle(m, s, fromSlave, fromMaster, now, later) && exe != "" && start != ""
    requires BothHaveApp(m, s, fromSlave, fromMaster, now, later, exe)
    ensures var c := SessionCycle(m, s, fromSlave, fromMaster, now, later, exe, start);
            && c.Ok()
            && SessionPeer(MasterAfter(m, fromSlave, now), exe, start).row == c.FinalM()
            && SessionPeer(SlaveAfter(s, fromMaster, later), exe, start).row == c.FinalS()
  {
    var m', c := MasterAfter(m, fromSlave, now), SessionCycle(m, s, fromSlave, fromMaster, now, later, exe, start);
    BothMerged(m, s, fromSlave, fromMaster, now, later, exe);
    SessionHalf(m, s, fromSlave, now, exe, start, c);
    MasterIsFit(m, s, fromSlave, fromMaster, now, later);
    SessionHalf(s, m', fromMaster, later, exe, start, c);
    PastSession(m, now, exe, start);
    PastSession(s, now, exe, start);
    c.FollowsTwoMerges(SessionPeer(m', exe, start), SessionPeer(SlaveAfter(s, fromMaster, later), exe, start));
  }

  /** Presence and stamp of a session agree after the cycle, whatever the local ids, exactly if neither side
      refuses a newer row of the other's and the slave stamps nothing anew; the contents agree if moreover
      there was no tie. */
  lemma SessionConverges(m: Db, s: Db, fromSlave: Payload, fromMaster: Payload, now: Time, later: Time, exe: string,
                         start: string)
    requires IsDatedCycle(m, s, fromSlave, fromMaster, now, later) && exe != "" && start != ""
    requires BothHaveApp(m, s, fromSlave, fromMaster, now, later, exe)
    ensures var c := SessionCycle(m, s, fromSlave, fromMaster, now, later, exe, start);
            var a := SessionPeer(MasterAfter(m, fromSlave, now), exe, start).row;
            var b := SessionPeer(SlaveAfter(s, fromMaster, later), exe, start).row;
            && (Stamp(a) == Stamp(b) <==> c.Agrees())
            && (a == b <==> c.Agrees() && (c.touchedM || !Ties(c.keptM, c.keptS)))
  {
    SessionFollows(m, s, fromSlave, fromMaster, now, later, exe, start);
    SessionCycle(m, s, fromSlave, fromMaster, now, later, exe, start).AgreesIff();
  }

  // ----- the hashes -----

  /** What compute_table_hash reads of the applications. */
  ghost function AppStamps(db: Db): map<string, Time> {
    map e | e in db.apps.rows :: db.apps.rows[e].updatedAt
  }

  /** What compute_table_hash reads of the sessions: local ids do not occur. */
  ghost function SessionStamps(db: Db): set<(string, string, Time)> {
    set e, k | e in db.apps.rows && k in db.sessions && k.appId == db.apps.rows[e].id ::
        (e, k.start, db.sessions[k].updatedAt)
  }

  /** Rows with an empty executable or start time are never merged. */
  ghost predicate KeysOk(db: Db) {
    "" !in db.apps.rows && forall k :: k in db.sessions ==> k.start != ""
  }

  ghost predicate SameAppStamps(a: Db, b: Db, e: string) {
    Stamp(AppPeer(a, e).row) == Stamp(AppPeer(b, e).row)
  }

  ghost predicate SameSessionStamps(a: Db, b: Db, e: string, t: string) {
    Stamp(SessionPeer(a, e, t).row) == Stamp(SessionPeer(b, e, t).row)
  }

  lemma AppStampsEqualIff(a: Db, b: Db)
    requires KeysOk(a) && KeysOk(b)
    ensures AppStamps(a) == AppStamps(b) <==> forall e :: e != "" ==> SameAppStamps(a, b, e)
  {
    var x, y := AppStamps(a), AppStamps(b);
    if x == y {
      forall e | e != "" ensures SameAppStamps(a, b, e) {
        assert e in x <==> e in y;
      }
    }
    if forall e :: e != "" ==> SameAppStamps(a, b, e) {
      forall e ensures (e in x <==> e in y) && (e in x ==> x[e] == y[e]) {
        if e != "" {
          assert SameAppStamps(a, b, e);
        }
      }
      assert x == y;
    }
  }

  lemma SessionStampsOf(db: Db, exe: string, start: string, u: Time)
    ensures (exe, start, u) in SessionStamps(db) <==> Stamp(SessionPeer(db, exe, start).row) == Some(u)
  {
    if Stamp(SessionPeer(db, exe, start).row) == Some(u) {
      var k := SessionKey(db.apps.rows[exe].id, start);
      assert k in db.sessions && k.appId == db.apps.rows[exe].id;
    }
  }

  lemma SessionStampsEqualIff(a: Db, b: Db)
    requires KeysOk(a) && KeysOk(b)
    ensures SessionStamps(a) == SessionStamps(b) <==> forall e, t :: e != "" && t != "" ==>
              SameSessionStamps(a, b, e, t)
  {
    forall e, t, u: Time
      ensures (e, t, u) in SessionStamps(a) <==> Stamp(SessionPeer(a, e, t).row) == Some(u)
      ensures (e, t, u) in SessionStamps(b) <==> Stamp(SessionPeer(b, e, t).row) == Some(u)
    {
      SessionStampsOf(a, e, t, u);
      SessionStampsOf(b, e, t, u);
    }
    if SessionStamps(a) == SessionStamps(b) {
      forall e, t | e != "" && t != "" ensures SameSessionStamps(a, b, e, t) {
        EqualStampsAt(a, b, e, t);
      }
    }
    if forall e, t :: e != "" && t != "" ==> SameSessionStamps(a, b, e, t) {
      forall e, t, u: Time ensures (e, t, u) in SessionStamps(a) <==> (e, t, u) in SessionStamps(b) {
        if e != "" && t != "" {
          assert SameSessionStamps(a, b, e, t);
        }
      }
      assert SessionStamps(a) == SessionStamps(b);
    }
  }

  lemma EqualStampsAt(a: Db, b: Db, e: string, t: string)
    requires SessionStamps(a) == SessionStamps(b)
    ensures SameSessionStamps(a, b, e, t)
  {
    var x, y := Stamp(SessionPeer(a, e, t).row), Stamp(SessionPeer(b, e, t).row);
    if x.Some? {
      SessionStampsOf(a, e, t, x.value);
      SessionStampsOf(b, e, t, x.value);
    }
    if y.Some? {
      SessionStampsOf(a, e, t, y.value);
      SessionStampsOf(b, e, t, y.value);
    }
  }

  /** Two databases show the same of one executable. */
  ghost predicate SameShown(a: Db, b: Db, e: string) {
    SameAppStamps(a, b, e) && forall t :: t != "" ==> SameSessionStamps(a, b, e, t)
  }

  lemma HashesEqualIff(a: Db, b: Db)
    requires KeysOk(a) && KeysOk(b)
    ensures AppStamps(a) == AppStamps(b) && SessionStamps(a) == SessionStamps(b) <==> forall e :: e != "" ==>
              SameShown(a, b, e)
  {
    AppStampsEqualIff(a, b);
    SessionStampsEqualIff(a, b);
    if forall e :: e != "" ==> SameShown(a, b, e) {
      forall e | e != "" ensures SameAppStamps(a, b, e) {
        assert SameShown(a, b, e);
      }
      forall e, t | e != "" && t != "" ensures SameSessionStamps(a, b, e, t) {
        assert SameShown(a, b, e);
      }
    }
  }

  /** An application agrees, and so do its sessions where both sides end with it. */
  ghost predicate AllAgree(m: Db, s: Db, fromSlave: Payload, fromMaster: Payload, now: Time, later: Time, exe: string) {
    && AppCycle(m, s, fromSlave, fromMaster, now, later, exe).Agrees()
    && (BothHaveApp(m, s, fromSlave, fromMaster, now, later, exe) ==>
          forall t :: t != "" ==> SessionCycle(m, s, fromSlave, fromMaster, now, later, exe, t).Agrees())
  }

  lemma SessionsAgreeIff(m: Db, s: Db, fromSlave: Payload, fromMaster: Payload, now: Time, later: Time, exe: string,
                         a: Db, b: Db)
    requires IsDatedCycle(m, s, fromSlave, fromMaster, now, later) && exe != ""
    requires BothHaveApp(m, s, fromSlave, fromMaster, now, later, exe)
    requires a == MasterAfter(m, fromSlave, now) && b == SlaveAfter(s, fromMaster, later)
    ensures (forall t :: t != "" ==> SessionCycle(m, s, fromSlave, fromMaster, now, later, exe, t).Agrees()) <==>
            (forall t :: t != "" ==> SameSessionStamps(a, b, exe, t))
  {
    forall t | t != ""
      ensures SameSessionStamps(a, b, exe, t) <==>
                SessionCycle(m, s, fromSlave, fromMaster, now, later, exe, t).Agrees()
    {
      SessionConverges(m, s, fromSlave, fromMaster, now, later, exe, t);
    }
  }

  lemma AppAgreesIff(m: Db, s: Db, fromSlave: Payload, fromMaster: Payload, now: Time, later: Time, exe: string,
                     a: Db, b: Db)
    requires IsDatedCycle(m, s, fromSlave, fromMaster, now, later) && exe != ""
    requires a == MasterAfter(m, fromSlave, now) && b == SlaveAfter(s, fromMaster, later)
    ensures SameAppStamps(a, b, exe) <==> AppCycle(m, s, fromSlave, fromMaster, now, later, exe).Agrees()
  {
    AppConverges(m, s, fromSlave, fromMaster, now, later, exe);
  }

  lemma NeitherHasSessions(m: Db, s: Db, fromSlave: Payload, fromMaster: Payload, now: Time, later: Time, exe: string,
                           a: Db, b: Db)
    requires IsDatedCycle(m, s, fromSlave, fromMaster, now, later) && exe != ""
    requires a == MasterAfter(m, fromSlave, now) && b == SlaveAfter(s, fromMaster, later)
    requires SameAppStamps(a, b, exe) && !BothHaveApp(m, s, fromSlave, fromMaster, now, later, exe)
    ensures forall t :: t != "" ==> SameSessionStamps(a, b, exe, t)
  {
    AppFollows(m, s, fromSlave, fromMaster, now, later, exe);
    assert exe !in a.apps.rows && exe !in b.apps.rows;
  }

  lemma AllAgreeIff(m: Db, s: Db, fromSlave: Payload, fromMaster: Payload, now: Time, later: Time, exe: string, a: Db,
                    b: Db)
    requires IsDatedCycle(m, s, fromSlave, fromMaster, now, later) && exe != ""
    requires a == MasterAfter(m, fromSlave, now) && b == SlaveAfter(s, fromMaster, later)
    ensures AllAgree(m, s, fromSlave, fromMaster, now, later, exe) <==> SameShown(a, b, exe)
  {
    AppAgreesIff(m, s, fromSlave, fromMaster, now, later, exe, a, b);
    if BothHaveApp(m, s, fromSlave, fromMaster, now, later, exe) {
      SessionsAgreeIff(m, s, fromSlave, fromMaster, now, later, exe, a, b);
    } else if SameAppStamps(a, b, exe) {
      NeitherHasSessions(m, s, fromSlave, fromMaster, now, later, exe, a, b);
    }
  }

  /** The hash inputs of the applications and of the sessions are equal after the cycle exactly if every
      application agrees and, where both sides end with it, every session of it. */
  lemma SessionHashesConverge(m: Db, s: Db, fromSlave: Payload, fromMaster: Payload, now: Time, later: Time)
    requires IsDatedCycle(m, s, fromSlave, fromMaster, now, later)
    requires KeysOk(MasterAfter(m, fromSlave, now)) && KeysOk(SlaveAfter(s, fromMaster, later))
    ensures var a, b := MasterAfter(m, fromSlave, now), SlaveAfter(s, fromMaster, later);
            AppStamps(a) == AppStamps(b) && SessionStamps(a) == SessionStamps(b) <==>
              forall e :: e != "" ==> AllAgree(m, s, fromSlave, fromMaster, now, later, e)
  {
    var a, b := MasterAfter(m, fromSlave, now), SlaveAfter(s, fromMaster, later);
    HashesEqualIff(a, b);
    forall e | e != "" ensures AllAgree(m, s, fromSlave, fromMaster, now, later, e) <==> SameShown(a, b, e) {
      AllAgreeIff(m, s, fromSlave, fromMaster, now, later, e, a, b);
    }
  }
}
