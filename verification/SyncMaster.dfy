/** The master's side of a sync: execute_master_sync from the pull to the slave's answer, with the
    failures and lost answers it may meet.
 */
module SyncMaster {
  import opened Options
  import opened SyncTypes
  import opened SyncMerge
  import opened SyncInvariants
  import opened SyncRepair
  import opened SyncSafety
  import opened SyncExport
  import opened SyncPeers
  import opened SyncConvergence
  import opened SyncCycle
  import opened SyncSessions
  import opened SyncRedelivery
  import opened SyncSlave
  import opened SyncDatabase
  import opened SyncGc
  import opened SyncManuals
  import opened SyncTouch
  import opened SyncNext

  const DB_READY_ATTEMPTS: nat := 3

  datatype Mode = Delta | Full

  /** One db-ready request: whether it reaches the slave, and whether the answer comes back in time. */
  datatype Attempt = Attempt(env: Env, delivered: bool, answered: bool)

  /** What the cycle takes from its surroundings. */
  datatype Cycle = Cycle(
    mode: Mode,
    slaveReported: Option<Time>,
    masterLookup: Option<Time>,
    now: Time,
    markedAt: Time,
    finishedAt: Time,
    marker: string,
    device: string,
    peer: string,
    path: string,
    pullOk: bool,
    backupOk: bool,
    parses: bool,
    integrityOk: bool,
    insertOk: bool,
    uploadOk: bool,
    attempts: seq<Attempt>,
    unfreezeOk: bool
  ) {
    function DbReadyRequest(): Request {
      Request(marker, path, device)
    }

    /** The master's marker, made after its merge, and the slave's, stored once the slave has answered. */
    function OwnMarker(): SyncMarker {
      SyncMarker(marker, markedAt, device, Some(peer))
    }

    function PeersMarker(hash: string): SyncMarker {
      SyncMarker(hash, finishedAt, peer, Some(device))
    }

    /** resolve_pull_since: all in full mode, else from the marker's time, by the slave's clock if it told. */
    function Since(): Time {
      if mode == Full then EPOCH else slaveReported.Or(masterLookup).GetOr(EPOCH)
    }
  }

  // ----- asking the slave until it answers -----

  /** The slave after the requests up to the first answered success, and the marker answered with it. */
  function Ask(s: Slave, req: Request, attempts: seq<Attempt>): (Slave, Option<string>)
    decreases |attempts|
  {
    if attempts == [] then (s, None)
    else if !attempts[0].delivered then Ask(s, req, attempts[1..])
    else
      var (after, response) := DbReady(s, req, attempts[0].env);
      if response.Ready? && attempts[0].answered then (after, Some(response.marker)) else Ask(after, req, attempts[1..])
  }

  /** The slave has imported `p` into what it was, and will not import again for this request. */
  ghost predicate HasImported(before: Slave, after: Slave, req: Request, p: Payload, later: Time) {
    && after.db == Repaired(Merged(before.db, p, later), later)
    && ((req.marker != "" && Completed(after, req.marker).Some?) || req.path !in after.files)
  }

  lemma {:induction false} NothingMoreImported(before: Slave, s: Slave, req: Request, p: Payload, later: Time,
                                               attempts: seq<Attempt>)
    requires HasImported(before, s, req, p, later)
    ensures HasImported(before, Ask(s, req, attempts).0, req, p, later)
    decreases |attempts|
  {
    if attempts != [] {
      assert attempts[0].delivered ==> DbReady(s, req, attempts[0].env).0 == s;
      NothingMoreImported(before, s, req, p, later, attempts[1..]);
    }
  }

  /** Attempt `i` made the slave import `p`. */
  ghost predicate ImportedAt(s: Slave, after: Slave, req: Request, p: Payload, attempts: seq<Attempt>, i: int) {
    0 <= i < |attempts| && HasImported(s, after, req, p, attempts[i].env.now)
  }

  /** However many requests and answers get lost, the slave imports the upload once or not at all,
      and once if the master hears of a success. */
  lemma {:induction false} AskImportsOnce(s: Slave, req: Request, p: Payload, attempts: seq<Attempt>)
    requires req.path in s.files && s.files[req.path] == Some(p)
    requires req.marker != "" && Completed(s, req.marker).None?
    ensures var (after, answer) := Ask(s, req, attempts);
            (after == s && answer.None?) || exists i :: ImportedAt(s, after, req, p, attempts, i)
    decreases |attempts|
  {
    if attempts != [] {
      var a, rest := attempts[0], attempts[1..];
      if !a.delivered || DbReady(s, req, a.env).0 == s {
        AskImportsOnce(s, req, p, rest);
        if i :| ImportedAt(s, Ask(s, req, rest).0, req, p, rest, i) {
          assert ImportedAt(s, Ask(s, req, attempts).0, req, p, attempts, i + 1);
        }
      } else {
        var after := DbReady(s, req, a.env).0;
        assert HasImported(s, after, req, p, a.env.now);
        NothingMoreImported(s, after, req, p, a.env.now, rest);
        assert ImportedAt(s, Ask(s, req, attempts).0, req, p, attempts, 0);
      }
    }
  }

  // ----- the cycle -----

  /** Steps 6 to 10 go through; anything else leaves the master as it was. */
  predicate MergesHere(c: Cycle) {
    c.pullOk && c.backupOk && c.parses && c.integrityOk
  }

  predicate Uploads(c: Cycle) {
    MergesHere(c) && c.insertOk && c.uploadOk
  }

  /** The slave with the upload. */
  function Uploaded(s: Slave, path: string, p: Payload): Slave {
    s.(files := s.files[path := Some(p)])
  }

  /** What a cycle makes of the two databases, up to the slave's answer. A failure after the local merge leaves that
      merge in place. */
  ghost predicate CycleDone(m: Db, s: Slave, c: Cycle, m': Db, s': Slave, ok: bool, fromSlave: Payload,
                            fromMaster: Payload) {
    && (c.pullOk ==> IsExport(s.db, c.Since(), fromSlave))
    && m' == (if MergesHere(c) then Repaired(Merged(m, fromSlave, c.now), c.now) else m)
    && (Uploads(c) ==> IsExport(m', EPOCH, fromMaster))
    && s' == (if Uploads(c) then Asked(s, c, fromMaster).0 else s)
    && ok == (Uploads(c) && Asked(s, c, fromMaster).1.Some?)
  }

  function Asked(s: Slave, c: Cycle, fromMaster: Payload): (Slave, Option<string>) {
    Ask(Uploaded(s, c.path, fromMaster), c.DbReadyRequest(), c.attempts)
  }

  /** The master's markers after the cycle. */
  function MarkersAfter(markers: seq<SyncMarker>, s: Slave, c: Cycle, fromMaster: Payload): seq<SyncMarker> {
    if !MergesHere(c) || !c.insertOk then markers
    else if Uploads(c) && Asked(s, c, fromMaster).1.Some?
    then markers + [c.OwnMarker(), c.PeersMarker(Asked(s, c, fromMaster).1.value)]
    else markers + [c.OwnMarker()]
  }

  /** A device's settings for the collection of tombstones. */
  datatype Pairing = Pairing(paired: seq<string>, ageLimit: Time)

  class MasterDaemon {
    const db: Database
    const slave: SlaveServer
    var markers: seq<SyncMarker>

    constructor (db: Database, slave: SlaveServer)
      ensures this.db == db && this.slave == slave && markers == []
    {
      this.db, this.slave, this.markers := db, slave, [];
    }

    /** Steps 6 to 10: pull, backup, merge, verify. */
    method MergeFromSlave(c: Cycle) returns (ok: bool, ghost fromSlave: Payload)
      requires db != slave.db
      modifies db
      ensures ok == MergesHere(c)
      ensures c.pullOk ==> IsExport(slave.db.State(), c.Since(), fromSlave)
      ensures db.State() == if ok then Repaired(Merged(old(db.State()), fromSlave, c.now), c.now) else old(db.State())
    {
      fromSlave := Payload([], [], [], [], []);
      if !c.pullOk {
        return false, fromSlave;
      }
      var data := slave.db.BuildDelta(c.Since());
      fromSlave := data;
      if !c.backupOk {
        return false, fromSlave;
      }
      var backup := db.Snapshot();
      ExportNeverFails(db.State(), slave.db.State(), c.Since(), data, c.now);
      var merged := db.MergeIncoming(if c.parses then Some(data) else None, c.now);
      if !merged {
        db.Restore(backup);
        return false, fromSlave;
      }
      var verified := db.Verify(c.now, c.integrityOk);
      if !verified {
        db.Restore(backup);
        return false, fromSlave;
      }
      ok := true;
    }

    /** Step 12: the request, again while no success is heard of. */
    method AskSlave(req: Request, attempts: seq<Attempt>) returns (answer: Option<string>)
      requires db != slave.db
      modifies slave, slave.db
      ensures (slave.State(), answer) == Ask(old(slave.State()), req, attempts)
    {
      answer := None;
      for i := 0 to |attempts|
        invariant Ask(slave.State(), req, attempts[i..]) == Ask(old(slave.State()), req, attempts)
      {
        assert attempts[i..][0] == attempts[i] && attempts[i..][1..] == attempts[i + 1..];
        if attempts[i].delivered {
          var response := slave.HandleDbReady(req, attempts[i].env);
          if response.Ready? && attempts[i].answered {
            return Some(response.marker);
          }
        }
      }
    }

    /** Steps 10 to 12, after the merge: the marker, the upload of the master's export, and the slave's answer. */
    method SendToSlave(c: Cycle) returns (ok: bool, ghost fromMaster: Payload)
      requires db != slave.db && MergesHere(c)
      modifies this`markers, slave, slave.db
      ensures Uploads(c) ==> IsExport(db.State(), EPOCH, fromMaster)
      ensures slave.State() == if Uploads(c) then Asked(old(slave.State()), c, fromMaster).0 else old(slave.State())
      ensures ok == (Uploads(c) && Asked(old(slave.State()), c, fromMaster).1.Some?)
      ensures markers == MarkersAfter(old(markers), old(slave.State()), c, fromMaster)
    {
      fromMaster := Payload([], [], [], [], []);
      if !c.insertOk {
        return false, fromMaster;
      }
      markers := markers + [c.OwnMarker()];
      var snapshot := db.BuildDelta(EPOCH);
      fromMaster := snapshot;
      if !c.uploadOk {
        return false, fromMaster;
      }
      slave.HandleUploadDb(c.path, snapshot);
      var answer := AskSlave(c.DbReadyRequest(), c.attempts);
      ok := answer.Some?;
      if ok {
        markers := markers + [c.PeersMarker(answer.value)];
      }
    }

    /** Steps 6 to 12: from the pull to the slave's answer. */
    method SyncWithSlave(c: Cycle) returns (ok: bool, ghost fromSlave: Payload, ghost fromMaster: Payload)
      requires db != slave.db && |c.attempts| <= DB_READY_ATTEMPTS
      modifies this`markers, db, slave, slave.db
      ensures CycleDone(old(db.State()), old(slave.State()), c, db.State(), slave.State(), ok, fromSlave, fromMaster)
      ensures markers == MarkersAfter(old(markers), old(slave.State()), c, fromMaster)
    {
      fromMaster := Payload([], [], [], [], []);
      ok, fromSlave := MergeFromSlave(c);
      if ok {
        ok, fromMaster := SendToSlave(c);
      }
    }

    /** The cycle from the pull on. After a success the slave, if it hears of it, and the master forget the deletions
        that have reached every peer of theirs. */
    method ExecuteMasterSync(c: Cycle, own: Pairing, slaves: Pairing)
      returns (ok: bool, ghost fromSlave: Payload, ghost fromMaster: Payload, ghost m': Db, ghost s': Slave)
      requires db != slave.db && |c.attempts| <= DB_READY_ATTEMPTS
      modifies this`markers, db, slave, slave.db
      ensures CycleDone(old(db.State()), old(slave.State()), c, m', s', ok, fromSlave, fromMaster)
      ensures markers == MarkersAfter(old(markers), old(slave.State()), c, fromMaster)
      ensures slave.State() == if ok && c.unfreezeOk then Unfrozen(s', slaves.paired, slaves.ageLimit) else s'
      ensures db.State() == if ok then m'.(tombstones := Remembered(m'.tombstones, markers, own.paired, own.ageLimit))
                else m'
    {
      ok, fromSlave, fromMaster := SyncWithSlave(c);
      m', s' := db.State(), slave.State();
      if ok {
        if c.unfreezeOk {
          slave.HandleUnfreeze(slaves.paired, slaves.ageLimit);
        }
        var kept := GcTombstones(db.tombstones, markers, own.paired, own.ageLimit);
        db.tombstones := kept;
      }
    }
  }

  // ----- what a cycle leaves behind -----

  /** The slave's database is as it was, or as after one import of the master's export; the latter
      if the cycle succeeds. */
  lemma CycleImportsOnce(m: Db, s: Slave, c: Cycle, m': Db, s': Slave, ok: bool, fromSlave: Payload,
                         fromMaster: Payload)
    requires CycleDone(m, s, c, m', s', ok, fromSlave, fromMaster)
    requires c.marker != "" && Completed(s, c.marker).None?
    ensures (s'.db == s.db && !ok) || exists i :: 0 <= i < |c.attempts| &&
                                                  s'.db == SlaveAfter(s.db, fromMaster, c.attempts[i].env.now)
  {
    if Uploads(c) {
      var up, req := Uploaded(s, c.path, fromMaster), c.DbReadyRequest();
      AskImportsOnce(up, req, fromMaster, c.attempts);
      if i :| ImportedAt(up, s', req, fromMaster, c.attempts, i) {
        assert s'.db == SlaveAfter(s.db, fromMaster, c.attempts[i].env.now);
      }
    }
  }

  /** Where a cycle ends early: before the merge is verified it leaves both sides and all markers as they were; with the
      merge but no marker, or no upload, the slave is as it was, and the marker is kept once it is stored. */
  lemma CycleEndsEarly(m: Db, s: Slave, c: Cycle, m': Db, s': Slave, ok: bool, fromSlave: Payload, fromMaster: Payload,
                       markers: seq<SyncMarker>)
    requires CycleDone(m, s, c, m', s', ok, fromSlave, fromMaster)
    requires !c.pullOk || !c.backupOk || !c.parses || !c.integrityOk || !c.insertOk || !c.uploadOk
    ensures !ok && s' == s
    ensures if c.pullOk && c.backupOk && c.parses && c.integrityOk then
              && m' == Repaired(Merged(m, fromSlave, c.now), c.now)
              && MarkersAfter(markers, s, c, fromMaster) ==
                   if c.insertOk then markers + [SyncMarker(c.marker, c.markedAt, c.device, Some(c.peer))] else markers
            else m' == m && MarkersAfter(markers, s, c, fromMaster) == markers
  {
  }

  /** The marker is new to the slave, and the clocks are ahead of all stamps. */
  ghost predicate Timely(m: Db, s: Slave, c: Cycle) {
    && c.marker != "" && Completed(s, c.marker).None?
    && Clocked(m, c.now) && Clocked(s.db, c.now) && EPOCH < c.now
    && forall i :: 0 <= i < |c.attempts| ==> c.now < c.attempts[i].env.now
  }

  /** A cycle that ends well and pulled everything. */
  ghost predicate GoodCycle(m: Db, s: Slave, c: Cycle, m': Db, s': Slave, fromSlave: Payload, fromMaster: Payload) {
    CycleDone(m, s, c, m', s', true, fromSlave, fromMaster) && Timely(m, s, c) && c.Since() == EPOCH
  }

  /** It is a cycle of merges and repairs, the slave's at the time of one of the attempts. */
  lemma GoodCycleIsRepaired(m: Db, s: Slave, c: Cycle, m': Db, s': Slave, fromSlave: Payload, fromMaster: Payload)
    returns (later: Time)
    requires GoodCycle(m, s, c, m', s', fromSlave, fromMaster)
    ensures IsRepairedCycle(m, s.db, fromSlave, fromMaster, c.now, later)
    ensures m' == MasterAfter(m, fromSlave, c.now) && s'.db == SlaveAfter(s.db, fromMaster, later)
  {
    WhatWasPulled(m, s, c, m', s', fromSlave, fromMaster);
    later := WhenImported(m, s, c, m', s', fromSlave, fromMaster);
  }

  lemma WhenImported(m: Db, s: Slave, c: Cycle, m': Db, s': Slave, fromSlave: Payload, fromMaster: Payload)
    returns (later: Time)
    requires CycleDone(m, s, c, m', s', true, fromSlave, fromMaster) && Timely(m, s, c)
    ensures s'.db == SlaveAfter(s.db, fromMaster, later) && c.now < later
  {
    CycleImportsOnce(m, s, c, m', s', true, fromSlave, fromMaster);
    var i :| 0 <= i < |c.attempts| && s'.db == SlaveAfter(s.db, fromMaster, c.attempts[i].env.now);
    later := c.attempts[i].env.now;
  }

  lemma WhatWasPulled(m: Db, s: Slave, c: Cycle, m': Db, s': Slave, fromSlave: Payload, fromMaster: Payload)
    requires CycleDone(m, s, c, m', s', true, fromSlave, fromMaster) && c.Since() == EPOCH
    ensures m' == MasterAfter(m, fromSlave, c.now)
    ensures IsExport(s.db, EPOCH, fromSlave) && IsExport(m', EPOCH, fromMaster)
  {
    assert Uploads(c);
  }

  lemma NoEmptyName(db: Db, sender: Db, since: Time, p: Payload, now: Time)
    requires "" !in db.projects.rows && "" !in sender.projects.rows && IsExport(sender, since, p)
    ensures "" !in Merged(db, p, now).projects.rows
  {
    var d := AfterTombstones(db, p, now);
    NamesStay(db.(triggersOn := false), p.tombstones, now);
    NoEmptyRow(d.projects, d.tombstones, p.projects);
  }

  lemma {:induction false} NamesStay(db: Db, ts: seq<Tombstone>, now: Time)
    ensures ApplyTombstones(db, ts, now).projects.rows.Keys <= db.projects.rows.Keys
  {
    if ts != [] {
      NamesStay(db, ts[..|ts| - 1], now);
    }
  }

  lemma {:induction false} NoEmptyRow(table: ProjectTable, tombs: set<Tombstone>, rows: seq<ProjectRow>)
    requires "" !in table.rows && forall i :: 0 <= i < |rows| ==> rows[i].name != ""
    ensures "" !in MergeProjects(table, tombs, rows).rows
  {
    if rows != [] {
      NoEmptyRow(table, tombs, rows[..|rows| - 1]);
    }
  }

  /** A cycle that ends well and pulled everything leaves both databases with the same projects and
      the same synced fields exactly if the projects settle. */
  lemma FullCycleConverges(m: Db, s: Slave, c: Cycle, m': Db, s': Slave, fromSlave: Payload, fromMaster: Payload)
    requires GoodCycle(m, s, c, m', s', fromSlave, fromMaster)
    requires ProjectsUncovered(m) && ProjectsUncovered(s.db) && "" !in m.projects.rows && "" !in s.db.projects.rows
    ensures SameProjects(m', s'.db) <==> AllSettle(m, s.db, Merged(m, fromSlave, c.now))
  {
    var later := GoodCycleIsRepaired(m, s, c, m', s', fromSlave, fromMaster);
    NoEmptyName(m, s.db, EPOCH, fromSlave, c.now);
    RepairedKeepsIds(Merged(m, fromSlave, c.now), c.now);
    NoEmptyName(s.db, m', EPOCH, fromMaster, later);
    RepairedCycleConverges(m, s.db, fromSlave, fromMaster, c.now, later);
  }

  /** Under its sync keys a session agrees after such a cycle, whatever the local ids, exactly as SyncPeers says. */
  lemma FullCycleSessionsConverge(m: Db, s: Slave, c: Cycle, m': Db, s': Slave, fromSlave: Payload, fromMaster: Payload,
                                  exe: string, start: string)
    returns (later: Time)
    requires GoodCycle(m, s, c, m', s', fromSlave, fromMaster)
    requires IdsOk(m) && IdsOk(s.db) && Dated(m) && Dated(s.db) && exe != "" && start != ""
    ensures s'.db == SlaveAfter(s.db, fromMaster, later)
    ensures BothHaveApp(m, s.db, fromSlave, fromMaster, c.now, later, exe) ==>
              var y := SessionCycle(m, s.db, fromSlave, fromMaster, c.now, later, exe, start);
              SessionPeer(m', exe, start).row == SessionPeer(s'.db, exe, start).row <==>
                y.Agrees() && (y.touchedM || !Ties(y.keptM, y.keptS))
  {
    later := GoodCycleIsRepaired(m, s, c, m', s', fromSlave, fromMaster);
    if BothHaveApp(m, s.db, fromSlave, fromMaster, c.now, later, exe) {
      SessionConverges(m, s.db, fromSlave, fromMaster, c.now, later, exe, start);
    }
  }

  /** The same with what the repairs stamp told before each merge, between sides with valid references. */
  lemma FullCycleSessionsTold(m: Db, s: Slave, c: Cycle, m': Db, s': Slave, fromSlave: Payload, fromMaster: Payload,
                              exe: string, start: string)
    returns (later: Time)
    requires GoodCycle(m, s, c, m', s', fromSlave, fromMaster) && RefsOk(m) && RefsOk(s.db)
    requires IdsOk(m) && IdsOk(s.db) && Dated(m) && Dated(s.db) && exe != "" && start != ""
    ensures s'.db == SlaveAfter(s.db, fromMaster, later)
    ensures BothHaveApp(m, s.db, fromSlave, fromMaster, c.now, later, exe) ==>
              var y := ToldCycle(m, s.db, fromSlave, fromMaster, c.now, later, exe, start);
              SessionPeer(m', exe, start).row == SessionPeer(s'.db, exe, start).row <==>
                y.Agrees() && (y.touchedM || !Ties(y.keptM, y.keptS))
  {
    later := GoodCycleIsRepaired(m, s, c, m', s', fromSlave, fromMaster);
    if BothHaveApp(m, s.db, fromSlave, fromMaster, c.now, later, exe) {
      SessionConvergesTold(m, s.db, fromSlave, fromMaster, c.now, later, exe, start);
    }
  }

  /** The hash inputs of applications and sessions are equal after such a cycle exactly if everything agrees. */
  lemma FullCycleHashesConverge(m: Db, s: Slave, c: Cycle, m': Db, s': Slave, fromSlave: Payload, fromMaster: Payload)
    returns (later: Time)
    requires GoodCycle(m, s, c, m', s', fromSlave, fromMaster)
    requires IdsOk(m) && IdsOk(s.db) && Dated(m) && Dated(s.db) && KeysOk(m') && KeysOk(s'.db)
    ensures s'.db == SlaveAfter(s.db, fromMaster, later)
    ensures AppStamps(m') == AppStamps(s'.db) && SessionStamps(m') == SessionStamps(s'.db) <==>
              forall e :: e != "" ==> AllAgree(m, s.db, fromSlave, fromMaster, c.now, later, e)
  {
    later := GoodCycleIsRepaired(m, s, c, m', s', fromSlave, fromMaster);
    SessionHashesConverge(m, s.db, fromSlave, fromMaster, c.now, later);
  }

  /** And those of the manual sessions exactly if every one of them agrees: none was sent to the slave with a project
      new to it there, for one. */
  lemma FullCycleManualsConverge(m: Db, s: Slave, c: Cycle, m': Db, s': Slave, fromSlave: Payload, fromMaster: Payload)
    returns (later: Time)
    requires GoodCycle(m, s, c, m', s', fromSlave, fromMaster) && ManualKeysOk(m') && ManualKeysOk(s'.db)
    ensures s'.db == SlaveAfter(s.db, fromMaster, later)
    ensures ManualStamps(m') == ManualStamps(s'.db) <==>
              forall k: ManualKey :: k.title != "" && k.start != "" ==>
                                       ManualCycle(m, s.db, fromSlave, fromMaster, c.now, later, k).Agrees()
  {
    later := GoodCycleIsRepaired(m, s, c, m', s', fromSlave, fromMaster);
    ManualHashesConverge(m, s.db, fromSlave, fromMaster, c.now, later);
  }

  // ----- what the end of a cycle lets both sides forget -----

  /** The slave's own marker of attempt `i`. */
  ghost predicate MarkedAt(s': Slave, req: Request, attempts: seq<Attempt>, i: int) {
    0 <= i < |attempts| && OwnMarker(s'.device, req, attempts[i].env) in s'.markers
  }

  lemma {:induction false} AskKeepsMarkers(s: Slave, req: Request, attempts: seq<Attempt>, marker: SyncMarker)
    requires marker in s.markers
    ensures marker in Ask(s, req, attempts).0.markers && Ask(s, req, attempts).0.device == s.device
    decreases |attempts|
  {
    if attempts != [] {
      var next := if attempts[0].delivered then DbReady(s, req, attempts[0].env).0 else s;
      AskKeepsMarkers(next, req, attempts[1..], marker);
    }
  }

  lemma {:induction false} AnswerIsRepeated(s: Slave, req: Request, attempts: seq<Attempt>, marker: string)
    requires req.marker != "" && Completed(s, req.marker) == Some(marker)
    ensures Ask(s, req, attempts).1.Some? ==> Ask(s, req, attempts).1 == Some(marker)
    decreases |attempts|
  {
    if attempts != [] {
      AnswerIsRepeated(s, req, attempts[1..], marker);
    }
  }

  /** The slave holds the marker it answers with and the master's, both made at attempt `i`. */
  ghost predicate AnsweredAt(s': Slave, answer: string, req: Request, attempts: seq<Attempt>, i: int) {
    && 0 <= i < |attempts|
    && answer == attempts[i].env.ownMarker
    && SyncMarker(answer, attempts[i].env.markedAt, s'.device, Some(req.master)) in s'.markers
    && SyncMarker(req.marker, attempts[i].env.markedAt, req.master, Some(s'.device)) in s'.markers
  }

  lemma {:induction false} AnsweredHoldsBoth(s: Slave, req: Request, attempts: seq<Attempt>)
    requires req.marker != "" && Completed(s, req.marker).None? && Ask(s, req, attempts).1.Some?
    ensures exists i :: AnsweredAt(Ask(s, req, attempts).0, Ask(s, req, attempts).1.value, req, attempts, i)
    decreases |attempts|
  {
    var a, rest := attempts[0], attempts[1..];
    var after := if a.delivered then DbReady(s, req, a.env).0 else s;
    var (done, answer) := Ask(s, req, attempts);
    if a.delivered && DbReady(s, req, a.env).1.Ready? {
      var own, masters := OwnMarker(s.device, req, a.env), MastersMarker(s.device, req, a.env);
      assert own in after.markers && masters in after.markers;
      AskKeepsMarkers(after, req, rest, own);
      AskKeepsMarkers(after, req, rest, masters);
      AnswerIsRepeated(after, req, rest, a.env.ownMarker);
      assert AnsweredAt(done, answer.value, req, attempts, 0);
    } else {
      AnsweredHoldsBoth(after, req, rest);
      var i :| AnsweredAt(Ask(after, req, rest).0, Ask(after, req, rest).1.value, req, rest, i);
      assert AnsweredAt(done, answer.value, req, attempts, i + 1);
    }
  }

  /** After a success both sides hold both markers, so that each finds the other's when they next negotiate: the
      slave's made at one of the attempts by its clock, and noted by the master when it heard of it. */
  lemma SuccessMarksBoth(m: Db, s: Slave, c: Cycle, m': Db, s': Slave, fromSlave: Payload, fromMaster: Payload,
                         markers: seq<SyncMarker>)
    requires CycleDone(m, s, c, m', s', true, fromSlave, fromMaster)
    requires c.marker != "" && Completed(s, c.marker).None?
    ensures exists i ::
              && 0 <= i < |c.attempts|
              && SyncMarker(c.marker, c.attempts[i].env.markedAt, c.device, Some(s'.device)) in s'.markers
              && SyncMarker(c.attempts[i].env.ownMarker, c.attempts[i].env.markedAt, s'.device, Some(c.device))
                   in s'.markers
              && MarkersAfter(markers, s, c, fromMaster) ==
                   markers + [SyncMarker(c.marker, c.markedAt, c.device, Some(c.peer)),
                              SyncMarker(c.attempts[i].env.ownMarker, c.finishedAt, c.peer, Some(c.device))]
  {
    var req := c.DbReadyRequest();
    AnsweredHoldsBoth(Uploaded(s, c.path, fromMaster), req, c.attempts);
    var i :| AnsweredAt(s', Asked(s, c, fromMaster).1.value, req, c.attempts, i);
  }

  /** A slave that answers with success has its own marker for this request among its markers. */
  lemma {:induction false} AnsweredIsMarked(s: Slave, req: Request, attempts: seq<Attempt>)
    requires req.marker != "" && Completed(s, req.marker).None? && Ask(s, req, attempts).1.Some?
    ensures exists i :: MarkedAt(Ask(s, req, attempts).0, req, attempts, i)
    decreases |attempts|
  {
    var a, rest := attempts[0], attempts[1..];
    var after := if a.delivered then DbReady(s, req, a.env).0 else s;
    if a.delivered && DbReady(s, req, a.env).1.Ready? {
      var marker := OwnMarker(s.device, req, a.env);
      assert marker in after.markers;
      AskKeepsMarkers(after, req, rest, marker);
      assert MarkedAt(Ask(s, req, attempts).0, req, attempts, 0);
    } else {
      AnsweredIsMarked(after, req, rest);
      var i :| MarkedAt(Ask(after, req, rest).0, req, rest, i);
      assert MarkedAt(Ask(s, req, attempts).0, req, attempts, i + 1);
    }
  }

  /** Between two devices a slave that hears of the end of a cycle forgets every deletion from before its marker, which
      is the cutoff of the next delta pull: whatever the master forgets, that pull has no old deletion to miss. */
  lemma TwoDevicesForget(m: Db, s: Slave, c: Cycle, m': Db, s': Slave, fromSlave: Payload, fromMaster: Payload,
                         ageLimit: Time)
    returns (since: Time)
    requires CycleDone(m, s, c, m', s', true, fromSlave, fromMaster)
    requires c.marker != "" && Completed(s, c.marker).None?
    ensures exists i :: 0 <= i < |c.attempts| && c.attempts[i].env.markedAt == since
    ensures forall t :: t in Unfrozen(s', [c.device], ageLimit).db.tombstones ==> t.deletedAt >= since
  {
    var req := c.DbReadyRequest();
    AnsweredIsMarked(Uploaded(s, c.path, fromMaster), req, c.attempts);
    var i :| MarkedAt(s', req, c.attempts, i);
    since := c.attempts[i].env.markedAt;
    NothingOldRemembered(s', c.device, ageLimit, OwnMarker(s'.device, req, c.attempts[i].env), since);
  }

  // ----- cycles that pull only what is new -----

  ghost predicate Pulled(p: Payload, k: SessionKey) {
    exists i :: 0 <= i < |p.sessions| && KeyOf(p.sessions[i]) == k
  }

  /** A delta cycle pulls exactly the sessions from the time the slave reported on, by the slave's own clock; only for a
      slave that reports none does the master's lookup decide, and without either all come, as in full mode. */
  lemma PullsFromReported(m: Db, s: Slave, c: Cycle, m': Db, s': Slave, ok: bool, fromSlave: Payload,
                          fromMaster: Payload, k: SessionKey)
    requires CycleDone(m, s, c, m', s', ok, fromSlave, fromMaster) && c.pullOk && k in s.db.sessions
    ensures Pulled(fromSlave, k) <==>
              || c.mode == Full
              || (c.slaveReported.Some? && s.db.sessions[k].updatedAt >= c.slaveReported.value)
              || (c.slaveReported.None? && c.masterLookup.Some? && s.db.sessions[k].updatedAt >= c.masterLookup.value)
              || (c.slaveReported.None? && c.masterLookup.None?)
  {
  }

  /** Where the master's lookup is ahead, what the slave wrote in between is pulled if the slave reports its time, and
      missed if it does not. */
  lemma LookupMisses(c: Cycle, t: Time, ahead: Time, s: Db, p: Payload, q: Payload, k: SessionKey)
    requires c.mode == Delta && c.slaveReported == Some(t) && c.masterLookup == Some(ahead)
    requires IsExport(s, c.Since(), p) && IsExport(s, c.(slaveReported := None).Since(), q)
    requires k in s.sessions && t <= s.sessions[k].updatedAt < ahead
    ensures Pulled(p, k) && !Pulled(q, k)
  {
  }

  /** A delta cycle of a slave that reports its time misses nothing that a full one brings, whatever the master's lookup
      says, if the master had absorbed what is older by the slave's clock. */
  lemma DeltaMissesNothing(m: Db, s: Slave, c: Cycle, m': Db, s': Slave, full: Payload, fromMaster: Payload, t: Time)
    requires c.mode == Delta && c.slaveReported == Some(t) && t <= c.now
    requires CycleDone(m, s, c, m', s', true, DeltaOf(full, t), fromMaster) && Timely(m, s, c)
    requires IdsOk(m) && IsExport(s.db, EPOCH, full) && Absorbed(m, full, t)
    ensures m' == MasterAfter(m, full, c.now)
    ensures GoodCycle(m, s, InFull(c), m', s', full, fromMaster)
  {
    DeltaCycleIsFull(m, s, c, m', s', full, fromMaster);
  }

  /** The same cycle, had it pulled everything. */
  function InFull(c: Cycle): Cycle {
    c.(mode := Full)
  }

  /** A cycle that pulled only what is new is the cycle that pulled everything, if the master had absorbed
      the rest: all that is shown of full cycles holds of it. */
  lemma DeltaCycleIsFull(m: Db, s: Slave, c: Cycle, m': Db, s': Slave, full: Payload, fromMaster: Payload)
    requires CycleDone(m, s, c, m', s', true, DeltaOf(full, c.Since()), fromMaster) && Timely(m, s, c)
    requires IdsOk(m) && IsExport(s.db, EPOCH, full) && Absorbed(m, full, c.Since()) && c.Since() <= c.now
    ensures GoodCycle(m, s, InFull(c), m', s', full, fromMaster)
  {
    DeltaRefinesFull(m, full, c.Since(), c.now);
    ExportNeverFails(m, s.db, EPOCH, full, c.now);
    ExportNeverFails(m, s.db, c.Since(), DeltaOf(full, c.Since()), c.now);
  }

  /** So a delta cycle brings the projects to agree in the same states as a full one. */
  lemma DeltaCycleConverges(m: Db, s: Slave, c: Cycle, m': Db, s': Slave, full: Payload, fromMaster: Payload)
    requires CycleDone(m, s, c, m', s', true, DeltaOf(full, c.Since()), fromMaster) && Timely(m, s, c)
    requires IdsOk(m) && IsExport(s.db, EPOCH, full) && Absorbed(m, full, c.Since()) && c.Since() <= c.now
    requires ProjectsUncovered(m) && ProjectsUncovered(s.db) && "" !in m.projects.rows && "" !in s.db.projects.rows
    ensures SameProjects(m', s'.db) <==> AllSettle(m, s.db, Merged(m, full, c.now))
  {
    DeltaCycleIsFull(m, s, c, m', s', full, fromMaster);
    FullCycleConverges(m, s, InFull(c), m', s', full, fromMaster);
  }

  /** And the applications and sessions. */
  lemma DeltaCycleHashesConverge(m: Db, s: Slave, c: Cycle, m': Db, s': Slave, full: Payload, fromMaster: Payload)
    returns (later: Time)
    requires CycleDone(m, s, c, m', s', true, DeltaOf(full, c.Since()), fromMaster) && Timely(m, s, c)
    requires IsExport(s.db, EPOCH, full) && Absorbed(m, full, c.Since()) && c.Since() <= c.now
    requires IdsOk(m) && IdsOk(s.db) && Dated(m) && Dated(s.db) && KeysOk(m') && KeysOk(s'.db)
    ensures s'.db == SlaveAfter(s.db, fromMaster, later)
    ensures AppStamps(m') == AppStamps(s'.db) && SessionStamps(m') == SessionStamps(s'.db) <==>
              forall e :: e != "" ==> AllAgree(m, s.db, full, fromMaster, c.now, later, e)
  {
    DeltaCycleIsFull(m, s, c, m', s', full, fromMaster);
    later := FullCycleHashesConverge(m, s, InFull(c), m', s', full, fromMaster);
  }
}
