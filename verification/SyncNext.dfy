/** From one cycle to the next: what of a finished cycle a later delta pull can count on. */
module SyncNext {
  import opened Options
  import opened SyncTypes
  import opened SyncMerge
  import opened SyncInvariants
  import opened SyncPeers
  import opened SyncSafety
  import opened SyncRepair
  import opened SyncDelivery
  import opened SyncExport
  import opened SyncConvergence
  import opened SyncCycle
  import opened SyncSessions
  import opened SyncManuals
  import opened SyncRedelivery
  import opened SyncLimits
  import opened SyncGc
  import opened SyncSlave

  // ----- what may happen in between -----

  /** On the slave rows and deletions older than the cutoff are as the cycle left them, if they are still there. */
  ghost predicate OnlyNewer(a: Db, b: Db, since: Time) {
    && (forall t :: t in b.tombstones && t.deletedAt < since ==> t in a.tombstones)
    && (forall exe, start :: Old(b, exe, start, since) ==>
          Stamp(SessionPeer(a, exe, start).row) == Stamp(SessionPeer(b, exe, start).row))
    && (forall k :: OldManual(b, k, since) ==> k in a.manuals && a.manuals[k].updatedAt == b.manuals[k].updatedAt)
  }

  ghost predicate Old(db: Db, exe: string, start: string, since: Time) {
    exe != "" && start != "" && SessionPeer(db, exe, start).row.Some? &&
        SessionPeer(db, exe, start).row.value.updatedAt < since
  }

  ghost predicate OldManual(db: Db, k: ManualKey, since: Time) {
    k.title != "" && k.start != "" && k in db.manuals && db.manuals[k].updatedAt < since
  }

  /** On the master applications stay, and sessions and manual sessions grow newer or are deleted; deletions that
      were known before may be forgotten. */
  ghost predicate MovesOn(a: Db, b: Db) {
    && a.apps.rows.Keys <= b.apps.rows.Keys
    && (forall exe, start :: SessionPeer(a, exe, start).row.Some? ==>
          Outlived(b, exe, start, SessionPeer(a, exe, start).row.value.updatedAt))
    && (forall k :: k in a.manuals ==> ManualOutlived(b, k, a.manuals[k].updatedAt))
  }

  /** The database has a session from `u` or later, or a deletion that covers `u`. */
  ghost predicate Outlived(db: Db, exe: string, start: string, u: Time) {
    || Covers(db.tombstones, Sessions, SessionKeyText(exe, start), u)
    || (SessionPeer(db, exe, start).row.Some? && SessionPeer(db, exe, start).row.value.updatedAt >= u)
  }

  ghost predicate ManualOutlived(db: Db, k: ManualKey, u: Time) {
    CoversManual(db.tombstones, k, u) || (k in db.manuals && db.manuals[k].updatedAt >= u)
  }

  // ----- what the master has of what the slave would send in full -----

  /** Of each old deletion the slave lists, and of each deletion of an application, the master knows one of that key. */
  ghost predicate DeletionsKnown(m: Db, s: Db, since: Time) {
    forall t :: t in s.tombstones && (t.deletedAt < since || t.table == Applications) ==>
      Blank(t) || HasTombstone(m.tombstones, t.table, t.key)
  }

  /** The master has the session from `u` or later or knows a deletion of it, or it has not the application and
      refuses the slave's row of it. */
  ghost predicate Held(m: Db, s: Db, exe: string, start: string, u: Time) {
    || Covers(m.tombstones, Sessions, SessionKeyText(exe, start), u)
    || (if exe in m.apps.rows then Outlived(m, exe, start, u)
        else exe in s.apps.rows ==> Covers(m.tombstones, Applications, exe, s.apps.rows[exe].updatedAt))
  }

  ghost predicate SessionsHeld(m: Db, s: Db, since: Time) {
    forall exe, start :: Old(s, exe, start, since) ==>
        Held(m, s, exe, start, SessionPeer(s, exe, start).row.value.updatedAt)
  }

  ghost predicate ManualsHeld(m: Db, s: Db, since: Time) {
    forall k :: OldManual(s, k, since) ==> ManualOutlived(m, k, s.manuals[k].updatedAt)
  }

  /** A session row of an export is a session of the application its id names. */
  lemma ShownBySlave(s: Db, p: Payload, i: nat)
    requires IdsOk(s) && IsExport(s, EPOCH, p) && i < |p.sessions| && p.sessions[i].appId in RemoteApps(p.apps)
    ensures var exe := RemoteApps(p.apps)[p.sessions[i].appId];
            var row := SessionPeer(s, exe, p.sessions[i].start).row;
            && exe != "" && exe in s.apps.rows
            && row.Some? && row.value.updatedAt == p.sessions[i].updatedAt
  {
    ExportNamesApps(s, EPOCH, p);
    RemoteAppsHaveRows(p.apps, p.sessions[i].appId);
    assert KeyOf(p.sessions[i]) == SessionKey(s.apps.rows[RemoteApps(p.apps)[p.sessions[i].appId]].id,
        p.sessions[i].start);
  }

  /** And every session of a named application has its row. */
  lemma ListedBySlave(s: Db, p: Payload, exe: string, start: string) returns (i: nat)
    requires IdsOk(s) && IsExport(s, EPOCH, p) && exe != "" && SessionPeer(s, exe, start).row.Some?
    ensures i < |p.sessions| && p.sessions[i].start == start
    ensures p.sessions[i].updatedAt == SessionPeer(s, exe, start).row.value.updatedAt
    ensures p.sessions[i].appId in RemoteApps(p.apps) && RemoteApps(p.apps)[p.sessions[i].appId] == exe
  {
    ExportNamesApps(s, EPOCH, p);
    i :| 0 <= i < |p.sessions| && KeyOf(p.sessions[i]) == SessionKey(s.apps.rows[exe].id, start);
  }

  lemma RefusesRowsIff(m: Db, s: Db, p: Payload, exe: string)
    requires IsExport(s, EPOCH, p) && exe in s.apps.rows
    ensures (forall j :: 0 <= j < |p.apps| && p.apps[j].exe == exe ==>
              Covers(m.tombstones, Applications, exe, p.apps[j].updatedAt)) <==>
            Covers(m.tombstones, Applications, exe, s.apps.rows[exe].updatedAt)
  {
    var j :| 0 <= j < |p.apps| && p.apps[j].exe == exe;
  }

  lemma RowAbsorbedIff(m: Db, s: Db, p: Payload, i: nat)
    requires IdsOk(s) && IsExport(s, EPOCH, p) && i < |p.sessions| && p.sessions[i].appId in RemoteApps(p.apps)
    ensures var r := p.sessions[i];
            SessionAbsorbed(m, p, r) <==> r.start == "" || Held(m, s, RemoteApps(p.apps)[r.appId], r.start, r.updatedAt)
  {
    ShownBySlave(s, p, i);
    RefusesRowsIff(m, s, p, RemoteApps(p.apps)[p.sessions[i].appId]);
  }

  lemma SessionsHeldIff(m: Db, s: Db, p: Payload, since: Time)
    requires IdsOk(s) && IsExport(s, EPOCH, p)
    ensures SessionsHeld(m, s, since) <==>
              forall i :: 0 <= i < |p.sessions| && p.sessions[i].updatedAt < since ==>
                  SessionAbsorbed(m, p, p.sessions[i])
  {
    if SessionsHeld(m, s, since) {
      forall i | 0 <= i < |p.sessions| && p.sessions[i].updatedAt < since ensures SessionAbsorbed(m, p, p.sessions[i]) {
        var r := p.sessions[i];
        if r.start != "" && r.appId in RemoteApps(p.apps) {
          ShownBySlave(s, p, i);
          assert Old(s, RemoteApps(p.apps)[r.appId], r.start, since);
          RowAbsorbedIff(m, s, p, i);
        }
      }
    } else {
      var exe, start :| Old(s, exe, start, since) &&
          !Held(m, s, exe, start, SessionPeer(s, exe, start).row.value.updatedAt);
      var i := ListedBySlave(s, p, exe, start);
      RowAbsorbedIff(m, s, p, i);
      assert !SessionAbsorbed(m, p, p.sessions[i]);
    }
  }

  lemma ManualsHeldIff(m: Db, s: Db, p: Payload, since: Time)
    requires IsExport(s, EPOCH, p)
    ensures ManualsHeld(m, s, since) <==>
              forall i :: 0 <= i < |p.manuals| && p.manuals[i].updatedAt < since ==> ManualAbsorbed(m, p.manuals[i])
  {
    if !ManualsHeld(m, s, since) {
      var k :| OldManual(s, k, since) && !ManualOutlived(m, k, s.manuals[k].updatedAt);
      var i :| 0 <= i < |p.manuals| && ManualKeyOf(p.manuals[i]) == k;
      assert !ManualAbsorbed(m, p.manuals[i]);
    }
  }

  lemma DeletionsKnownIff(m: Db, s: Db, ts: seq<Tombstone>, since: Time)
    requires ListsTombstones(ts, s.tombstones, EPOCH)
    ensures DeletionsKnown(m, s, since) <==>
              forall i :: 0 <= i < |ts| && (ts[i].deletedAt < since || ts[i].table == Applications) ==>
                            Blank(ts[i]) || HasTombstone(m.tombstones, ts[i].table, ts[i].key)
  {
    forall t | t in s.tombstones ensures t in ts {
    }
  }

  /** Absorbed, on the two databases. */
  lemma AbsorbedIff(m: Db, s: Db, p: Payload, since: Time)
    requires IdsOk(s) && IsExport(s, EPOCH, p)
    ensures Absorbed(m, p, since) <==> DeletionsKnown(m, s, since) && SessionsHeld(m, s, since) &&
                                       ManualsHeld(m, s, since)
  {
    DeletionsKnownIff(m, s, p.tombstones, since);
    SessionsHeldIff(m, s, p, since);
    ManualsHeldIff(m, s, p, since);
  }

  // ----- what the cycle provides -----

  ghost predicate SessionAgreed(m: Db, s: Db, fromSlave: Payload, fromMaster: Payload, now: Time, later: Time,
                                exe: string, start: string) {
    && BothHaveApp(m, s, fromSlave, fromMaster, now, later, exe)
    && SessionCycle(m, s, fromSlave, fromMaster, now, later, exe, start).Agrees()
  }

  lemma AgreedIsHeld(m: Db, s: Db, fromSlave: Payload, fromMaster: Payload, now: Time, later: Time,
                     m2: Db, s2: Db, since: Time, exe: string, start: string)
    requires IsDatedCycle(m, s, fromSlave, fromMaster, now, later)
    requires OnlyNewer(SlaveAfter(s, fromMaster, later), s2, since) && MovesOn(MasterAfter(m, fromSlave, now), m2)
    requires Old(s2, exe, start, since) && SessionAgreed(m, s, fromSlave, fromMaster, now, later, exe, start)
    ensures Held(m2, s2, exe, start, SessionPeer(s2, exe, start).row.value.updatedAt)
  {
    SessionConverges(m, s, fromSlave, fromMaster, now, later, exe, start);
    var row := SessionPeer(MasterAfter(m, fromSlave, now), exe, start).row;
    assert Stamp(row) == Stamp(SessionPeer(s2, exe, start).row);
    assert Outlived(m2, exe, start, row.value.updatedAt);
  }

  lemma AgreedManualIsHeld(m: Db, s: Db, fromSlave: Payload, fromMaster: Payload, now: Time, later: Time,
                           m2: Db, s2: Db, since: Time, k: ManualKey)
    requires IsRepairedCycle(m, s, fromSlave, fromMaster, now, later)
    requires OnlyNewer(SlaveAfter(s, fromMaster, later), s2, since) && MovesOn(MasterAfter(m, fromSlave, now), m2)
    requires OldManual(s2, k, since) && ManualCycle(m, s, fromSlave, fromMaster, now, later, k).Agrees()
    ensures ManualOutlived(m2, k, s2.manuals[k].updatedAt)
  {
    ManualConverges(m, s, fromSlave, fromMaster, now, later, k);
    var m', s' := MasterAfter(m, fromSlave, now), SlaveAfter(s, fromMaster, later);
    assert Stamp(ManualPeer(m', k).row) == Stamp(ManualPeer(s', k).row);
    assert k in m'.manuals;
    assert ManualOutlived(m2, k, m'.manuals[k].updatedAt);
  }

  /** Every old session of the slave agreed after the cycle, or the master has it otherwise. */
  ghost predicate SessionsProvided(m: Db, s: Db, fromSlave: Payload, fromMaster: Payload, now: Time, later: Time,
                                   m2: Db, s2: Db, since: Time) {
    forall exe, start :: Old(s2, exe, start, since) ==>
      || SessionAgreed(m, s, fromSlave, fromMaster, now, later, exe, start)
      || Held(m2, s2, exe, start, SessionPeer(s2, exe, start).row.value.updatedAt)
  }

  ghost predicate ManualsProvided(m: Db, s: Db, fromSlave: Payload, fromMaster: Payload, now: Time, later: Time,
                                  m2: Db, s2: Db, since: Time) {
    forall k :: OldManual(s2, k, since) ==>
      || ManualCycle(m, s, fromSlave, fromMaster, now, later, k).Agrees()
      || ManualOutlived(m2, k, s2.manuals[k].updatedAt)
  }

  lemma SessionsProvidedIff(m: Db, s: Db, fromSlave: Payload, fromMaster: Payload, now: Time, later: Time,
                            m2: Db, s2: Db, since: Time)
    requires IsDatedCycle(m, s, fromSlave, fromMaster, now, later)
    requires OnlyNewer(SlaveAfter(s, fromMaster, later), s2, since) && MovesOn(MasterAfter(m, fromSlave, now), m2)
    ensures SessionsProvided(m, s, fromSlave, fromMaster, now, later, m2, s2, since) <==> SessionsHeld(m2, s2, since)
  {
    forall exe, start | Old(s2, exe, start, since) && SessionAgreed(m, s, fromSlave, fromMaster, now, later, exe, start)
      ensures Held(m2, s2, exe, start, SessionPeer(s2, exe, start).row.value.updatedAt)
    {
      AgreedIsHeld(m, s, fromSlave, fromMaster, now, later, m2, s2, since, exe, start);
    }
  }

  lemma ManualsProvidedIff(m: Db, s: Db, fromSlave: Payload, fromMaster: Payload, now: Time, later: Time,
                           m2: Db, s2: Db, since: Time)
    requires IsRepairedCycle(m, s, fromSlave, fromMaster, now, later)
    requires OnlyNewer(SlaveAfter(s, fromMaster, later), s2, since) && MovesOn(MasterAfter(m, fromSlave, now), m2)
    ensures ManualsProvided(m, s, fromSlave, fromMaster, now, later, m2, s2, since) <==> ManualsHeld(m2, s2, since)
  {
    forall k | OldManual(s2, k, since) && ManualCycle(m, s, fromSlave, fromMaster, now, later, k).Agrees()
      ensures ManualOutlived(m2, k, s2.manuals[k].updatedAt)
    {
      AgreedManualIsHeld(m, s, fromSlave, fromMaster, now, later, m2, s2, since, k);
    }
  }

  /** After a finished cycle, with later edits on the slave and any progress on the master, deletions forgotten
      included, and for any cutoff: a delta pull from there does what a full one does, in the sense of Absorbed, exactly
      if the master knows the old deletions that the slave still lists, and every old session and manual session of the
      slave agreed after the cycle (so the import did not stamp it) or the master has it otherwise. */
  lemma CycleAbsorbs(m: Db, s: Db, fromSlave: Payload, fromMaster: Payload, now: Time, later: Time,
                     m2: Db, s2: Db, p: Payload, since: Time)
    requires IsDatedCycle(m, s, fromSlave, fromMaster, now, later)
    requires OnlyNewer(SlaveAfter(s, fromMaster, later), s2, since) && MovesOn(MasterAfter(m, fromSlave, now), m2)
    requires IdsOk(s2) && IsExport(s2, EPOCH, p)
    ensures Absorbed(m2, p, since) <==>
              && DeletionsKnown(m2, s2, since)
              && SessionsProvided(m, s, fromSlave, fromMaster, now, later, m2, s2, since)
              && ManualsProvided(m, s, fromSlave, fromMaster, now, later, m2, s2, since)
  {
    AbsorbedIff(m2, s2, p, since);
    SessionsProvidedIff(m, s, fromSlave, fromMaster, now, later, m2, s2, since);
    ManualsProvidedIff(m, s, fromSlave, fromMaster, now, later, m2, s2, since);
  }

  // ----- while the master forgets nothing, only the stamps of the import matter -----

  lemma UnstampedIsOutlived(m: Db, s: Db, fromSlave: Payload, fromMaster: Payload, now: Time, later: Time,
                            exe: string, start: string)
    requires IsDatedCycle(m, s, fromSlave, fromMaster, now, later) && exe != "" && start != ""
    requires BothHaveApp(m, s, fromSlave, fromMaster, now, later, exe)
    requires var row := SessionPeer(SlaveAfter(s, fromMaster, later), exe, start).row;
               row.Some? && row.value.updatedAt < later
    ensures Outlived(MasterAfter(m, fromSlave, now), exe, start,
                     SessionPeer(SlaveAfter(s, fromMaster, later), exe, start).row.value.updatedAt)
  {
    var m', c := MasterAfter(m, fromSlave, now), SessionCycle(m, s, fromSlave, fromMaster, now, later, exe, start);
    SessionFollows(m, s, fromSlave, fromMaster, now, later, exe, start);
    c.MasterAbsorbs();
    BothMerged(m, s, fromSlave, fromMaster, now, later, exe);
    SessionHalf(m, s, fromSlave, now, exe, start, c);
    DeathsMeanCovers(m'.tombstones, Sessions, SessionKeyText(exe, start), c.FinalS().value.updatedAt);
  }

  lemma UnstampedManualIsOutlived(m: Db, s: Db, fromSlave: Payload, fromMaster: Payload, now: Time, later: Time,
                                  k: ManualKey)
    requires IsRepairedCycle(m, s, fromSlave, fromMaster, now, later) && k.title != "" && k.start != ""
    requires var after := SlaveAfter(s, fromMaster, later).manuals; k in after && after[k].updatedAt < later
    ensures ManualOutlived(MasterAfter(m, fromSlave, now), k, SlaveAfter(s, fromMaster, later).manuals[k].updatedAt)
  {
    var m', c := MasterAfter(m, fromSlave, now), ManualCycle(m, s, fromSlave, fromMaster, now, later, k);
    ManualFollows(m, s, fromSlave, fromMaster, now, later, k);
    c.MasterAbsorbs();
    ManualDeathsCover(m'.tombstones, k, c.FinalS().value.updatedAt);
  }

  lemma HeldMovesOn(a: Db, b: Db, exe: string, start: string, u: Time)
    requires MovesOn(a, b) && a.tombstones <= b.tombstones && Outlived(a, exe, start, u)
    ensures Outlived(b, exe, start, u)
  {
    if SessionPeer(a, exe, start).row.Some? && SessionPeer(a, exe, start).row.value.updatedAt >= u {
      assert Outlived(b, exe, start, SessionPeer(a, exe, start).row.value.updatedAt);
    }
  }

  lemma ManualMovesOn(a: Db, b: Db, k: ManualKey, u: Time)
    requires MovesOn(a, b) && a.tombstones <= b.tombstones && ManualOutlived(a, k, u)
    ensures ManualOutlived(b, k, u)
  {
    if k in a.manuals && a.manuals[k].updatedAt >= u {
      assert ManualOutlived(b, k, a.manuals[k].updatedAt);
    }
  }

  /** Every executable with an old session on the slave is one that both ended the cycle with. */
  ghost predicate AppsShared(m: Db, s: Db, fromSlave: Payload, fromMaster: Payload, now: Time, later: Time, s2: Db,
                             since: Time) {
    forall exe, start :: Old(s2, exe, start, since) ==> BothHaveApp(m, s, fromSlave, fromMaster, now, later, exe)
  }

  /** Of what the slave's import stamped before the cutoff, the master has newer or knows a deletion. */
  ghost predicate SessionStampsOutlived(m2: Db, s2: Db, later: Time, since: Time) {
    forall exe, start :: Old(s2, exe, start, since) && SessionPeer(s2, exe, start).row.value.updatedAt >= later ==>
      Outlived(m2, exe, start, SessionPeer(s2, exe, start).row.value.updatedAt)
  }

  ghost predicate ManualStampsOutlived(m2: Db, s2: Db, later: Time, since: Time) {
    forall k :: OldManual(s2, k, since) && s2.manuals[k].updatedAt >= later ==>
        ManualOutlived(m2, k, s2.manuals[k].updatedAt)
  }

  lemma OldIsHeldIff(m: Db, s: Db, fromSlave: Payload, fromMaster: Payload, now: Time, later: Time,
                     m2: Db, s2: Db, since: Time, exe: string, start: string)
    requires IsDatedCycle(m, s, fromSlave, fromMaster, now, later)
    requires OnlyNewer(SlaveAfter(s, fromMaster, later), s2, since)
    requires MovesOn(MasterAfter(m, fromSlave, now), m2) && MasterAfter(m, fromSlave, now).tombstones <= m2.tombstones
    requires Old(s2, exe, start, since) && BothHaveApp(m, s, fromSlave, fromMaster, now, later, exe)
    ensures var u := SessionPeer(s2, exe, start).row.value.updatedAt;
            Held(m2, s2, exe, start, u) <==> u < later || Outlived(m2, exe, start, u)
  {
    var m', s' := MasterAfter(m, fromSlave, now), SlaveAfter(s, fromMaster, later);
    AppFollows(m, s, fromSlave, fromMaster, now, later, exe);
    assert exe in m'.apps.rows && exe in m2.apps.rows;
    var u := SessionPeer(s2, exe, start).row.value.updatedAt;
    assert Stamp(SessionPeer(s', exe, start).row) == Some(u);
    if u < later {
      UnstampedIsOutlived(m, s, fromSlave, fromMaster, now, later, exe, start);
      HeldMovesOn(m', m2, exe, start, u);
    }
  }

  lemma OldManualIsHeldIff(m: Db, s: Db, fromSlave: Payload, fromMaster: Payload, now: Time, later: Time,
                           m2: Db, s2: Db, since: Time, k: ManualKey)
    requires IsRepairedCycle(m, s, fromSlave, fromMaster, now, later)
    requires OnlyNewer(SlaveAfter(s, fromMaster, later), s2, since)
    requires MovesOn(MasterAfter(m, fromSlave, now), m2) && MasterAfter(m, fromSlave, now).tombstones <= m2.tombstones
    requires OldManual(s2, k, since) && s2.manuals[k].updatedAt < later
    ensures ManualOutlived(m2, k, s2.manuals[k].updatedAt)
  {
    UnstampedManualIsOutlived(m, s, fromSlave, fromMaster, now, later, k);
    ManualMovesOn(MasterAfter(m, fromSlave, now), m2, k, s2.manuals[k].updatedAt);
  }

  lemma SessionsHeldByStamps(m: Db, s: Db, fromSlave: Payload, fromMaster: Payload, now: Time, later: Time,
                             m2: Db, s2: Db, since: Time)
    requires IsDatedCycle(m, s, fromSlave, fromMaster, now, later)
    requires OnlyNewer(SlaveAfter(s, fromMaster, later), s2, since)
    requires MovesOn(MasterAfter(m, fromSlave, now), m2) && MasterAfter(m, fromSlave, now).tombstones <= m2.tombstones
    requires AppsShared(m, s, fromSlave, fromMaster, now, later, s2, since)
    ensures SessionsHeld(m2, s2, since) <==> SessionStampsOutlived(m2, s2, later, since)
  {
    forall exe, start | Old(s2, exe, start, since)
      ensures var u := SessionPeer(s2, exe, start).row.value.updatedAt;
              Held(m2, s2, exe, start, u) <==> u < later || Outlived(m2, exe, start, u)
    {
      OldIsHeldIff(m, s, fromSlave, fromMaster, now, later, m2, s2, since, exe, start);
    }
  }

  lemma ManualsHeldByStamps(m: Db, s: Db, fromSlave: Payload, fromMaster: Payload, now: Time, later: Time,
                            m2: Db, s2: Db, since: Time)
    requires IsRepairedCycle(m, s, fromSlave, fromMaster, now, later)
    requires OnlyNewer(SlaveAfter(s, fromMaster, later), s2, since)
    requires MovesOn(MasterAfter(m, fromSlave, now), m2) && MasterAfter(m, fromSlave, now).tombstones <= m2.tombstones
    ensures ManualsHeld(m2, s2, since) <==> ManualStampsOutlived(m2, s2, later, since)
  {
    forall k | OldManual(s2, k, since) && s2.manuals[k].updatedAt < later
      ensures ManualOutlived(m2, k, s2.manuals[k].updatedAt)
    {
      OldManualIsHeldIff(m, s, fromSlave, fromMaster, now, later, m2, s2, since, k);
    }
  }

  /** While the master forgets no deletion and both ended with the applications in use, the rows that a delta pull from
      `since` misses are exactly those that the slave's import stamped before `since`, ahead of what the master has. */
  lemma OnlyStampsMatter(m: Db, s: Db, fromSlave: Payload, fromMaster: Payload, now: Time, later: Time,
                         m2: Db, s2: Db, p: Payload, since: Time)
    requires IsDatedCycle(m, s, fromSlave, fromMaster, now, later)
    requires OnlyNewer(SlaveAfter(s, fromMaster, later), s2, since)
    requires MovesOn(MasterAfter(m, fromSlave, now), m2) && MasterAfter(m, fromSlave, now).tombstones <= m2.tombstones
    requires AppsShared(m, s, fromSlave, fromMaster, now, later, s2, since)
    requires IdsOk(s2) && IsExport(s2, EPOCH, p)
    ensures Absorbed(m2, p, since) <==>
              && DeletionsKnown(m2, s2, since)
              && SessionStampsOutlived(m2, s2, later, since)
              && ManualStampsOutlived(m2, s2, later, since)
  {
    AbsorbedIff(m2, s2, p, since);
    SessionsHeldByStamps(m, s, fromSlave, fromMaster, now, later, m2, s2, since);
    ManualsHeldByStamps(m, s, fromSlave, fromMaster, now, later, m2, s2, since);
  }

  // ----- when the old deletions are known -----

  lemma SlaveTellsAll(m: Db, s: Db, fromSlave: Payload, fromMaster: Payload, now: Time, later: Time, t: Tombstone)
    requires IsRepairedCycle(m, s, fromSlave, fromMaster, now, later) &&
               t in SlaveAfter(s, fromMaster, later).tombstones
    ensures Blank(t) || HasTombstone(MasterAfter(m, fromSlave, now).tombstones, t.table, t.key)
  {
    var m1, s1 := Merged(m, fromSlave, now), Merged(s, fromMaster, later);
    RepairedKeepsIds(m1, now);
    RepairedKeepsIds(s1, later);
    ApplyTombstonesShrinks(s.(triggersOn := false), fromMaster.tombstones, later);
    if t in s.tombstones {
      TombstonesBecomeKnown(m.(triggersOn := false), fromSlave.tombstones, now);
      assert t in fromSlave.tombstones;
    } else {
      assert t in fromMaster.tombstones;
      var i :| 0 <= i < |fromMaster.tombstones| && fromMaster.tombstones[i] == t;
      assert t in MasterAfter(m, fromSlave, now).tombstones;
    }
  }

  /** A master that forgets nothing knows them, if the slave deletes no application. */
  lemma KnownWhileRemembered(m: Db, s: Db, fromSlave: Payload, fromMaster: Payload, now: Time, later: Time,
                             m2: Db, s2: Db, since: Time)
    requires IsRepairedCycle(m, s, fromSlave, fromMaster, now, later)
    requires OnlyNewer(SlaveAfter(s, fromMaster, later), s2, since)
    requires MasterAfter(m, fromSlave, now).tombstones <= m2.tombstones
    requires forall t :: t in s2.tombstones && t.table == Applications ==>
               t in SlaveAfter(s, fromMaster, later).tombstones
    ensures DeletionsKnown(m2, s2, since)
  {
    forall t | t in s2.tombstones && (t.deletedAt < since || t.table == Applications)
      ensures Blank(t) || HasTombstone(m2.tombstones, t.table, t.key)
    {
      SlaveTellsAll(m, s, fromSlave, fromMaster, now, later, t);
    }
  }

  /** Between two devices it does not matter what the master forgets: once the slave has heard of the end of the cycle
      it has no old deletion left to list. */
  lemma NothingOldRemembered(s: Slave, master: string, ageLimit: Time, marker: SyncMarker, since: Time)
    requires marker in s.markers && Concerns(marker, master) && since <= marker.createdAt
    ensures forall t :: t in Unfrozen(s, [master], ageLimit).db.tombstones ==> t.deletedAt >= since
  {
    forall t | t in s.db.tombstones && t.deletedAt < since ensures Forgotten(t, s.markers, [master], ageLimit) {
      var i :| 0 <= i < |s.markers| && s.markers[i] == marker;
      assert SyncedAfter(s.markers, master, t.deletedAt);
    }
  }

  lemma KnownBetweenTwo(m2: Db, s2: Db, s: Slave, master: string, ageLimit: Time, marker: SyncMarker, since: Time)
    requires marker in s.markers && Concerns(marker, master) && since <= marker.createdAt
    requires forall t :: t in s2.tombstones && t.deletedAt < since ==>
               t in Unfrozen(s, [master], ageLimit).db.tombstones
    requires forall t :: t in s2.tombstones ==> t.table != Applications
    ensures DeletionsKnown(m2, s2, since)
  {
    NothingOldRemembered(s, master, ageLimit, marker, since);
  }

  /** A deletion that the slave still lists and the master has forgotten is not absorbed. */
  lemma ForgottenIsMissed(m2: Db, s2: Db, p: Payload, since: Time, t: Tombstone)
    requires IdsOk(s2) && IsExport(s2, EPOCH, p)
    requires t in s2.tombstones && t.deletedAt < since && !Blank(t) && !HasTombstone(m2.tombstones, t.table, t.key)
    ensures !Absorbed(m2, p, since)
  {
    AbsorbedIff(m2, s2, p, since);
  }

  // ----- a stamp of the import that the next delta misses -----

  lemma NotOutlivedYet(m': Db, now: Time, exe: string, start: string, later: Time)
    requires Ahead(m'.tombstones, now) && now < later
    requires SessionPeer(m', exe, start).row.Some? ==> SessionPeer(m', exe, start).row.value.updatedAt <= now
    ensures !Outlived(m', exe, start, later)
  {
  }

  lemma NotHeldIsMissed(m': Db, s': Db, p: Payload, since: Time, exe: string, start: string)
    requires IdsOk(s') && IsExport(s', EPOCH, p) && Old(s', exe, start, since) && exe in m'.apps.rows
    requires !Outlived(m', exe, start, SessionPeer(s', exe, start).row.value.updatedAt)
    ensures !Absorbed(m', p, since)
  {
    AbsorbedIff(m', s', p, since);
  }

  /** The slave's cutoff is the time of its marker, made after the import. Where that is from a later second, the next
      delta pull misses every session that the import stamped. */
  lemma StampedIsMissed(m: Db, s: Db, fromSlave: Payload, fromMaster: Payload, now: Time, later: Time,
                        exe: string, start: string, p: Payload, since: Time)
    requires IsDatedCycle(m, s, fromSlave, fromMaster, now, later) && exe != "" && start != "" && later < since
    requires BothHaveApp(m, s, fromSlave, fromMaster, now, later, exe)
    requires var c := SessionCycle(m, s, fromSlave, fromMaster, now, later, exe, start);
               c.SlaveStamps() && c.FinalS().Some?
    requires IsExport(SlaveAfter(s, fromMaster, later), EPOCH, p)
    ensures !Absorbed(MasterAfter(m, fromSlave, now), p, since)
  {
    var m', s' := MasterAfter(m, fromSlave, now), SlaveAfter(s, fromMaster, later);
    SessionFollows(m, s, fromSlave, fromMaster, now, later, exe, start);
    SessionCycle(m, s, fromSlave, fromMaster, now, later, exe, start).StampedIff();
    DeathsArePast(m, s, fromSlave, fromMaster, now, later);
    AppHeld(m, s, fromSlave, fromMaster, now, later, exe);
    MergedKeepsIds(s, fromMaster, later);
    RepairedIdsOk(Merged(s, fromMaster, later), later);
    NotOutlivedYet(m', now, exe, start, later);
    NotHeldIsMissed(m', s', p, since, exe, start);
  }

  lemma AppHeld(m: Db, s: Db, fromSlave: Payload, fromMaster: Payload, now: Time, later: Time, exe: string)
    requires IsDatedCycle(m, s, fromSlave, fromMaster, now, later) && exe != ""
    requires BothHaveApp(m, s, fromSlave, fromMaster, now, later, exe)
    ensures exe in MasterAfter(m, fromSlave, now).apps.rows
  {
    AppFollows(m, s, fromSlave, fromMaster, now, later, exe);
  }

  lemma OnlyDeletionOfA(stale: SessionFields, edited: SessionFields, fromSlave: Payload, fromMaster: Payload, now: Time)
    requires IsExport(DeletedProject(stale, edited).1, EPOCH, fromSlave) && 20 < now
    requires IsExport(MasterAfter(DeletedProject(stale, edited).0, fromSlave, now), EPOCH, fromMaster)
    ensures fromSlave.tombstones == [] && ListsTombstones(fromMaster.tombstones, {Tombstone(Projects, "A", 20)}, EPOCH)
  {
    MasterStaysFit(stale, edited, fromSlave, now);
    DeletedProjectShown(stale, edited);
    RepairedKeepsIds(Merged(DeletedProject(stale, edited).0, fromSlave, now), now);
  }

  lemma BothKeepX(m: Db, s: Db, fromSlave: Payload, fromMaster: Payload, now: Time, later: Time)
    requires IsDatedCycle(m, s, fromSlave, fromMaster, now, later)
    requires "x" in m.apps.rows && "x" in s.apps.rows
    requires forall t :: t in fromSlave.tombstones || t in fromMaster.tombstones ==> t.table != Applications
    ensures BothHaveApp(m, s, fromSlave, fromMaster, now, later, "x")
  {
    AppSurvives(m, fromSlave, now, "x");
    AppSurvives(s, fromMaster, later, "x");
    RepairedKeepsIds(Merged(m, fromSlave, now), now);
    RepairedKeepsIds(Merged(s, fromMaster, later), later);
    AppFollows(m, s, fromSlave, fromMaster, now, later, "x");
  }

  lemma StaleIsMissed(m: Db, s: Db, fromSlave: Payload, fromMaster: Payload, now: Time, later: Time, p: Payload,
                      since: Time)
    requires IsDatedCycle(m, s, fromSlave, fromMaster, now, later) && later < since
    requires "x" in m.apps.rows && "x" in s.apps.rows
    requires forall t :: t in fromSlave.tombstones || t in fromMaster.tombstones ==> t.table != Applications
    requires var kept := SessionKept(s, fromMaster.tombstones, "x", "t", later);
               kept.Some? && kept.value.updatedAt == later
    requires IsExport(SlaveAfter(s, fromMaster, later), EPOCH, p)
    ensures !Absorbed(MasterAfter(m, fromSlave, now), p, since)
  {
    BothKeepX(m, s, fromSlave, fromMaster, now, later);
    StampedIsMissed(m, s, fromSlave, fromMaster, now, later, "x", "t", p, since);
  }

  lemma SlaveStampsX(stale: SessionFields, edited: SessionFields, fromSlave: Payload, fromMaster: Payload, now: Time,
                     later: Time)
    requires IsExport(DeletedProject(stale, edited).1, EPOCH, fromSlave) && 20 < now
    requires IsExport(MasterAfter(DeletedProject(stale, edited).0, fromSlave, now), EPOCH, fromMaster)
    ensures var (m, s) := DeletedProject(stale, edited);
            && "x" in m.apps.rows && "x" in s.apps.rows
            && SessionKept(s, fromMaster.tombstones, "x", "t", later) == Some(Record(stale, later))
    ensures forall t :: t in fromSlave.tombstones || t in fromMaster.tombstones ==> t.table != Applications
  {
    OnlyDeletionOfA(stale, edited, fromSlave, fromMaster, now);
    DeletedProjectShown(stale, edited);
    SlaveUnlinks(stale, edited, fromMaster.tombstones, later);
  }

  /** The concrete states: the deletion of project A stamped the slave's session, and the next delta pull misses it. */
  lemma ImportStampsMissed(stale: SessionFields, edited: SessionFields, m: Db, s: Db, fromSlave: Payload,
                           fromMaster: Payload, now: Time, later: Time, p: Payload, since: Time)
    requires (m, s) == DeletedProject(stale, edited)
    requires IsDatedCycle(m, s, fromSlave, fromMaster, now, later) && 20 < now && later < since
    requires IsExport(SlaveAfter(s, fromMaster, later), EPOCH, p)
    ensures !Absorbed(MasterAfter(m, fromSlave, now), p, since)
  {
    SlaveStampsX(stale, edited, fromSlave, fromMaster, now, later);
    StaleIsMissed(m, s, fromSlave, fromMaster, now, later, p, since);
  }
}
