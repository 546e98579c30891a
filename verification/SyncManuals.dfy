/** Manual sessions through a full cycle with its repairs. A row that takes a project is stamped by the trigger that
    writes the project's name, so a manual session sent with its project does not agree in the cycle that sends it.
 */
module SyncManuals {
  import opened Options
  import opened SyncTypes
  import opened SyncMerge
  import opened SyncInvariants
  import opened SyncPeers
  import opened SyncSafety
  import opened SyncRepair
  import opened SyncExport
  import opened SyncFate
  import opened SyncConvergence
  import opened SyncCycle
  import opened SyncSessions
  import opened SyncTwice

  // ----- the tombstone phase -----

  /** A manual session goes by a deletion that names its start time and title, is no older, and is replayed before
      the row loses its project and is stamped. */
  ghost predicate ManualFalls(db: Db, ts: seq<Tombstone>, k: ManualKey)
    requires k in db.manuals
  {
    exists text :: FelledBy(db, ts, k, text)
  }

  ghost predicate FelledBy(db: Db, ts: seq<Tombstone>, k: ManualKey, text: string)
    requires k in db.manuals
  {
    && text != "" && SplitManualKey(text) == Some(k)
    && Adopted(db, ts, ManualSessions, text).Some?
    && Adopted(db, ts, ManualSessions, text).value >= db.manuals[k].updatedAt
    && !LosesLink(db, Before(ts, ManualSessions, text), Some(db.manuals[k].projectId))
  }

  function UnlinkedManual(m: Manual, cut: bool, now: Time): Manual {
    if cut then m.(projectId := 0, updatedAt := now) else m
  }

  ghost predicate FellsManual(d: Db, t: Tombstone, k: ManualKey)
    requires k in d.manuals
  {
    Effective(d, t) && t.table == ManualSessions && SplitManualKey(t.key) == Some(k) &&
        t.deletedAt >= d.manuals[k].updatedAt
  }

  lemma ManualAfterOne(d: Db, t: Tombstone, now: Time, k: ManualKey)
    requires !d.triggersOn
    ensures var e := ApplyTombstone(d, t, now);
            && (k in e.manuals <==> k in d.manuals && !FellsManual(d, t, k))
            && (k in e.manuals ==>
                  e.manuals[k] == UnlinkedManual(d.manuals[k], Cuts(d, t, Some(d.manuals[k].projectId)), now))
  {
  }

  ghost predicate ManualFated(db: Db, ts: seq<Tombstone>, now: Time, k: ManualKey, d: Db) {
    && (k in d.manuals <==> k in db.manuals && !ManualFalls(db, ts, k))
    && (k in d.manuals ==>
          d.manuals[k] == UnlinkedManual(db.manuals[k], LosesLink(db, ts, Some(db.manuals[k].projectId)), now))
  }

  lemma FelledByStep(db: Db, ts: seq<Tombstone>, now: Time, k: ManualKey, text: string)
    requires !db.triggersOn && ts != [] && ts[|ts| - 1].deletedAt < now && k in db.manuals
    ensures var d, last, m := ApplyTombstones(db, ts[..|ts| - 1], now), ts[|ts| - 1], db.manuals[k];
            FelledBy(db, ts, k, text) <==>
              || FelledBy(db, ts[..|ts| - 1], k, text)
              || (&& Effective(d, last) && last.table == ManualSessions && last.key == text &&
                   SplitManualKey(text) == Some(k)
                  && last.deletedAt >= UnlinkedManual(m, LosesLink(db, ts[..|ts| - 1], Some(m.projectId)),
                       now).updatedAt)
  {
    if text != "" {
      AdoptedStep(db, ts, now, ManualSessions, text);
    }
  }

  lemma ManualFallsStep(db: Db, ts: seq<Tombstone>, now: Time, k: ManualKey)
    requires !db.triggersOn && ts != [] && ts[|ts| - 1].deletedAt < now && k in db.manuals
    requires k in ApplyTombstones(db, ts[..|ts| - 1], now).manuals
    requires ManualFated(db, ts[..|ts| - 1], now, k, ApplyTombstones(db, ts[..|ts| - 1], now))
    ensures ManualFalls(db, ts, k) <==> FellsManual(ApplyTombstones(db, ts[..|ts| - 1], now), ts[|ts| - 1], k)
  {
    var init, last := ts[..|ts| - 1], ts[|ts| - 1];
    if text :| FelledBy(db, ts, k, text) {
      FelledByStep(db, ts, now, k, text);
      assert !FelledBy(db, init, k, text);
    }
    FelledByStep(db, ts, now, k, last.key);
  }

  lemma FallenStays(db: Db, ts: seq<Tombstone>, now: Time, k: ManualKey)
    requires !db.triggersOn && ts != [] && ts[|ts| - 1].deletedAt < now && k in db.manuals
    requires ManualFalls(db, ts[..|ts| - 1], k)
    ensures ManualFalls(db, ts, k)
  {
    var text :| FelledBy(db, ts[..|ts| - 1], k, text);
    FelledByStep(db, ts, now, k, text);
    assert FelledBy(db, ts, k, text);
  }

  /** The tombstone phase, for one manual session: whether it stays, and whether it is stamped now. */
  lemma {:induction false} ManualFate(db: Db, ts: seq<Tombstone>, now: Time, k: ManualKey)
    requires !db.triggersOn && AheadOf(ts, now)
    ensures ManualFated(db, ts, now, k, ApplyTombstones(db, ts, now))
  {
    if ts == [] {
      assert k in db.manuals ==> !ManualFalls(db, ts, k);
    } else {
      var init, last := ts[..|ts| - 1], ts[|ts| - 1];
      var d := ApplyTombstones(db, init, now);
      ManualFate(db, init, now, k);
      ApplyTombstonesShrinks(db, init, now);
      ManualAfterOne(d, last, now, k);
      if k in d.manuals {
        ManualFallsStep(db, ts, now, k);
        LosesLinkStep(db, ts, now, Some(db.manuals[k].projectId));
      } else if k in db.manuals {
        FallenStays(db, ts, now, k);
      }
    }
  }

  /** The deletion of a manual session, under whatever project id the peer had it, names the manual session here if its
      start time holds no separator, and covers it. */
  lemma DeletionNames(k: ManualKey, projectId: int, tombs: set<Tombstone>, deletedAt: Time)
    requires Tombstone(ManualSessions, IdText(projectId) + "|" + k.start + "|" + k.title, deletedAt) in tombs
    ensures CoversManual(tombs, k, deletedAt)
    ensures '|' !in k.start ==> SplitManualKey(IdText(projectId) + "|" + k.start + "|" + k.title) == Some(k)
  {
    var text, tail := IdText(projectId) + "|" + k.start + "|" + k.title, "|" + k.start + "|" + k.title;
    SplitManualInverse(projectId, k.start, k.title);
    assert text == IdText(projectId) + tail;
    assert EndsWith(text, tail);
  }

  /** So a manual session that is no newer than the peer's deletion of it goes, unless its project goes first. */
  lemma ManualDeletionReaches(db: Db, p: Payload, now: Time, k: ManualKey, projectId: int, deletedAt: Time)
    requires AheadOf(p.tombstones, now) && k in db.manuals && '|' !in k.start
    requires var text := IdText(projectId) + "|" + k.start + "|" + k.title;
             && FirstFor(p.tombstones, ManualSessions, text) == Some(deletedAt)
             && !HasTombstone(db.tombstones, ManualSessions, text)
             && !LosesLink(db, Before(p.tombstones, ManualSessions, text), Some(db.manuals[k].projectId))
    requires db.manuals[k].updatedAt <= deletedAt
    ensures k !in AfterTombstones(db, p, now).manuals
    ensures CoversManual(Merged(db, p, now).tombstones, k, db.manuals[k].updatedAt)
  {
    var d0, text := db.(triggersOn := false), IdText(projectId) + "|" + k.start + "|" + k.title;
    TombstonesAdopted(d0, p.tombstones, now);
    assert Tombstone(ManualSessions, text, deletedAt) in Merged(db, p, now).tombstones;
    DeletionNames(k, projectId, Merged(db, p, now).tombstones, deletedAt);
    assert FelledBy(d0, p.tombstones, k, text);
    ManualFate(d0, p.tombstones, now, k);
  }

  // ----- a manual session seen from two peers -----

  /** The synced columns that mean the same on every peer. */
  datatype ManualShown = ManualShown(kind: string, end: string, duration: int, date: string)

  ghost function ManualRecord(manuals: map<ManualKey, Manual>, k: ManualKey): Option<Record<ManualShown>> {
    if k in manuals then
      var f := manuals[k].fields;
      Some(Record(ManualShown(f.kind, f.end, f.duration, f.date), manuals[k].updatedAt))
    else None
  }

  ghost function ManualDeaths(tombs: set<Tombstone>, k: ManualKey): set<Time> {
    set t | t in tombs && t.table == ManualSessions && EndsWith(t.key, "|" + k.start + "|" + k.title) :: t.deletedAt
  }

  ghost function ManualPeer(db: Db, k: ManualKey): Peer<ManualShown> {
    Peer(ManualRecord(db.manuals, k), ManualDeaths(db.tombstones, k))
  }

  lemma ManualDeathsCover(tombs: set<Tombstone>, k: ManualKey, u: Time)
    ensures Dead(ManualDeaths(tombs, k), u) <==> CoversManual(tombs, k, u)
  {
    if CoversManual(tombs, k, u) {
      var t :| t in tombs && t.table == ManualSessions && t.deletedAt >= u &&
          EndsWith(t.key, "|" + k.start + "|" + k.title);
      assert t.deletedAt in ManualDeaths(tombs, k);
    }
  }

  ghost function ManualKept(db: Db, ts: seq<Tombstone>, k: ManualKey, now: Time): Option<Record<ManualShown>> {
    if k !in db.manuals || ManualFalls(db, ts, k) then None
    else Restamped(ManualRecord(db.manuals, k), LosesLink(db, ts, Some(db.manuals[k].projectId)), now)
  }

  /** The sender's manual session has a project that the receiver knows by then, and the receiver's own, as the
      replay of deletions leaves it, is not of that project: taking the row stamps it. */
  ghost predicate ManualRelinks(db: Db, sender: Db, p: Payload, now: Time, k: ManualKey) {
    k in sender.manuals &&
    Reassigned(AfterTombstones(db, p, now).manuals, k,
               ProjectLinks(AfterProjects(db, p, now), p).Translate(Some(sender.manuals[k].projectId)).GetOr(0))
  }

  predicate ManualTouched(db: Db, k: ManualKey) {
    k in db.manuals && db.manuals[k].projectId != 0 && !ProjectExists(db.projects.rows, db.manuals[k].projectId)
  }

  // ----- one merge -----

  lemma ManualAfterTombstones(db: Db, p: Payload, now: Time, k: ManualKey)
    requires AheadOf(p.tombstones, now)
    ensures ManualRecord(AfterTombstones(db, p, now).manuals, k) == ManualKept(db, p.tombstones, k, now)
  {
    var d0 := db.(triggersOn := false);
    ManualFate(d0, p.tombstones, now, k);
    assert ManualKept(d0, p.tombstones, k, now) == ManualKept(db, p.tombstones, k, now) by {
      if k in db.manuals {
        forall text ensures FelledBy(d0, p.tombstones, k, text) <==> FelledBy(db, p.tombstones, k, text) {
        }
      }
    }
  }

  lemma ListsOnce(rows: seq<ManualRow>, manuals: map<ManualKey, Manual>, since: Time)
    requires ListsManuals(rows, manuals, since)
    ensures ListedOnce(rows)
  {
  }

  /** What the row of `k` makes of the table it is merged into. */
  lemma ManualRowTaken(manuals: map<ManualKey, Manual>, tombs: set<Tombstone>, apps: Links, projects: Links,
                       k: ManualKey, sent: Manual, now: Time)
    requires k.title != "" && k.start != ""
    ensures var r := ManualRowOf(k, sent);
            ManualRecord(MergeManual(manuals, tombs, apps, projects, r, now), k) ==
              TakenAt(ManualRecord(manuals, k), ManualRecord(map[k := sent], k), ManualDeaths(tombs, k),
                      Reassigned(manuals, k, projects.Translate(Some(sent.projectId)).GetOr(0)), now)
  {
    ManualDeathsCover(tombs, k, sent.updatedAt);
  }

  lemma ManualAfterRows(manuals: map<ManualKey, Manual>, tombs: set<Tombstone>, apps: Links, projects: Links,
                        rows: seq<ManualRow>, sender: Db, k: ManualKey, now: Time)
    requires ListsManuals(rows, sender.manuals, EPOCH) && k.title != "" && k.start != ""
    ensures ManualRecord(MergeManuals(manuals, tombs, apps, projects, rows, now), k) ==
              TakenAt(ManualRecord(manuals, k), ManualRecord(sender.manuals, k), ManualDeaths(tombs, k),
                      k in sender.manuals &&
                      Reassigned(manuals, k, projects.Translate(Some(sender.manuals[k].projectId)).GetOr(0)), now)
  {
    ListsOnce(rows, sender.manuals, EPOCH);
    if k in sender.manuals {
      var i :| 0 <= i < |rows| && ManualKeyOf(rows[i]) == k;
      OneManualDecides(manuals, tombs, apps, projects, rows, now, i);
      ManualRowTaken(manuals, tombs, apps, projects, k, sender.manuals[k], now);
    } else {
      OtherManualsSpareKey(manuals, tombs, apps, projects, rows, now, k);
    }
  }

  /** What a merge of a full export makes of one manual session. */
  lemma ManualReceived(db: Db, sender: Db, p: Payload, now: Time, k: ManualKey)
    requires IsExport(sender, EPOCH, p) && Ahead(sender.tombstones, now) && k.title != "" && k.start != ""
    ensures ManualRecord(Merged(db, p, now).manuals, k) ==
              TakenAt(ManualKept(db, p.tombstones, k, now), ManualRecord(sender.manuals, k),
                      ManualDeaths(Merged(db, p, now).tombstones, k), ManualRelinks(db, sender, p, now, k), now)
  {
    var f := AfterSessions(db, p, now);
    ListedAreAhead(p.tombstones, sender.tombstones, now);
    ManualAfterTombstones(db, p, now, k);
    ManualAfterRows(f.manuals, f.tombstones, AppLinks(f, p), ProjectLinks(f, p), p.manuals, sender, k, now);
  }

  lemma ManualAfterRepair(db: Db, now: Time, k: ManualKey)
    ensures ManualRecord(Repaired(db, now).manuals, k) ==
              Restamped(ManualRecord(db.manuals, k), ManualTouched(db, k), now)
    ensures Repaired(db, now).tombstones == db.tombstones
  {
    RepairedKeepsIds(db, now);
    RepairedTables(db, now);
    var d := ClearSessionLinks(Reattach(db, now), now);
    assert d.manuals == db.manuals && d.projects == db.projects;
    assert Relinked(db, now).manuals == ClearManualLinks(d, now).manuals;
  }

  // ----- the cycle -----

  ghost function ManualCycle(m: Db, s: Db, fromSlave: Payload, fromMaster: Payload, now: Time, later: Time,
                             k: ManualKey):
    Cycled<ManualShown>
  {
    var m', s' := MasterAfter(m, fromSlave, now), SlaveAfter(s, fromMaster, later);
    Cycled(ManualPeer(m, k), ManualPeer(s, k),
           ManualKept(m, fromSlave.tombstones, k, now), ManualKept(s, fromMaster.tombstones, k, later),
           ManualDeaths(m'.tombstones, k), ManualDeaths(s'.tombstones, k),
           ManualRelinks(m, s, fromSlave, now, k), ManualRelinks(s, m', fromMaster, later, k),
           ManualTouched(Merged(m, fromSlave, now), k), ManualTouched(Merged(s, fromMaster, later), k), now, later)
  }

  lemma PastManual(db: Db, now: Time, k: ManualKey)
    requires Clocked(db, now)
    ensures Past(ManualPeer(db, k), now)
  {
  }

  /** No deletion known after the cycle is from after its start. */
  lemma DeathsArePast(m: Db, s: Db, fromSlave: Payload, fromMaster: Payload, now: Time, later: Time)
    requires IsRepairedCycle(m, s, fromSlave, fromMaster, now, later)
    ensures Ahead(MasterAfter(m, fromSlave, now).tombstones, now) &&
              Ahead(SlaveAfter(s, fromMaster, later).tombstones, now)
  {
    var m1, s1 := Merged(m, fromSlave, now), Merged(s, fromMaster, later);
    RepairedKeepsIds(m1, now);
    RepairedKeepsIds(s1, later);
    ApplyTombstonesShrinks(m.(triggersOn := false), fromSlave.tombstones, now);
    ApplyTombstonesShrinks(s.(triggersOn := false), fromMaster.tombstones, later);
    forall t | t in m1.tombstones ensures t.deletedAt < now {
      assert t in m.tombstones || t in fromSlave.tombstones;
    }
    forall t | t in s1.tombstones ensures t.deletedAt < now {
      assert t in s.tombstones || t in fromMaster.tombstones;
    }
  }

  /** One half: the merge of a full export and the repair. */
  lemma ManualHalf(db: Db, sender: Db, p: Payload, now: Time, k: ManualKey, c: Cycled<ManualShown>)
    requires IsExport(sender, EPOCH, p) && Ahead(sender.tombstones, now) && k.title != "" && k.start != ""
    ensures var d := Repaired(Merged(db, p, now), now);
            c.Half(ManualPeer(db, k), ManualPeer(sender, k).row, ManualKept(db, p.tombstones, k, now),
                   ManualDeaths(d.tombstones, k), ManualRelinks(db, sender, p, now, k),
                   ManualTouched(Merged(db, p, now), k), now, ManualPeer(d, k).row)
  {
    ManualReceived(db, sender, p, now, k);
    ManualAfterRepair(Merged(db, p, now), now, k);
  }

  lemma ManualDeathsArePast(m: Db, s: Db, fromSlave: Payload, fromMaster: Payload, now: Time, later: Time, k: ManualKey)
    requires IsRepairedCycle(m, s, fromSlave, fromMaster, now, later)
    ensures forall d :: d in ManualDeaths(MasterAfter(m, fromSlave, now).tombstones, k) ==> d < now
    ensures forall d :: d in ManualDeaths(SlaveAfter(s, fromMaster, later).tombstones, k) ==> d < now
  {
    DeathsArePast(m, s, fromSlave, fromMaster, now, later);
  }

  lemma ManualFollows(m: Db, s: Db, fromSlave: Payload, fromMaster: Payload, now: Time, later: Time, k: ManualKey)
    requires IsRepairedCycle(m, s, fromSlave, fromMaster, now, later) && k.title != "" && k.start != ""
    ensures var c := ManualCycle(m, s, fromSlave, fromMaster, now, later, k);
            && c.Ok()
            && ManualPeer(MasterAfter(m, fromSlave, now), k).row == c.FinalM()
            && ManualPeer(SlaveAfter(s, fromMaster, later), k).row == c.FinalS()
  {
    var m', s' := MasterAfter(m, fromSlave, now), SlaveAfter(s, fromMaster, later);
    var c := ManualCycle(m, s, fromSlave, fromMaster, now, later, k);
    DeathsArePast(m, s, fromSlave, fromMaster, now, later);
    ManualDeathsArePast(m, s, fromSlave, fromMaster, now, later, k);
    PastManual(m, now, k);
    PastManual(s, now, k);
    ManualHalf(m, s, fromSlave, now, k, c);
    ManualHalf(s, m', fromMaster, later, k, c);
    c.FollowsHalves(ManualPeer(m', k).row, ManualPeer(s', k).row);
  }

  /** Presence and stamp of a manual session agree after the cycle exactly if neither side refuses a newer row of the
      other's and the slave does not stamp the row: by losing its project, by taking one with the master's row, or in
      the repair. The contents agree if moreover there was no tie. */
  lemma ManualConverges(m: Db, s: Db, fromSlave: Payload, fromMaster: Payload, now: Time, later: Time, k: ManualKey)
    requires IsRepairedCycle(m, s, fromSlave, fromMaster, now, later) && k.title != "" && k.start != ""
    ensures var c := ManualCycle(m, s, fromSlave, fromMaster, now, later, k);
            var a := ManualPeer(MasterAfter(m, fromSlave, now), k).row;
            var b := ManualPeer(SlaveAfter(s, fromMaster, later), k).row;
            && (Stamp(a) == Stamp(b) <==> c.Agrees())
            && (a == b <==> c.Agrees() && (c.touchedM || !Ties(c.keptM, c.keptS)))
  {
    ManualFollows(m, s, fromSlave, fromMaster, now, later, k);
    ManualCycle(m, s, fromSlave, fromMaster, now, later, k).AgreesIff();
  }

  /** A manual session of a shared project that only the master has, and no deletion of which is known, ends on the
      slave under the time of its import: it never agrees in the cycle that first sends it. */
  lemma NewManualDisagrees(m: Db, s: Db, fromSlave: Payload, fromMaster: Payload, now: Time, later: Time, k: ManualKey)
    requires IsRepairedCycle(m, s, fromSlave, fromMaster, now, later) && k.title != "" && k.start != ""
    requires k in MasterAfter(m, fromSlave, now).manuals && k !in s.manuals
    requires ManualDeaths(SlaveAfter(s, fromMaster, later).tombstones, k) == {}
    requires ManualRelinks(s, MasterAfter(m, fromSlave, now), fromMaster, later, k)
    ensures var m', s' := MasterAfter(m, fromSlave, now), SlaveAfter(s, fromMaster, later);
            k in s'.manuals && m'.manuals[k].updatedAt < s'.manuals[k].updatedAt == later
  {
    ManualFollows(m, s, fromSlave, fromMaster, now, later, k);
    var c := ManualCycle(m, s, fromSlave, fromMaster, now, later, k);
    c.StampedIff();
  }

  // ----- the hash -----

  /** What compute_table_hash reads of the manual sessions. */
  ghost function ManualStamps(db: Db): map<ManualKey, Time> {
    map k | k in db.manuals :: db.manuals[k].updatedAt
  }

  /** Rows with an empty title or start time are never merged. */
  ghost predicate ManualKeysOk(db: Db) {
    forall k :: k in db.manuals ==> k.title != "" && k.start != ""
  }

  ghost predicate SameManualStamps(a: Db, b: Db, k: ManualKey) {
    Stamp(ManualPeer(a, k).row) == Stamp(ManualPeer(b, k).row)
  }

  lemma ManualStampsEqualIff(a: Db, b: Db)
    requires ManualKeysOk(a) && ManualKeysOk(b)
    ensures ManualStamps(a) == ManualStamps(b) <==>
              forall k: ManualKey :: k.title != "" && k.start != "" ==> SameManualStamps(a, b, k)
  {
    var x, y := ManualStamps(a), ManualStamps(b);
    if x == y {
      forall k: ManualKey | k.title != "" && k.start != "" ensures SameManualStamps(a, b, k) {
        assert k in x <==> k in y;
      }
    }
    if forall k: ManualKey :: k.title != "" && k.start != "" ==> SameManualStamps(a, b, k) {
      forall k ensures (k in x <==> k in y) && (k in x ==> x[k] == y[k]) {
        if k.title != "" && k.start != "" {
          assert SameManualStamps(a, b, k);
        }
      }
      assert x == y;
    }
  }

  /** The hash inputs of the manual sessions are equal after the cycle exactly if every one of them agrees. */
  lemma ManualHashesConverge(m: Db, s: Db, fromSlave: Payload, fromMaster: Payload, now: Time, later: Time)
    requires IsRepairedCycle(m, s, fromSlave, fromMaster, now, later)
    requires ManualKeysOk(MasterAfter(m, fromSlave, now)) && ManualKeysOk(SlaveAfter(s, fromMaster, later))
    ensures ManualStamps(MasterAfter(m, fromSlave, now)) == ManualStamps(SlaveAfter(s, fromMaster, later)) <==>
              forall k: ManualKey :: k.title != "" && k.start != "" ==>
                                       ManualCycle(m, s, fromSlave, fromMaster, now, later, k).Agrees()
  {
    var a, b := MasterAfter(m, fromSlave, now), SlaveAfter(s, fromMaster, later);
    ManualStampsEqualIff(a, b);
    forall k: ManualKey | k.title != "" && k.start != ""
      ensures SameManualStamps(a, b, k) <==> ManualCycle(m, s, fromSlave, fromMaster, now, later, k).Agrees()
    {
      ManualConverges(m, s, fromSlave, fromMaster, now, later, k);
    }
  }
}
