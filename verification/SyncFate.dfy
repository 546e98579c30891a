/** What the tombstone phase of a merge does to one record, stated on the database before it and the
    payload's tombstones alone: which projects go, which rows lose their link and are stamped now
    for it, and which applications and sessions go.
 */
module SyncFate {
  import opened Options
  import opened SyncTypes
  import opened SyncMerge
  import opened SyncInvariants
  import opened SyncSafety
  import opened SyncExport

  /** The time a merge of `ts` adopts for a key. */
  ghost function Adopted(db: Db, ts: seq<Tombstone>, table: TableName, key: string): Option<Time> {
    if HasTombstone(db.tombstones, table, key) then None else FirstFor(ts, table, key)
  }

  /** What comes before the first tombstone of a key, or all if there is none. */
  function Before(ts: seq<Tombstone>, table: TableName, key: string): seq<Tombstone> {
    if ts == [] || FirstFor(ts, table, key).None? then ts
    else if FirstFor(ts[..|ts| - 1], table, key).Some? then Before(ts[..|ts| - 1], table, key)
    else ts[..|ts| - 1]
  }

  /** The project goes. */
  ghost predicate Doomed(db: Db, ts: seq<Tombstone>, name: string) {
    && name != ""
    && name in db.projects.rows
    && Adopted(db, ts, Projects, name).Some?
    && Adopted(db, ts, Projects, name).value >= db.projects.rows[name].updatedAt
  }

  /** A row with this link loses it, and is stamped now. */
  ghost predicate LosesLink(db: Db, ts: seq<Tombstone>, link: Option<int>) {
    link.Some? && exists name :: Doomed(db, ts, name) && db.projects.rows[name].id == link.value
  }

  /** A session goes by its own deletion: that is no older, and the session has not been stamped
      now before it is replayed. */
  ghost predicate SessionFalls(db: Db, ts: seq<Tombstone>, exe: string, start: string)
    requires exe in db.apps.rows && SessionKey(db.apps.rows[exe].id, start) in db.sessions
  {
    var s, key := db.sessions[SessionKey(db.apps.rows[exe].id, start)], SessionKeyText(exe, start);
    && '|' !in exe
    && Adopted(db, ts, Sessions, key).Some?
    && Adopted(db, ts, Sessions, key).value >= s.updatedAt
    && !LosesLink(db, Before(ts, Sessions, key), s.projectId)
  }

  /** A session that saves its application from a deletion at `d` replayed after `before`: it is newer,
      or it is still there and has been stamped now. */
  ghost predicate SavesApp(db: Db, before: seq<Tombstone>, exe: string, k: SessionKey, d: Time)
    requires exe in db.apps.rows && k in db.sessions && k.appId == db.apps.rows[exe].id
  {
    || db.sessions[k].updatedAt > d
    || (LosesLink(db, before, db.sessions[k].projectId) && !SessionFalls(db, before, exe, k.start))
  }

  /** An application goes, with its sessions. */
  ghost predicate AppFalls(db: Db, ts: seq<Tombstone>, exe: string)
    requires exe in db.apps.rows
  {
    var a, death, before := db.apps.rows[exe], Adopted(db, ts, Applications, exe), Before(ts, Applications, exe);
    && exe != ""
    && death.Some?
    && death.value >= a.updatedAt
    && !LosesLink(db, before, a.projectId)
    && forall k :: k in db.sessions && k.appId == a.id ==> !SavesApp(db, before, exe, k, death.value)
  }

  // ----- one tombstone -----

  predicate Effective(d: Db, t: Tombstone) {
    !Blank(t) && !HasTombstone(d.tombstones, t.table, t.key)
  }

  predicate Cuts(d: Db, t: Tombstone, link: Option<int>) {
    && Effective(d, t) && t.table == Projects && t.key in d.projects.rows
    && d.projects.rows[t.key].updatedAt <= t.deletedAt
    && link == Some(d.projects.rows[t.key].id)
  }

  predicate FellsApp(d: Db, t: Tombstone, exe: string) {
    Effective(d, t) && t.table == Applications && t.key == exe && !Outlives(d, t)
  }

  function UnlinkedApp(a: App, cut: bool, now: Time): App {
    if cut then a.(projectId := None, updatedAt := now) else a
  }

  function UnlinkedSession(s: Session, cut: bool, now: Time): Session {
    if cut then s.(projectId := None, updatedAt := now) else s
  }

  lemma AppAfterOne(d: Db, t: Tombstone, now: Time, exe: string)
    requires !d.triggersOn
    ensures var e := ApplyTombstone(d, t, now);
            && (exe in e.apps.rows <==> exe in d.apps.rows && !FellsApp(d, t, exe))
            && (exe in e.apps.rows ==>
                 e.apps.rows[exe] == UnlinkedApp(d.apps.rows[exe], Cuts(d, t, d.apps.rows[exe].projectId), now))
  {
  }

  ghost predicate FellsSession(d: Db, t: Tombstone, exe: string, start: string)
    requires exe in d.apps.rows && SessionKey(d.apps.rows[exe].id, start) in d.sessions
  {
    && Effective(d, t) && t.table == Sessions && '|' !in exe && t.key == SessionKeyText(exe, start)
    && t.deletedAt >= d.sessions[SessionKey(d.apps.rows[exe].id, start)].updatedAt
  }

  lemma SessionAfterOne(d: Db, t: Tombstone, now: Time, exe: string, start: string)
    requires !d.triggersOn && IdsOk(d) && exe in d.apps.rows
    ensures var e, k := ApplyTombstone(d, t, now), SessionKey(d.apps.rows[exe].id, start);
            && (k in e.sessions <==> k in d.sessions && !FellsApp(d, t, exe) && !FellsSession(d, t, exe, start))
            && (k in e.sessions ==>
                 e.sessions[k] == UnlinkedSession(d.sessions[k], Cuts(d, t, d.sessions[k].projectId), now))
  {
    SplitOnceInverse(exe, start);
    if t.table == Sessions {
      SplitOnceSound(t.key);
    }
  }

  // ----- what each tombstone adds -----

  lemma AdoptedStep(db: Db, ts: seq<Tombstone>, now: Time, table: TableName, key: string)
    requires !db.triggersOn && ts != [] && table != Unknown("") && key != ""
    ensures var init, last := ts[..|ts| - 1], ts[|ts| - 1];
            var d := ApplyTombstones(db, init, now);
            if last.table == table && last.key == key && Effective(d, last)
            then Adopted(db, init, table, key).None? && Adopted(db, ts, table, key) == Some(last.deletedAt) &&
                Before(ts, table, key) == init
            else && Adopted(db, ts, table, key) == Adopted(db, init, table, key)
                 && (Adopted(db, ts, table, key).Some? ==> Before(ts, table, key) == Before(init, table, key))
  {
    TombstonesAdopted(db, ts[..|ts| - 1], now);
    AdoptedHasKey(db, ApplyTombstones(db, ts[..|ts| - 1], now), ts[..|ts| - 1], table, key);
  }

  /** A project goes exactly when it is doomed, and otherwise stays as it was. */
  lemma {:induction false} ProjectFate(db: Db, ts: seq<Tombstone>, now: Time, name: string)
    requires !db.triggersOn
    ensures var d := ApplyTombstones(db, ts, now);
            && (name in d.projects.rows <==> name in db.projects.rows && !Doomed(db, ts, name))
            && (name in d.projects.rows ==> d.projects.rows[name] == db.projects.rows[name])
  {
    if ts != [] {
      ProjectFate(db, ts[..|ts| - 1], now, name);
      ApplyTombstonesShrinks(db, ts[..|ts| - 1], now);
      if name != "" {
        AdoptedStep(db, ts, now, Projects, name);
      }
    }
  }

  lemma DoomedStep(db: Db, ts: seq<Tombstone>, now: Time, name: string)
    requires !db.triggersOn && ts != []
    ensures var d, last := ApplyTombstones(db, ts[..|ts| - 1], now), ts[|ts| - 1];
            Doomed(db, ts, name) <==>
              || Doomed(db, ts[..|ts| - 1], name)
              || (&& Effective(d, last) && last.table == Projects && last.key == name
                  && name in d.projects.rows && d.projects.rows[name].updatedAt <= last.deletedAt)
  {
    ProjectFate(db, ts[..|ts| - 1], now, name);
    if name != "" {
      AdoptedStep(db, ts, now, Projects, name);
    }
  }

  lemma LosesLinkStep(db: Db, ts: seq<Tombstone>, now: Time, link: Option<int>)
    requires !db.triggersOn && ts != []
    ensures LosesLink(db, ts, link) <==>
              LosesLink(db, ts[..|ts| - 1], link) || Cuts(ApplyTombstones(db, ts[..|ts| - 1], now), ts[|ts| - 1], link)
  {
    var init, last := ts[..|ts| - 1], ts[|ts| - 1];
    var d := ApplyTombstones(db, init, now);
    ProjectFate(db, init, now, last.key);
    if LosesLink(db, ts, link) {
      var name :| Doomed(db, ts, name) && db.projects.rows[name].id == link.value;
      DoomedStep(db, ts, now, name);
    }
    if LosesLink(db, init, link) {
      var name :| Doomed(db, init, name) && db.projects.rows[name].id == link.value;
      DoomedStep(db, ts, now, name);
      assert Doomed(db, ts, name);
    }
    if Cuts(d, last, link) {
      DoomedStep(db, ts, now, last.key);
      assert Doomed(db, ts, last.key);
    }
  }

  // ----- the whole phase -----

  /** The clock is ahead of every deletion. */
  ghost predicate AheadOf(ts: seq<Tombstone>, now: Time) {
    forall i :: 0 <= i < |ts| ==> ts[i].deletedAt < now
  }

  /** What `d`, the state after `ts`, holds of one application. */
  ghost predicate AppFated(db: Db, ts: seq<Tombstone>, now: Time, exe: string, d: Db) {
    && (exe in d.apps.rows <==> exe in db.apps.rows && !AppFalls(db, ts, exe))
    && (exe in d.apps.rows ==>
          d.apps.rows[exe] == UnlinkedApp(db.apps.rows[exe], LosesLink(db, ts, db.apps.rows[exe].projectId), now))
  }

  /** And of one session of an application that is still there. */
  ghost predicate SessionFated(db: Db, ts: seq<Tombstone>, now: Time, exe: string, start: string, d: Db)
    requires exe in db.apps.rows
  {
    var k := SessionKey(db.apps.rows[exe].id, start);
    && (k in d.sessions <==> k in db.sessions && !SessionFalls(db, ts, exe, start))
    && (k in d.sessions ==>
          d.sessions[k] == UnlinkedSession(db.sessions[k], LosesLink(db, ts, db.sessions[k].projectId), now))
  }

  ghost predicate SessionsFated(db: Db, ts: seq<Tombstone>, now: Time, exe: string, d: Db)
    requires exe in db.apps.rows
  {
    forall start :: SessionFated(db, ts, now, exe, start, d)
  }

  lemma SessionFallsStep(db: Db, ts: seq<Tombstone>, now: Time, exe: string, start: string)
    requires !db.triggersOn && ts != [] && ts[|ts| - 1].deletedAt < now
    requires exe in db.apps.rows && SessionKey(db.apps.rows[exe].id, start) in db.sessions
    ensures var d, last := ApplyTombstones(db, ts[..|ts| - 1], now), ts[|ts| - 1];
            var s := db.sessions[SessionKey(db.apps.rows[exe].id, start)];
            SessionFalls(db, ts, exe, start) <==>
              || SessionFalls(db, ts[..|ts| - 1], exe, start)
              || (&& Effective(d, last) && last.table == Sessions && '|' !in exe &&
                   last.key == SessionKeyText(exe, start)
                  && last.deletedAt >= UnlinkedSession(s, LosesLink(db, ts[..|ts| - 1], s.projectId), now).updatedAt)
  {
    AdoptedStep(db, ts, now, Sessions, SessionKeyText(exe, start));
  }

  lemma SessionFateStep(db: Db, ts: seq<Tombstone>, now: Time, exe: string, start: string)
    requires !db.triggersOn && IdsOk(db) && ts != [] && ts[|ts| - 1].deletedAt < now
    requires exe in db.apps.rows && exe in ApplyTombstones(db, ts, now).apps.rows
    requires var d := ApplyTombstones(db, ts[..|ts| - 1], now);
             AppFated(db, ts[..|ts| - 1], now, exe, d) && SessionFated(db, ts[..|ts| - 1], now, exe, start, d)
    ensures SessionFated(db, ts, now, exe, start, ApplyTombstones(db, ts, now))
  {
    var init, last := ts[..|ts| - 1], ts[|ts| - 1];
    var d, k := ApplyTombstones(db, init, now), SessionKey(db.apps.rows[exe].id, start);
    ApplyTombstonesShrinks(db, init, now);
    ShrinksKeepsIds(db, d, now);
    AppAfterOne(d, last, now, exe);
    SessionAfterOne(d, last, now, exe, start);
    if k in db.sessions {
      SessionFallsStep(db, ts, now, exe, start);
      LosesLinkStep(db, ts, now, db.sessions[k].projectId);
    }
  }

  /** A deletion of the application replayed now is outlived exactly when something saves it. */
  lemma OutlivesIff(db: Db, ts: seq<Tombstone>, now: Time, t: Tombstone, d: Db)
    requires t.table == Applications && t.key in d.apps.rows && t.key in db.apps.rows && t.deletedAt < now
    requires forall i :: 0 <= i < |ts| ==> ts[i].deletedAt <= t.deletedAt
    requires AppFated(db, ts, now, t.key, d) && SessionsFated(db, ts, now, t.key, d)
    ensures var a := db.apps.rows[t.key];
            Outlives(d, t) <==>
              || a.updatedAt > t.deletedAt
              || LosesLink(db, ts, a.projectId)
              || exists k :: k in db.sessions && k.appId == a.id && SavesApp(db, ts, t.key, k, t.deletedAt)
  {
    var a := db.apps.rows[t.key];
    if SessionNewer(d, a.id, t.deletedAt) {
      var k :| k in d.sessions && k.appId == a.id && d.sessions[k].updatedAt > t.deletedAt;
      assert SessionFated(db, ts, now, t.key, k.start, d);
      assert k == SessionKey(a.id, k.start);
      assert SavesApp(db, ts, t.key, k, t.deletedAt);
    }
    if k :| k in db.sessions && k.appId == a.id && SavesApp(db, ts, t.key, k, t.deletedAt) {
      assert SessionFated(db, ts, now, t.key, k.start, d);
      assert k == SessionKey(a.id, k.start);
      AdoptedIsOld(db, ts, Sessions, SessionKeyText(t.key, k.start), t.deletedAt);
      assert k in d.sessions && d.sessions[k].updatedAt > t.deletedAt;
    }
  }

  lemma AdoptedIsOld(db: Db, ts: seq<Tombstone>, table: TableName, key: string, d: Time)
    requires forall i :: 0 <= i < |ts| ==> ts[i].deletedAt <= d
    ensures Adopted(db, ts, table, key).Some? ==> Adopted(db, ts, table, key).value <= d
  {
    FirstForIsFirst(ts, table, key);
  }

  lemma AppFallsStep(db: Db, ts: seq<Tombstone>, now: Time, exe: string)
    requires !db.triggersOn && ts != [] && InOrder(ts) && AheadOf(ts, now) && exe in db.apps.rows && exe != ""
    requires var d := ApplyTombstones(db, ts[..|ts| - 1], now);
             && AppFated(db, ts[..|ts| - 1], now, exe, d)
             && (exe in d.apps.rows ==> SessionsFated(db, ts[..|ts| - 1], now, exe, d))
    ensures var d := ApplyTombstones(db, ts[..|ts| - 1], now);
            AppFalls(db, ts, exe) <==> AppFalls(db, ts[..|ts| - 1], exe) || FellsApp(d, ts[|ts| - 1], exe)
  {
    var init, last := ts[..|ts| - 1], ts[|ts| - 1];
    var d := ApplyTombstones(db, init, now);
    AdoptedStep(db, ts, now, Applications, exe);
    if last.table == Applications && last.key == exe && Effective(d, last) {
      assert exe in d.apps.rows;
      OutlivesIff(db, init, now, last, d);
    }
  }

  /** The tombstone phase, for one application and its sessions: what stays, what goes, what is stamped now. */
  lemma {:induction false} TombstoneFate(db: Db, ts: seq<Tombstone>, now: Time, exe: string)
    requires !db.triggersOn && IdsOk(db) && InOrder(ts) && AheadOf(ts, now) && exe != ""
    ensures var d := ApplyTombstones(db, ts, now);
            && AppFated(db, ts, now, exe, d)
            && (exe in d.apps.rows ==> SessionsFated(db, ts, now, exe, d))
  {
    if ts == [] {
    } else {
      var init, last := ts[..|ts| - 1], ts[|ts| - 1];
      TombstoneFate(db, init, now, exe);
      ApplyTombstonesShrinks(db, init, now);
      AppAfterOne(ApplyTombstones(db, init, now), last, now, exe);
      if exe in db.apps.rows {
        AppFallsStep(db, ts, now, exe);
        LosesLinkStep(db, ts, now, db.apps.rows[exe].projectId);
        forall start | exe in ApplyTombstones(db, ts, now).apps.rows
          ensures SessionFated(db, ts, now, exe, start, ApplyTombstones(db, ts, now))
        {
          SessionFateStep(db, ts, now, exe, start);
        }
      }
    }
  }
}
