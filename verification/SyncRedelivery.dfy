/** Rows that lose change nothing, and a delta pull does what a full pull does. */
module SyncRedelivery {
  import opened Options
  import opened SyncTypes
  import opened SyncMerge
  import opened SyncInvariants
  import opened SyncDelivery
  import opened SyncExport

  // ----- rows that lose leave their table alone -----

  ghost predicate TombstonesKnown(tombs: set<Tombstone>, ts: seq<Tombstone>) {
    forall i :: 0 <= i < |ts| ==> Blank(ts[i]) || HasTombstone(tombs, ts[i].table, ts[i].key)
  }

  lemma {:induction false} KnownTombstonesChangeNothing(db: Db, ts: seq<Tombstone>, now: Time)
    requires TombstonesKnown(db.tombstones, ts)
    ensures ApplyTombstones(db, ts, now) == db
  {
    if ts != [] {
      KnownTombstonesChangeNothing(db, ts[..|ts| - 1], now);
    }
  }

  lemma {:induction false} TombstonesBecomeKnown(db: Db, ts: seq<Tombstone>, now: Time)
    requires !db.triggersOn
    ensures TombstonesKnown(ApplyTombstones(db, ts, now).tombstones, ts)
  {
    if ts != [] {
      var init, last := ts[..|ts| - 1], ts[|ts| - 1];
      var d, e := ApplyTombstones(db, init, now), ApplyTombstones(db, ts, now);
      TombstonesBecomeKnown(db, init, now);
      ApplyTombstonesShrinks(db, init, now);
      ApplyTombstoneShrinks(d, last, now);
      forall i | 0 <= i < |ts| ensures Blank(ts[i]) || HasTombstone(e.tombstones, ts[i].table, ts[i].key) {
        if i < |init| {
          assert ts[i] == init[i];
        } else if !Blank(last) && !HasTombstone(d.tombstones, last.table, last.key) {
          assert last in e.tombstones;
        }
      }
    }
  }

  ghost predicate ProjectRowLoses(table: ProjectTable, tombs: set<Tombstone>, r: ProjectRow) {
    || r.name == ""
    || Covers(tombs, Projects, r.name, r.updatedAt)
    || (r.name in table.rows && table.rows[r.name].updatedAt >= r.updatedAt)
  }

  lemma {:induction false} LosingProjectsChangeNothing(table: ProjectTable, tombs: set<Tombstone>,
                                                       rows: seq<ProjectRow>)
    requires forall i :: 0 <= i < |rows| ==> ProjectRowLoses(table, tombs, rows[i])
    ensures MergeProjects(table, tombs, rows) == table
  {
    if rows != [] {
      LosingProjectsChangeNothing(table, tombs, rows[..|rows| - 1]);
    }
  }

  lemma {:induction false} LosingAppsChangeNothing(table: AppTable, tombs: set<Tombstone>, projects: Links,
                                                   rows: seq<AppRow>, now: Time)
    requires forall i :: 0 <= i < |rows| ==> AppRowLoses(table, tombs, rows[i])
    ensures MergeApps(table, tombs, projects, rows, now) == table
  {
    if rows != [] {
      LosingAppsChangeNothing(table, tombs, projects, rows[..|rows| - 1], now);
    }
  }

  /** Rows that lose, or that INSERT OR IGNORE skips, change nothing. A row that does neither would
      make the merge fail, so without a failure there is none. */
  lemma {:induction false} LosingSessionsChangeNothing(sessions: map<SessionKey, Session>, tombs: set<Tombstone>,
                                                       apps: Links, projects: Links, rows: seq<SessionRow>, now: Time)
    requires forall i :: 0 <= i < |rows| ==> rows[i].end.None? || SessionRowLoses(sessions, tombs, apps, rows[i])
    requires !SessionsFail(sessions, tombs, apps, projects, rows, now)
    ensures MergeSessions(sessions, tombs, apps, projects, rows, now) == sessions
  {
    if rows != [] {
      LosingSessionsChangeNothing(sessions, tombs, apps, projects, rows[..|rows| - 1], now);
    }
  }

  lemma {:induction false} LosingManualsChangeNothing(manuals: map<ManualKey, Manual>, tombs: set<Tombstone>,
                                                      apps: Links, projects: Links, rows: seq<ManualRow>, now: Time)
    requires forall i :: 0 <= i < |rows| ==> ManualRowLoses(manuals, tombs, rows[i])
    ensures MergeManuals(manuals, tombs, apps, projects, rows, now) == manuals
  {
    if rows != [] {
      LosingManualsChangeNothing(manuals, tombs, apps, projects, rows[..|rows| - 1], now);
    }
  }

  lemma ManualStaysByOne(manuals: map<ManualKey, Manual>, tombs: set<Tombstone>, apps: Links, projects: Links,
                         r: ManualRow,
                         now: Time, k: ManualKey, u: Time)
    requires k in manuals && manuals[k].updatedAt >= u && u <= now
    ensures var after := MergeManual(manuals, tombs, apps, projects, r, now); k in after && after[k].updatedAt >= u
  {
  }

  /** A manual session at `u` or later stays so, if the clock that may stamp it is not behind `u`. */
  lemma {:induction false} ManualStaysAt(manuals: map<ManualKey, Manual>, tombs: set<Tombstone>, apps: Links,
                                         projects: Links, rows: seq<ManualRow>, now: Time, k: ManualKey, u: Time)
    requires k in manuals && manuals[k].updatedAt >= u && u <= now
    ensures var after := MergeManuals(manuals, tombs, apps, projects, rows, now); k in after && after[k].updatedAt >= u
  {
    if rows != [] {
      ManualStaysAt(manuals, tombs, apps, projects, rows[..|rows| - 1], now, k, u);
      ManualStaysByOne(MergeManuals(manuals, tombs, apps, projects, rows[..|rows| - 1], now), tombs, apps, projects,
                       rows[|rows| - 1], now, k, u);
    }
  }

  lemma ManualStillLoses(manuals: map<ManualKey, Manual>, tombs: set<Tombstone>, apps: Links, projects: Links,
                         rows: seq<ManualRow>, r: ManualRow, now: Time)
    requires ManualRowLoses(manuals, tombs, r) && r.updatedAt <= now
    ensures ManualRowLoses(MergeManuals(manuals, tombs, apps, projects, rows, now), tombs, r)
  {
    var key := ManualKey(r.title, r.start);
    if key in manuals && manuals[key].updatedAt >= r.updatedAt {
      ManualStaysAt(manuals, tombs, apps, projects, rows, now, key, r.updatedAt);
    }
  }

  /** A row of the phase that the clock has reached loses afterwards: it has been taken, or lost before. */
  lemma {:induction false} ManualRowArrives(manuals: map<ManualKey, Manual>, tombs: set<Tombstone>, apps: Links,
                                            projects: Links, rows: seq<ManualRow>, now: Time, i: nat)
    requires i < |rows| && rows[i].updatedAt <= now
    ensures ManualRowLoses(MergeManuals(manuals, tombs, apps, projects, rows, now), tombs, rows[i])
  {
    var init, last := rows[..|rows| - 1], rows[|rows| - 1];
    var mid := MergeManuals(manuals, tombs, apps, projects, init, now);
    if i < |init| {
      ManualRowArrives(manuals, tombs, apps, projects, init, now, i);
      var key := ManualKey(rows[i].title, rows[i].start);
      if key in mid && mid[key].updatedAt >= rows[i].updatedAt {
        ManualStaysByOne(mid, tombs, apps, projects, last, now, key, rows[i].updatedAt);
      }
    }
  }

  // ----- delta pulls -----

  function SessionsSince(rows: seq<SessionRow>, since: Time): seq<SessionRow> {
    if rows == [] then []
    else if rows[|rows| - 1].updatedAt >= since then SessionsSince(rows[..|rows| - 1], since) + [rows[|rows| - 1]]
    else SessionsSince(rows[..|rows| - 1], since)
  }

  function ManualsSince(rows: seq<ManualRow>, since: Time): seq<ManualRow> {
    if rows == [] then []
    else if rows[|rows| - 1].updatedAt >= since then ManualsSince(rows[..|rows| - 1], since) + [rows[|rows| - 1]]
    else ManualsSince(rows[..|rows| - 1], since)
  }

  function TombstonesSince(ts: seq<Tombstone>, since: Time): seq<Tombstone> {
    if ts == [] then []
    else if ts[|ts| - 1].deletedAt >= since then TombstonesSince(ts[..|ts| - 1], since) + [ts[|ts| - 1]]
    else TombstonesSince(ts[..|ts| - 1], since)
  }

  /** The part of a full export that a pull since `since` brings. */
  function DeltaOf(p: Payload, since: Time): Payload {
    Payload(p.projects, p.apps, SessionsSince(p.sessions, since), ManualsSince(p.manuals, since),
        TombstonesSince(p.tombstones, since))
  }

  lemma {:induction false} SessionsSinceHas(rows: seq<SessionRow>, since: Time, r: SessionRow)
    ensures r in SessionsSince(rows, since) <==> r in rows && r.updatedAt >= since
  {
    if rows != [] {
      assert rows == rows[..|rows| - 1] + [rows[|rows| - 1]];
      SessionsSinceHas(rows[..|rows| - 1], since, r);
    }
  }

  lemma {:induction false} ManualsSinceHas(rows: seq<ManualRow>, since: Time, r: ManualRow)
    ensures r in ManualsSince(rows, since) <==> r in rows && r.updatedAt >= since
  {
    if rows != [] {
      assert rows == rows[..|rows| - 1] + [rows[|rows| - 1]];
      ManualsSinceHas(rows[..|rows| - 1], since, r);
    }
  }

  lemma {:induction false} TombstonesSinceHas(ts: seq<Tombstone>, since: Time, t: Tombstone)
    ensures t in TombstonesSince(ts, since) <==> t in ts && t.deletedAt >= since
  {
    if ts != [] {
      assert ts == ts[..|ts| - 1] + [ts[|ts| - 1]];
      TombstonesSinceHas(ts[..|ts| - 1], since, t);
    }
  }

  lemma {:induction false} SessionsSinceDistinct(rows: seq<SessionRow>, since: Time)
    requires forall i, j :: 0 <= i < j < |rows| ==> KeyOf(rows[i]) != KeyOf(rows[j])
    ensures var d := SessionsSince(rows, since); forall i, j :: 0 <= i < j < |d| ==> KeyOf(d[i]) != KeyOf(d[j])
  {
    if rows != [] {
      var init := rows[..|rows| - 1];
      SessionsSinceDistinct(init, since);
      var d := SessionsSince(init, since);
      forall i | 0 <= i < |d| ensures KeyOf(d[i]) != KeyOf(rows[|rows| - 1]) {
        SessionsSinceHas(init, since, d[i]);
        var j :| 0 <= j < |init| && init[j] == d[i];
      }
    }
  }

  lemma {:induction false} ManualsSinceDistinct(rows: seq<ManualRow>, since: Time)
    requires forall i, j :: 0 <= i < j < |rows| ==> ManualKeyOf(rows[i]) != ManualKeyOf(rows[j])
    ensures var d := ManualsSince(rows, since); forall i, j :: 0 <= i < j < |d| ==>
              ManualKeyOf(d[i]) != ManualKeyOf(d[j])
  {
    if rows != [] {
      var init := rows[..|rows| - 1];
      ManualsSinceDistinct(init, since);
      var d := ManualsSince(init, since);
      forall i | 0 <= i < |d| ensures ManualKeyOf(d[i]) != ManualKeyOf(rows[|rows| - 1]) {
        ManualsSinceHas(init, since, d[i]);
        var j :| 0 <= j < |init| && init[j] == d[i];
      }
    }
  }

  lemma {:induction false} TombstonesSinceSorted(ts: seq<Tombstone>, since: Time)
    requires InOrder(ts) && NoRepeats(ts)
    ensures InOrder(TombstonesSince(ts, since)) && NoRepeats(TombstonesSince(ts, since))
  {
    if ts != [] {
      var init := ts[..|ts| - 1];
      TombstonesSinceSorted(init, since);
      var d := TombstonesSince(init, since);
      forall i | 0 <= i < |d| ensures d[i].deletedAt <= ts[|ts| - 1].deletedAt && d[i] != ts[|ts| - 1] {
        TombstonesSinceHas(init, since, d[i]);
        var j :| 0 <= j < |init| && init[j] == d[i];
      }
    }
  }

  lemma DeltaListsSessions(rows: seq<SessionRow>, sessions: map<SessionKey, Session>, since: Time)
    requires ListsSessions(rows, sessions, EPOCH)
    ensures ListsSessions(SessionsSince(rows, since), sessions, since)
  {
    var d := SessionsSince(rows, since);
    SessionsSinceDistinct(rows, since);
    forall i | 0 <= i < |d| ensures d[i] in rows && d[i].updatedAt >= since {
      SessionsSinceHas(rows, since, d[i]);
    }
    forall k | k in sessions && sessions[k].updatedAt >= since ensures exists i :: 0 <= i < |d| && KeyOf(d[i]) == k {
      var j :| 0 <= j < |rows| && KeyOf(rows[j]) == k;
      SessionsSinceHas(rows, since, rows[j]);
    }
  }

  lemma DeltaListsManuals(rows: seq<ManualRow>, manuals: map<ManualKey, Manual>, since: Time)
    requires ListsManuals(rows, manuals, EPOCH)
    ensures ListsManuals(ManualsSince(rows, since), manuals, since)
  {
    var d := ManualsSince(rows, since);
    ManualsSinceDistinct(rows, since);
    forall i | 0 <= i < |d| ensures d[i] in rows && d[i].updatedAt >= since {
      ManualsSinceHas(rows, since, d[i]);
    }
    forall k | k in manuals && manuals[k].updatedAt >= since ensures exists i :: 0 <= i < |d| &&
                                                                                 ManualKeyOf(d[i]) == k {
      var j :| 0 <= j < |rows| && ManualKeyOf(rows[j]) == k;
      ManualsSinceHas(rows, since, rows[j]);
    }
  }

  /** The delta of a full export is what the same database answers to a pull since `since`. */
  lemma DeltaIsExport(db: Db, p: Payload, since: Time)
    requires IsExport(db, EPOCH, p)
    ensures IsExport(db, since, DeltaOf(p, since))
  {
    DeltaListsSessions(p.sessions, db.sessions, since);
    DeltaListsManuals(p.manuals, db.manuals, since);
    var d := TombstonesSince(p.tombstones, since);
    TombstonesSinceSorted(p.tombstones, since);
    forall t ensures t in d <==> t in p.tombstones && t.deletedAt >= since {
      TombstonesSinceHas(p.tombstones, since, t);
    }
  }

  // ----- what the master must have absorbed -----

  /** The master already has what a session row from before the cutoff would bring. */
  ghost predicate SessionAbsorbed(m: Db, p: Payload, r: SessionRow) {
    || r.start == ""
    || r.appId !in RemoteApps(p.apps)
    || (var exe := RemoteApps(p.apps)[r.appId];
        || Covers(m.tombstones, Sessions, SessionKeyText(exe, r.start), r.updatedAt)
        || (if exe in m.apps.rows
            then SessionKey(m.apps.rows[exe].id, r.start) in m.sessions
                 && m.sessions[SessionKey(m.apps.rows[exe].id, r.start)].updatedAt >= r.updatedAt
            else forall j :: 0 <= j < |p.apps| && p.apps[j].exe == exe ==>
                Covers(m.tombstones, Applications, exe, p.apps[j].updatedAt)))
  }

  ghost predicate ManualAbsorbed(m: Db, r: ManualRow) {
    var key := ManualKeyOf(r);
    || r.title == ""
    || r.start == ""
    || CoversManual(m.tombstones, key, r.updatedAt)
    || (key in m.manuals && m.manuals[key].updatedAt >= r.updatedAt)
  }

  /** Everything in the full export from before the cutoff, and every application deletion in it, is old news. */
  ghost predicate Absorbed(m: Db, p: Payload, since: Time) {
    && (forall i :: 0 <= i < |p.tombstones| &&
                    (p.tombstones[i].deletedAt < since || p.tombstones[i].table == Applications) ==>
          Blank(p.tombstones[i]) || HasTombstone(m.tombstones, p.tombstones[i].table, p.tombstones[i].key))
    && (forall i :: 0 <= i < |p.sessions| && p.sessions[i].updatedAt < since ==> SessionAbsorbed(m, p, p.sessions[i]))
    && (forall i :: 0 <= i < |p.manuals| && p.manuals[i].updatedAt < since ==> ManualAbsorbed(m, p.manuals[i]))
  }

  lemma {:induction false} OldTombstonesChangeNothing(db: Db, ts: seq<Tombstone>, since: Time, now: Time)
    requires !db.triggersOn
    requires forall i :: 0 <= i < |ts| && ts[i].deletedAt < since ==>
               Blank(ts[i]) || HasTombstone(db.tombstones, ts[i].table, ts[i].key)
    ensures ApplyTombstones(db, TombstonesSince(ts, since), now) == ApplyTombstones(db, ts, now)
  {
    if ts != [] {
      var init, last := ts[..|ts| - 1], ts[|ts| - 1];
      OldTombstonesChangeNothing(db, init, since, now);
      ApplyTombstonesShrinks(db, init, now);
      if last.deletedAt >= since {
        var d := TombstonesSince(ts, since);
        assert d[..|d| - 1] == TombstonesSince(init, since);
      }
    }
  }

  lemma SessionKeptByOne(d: Db, t: Tombstone, now: Time, exe: string, start: string, u: Time)
    requires u <= now && !d.triggersOn && IdsOk(d) && exe in d.apps.rows
    requires var k := SessionKey(d.apps.rows[exe].id, start); k in d.sessions && d.sessions[k].updatedAt >= u
    requires t.table == Applications ==> Blank(t) || HasTombstone(d.tombstones, Applications, t.key)
    ensures var e, k := ApplyTombstone(d, t, now), SessionKey(d.apps.rows[exe].id, start);
            (k in e.sessions && e.sessions[k].updatedAt >= u) ||
                Covers(e.tombstones, Sessions, SessionKeyText(exe, start), u)
  {
    var e, k := ApplyTombstone(d, t, now), SessionKey(d.apps.rows[exe].id, start);
    ApplyTombstoneSparesSession(d, t, now, exe, start);
    if k in e.sessions {
      ApplyTombstoneShrinks(d, t, now);
    } else {
      SplitOnceSound(t.key);
      assert t in e.tombstones;
    }
  }

  lemma AppsKeptByOne(d: Db, t: Tombstone, now: Time, exe: string)
    requires !d.triggersOn && exe in d.apps.rows
    requires t.table == Applications ==> Blank(t) || HasTombstone(d.tombstones, Applications, t.key)
    ensures var e := ApplyTombstone(d, t, now); exe in e.apps.rows && e.apps.rows[exe].id == d.apps.rows[exe].id
    ensures d.tombstones <= ApplyTombstone(d, t, now).tombstones
  {
  }

  /** A session at `u` or later survives the tombstone phase as such, or a session tombstone covers `u`, when
      the phase adopts no deletion of an application and the clock is not behind `u`. */
  lemma {:induction false} SessionKeptOrCovered(db: Db, ts: seq<Tombstone>, now: Time, exe: string, start: string,
                                                u: Time)
    requires u <= now && !db.triggersOn && IdsOk(db) && exe in db.apps.rows &&
               SessionKey(db.apps.rows[exe].id, start) in db.sessions
    requires db.sessions[SessionKey(db.apps.rows[exe].id, start)].updatedAt >= u
    requires forall i :: 0 <= i < |ts| && ts[i].table == Applications ==>
               Blank(ts[i]) || HasTombstone(db.tombstones, Applications, ts[i].key)
    ensures var d, k := ApplyTombstones(db, ts, now), SessionKey(db.apps.rows[exe].id, start);
            && exe in d.apps.rows
            && d.apps.rows[exe].id == db.apps.rows[exe].id
            && ((k in d.sessions && d.sessions[k].updatedAt >= u) ||
                 Covers(d.tombstones, Sessions, SessionKeyText(exe, start), u))
  {
    if ts != [] {
      var init, last := ts[..|ts| - 1], ts[|ts| - 1];
      var d, k := ApplyTombstones(db, init, now), SessionKey(db.apps.rows[exe].id, start);
      SessionKeptOrCovered(db, init, now, exe, start, u);
      ApplyTombstonesShrinks(db, init, now);
      ShrinksKeepsIds(db, d, now);
      AppsKeptByOne(d, last, now, exe);
      if k in d.sessions && d.sessions[k].updatedAt >= u {
        SessionKeptByOne(d, last, now, exe, start, u);
      }
    }
  }

  lemma {:induction false} ManualKeptOrCovered(db: Db, ts: seq<Tombstone>, now: Time, k: ManualKey, u: Time)
    requires u <= now && !db.triggersOn && k in db.manuals && db.manuals[k].updatedAt >= u
    ensures var d := ApplyTombstones(db, ts, now);
            (k in d.manuals && d.manuals[k].updatedAt >= u) || CoversManual(d.tombstones, k, u)
  {
    if ts != [] {
      var init, last := ts[..|ts| - 1], ts[|ts| - 1];
      var d := ApplyTombstones(db, init, now);
      ManualKeptOrCovered(db, init, now, k, u);
      ApplyTombstonesShrinks(db, init, now);
      ApplyTombstoneShrinks(d, last, now);
      SplitManualKeyEnds(last.key);
    }
  }

  lemma SplitManualKeyEnds(text: string)
    ensures SplitManualKey(text).Some? ==>
              EndsWith(text, "|" + SplitManualKey(text).value.start + "|" + SplitManualKey(text).value.title)
  {
    SplitOnceSound(text);
    if SplitOnce(text).Some? {
      var (head, rest) := SplitOnce(text).value;
      SplitOnceSound(rest);
      if SplitOnce(rest).Some? {
        var (start, title) := SplitOnce(rest).value;
        var suffix := "|" + start + "|" + title;
        assert "|" + rest == suffix;
        assert text == head + suffix;
      }
    }
  }

  lemma {:induction false} CoveredAppStaysOut(table: AppTable, tombs: set<Tombstone>, projects: Links,
                                              rows: seq<AppRow>, exe: string, now: Time)
    requires exe !in table.rows
    requires forall i :: 0 <= i < |rows| && rows[i].exe == exe ==> Covers(tombs, Applications, exe, rows[i].updatedAt)
    ensures exe !in MergeApps(table, tombs, projects, rows, now).rows
  {
    if rows != [] {
      CoveredAppStaysOut(table, tombs, projects, rows[..|rows| - 1], exe, now);
    }
  }

  /** A row that loses at first still loses once other rows have been merged. */
  lemma StillLoses(sessions: map<SessionKey, Session>, tombs: set<Tombstone>, apps: Links, projects: Links,
                   rows: seq<SessionRow>,
                   r: SessionRow, now: Time)
    requires SessionRowLoses(sessions, tombs, apps, r)
    ensures SessionRowLoses(MergeSessions(sessions, tombs, apps, projects, rows, now), tombs, apps, r)
  {
    MergeSessionsKeys(sessions, tombs, apps, projects, rows, now);
  }

  /** A last row that loses changes nothing and fails nothing. */
  lemma LosingLast(sessions: map<SessionKey, Session>, tombs: set<Tombstone>, apps: Links, projects: Links,
                   rows: seq<SessionRow>, now: Time)
    requires rows != [] && SessionRowLoses(sessions, tombs, apps, rows[|rows| - 1])
    ensures var init := rows[..|rows| - 1];
            && MergeSessions(sessions, tombs, apps, projects, rows, now) ==
                 MergeSessions(sessions, tombs, apps, projects, init, now)
            && SessionsFail(sessions, tombs, apps, projects, rows, now) ==
                 SessionsFail(sessions, tombs, apps, projects, init, now)
  {
    StillLoses(sessions, tombs, apps, projects, rows[..|rows| - 1], rows[|rows| - 1], now);
  }

  /** Lists that end in one row agree when what comes before it does. */
  lemma SameLast(sessions: map<SessionKey, Session>, tombs: set<Tombstone>, apps: Links, projects: Links,
                 a: seq<SessionRow>, b: seq<SessionRow>, now: Time)
    requires a != [] && b != [] && a[|a| - 1] == b[|b| - 1]
    requires MergeSessions(sessions, tombs, apps, projects, a[..|a| - 1], now) ==
               MergeSessions(sessions, tombs, apps, projects, b[..|b| - 1], now)
    requires SessionsFail(sessions, tombs, apps, projects, a[..|a| - 1], now) ==
               SessionsFail(sessions, tombs, apps, projects, b[..|b| - 1], now)
    ensures MergeSessions(sessions, tombs, apps, projects, a, now) ==
              MergeSessions(sessions, tombs, apps, projects, b, now)
    ensures SessionsFail(sessions, tombs, apps, projects, a, now) ==
              SessionsFail(sessions, tombs, apps, projects, b, now)
  {
  }

  lemma LastSince(rows: seq<SessionRow>, since: Time)
    requires rows != [] && rows[|rows| - 1].updatedAt >= since
    ensures var d := SessionsSince(rows, since);
            d != [] && d[..|d| - 1] == SessionsSince(rows[..|rows| - 1], since) && d[|d| - 1] == rows[|rows| - 1]
  {
  }

  lemma {:induction false} OldSessionsChangeNothing(sessions: map<SessionKey, Session>, tombs: set<Tombstone>,
                                                    apps: Links, projects: Links,
                                                    rows: seq<SessionRow>, since: Time, now: Time)
    requires forall i :: 0 <= i < |rows| && rows[i].updatedAt < since ==>
               SessionRowLoses(sessions, tombs, apps, rows[i])
    ensures MergeSessions(sessions, tombs, apps, projects, SessionsSince(rows, since), now) ==
              MergeSessions(sessions, tombs, apps, projects, rows, now)
    ensures SessionsFail(sessions, tombs, apps, projects, SessionsSince(rows, since), now) ==
              SessionsFail(sessions, tombs, apps, projects, rows, now)
  {
    if rows != [] {
      OldSessionsChangeNothing(sessions, tombs, apps, projects, rows[..|rows| - 1], since, now);
      if rows[|rows| - 1].updatedAt >= since {
        LastSince(rows, since);
        SameLast(sessions, tombs, apps, projects, SessionsSince(rows, since), rows, now);
      } else {
        LosingLast(sessions, tombs, apps, projects, rows, now);
      }
    }
  }

  lemma LastManualSince(rows: seq<ManualRow>, since: Time)
    requires rows != [] && rows[|rows| - 1].updatedAt >= since
    ensures var d := ManualsSince(rows, since);
            d != [] && d[..|d| - 1] == ManualsSince(rows[..|rows| - 1], since) && d[|d| - 1] == rows[|rows| - 1]
  {
  }

  lemma {:induction false} OldManualsChangeNothing(manuals: map<ManualKey, Manual>, tombs: set<Tombstone>,
                                                   apps: Links, projects: Links,
                                                   rows: seq<ManualRow>, since: Time, now: Time)
    requires since <= now
    requires forall i :: 0 <= i < |rows| && rows[i].updatedAt < since ==> ManualRowLoses(manuals, tombs, rows[i])
    ensures MergeManuals(manuals, tombs, apps, projects, ManualsSince(rows, since), now) ==
              MergeManuals(manuals, tombs, apps, projects, rows, now)
    ensures ManualsFail(manuals, tombs, apps, projects, ManualsSince(rows, since), now) ==
              ManualsFail(manuals, tombs, apps, projects, rows, now)
  {
    if rows != [] {
      var init, last := rows[..|rows| - 1], rows[|rows| - 1];
      OldManualsChangeNothing(manuals, tombs, apps, projects, init, since, now);
      if last.updatedAt >= since {
        LastManualSince(rows, since);
      } else {
        ManualStillLoses(manuals, tombs, apps, projects, init, last, now);
      }
    }
  }

  /** A session the master has is not behind the old row when the row phases begin. */
  lemma HeldSessionWins(m: Db, p: Payload, now: Time, exe: string, start: string, u: Time)
    requires IdsOk(m) && u <= now && exe in m.apps.rows
    requires var k := SessionKey(m.apps.rows[exe].id, start); k in m.sessions && m.sessions[k].updatedAt >= u
    requires forall i :: 0 <= i < |p.tombstones| && p.tombstones[i].table == Applications ==>
                           Blank(p.tombstones[i]) || HasTombstone(m.tombstones, Applications, p.tombstones[i].key)
    ensures var d, k := AfterApps(m, p, now), SessionKey(m.apps.rows[exe].id, start);
            && exe in d.apps.rows && d.apps.rows[exe].id == k.appId
            && ((k in d.sessions && d.sessions[k].updatedAt >= u) ||
                 Covers(d.tombstones, Sessions, SessionKeyText(exe, start), u))
  {
    var m0, d1, d2 := m.(triggersOn := false), AfterTombstones(m, p, now), AfterProjects(m, p, now);
    ApplyTombstonesShrinks(m0, p.tombstones, now);
    ShrinksKeepsIds(m0, d1, now);
    SessionKeptOrCovered(m0, p.tombstones, now, exe, start, u);
    MergeAppsKeepsIds(d2.apps, d2.tombstones, ProjectLinks(d2, p), p.apps, now);
  }

  lemma AbsorbedSessionLoses(m: Db, p: Payload, since: Time, now: Time, i: nat)
    requires IdsOk(m) && Absorbed(m, p, since) && i < |p.sessions| && p.sessions[i].updatedAt < since <= now
    ensures var d := AfterApps(m, p, now); SessionRowLoses(d.sessions, d.tombstones, AppLinks(d, p), p.sessions[i])
  {
    var r, d2, d3 := p.sessions[i], AfterProjects(m, p, now), AfterApps(m, p, now);
    assert SessionAbsorbed(m, p, r);
    ApplyTombstonesShrinks(m.(triggersOn := false), p.tombstones, now);
    if LocalSessionKey(AppLinks(d3, p), r).Some? {
      var exe := RemoteApps(p.apps)[r.appId];
      if Covers(m.tombstones, Sessions, SessionKeyText(exe, r.start), r.updatedAt) {
      } else if exe in m.apps.rows {
        HeldSessionWins(m, p, now, exe, r.start, r.updatedAt);
      } else {
        CoveredAppStaysOut(d2.apps, d2.tombstones, ProjectLinks(d2, p), p.apps, exe, now);
      }
    }
  }

  lemma AbsorbedManualLoses(m: Db, p: Payload, since: Time, now: Time, i: nat)
    requires Absorbed(m, p, since) && i < |p.manuals| && p.manuals[i].updatedAt < since <= now
    ensures var d := AfterTombstones(m, p, now); ManualRowLoses(d.manuals, d.tombstones, p.manuals[i])
  {
    var m0, r := m.(triggersOn := false), p.manuals[i];
    assert ManualAbsorbed(m, r);
    ApplyTombstonesShrinks(m0, p.tombstones, now);
    if ManualKeyOf(r) in m.manuals && m.manuals[ManualKeyOf(r)].updatedAt >= r.updatedAt {
      ManualKeptOrCovered(m0, p.tombstones, now, ManualKeyOf(r), r.updatedAt);
    }
  }

  /** A delta pull refines a full pull: a master that has absorbed what is older than the cutoff
      ends in the same state, failures included, whichever of the two it merges. The clock must have
      reached the cutoff: a row that loses its link is stamped by it. */
  lemma DeltaRefinesFull(m: Db, p: Payload, since: Time, now: Time)
    requires IdsOk(m) && Absorbed(m, p, since) && since <= now
    ensures MergeOutcome(m, DeltaOf(p, since), now) == MergeOutcome(m, p, now)
  {
    var m0, q := m.(triggersOn := false), DeltaOf(p, since);
    OldTombstonesChangeNothing(m0, p.tombstones, since, now);
    assert AfterApps(m, q, now) == AfterApps(m, p, now);
    var d3 := AfterApps(m, p, now);
    forall i | 0 <= i < |p.sessions| && p.sessions[i].updatedAt < since
      ensures SessionRowLoses(d3.sessions, d3.tombstones, AppLinks(d3, p), p.sessions[i])
    {
      AbsorbedSessionLoses(m, p, since, now, i);
    }
    OldSessionsChangeNothing(d3.sessions, d3.tombstones, AppLinks(d3, p), ProjectLinks(d3, p), p.sessions, since, now);
    forall i | 0 <= i < |p.manuals| &&
        p.manuals[i].updatedAt < since ensures ManualRowLoses(d3.manuals, d3.tombstones, p.manuals[i]) {
      AbsorbedManualLoses(m, p, since, now, i);
    }
    OldManualsChangeNothing(d3.manuals, d3.tombstones, AppLinks(d3, p), ProjectLinks(d3, p), p.manuals, since, now);
  }
}
