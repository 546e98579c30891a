/** What no sequence of merges can do: resurrect a deleted record, lose a live one, or make up a deletion. */
module SyncSafety {
  import opened Options
  import opened SyncTypes
  import opened SyncMerge
  import opened SyncInvariants
  import opened SyncRepair

  // ----- where tombstones come from -----

  /** The stamp of the first tombstone for a key, which is the one a merge adopts. */
  function FirstFor(ts: seq<Tombstone>, table: TableName, key: string): Option<Time> {
    if ts == [] then None
    else
      var before := FirstFor(ts[..|ts| - 1], table, key);
      if before.Some? then before
      else if ts[|ts| - 1].table == table && ts[|ts| - 1].key == key then Some(ts[|ts| - 1].deletedAt)
      else None
  }

  lemma {:induction false} FirstForIsFirst(ts: seq<Tombstone>, table: TableName, key: string)
    ensures FirstFor(ts, table, key).Some? <==> exists i :: 0 <= i < |ts| && ts[i].table == table && ts[i].key == key
    ensures FirstFor(ts, table, key).Some? ==>
              exists i :: 0 <= i < |ts| && ts[i] == Tombstone(table, key, FirstFor(ts, table, key).value)
                       && forall j :: 0 <= j < i ==> !(ts[j].table == table && ts[j].key == key)
  {
    if ts != [] {
      var init, last := ts[..|ts| - 1], |ts| - 1;
      FirstForIsFirst(init, table, key);
      if FirstFor(init, table, key).Some? {
        var i :| 0 <= i < |init| && init[i] == Tombstone(table, key, FirstFor(init, table, key).value)
              && forall j :: 0 <= j < i ==> !(init[j].table == table && init[j].key == key);
        assert ts[i] == init[i] && forall j :: 0 <= j < i ==> ts[j] == init[j];
      } else {
        assert forall j :: 0 <= j < last ==> ts[j] == init[j];
      }
    }
  }

  /** After the tombstone phase the store holds what it held, and for each new key the
      payload's first tombstone with its own stamp; nothing else. */
  lemma {:induction false} TombstonesAdopted(db: Db, ts: seq<Tombstone>, now: Time)
    requires !db.triggersOn
    ensures forall t :: t in ApplyTombstones(db, ts, now).tombstones <==>
                          || t in db.tombstones
                          || (&& !Blank(t)
                              && !HasTombstone(db.tombstones, t.table, t.key)
                              && FirstFor(ts, t.table, t.key) == Some(t.deletedAt))
  {
    if ts != [] {
      var init, last := ts[..|ts| - 1], ts[|ts| - 1];
      TombstonesAdopted(db, init, now);
      ApplyTombstonesShrinks(db, init, now);
      var d := ApplyTombstones(db, init, now);
      if !Blank(last) {
        AdoptedHasKey(db, d, init, last.table, last.key);
      }
      ReplayShrinks(d, last, now);
      assert forall t :: t in ApplyTombstones(db, ts, now).tombstones <==>
                         t in d.tombstones ||
                             (t == last && !Blank(t) && !HasTombstone(d.tombstones, last.table, last.key));
    }
  }

  lemma AdoptedHasKey(db: Db, d: Db, ts: seq<Tombstone>, table: TableName, key: string)
    requires forall t :: t in d.tombstones <==>
                           || t in db.tombstones
                           || (!Blank(t) && !HasTombstone(db.tombstones, t.table, t.key) &&
                                FirstFor(ts, t.table, t.key) == Some(t.deletedAt))
    requires table != Unknown("") && key != ""
    ensures HasTombstone(d.tombstones, table, key) <==>
              HasTombstone(db.tombstones, table, key) || FirstFor(ts, table, key).Some?
  {
    if HasTombstone(db.tombstones, table, key) {
      var t :| t in db.tombstones && t.table == table && t.key == key;
      assert t in d.tombstones;
    } else if FirstFor(ts, table, key).Some? {
      assert Tombstone(table, key, FirstFor(ts, table, key).value) in d.tombstones;
    }
  }

  /** The cascades of a merge mint nothing: no reading of the clock enters the stored tombstones, each
      was stored before or is the payload's own, and the triggers are back. */
  lemma MergeMintsNothing(db: Db, p: Payload, now: Time, other: Time)
    ensures Merged(db, p, now).tombstones == Merged(db, p, other).tombstones
    ensures Merged(db, p, now).triggersOn
    ensures forall t :: t in Merged(db, p, now).tombstones <==>
                          || t in db.tombstones
                          || (&& !Blank(t)
                              && !HasTombstone(db.tombstones, t.table, t.key)
                              && FirstFor(p.tombstones, t.table, t.key) == Some(t.deletedAt))
  {
    TombstonesAdopted(db.(triggersOn := false), p.tombstones, now);
    TombstonesAdopted(db.(triggersOn := false), p.tombstones, other);
  }

  // ----- no resurrection -----

  /** The clock is ahead of every stored deletion. */
  ghost predicate Ahead(tombs: set<Tombstone>, now: Time) {
    forall t :: t in tombs ==> t.deletedAt < now
  }

  ghost predicate ProjectsUncovered(db: Db) {
    forall n :: n in db.projects.rows ==> !Covers(db.tombstones, Projects, n, db.projects.rows[n].updatedAt)
  }

  /** The sessions of one executable are all newer than their tombstones. */
  ghost predicate SessionsUncoveredOf(db: Db, exe: string) {
    exe in db.apps.rows ==>
      forall k :: k in db.sessions && k.appId == db.apps.rows[exe].id ==>
        !Covers(db.tombstones, Sessions, SessionKeyText(exe, k.start), db.sessions[k].updatedAt)
  }

  lemma ApplyTombstoneUncovers(db: Db, t: Tombstone, now: Time)
    requires !db.triggersOn && ProjectsUncovered(db)
    ensures ProjectsUncovered(ApplyTombstone(db, t, now))
  {
    ApplyTombstoneShrinks(db, t, now);
  }

  lemma {:induction false} ApplyTombstonesUncovers(db: Db, ts: seq<Tombstone>, now: Time)
    requires !db.triggersOn && ProjectsUncovered(db)
    ensures ProjectsUncovered(ApplyTombstones(db, ts, now))
  {
    if ts != [] {
      ApplyTombstonesUncovers(db, ts[..|ts| - 1], now);
      ApplyTombstonesShrinks(db, ts[..|ts| - 1], now);
      ApplyTombstoneUncovers(ApplyTombstones(db, ts[..|ts| - 1], now), ts[|ts| - 1], now);
    }
  }

  lemma {:induction false} MergeProjectsUncovers(table: ProjectTable, tombs: set<Tombstone>, rows: seq<ProjectRow>)
    requires forall n :: n in table.rows ==> !Covers(tombs, Projects, n, table.rows[n].updatedAt)
    ensures forall n :: n in MergeProjects(table, tombs, rows).rows ==>
                          !Covers(tombs, Projects, n, MergeProjects(table, tombs, rows).rows[n].updatedAt)
  {
    if rows != [] {
      MergeProjectsUncovers(table, tombs, rows[..|rows| - 1]);
    }
  }

  lemma MergedUncoversProjects(db: Db, p: Payload, now: Time)
    requires ProjectsUncovered(db)
    ensures ProjectsUncovered(Merged(db, p, now))
  {
    ApplyTombstonesUncovers(db.(triggersOn := false), p.tombstones, now);
    var d := AfterTombstones(db, p, now);
    MergeProjectsUncovers(d.projects, d.tombstones, p.projects);
  }

  lemma ApplyTombstoneUncoversSessions(db: Db, t: Tombstone, now: Time, exe: string)
    requires !db.triggersOn && '|' !in exe && SessionsUncoveredOf(db, exe)
    requires Ahead(ApplyTombstone(db, t, now).tombstones, now)
    ensures SessionsUncoveredOf(ApplyTombstone(db, t, now), exe)
  {
    var d := ApplyTombstone(db, t, now);
    ApplyTombstoneShrinks(db, t, now);
    if exe in d.apps.rows {
      forall k | k in d.sessions && k.appId == d.apps.rows[exe].id
        ensures !Covers(d.tombstones, Sessions, SessionKeyText(exe, k.start), d.sessions[k].updatedAt)
      {
        SplitOnceInverse(exe, k.start);
        assert k == SessionKey(db.apps.rows[exe].id, k.start);
      }
    }
  }

  lemma {:induction false} ApplyTombstonesUncoversSessions(db: Db, ts: seq<Tombstone>, now: Time, exe: string)
    requires !db.triggersOn && '|' !in exe && SessionsUncoveredOf(db, exe)
    requires Ahead(ApplyTombstones(db, ts, now).tombstones, now)
    ensures SessionsUncoveredOf(ApplyTombstones(db, ts, now), exe)
  {
    if ts != [] {
      ApplyTombstonesShrinks(db, ts[..|ts| - 1], now);
      ApplyTombstoneShrinks(ApplyTombstones(db, ts[..|ts| - 1], now), ts[|ts| - 1], now);
      ApplyTombstonesUncoversSessions(db, ts[..|ts| - 1], now, exe);
      ApplyTombstoneUncoversSessions(ApplyTombstones(db, ts[..|ts| - 1], now), ts[|ts| - 1], now, exe);
    }
  }

  lemma {:induction false} MergeSessionsUncovers(sessions: map<SessionKey, Session>, tombs: set<Tombstone>,
                                                 apps: Links, projects: Links, rows: seq<SessionRow>, exe: string,
                                                 now: Time)
    requires exe in apps.local && Ahead(tombs, now)
    requires forall e :: e in apps.local && apps.local[e] == apps.local[exe] ==> e == exe
    requires forall k :: k in sessions && k.appId == apps.local[exe] ==>
                           !Covers(tombs, Sessions, SessionKeyText(exe, k.start), sessions[k].updatedAt)
    ensures var after := MergeSessions(sessions, tombs, apps, projects, rows, now);
            forall k :: k in after && k.appId == apps.local[exe] ==>
                          !Covers(tombs, Sessions, SessionKeyText(exe, k.start), after[k].updatedAt)
  {
    if rows != [] {
      MergeSessionsUncovers(sessions, tombs, apps, projects, rows[..|rows| - 1], exe, now);
    }
  }

  /** A session that loses its project is stamped now, so the clock must be ahead of its deletions. */
  lemma MergedUncoversSessions(db: Db, p: Payload, now: Time, exe: string)
    requires IdsOk(db) && '|' !in exe && SessionsUncoveredOf(db, exe)
    requires Ahead(Merged(db, p, now).tombstones, now)
    ensures SessionsUncoveredOf(Merged(db, p, now), exe)
  {
    var d0 := db.(triggersOn := false);
    var d1, d3 := AfterTombstones(db, p, now), AfterApps(db, p, now);
    ApplyTombstonesUncoversSessions(d0, p.tombstones, now, exe);
    ApplyTombstonesShrinks(d0, p.tombstones, now);
    ShrinksKeepsIds(d0, d1, now);
    MergeAppsKeepsIds(d1.apps, d1.tombstones, ProjectLinks(AfterProjects(db, p, now), p), p.apps, now);
    if exe in d3.apps.rows {
      if exe !in d1.apps.rows {
        assert d3.apps.rows[exe].id >= d1.apps.next;
        assert forall k :: k in d3.sessions ==> k.appId < d1.apps.next;
      }
      MergeSessionsUncovers(d3.sessions, d3.tombstones, AppLinks(d3, p), ProjectLinks(d3, p), p.sessions, exe, now);
    }
  }

  /** What can happen to a database: a payload arrives, or the repair pass runs. */
  datatype Event = Receive(payload: Payload, now: Time) | Repair(now: Time)

  function Step(db: Db, e: Event): Db {
    match e
    case Receive(p, now) => MergeOutcome(db, p, now)
    case Repair(now) => Repaired(db, now)
  }

  function Run(db: Db, events: seq<Event>): Db {
    if events == [] then db else Step(Run(db, events[..|events| - 1]), events[|events| - 1])
  }

  /** No project and no session of `exe` is at or below a tombstone of its own. */
  ghost predicate Alive(db: Db, exe: string) {
    IdsOk(db) && ProjectsUncovered(db) && SessionsUncoveredOf(db, exe)
  }

  /** At each event of the run the clock is ahead of the deletions stored by then. */
  ghost predicate ClocksAhead(db: Db, events: seq<Event>) {
    forall j :: 0 <= j < |events| ==> Ahead(Step(Run(db, events[..j]), events[j]).tombstones, events[j].now)
  }

  lemma RepairedUncoversProjects(db: Db, now: Time)
    requires ProjectsUncovered(db) && Ahead(db.tombstones, now)
    ensures ProjectsUncovered(Repaired(db, now))
  {
    RepairedKeepsIds(db, now);
  }

  lemma RepairedUncoversSessions(db: Db, now: Time, exe: string)
    requires SessionsUncoveredOf(db, exe) && Ahead(db.tombstones, now)
    ensures SessionsUncoveredOf(Repaired(db, now), exe)
  {
    var r := Repaired(db, now);
    RepairedKeepsIds(db, now);
    if exe in r.apps.rows {
      forall k | k in r.sessions && k.appId == r.apps.rows[exe].id
        ensures !Covers(r.tombstones, Sessions, SessionKeyText(exe, k.start), r.sessions[k].updatedAt)
      {
        RepairedHasSession(db, now, k);
        SessionAfterRepair(db, now, k);
      }
    }
  }

  /** The pass makes up no session. */
  lemma RepairedHasSession(db: Db, now: Time, k: SessionKey)
    requires k in Repaired(db, now).sessions
    ensures k in db.sessions
  {
    assert Relinked(db, now).sessions.Keys == db.sessions.Keys;
  }

  lemma RepairedIdsOk(db: Db, now: Time)
    requires IdsOk(db)
    ensures IdsOk(Repaired(db, now))
  {
    RepairedKeepsIds(db, now);
    forall k | k in Repaired(db, now).sessions ensures k.appId < db.apps.next {
      RepairedHasSession(db, now, k);
    }
  }

  lemma StepKeepsTombstones(db: Db, e: Event)
    ensures db.tombstones <= Step(db, e).tombstones
  {
    match e
    case Receive(p, now) => ApplyTombstonesShrinks(db.(triggersOn := false), p.tombstones, now);
    case Repair(now) => RepairedKeepsIds(db, now);
  }

  lemma {:induction false} RunKeepsTombstones(db: Db, events: seq<Event>, i: nat)
    requires i <= |events|
    ensures Run(db, events[..i]).tombstones <= Run(db, events).tombstones
  {
    if i == |events| {
      assert events[..i] == events;
    } else {
      var init := events[..|events| - 1];
      assert init[..i] == events[..i];
      RunKeepsTombstones(db, init, i);
      StepKeepsTombstones(Run(db, init), events[|events| - 1]);
    }
  }

  lemma StepKeepsAlive(db: Db, e: Event, exe: string)
    requires Alive(db, exe) && '|' !in exe && Ahead(Step(db, e).tombstones, e.now)
    ensures Alive(Step(db, e), exe)
  {
    match e
    case Receive(p, now) =>
      if !MergeFails(db, p, now) {
        MergedKeepsIds(db, p, now);
        MergedUncoversProjects(db, p, now);
        MergedUncoversSessions(db, p, now, exe);
      }
    case Repair(now) =>
      RepairedKeepsIds(db, now);
      RepairedIdsOk(db, now);
      RepairedUncoversProjects(db, now);
      RepairedUncoversSessions(db, now, exe);
  }

  lemma EarlierClocksAhead(db: Db, events: seq<Event>)
    requires events != [] && ClocksAhead(db, events)
    ensures ClocksAhead(db, events[..|events| - 1])
  {
    var init := events[..|events| - 1];
    forall j | 0 <= j < |init| ensures Ahead(Step(Run(db, init[..j]), init[j]).tombstones, init[j].now) {
      assert init[..j] == events[..j] && init[j] == events[j];
    }
  }

  lemma {:induction false} RunKeepsAlive(db: Db, events: seq<Event>, exe: string)
    requires Alive(db, exe) && '|' !in exe && ClocksAhead(db, events)
    ensures Alive(Run(db, events), exe)
  {
    if events != [] {
      var init, last := events[..|events| - 1], |events| - 1;
      EarlierClocksAhead(db, events);
      RunKeepsAlive(db, init, exe);
      assert Ahead(Step(Run(db, events[..last]), events[last]).tombstones, events[last].now);
      StepKeepsAlive(Run(db, init), events[last], exe);
    }
  }

  /** No resurrection: a tombstone stored at any point of a run stays ahead of every later
      project of its name and every later session of its executable and start time, if the clock is
      ahead of the deletions whenever it stamps a row. */
  lemma NoResurrection(db: Db, events: seq<Event>, i: nat, t: Tombstone, exe: string, start: string)
    requires Alive(db, exe) && '|' !in exe && i <= |events| && ClocksAhead(db, events)
    requires t in Run(db, events[..i]).tombstones
    ensures var later := Run(db, events);
            && (t.table == Projects && t.key in later.projects.rows ==>
                  later.projects.rows[t.key].updatedAt > t.deletedAt)
            && (t.table == Sessions && t.key == SessionKeyText(exe, start) && exe in later.apps.rows
                && SessionKey(later.apps.rows[exe].id, start) in later.sessions ==>
                  later.sessions[SessionKey(later.apps.rows[exe].id, start)].updatedAt > t.deletedAt)
  {
    RunKeepsAlive(db, events, exe);
    RunKeepsTombstones(db, events, i);
    var later := Run(db, events);
    assert t in later.tombstones;
    if t.table == Projects && t.key in later.projects.rows {
      assert !Covers(later.tombstones, Projects, t.key, later.projects.rows[t.key].updatedAt);
    }
    if t.table == Sessions && t.key == SessionKeyText(exe, start) && exe in later.apps.rows {
      var k := SessionKey(later.apps.rows[exe].id, start);
      if k in later.sessions {
        assert !Covers(later.tombstones, Sessions, SessionKeyText(exe, k.start), later.sessions[k].updatedAt);
      }
    }
  }

  ghost predicate NoneAfter(tombs: set<Tombstone>, d: Time) {
    forall t :: t in tombs ==> t.deletedAt <= d
  }

  /** Every merge at `now` of deletions up to `d` keeps the sessions of this executable ahead of their tombstones. */
  ghost predicate Protected(exe: string, now: Time, d: Time) {
    forall db: Db, p: Payload ::
      IdsOk(db) && SessionsUncoveredOf(db, exe) && NoneAfter(Merged(db, p, now).tombstones, d) ==>
        SessionsUncoveredOf(Merged(db, p, now), exe)
  }

  /** The key of a session is split at the first separator, so a deletion finds its session exactly when
      the name of the executable holds none; and a session that loses its project is stamped by the
      clock, so it stays ahead of its deletion exactly when the clock does. */
  lemma ProtectedIff(exe: string, now: Time, d: Time)
    ensures Protected(exe, now, d) <==> '|' !in exe && d < now
  {
    if '|' in exe {
      var db, p := SeparatorEscapes(exe, now, d);
      assert !Protected(exe, now, d);
    } else if now <= d {
      var db, p := ClockEscapes(exe, now, d);
      assert !Protected(exe, now, d);
    } else {
      forall db: Db, p: Payload
        | IdsOk(db) && SessionsUncoveredOf(db, exe) && NoneAfter(Merged(db, p, now).tombstones, d)
        ensures SessionsUncoveredOf(Merged(db, p, now), exe)
      {
        MergedUncoversSessions(db, p, now, exe);
      }
    }
  }

  lemma OneTombstone(db: Db, t: Tombstone, now: Time)
    ensures Merged(db, Payload([], [], [], [], [t]), now) ==
              ApplyTombstone(db.(triggersOn := false), t, now).(triggersOn := true)
  {
    var d0, ts := db.(triggersOn := false), [t];
    assert ts[..0] == [];
    assert ApplyTombstones(d0, ts, now) == ApplyTombstone(ApplyTombstones(d0, ts[..0], now), t, now);
  }

  /** One session of an executable with a separator in its name, and the deletion that misses it. */
  lemma SeparatorEscapes(exe: string, now: Time, d: Time) returns (db: Db, p: Payload)
    requires '|' in exe
    ensures IdsOk(db) && SessionsUncoveredOf(db, exe) && NoneAfter(Merged(db, p, now).tombstones, d)
    ensures !SessionsUncoveredOf(Merged(db, p, now), exe)
  {
    var k := SessionKey(1, "t");
    var s := Session(SessionFields("", 0, 1.0, None, 0), "", None, None, d);
    db := Db(ProjectTable(map[], 1), AppTable(map[exe := App(1, "", None, 1)], 2), map[k := s], map[], {}, true);
    var t := Tombstone(Sessions, SessionKeyText(exe, "t"), d);
    p := Payload([], [], [], [], [t]);
    var d0 := db.(triggersOn := false);
    SplitOnceInverse(exe, "t");
    SplitOnceSound(t.key);
    assert exe != "";
    assert !Outlives(d0, t) && Replay(d0, t, now) == d0;
    OneTombstone(db, t, now);
    assert Merged(db, p, now) == db.(tombstones := {t});
    assert Covers({t}, Sessions, SessionKeyText(exe, k.start), d);
  }

  /** One session made again after its deletion at `d`, in a project. */
  function MadeAgain(exe: string, d: Time): Db {
    var session := Session(SessionFields("", 0, 1.0, None, 0), "", Some(1), None, d + 1);
    var project := Project(1, ProjectFields("", None, None, None, None, None), "", None, 0);
    Db(ProjectTable(map["p" := project], 2), AppTable(map[exe := App(1, "", None, 1)], 2),
        map[SessionKey(1, "t") := session], map[],
       {Tombstone(Sessions, SessionKeyText(exe, "t"), d)}, true)
  }

  lemma MadeAgainUncovered(exe: string, d: Time)
    ensures IdsOk(MadeAgain(exe, d)) && SessionsUncoveredOf(MadeAgain(exe, d), exe)
  {
  }

  /** The deletion of its project stamps the session by a clock that has not reached its own deletion. */
  lemma ClockEscapes(exe: string, now: Time, d: Time) returns (db: Db, p: Payload)
    requires now <= d
    ensures IdsOk(db) && SessionsUncoveredOf(db, exe) && NoneAfter(Merged(db, p, now).tombstones, d)
    ensures !SessionsUncoveredOf(Merged(db, p, now), exe)
  {
    var t, k := Tombstone(Projects, "p", d), SessionKey(1, "t");
    db, p := MadeAgain(exe, d), Payload([], [], [], [], [t]);
    MadeAgainUncovered(exe, d);
    OneTombstone(db, t, now);
    UnlinkedNow(db.(triggersOn := false), t, now, k);
    var after := Merged(db, p, now);
    assert Tombstone(Sessions, SessionKeyText(exe, k.start), d) in after.tombstones;
    assert Covers(after.tombstones, Sessions, SessionKeyText(exe, k.start), now);
  }

  lemma UnlinkedNow(db: Db, t: Tombstone, now: Time, k: SessionKey)
    requires !db.triggersOn && t.table == Projects && t.key != "" && t.key in db.projects.rows && k in db.sessions
    requires !HasTombstone(db.tombstones, Projects, t.key) && db.projects.rows[t.key].updatedAt <= t.deletedAt
    requires db.sessions[k].projectId == Some(db.projects.rows[t.key].id)
    ensures var d := ApplyTombstone(db, t, now);
            && d.apps.rows.Keys == db.apps.rows.Keys
            && (forall e :: e in db.apps.rows ==> d.apps.rows[e].id == db.apps.rows[e].id)
            && k in d.sessions && d.sessions[k].updatedAt == now
            && d.tombstones == db.tombstones + {t}
  {
  }
}
