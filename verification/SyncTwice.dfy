/** Merging the same payload a second time, and exactly when that changes something. */
module SyncTwice {
  import opened Options
  import opened SyncTypes
  import opened SyncMerge
  import opened SyncInvariants
  import opened SyncDelivery
  import opened SyncExport
  import opened SyncRedelivery

  // ----- all but the manual sessions -----

  /** After a merge every deletion, project and application of its payload loses. */
  lemma RowsLoseAfterMerge(db: Db, p: Payload, now: Time)
    requires IdsOk(db)
    ensures var d := Merged(db, p, now);
            && TombstonesKnown(d.tombstones, p.tombstones)
            && (forall i :: 0 <= i < |p.projects| ==> ProjectRowLoses(d.projects, d.tombstones, p.projects[i]))
            && (forall i :: 0 <= i < |p.apps| ==> AppRowLoses(d.apps, d.tombstones, p.apps[i]))
  {
    var d := Merged(db, p, now);
    TombstonesBecomeKnown(db.(triggersOn := false), p.tombstones, now);
    forall i | 0 <= i < |p.projects| ensures ProjectRowLoses(d.projects, d.tombstones, p.projects[i]) {
      if p.projects[i].name != "" {
        ProjectArrives(db, p, now, i);
      }
    }
    forall i | 0 <= i < |p.apps| ensures AppRowLoses(d.apps, d.tombstones, p.apps[i]) {
      if p.apps[i].exe != "" {
        AppArrives(db, p, now, i);
      }
    }
  }

  lemma SessionRowsLoseAfterMerge(db: Db, p: Payload, now: Time, i: nat)
    requires i < |p.sessions|
    ensures var d := Merged(db, p, now);
            p.sessions[i].end.None? || SessionRowLoses(d.sessions, d.tombstones, AppLinks(d, p), p.sessions[i])
  {
    var d3 := AfterApps(db, p, now);
    if p.sessions[i].end.Some? && LocalSessionKey(AppLinks(d3, p), p.sessions[i]).Some? {
      SessionRowsArrive(d3.sessions, d3.tombstones, AppLinks(d3, p), ProjectLinks(d3, p), p.sessions, i, now);
    }
  }

  /** What the manual session phase makes of `d` when the payload is merged into it again. */
  function ManualsAgain(d: Db, p: Payload, later: Time): map<ManualKey, Manual> {
    MergeManuals(d.manuals, d.tombstones, AppLinks(d, p), ProjectLinks(d, p), p.manuals, later)
  }

  /** A second merge acts on the manual sessions only. */
  lemma OnlyManualsAgain(db: Db, p: Payload, now: Time, later: Time)
    requires IdsOk(db) && !MergeFails(Merged(db, p, now), p, later)
    ensures Merged(Merged(db, p, now), p, later) ==
              Merged(db, p, now).(manuals := ManualsAgain(Merged(db, p, now), p, later))
  {
    var d := Merged(db, p, now);
    RowsLoseAfterMerge(db, p, now);
    forall i | 0 <= i < |p.sessions|
      ensures p.sessions[i].end.None? || SessionRowLoses(d.sessions, d.tombstones, AppLinks(d, p), p.sessions[i])
    {
      SessionRowsLoseAfterMerge(db, p, now, i);
    }
    SecondMerge(d, p, later);
  }

  lemma SecondMerge(d: Db, p: Payload, later: Time)
    requires d.triggersOn && TombstonesKnown(d.tombstones, p.tombstones)
    requires forall i :: 0 <= i < |p.projects| ==> ProjectRowLoses(d.projects, d.tombstones, p.projects[i])
    requires forall i :: 0 <= i < |p.apps| ==> AppRowLoses(d.apps, d.tombstones, p.apps[i])
    requires forall i :: 0 <= i < |p.sessions| ==>
                           p.sessions[i].end.None? ||
                           SessionRowLoses(d.sessions, d.tombstones, AppLinks(d, p), p.sessions[i])
    requires !MergeFails(d, p, later)
    ensures Merged(d, p, later) == d.(manuals := ManualsAgain(d, p, later))
  {
    var d0 := d.(triggersOn := false);
    KnownTombstonesChangeNothing(d0, p.tombstones, later);
    LosingProjectsChangeNothing(d.projects, d.tombstones, p.projects);
    LosingAppsChangeNothing(d.apps, d.tombstones, ProjectLinks(d0, p), p.apps, later);
    assert AfterApps(d, p, later) == d0;
    LosingSessionsChangeNothing(d.sessions, d.tombstones, AppLinks(d0, p), ProjectLinks(d0, p), p.sessions, later);
  }

  // ----- any payload -----

  /** Whatever the payload, once the clock has reached its manual sessions a second merge that goes through changes
      something exactly if one of them still wins. */
  lemma MergedAgainIff(db: Db, p: Payload, now: Time, later: Time)
    requires IdsOk(db) && !MergeFails(Merged(db, p, now), p, later)
    requires forall i :: 0 <= i < |p.manuals| ==> p.manuals[i].updatedAt <= later
    ensures var d := Merged(db, p, now);
            Merged(d, p, later) == d <==>
              forall i :: 0 <= i < |p.manuals| ==> ManualRowLoses(d.manuals, d.tombstones, p.manuals[i])
  {
    var d := Merged(db, p, now);
    OnlyManualsAgain(db, p, now, later);
    if forall i :: 0 <= i < |p.manuals| ==> ManualRowLoses(d.manuals, d.tombstones, p.manuals[i]) {
      LosingManualsChangeNothing(d.manuals, d.tombstones, AppLinks(d, p), ProjectLinks(d, p), p.manuals, later);
    }
    if Merged(d, p, later) == d {
      forall i | 0 <= i < |p.manuals| ensures ManualRowLoses(d.manuals, d.tombstones, p.manuals[i]) {
        ManualRowArrives(d.manuals, d.tombstones, AppLinks(d, p), ProjectLinks(d, p), p.manuals, later, i);
      }
    }
  }

  // ----- a payload that lists each manual session once -----

  ghost predicate ListedOnce(rows: seq<ManualRow>) {
    forall i, j :: 0 <= i < |rows| && 0 <= j < |rows| && i != j ==> ManualKeyOf(rows[i]) != ManualKeyOf(rows[j])
  }

  lemma {:induction false} OtherManualsSpareKey(manuals: map<ManualKey, Manual>, tombs: set<Tombstone>, apps: Links,
                                                projects: Links, rows: seq<ManualRow>, now: Time, k: ManualKey)
    requires forall i :: 0 <= i < |rows| ==> ManualKeyOf(rows[i]) != k
    ensures var after := MergeManuals(manuals, tombs, apps, projects, rows, now);
            (k in after <==> k in manuals) && (k in after ==> after[k] == manuals[k])
  {
    if rows != [] {
      OtherManualsSpareKey(manuals, tombs, apps, projects, rows[..|rows| - 1], now, k);
    }
  }

  lemma {:induction false} OneManualDecides(manuals: map<ManualKey, Manual>, tombs: set<Tombstone>, apps: Links,
                                            projects: Links, rows: seq<ManualRow>, now: Time, i: nat)
    requires ListedOnce(rows) && i < |rows|
    ensures var after := MergeManuals(manuals, tombs, apps, projects, rows, now);
            var one, k := MergeManual(manuals, tombs, apps, projects, rows[i], now), ManualKeyOf(rows[i]);
            (k in after <==> k in one) && (k in after ==> after[k] == one[k])
  {
    var init, last := rows[..|rows| - 1], |rows| - 1;
    if i == last {
      OtherManualsSpareKey(manuals, tombs, apps, projects, init, now, ManualKeyOf(rows[i]));
    } else {
      OneManualDecides(manuals, tombs, apps, projects, init, now, i);
    }
  }

  /** Row `i` wins, takes a project the manual session did not have, and so is stamped now, before its own time. */
  ghost predicate StampedEarly(f: Db, p: Payload, now: Time, i: nat)
    requires i < |p.manuals|
  {
    var r := p.manuals[i];
    && !ManualRowLoses(f.manuals, f.tombstones, r)
    && Reassigned(f.manuals, ManualKeyOf(r), ProjectLinks(f, p).Translate(r.projectId).GetOr(0))
    && now < r.updatedAt
  }

  /** After the first merge a row still wins exactly if it was stamped early. */
  lemma StillWinsIff(f: Db, p: Payload, now: Time, i: nat)
    requires ListedOnce(p.manuals) && i < |p.manuals|
    ensures var r, after := p.manuals[i], ManualsAgain(f, p, now);
            && (ManualRowLoses(after, f.tombstones, r) <==> !StampedEarly(f, p, now, i))
            && (StampedEarly(f, p, now, i) ==>
                  && ManualKeyOf(r) in after
                  && after[ManualKeyOf(r)].updatedAt == now
                  && after[ManualKeyOf(r)].projectId == ProjectLinks(f, p).Translate(r.projectId).GetOr(0))
  {
    OneManualDecides(f.manuals, f.tombstones, AppLinks(f, p), ProjectLinks(f, p), p.manuals, now, i);
  }

  /** Taken a second time the row keeps its project, so it is not stamped again and changes the manual session. */
  lemma WrittenAgain(d: Db, p: Payload, later: Time, i: nat)
    requires ListedOnce(p.manuals) && i < |p.manuals|
    requires var r, k := p.manuals[i], ManualKeyOf(p.manuals[i]);
             && !ManualRowLoses(d.manuals, d.tombstones, r) && k in d.manuals
             && d.manuals[k].projectId == ProjectLinks(d, p).Translate(r.projectId).GetOr(0)
    ensures ManualsAgain(d, p, later) != d.manuals
  {
    OneManualDecides(d.manuals, d.tombstones, AppLinks(d, p), ProjectLinks(d, p), p.manuals, later, i);
  }

  /** Redelivery: a second merge of a payload changes nothing exactly if it fails and rolls back (on a session row
      without an end time) or no manual session that took a new project in the first merge is from after the clock
      that stamped it then. */
  lemma MergedTwice(db: Db, p: Payload, now: Time, later: Time)
    requires IdsOk(db) && ListedOnce(p.manuals)
    ensures MergeOutcome(Merged(db, p, now), p, later) == Merged(db, p, now) <==>
              || MergeFails(Merged(db, p, now), p, later)
              || forall i :: 0 <= i < |p.manuals| ==> !StampedEarly(AfterSessions(db, p, now), p, now, i)
  {
    var d, f := Merged(db, p, now), AfterSessions(db, p, now);
    if !MergeFails(d, p, later) {
      OnlyManualsAgain(db, p, now, later);
      SameLinks(db, p, now);
      forall i | 0 <= i < |p.manuals|
        ensures ManualRowLoses(d.manuals, d.tombstones, p.manuals[i]) <==> !StampedEarly(f, p, now, i)
        ensures StampedEarly(f, p, now, i) ==> ManualsAgain(d, p, later) != d.manuals
      {
        StillWinsIff(f, p, now, i);
        if StampedEarly(f, p, now, i) {
          WrittenAgain(d, p, later, i);
        }
      }
      if forall i :: 0 <= i < |p.manuals| ==> !StampedEarly(f, p, now, i) {
        LosingManualsChangeNothing(d.manuals, d.tombstones, AppLinks(d, p), ProjectLinks(d, p), p.manuals, later);
      }
    }
  }

  lemma SameLinks(db: Db, p: Payload, now: Time)
    ensures var d, f := Merged(db, p, now), AfterSessions(db, p, now);
            && d.manuals == ManualsAgain(f, p, now) && d.tombstones == f.tombstones
            && AppLinks(d, p) == AppLinks(f, p) && ProjectLinks(d, p) == ProjectLinks(f, p)
  {
  }

  /** A receiver with project P, and a payload with one manual session of it at `u`. */
  function ProjectHere(): Db {
    var project := Project(1, ProjectFields("", None, None, None, None, None), "", None, 9);
    Db(ProjectTable(map["P" := project], 2), AppTable(map[], 1), map[], map[], {}, true)
  }

  function OneManual(u: Time): Payload {
    Payload([ProjectRow(7, "P", "", None, "", None, None, None, Null, Null, 9)], [], [],
            [ManualRow("t", "s", Some(""), Some(7), Some("P"), None, Some(""), 0, Some(""), None, u)], [])
  }

  lemma OneManualFits(db: Db, u: Time, now: Time)
    ensures !MergeFails(db, OneManual(u), now)
  {
    var p := OneManual(u);
    var f := AfterSessions(db, p, now);
    assert |p.manuals| == 1 && p.manuals[..|p.manuals| - 1] == [];
    assert !ManualsFail(f.manuals, f.tombstones, AppLinks(f, p), ProjectLinks(f, p), p.manuals[..|p.manuals| - 1], now);
  }

  /** Before the manual session phase of the first merge the receiver is as it was. */
  lemma NothingBefore(u: Time, now: Time)
    ensures AfterSessions(ProjectHere(), OneManual(u), now) == ProjectHere().(triggersOn := false)
  {
    var rows, table := OneManual(u).projects, ProjectHere().projects;
    assert rows[..0] == [];
    assert MergeProjects(table, {}, rows) == MergeProject(MergeProjects(table, {}, rows[..0]), {}, rows[0]);
  }

  lemma ManualGetsProject(u: Time)
    ensures ProjectLinks(ProjectHere(), OneManual(u)).Translate(Some(7)) == Some(1)
  {
    var rows := OneManual(u).projects;
    assert rows[..0] == [];
    assert RemoteProjects(rows) == RemoteProjects(rows[..0])[7 := "P"];
  }

  /** When the receiver's clock is behind `u`, the second delivery writes the manual session again. */
  lemma RedeliveryWrites(now: Time, u: Time, later: Time)
    requires now < u
    ensures var db, p := ProjectHere(), OneManual(u);
            && IdsOk(db) && !MergeFails(db, p, now) && !MergeFails(Merged(db, p, now), p, later)
            && MergeOutcome(Merged(db, p, now), p, later) != Merged(db, p, now)
  {
    var db, p := ProjectHere(), OneManual(u);
    OneManualFits(db, u, now);
    OneManualFits(Merged(db, p, now), u, later);
    NothingBefore(u, now);
    ManualGetsProject(u);
    assert StampedEarly(AfterSessions(db, p, now), p, now, 0);
    MergedTwice(db, p, now, later);
  }
}
