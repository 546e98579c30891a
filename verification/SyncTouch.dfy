/** What the repair after a merge will stamp, told before the merge: between databases whose references are valid it
    touches no application and no manual session, and a session exactly if that ends without a project beside the name
    of one.
 */
module SyncTouch {
  import opened Options
  import opened SyncTypes
  import opened SyncMerge
  import opened SyncInvariants
  import opened SyncPeers
  import opened SyncSafety
  import opened SyncRepair
  import opened SyncExport
  import opened SyncFate
  import opened SyncConvergence
  import opened SyncCycle
  import opened SyncSessions
  import opened SyncManuals
  import opened SyncLinks
  import opened SyncLimits

  // ----- applications and manual sessions -----

  lemma NothingTouched(db: Db, p: Payload, now: Time)
    requires IdsOk(db) && RefsOk(db)
    ensures forall exe :: !AppTouched(Merged(db, p, now), exe)
    ensures forall k :: !ManualTouched(Merged(db, p, now), k)
  {
    MergedKeepsRefs(db, p, now);
  }

  /** Two sides with valid references that know the same deletions agree on every application. */
  lemma SharedDeletionsAgree(m: Db, s: Db, fromSlave: Payload, fromMaster: Payload, now: Time, later: Time, exe: string)
    requires IsDatedCycle(m, s, fromSlave, fromMaster, now, later) && exe != "" && RefsOk(m) && RefsOk(s)
    requires m.tombstones == s.tombstones && AppUncovered(m, exe) && AppUncovered(s, exe)
    ensures Stamp(AppPeer(MasterAfter(m, fromSlave, now), exe).row) ==
              Stamp(AppPeer(SlaveAfter(s, fromMaster, later), exe).row)
  {
    NothingTouched(s, fromMaster, later);
    SharedDeletionsAgreeOnApp(m, s, fromSlave, fromMaster, now, later, exe);
    AppConverges(m, s, fromSlave, fromMaster, now, later, exe);
  }

  // ----- sessions -----

  /** The receiver has a project of this name after merging the payload. */
  ghost predicate HasProject(db: Db, sender: Db, p: Payload, name: string) {
    var told := Told(ProjectPeer(db, name), SentProject(ProjectPeer(sender, name)));
    Taken(ProjectKept(db, p.tombstones, name), SentRecord(ProjectRecord(sender.projects.rows, name)), told).Some?
  }

  lemma HasProjectIff(db: Db, sender: Db, p: Payload, now: Time, name: string)
    requires IsExport(sender, EPOCH, p) && name != ""
    ensures HasProject(db, sender, p, name) <==> name in Merged(db, p, now).projects.rows
  {
    ProjectMerged(db, sender, p, now, name);
  }

  /** The name the payload gives for the project of a session. */
  function NameSent(p: Payload, s: Session): Option<string> {
    Links(RemoteProjects(p.projects), map[]).Label(s.projectId)
  }

  function LabelSent(p: Payload, s: Session): Option<string> {
    if s.projectName.Some? && s.projectName.value != "" then s.projectName else NameSent(p, s)
  }

  ghost function SessionOf(db: Db, exe: string, start: string): Session
    requires exe in db.apps.rows && SessionKey(db.apps.rows[exe].id, start) in db.sessions
  {
    db.sessions[SessionKey(db.apps.rows[exe].id, start)]
  }

  ghost predicate Kept(db: Db, p: Payload, now: Time, exe: string, start: string) {
    SessionKept(db, p.tombstones, exe, start, now).Some?
  }

  /** The sender's session is taken. */
  ghost predicate SessionTaken(db: Db, sender: Db, p: Payload, now: Time, exe: string, start: string) {
    Takes(SessionKept(db, p.tombstones, exe, start, now), SessionPeer(sender, exe, start).row,
          Told(SessionPeer(db, exe, start), SessionPeer(sender, exe, start)))
  }

  /** The session the receiver keeps has a project still. */
  ghost predicate StaysLinked(db: Db, p: Payload, now: Time, exe: string, start: string) {
    && Kept(db, p, now, exe, start)
    && SessionOf(db, exe, start).projectId.Some?
    && !LosesLink(db, p.tombstones, SessionOf(db, exe, start).projectId)
  }

  /** After the merge the session has a project. */
  ghost predicate EndsLinked(db: Db, sender: Db, p: Payload, now: Time, exe: string, start: string) {
    || StaysLinked(db, p, now, exe, start)
    || (&& SessionTaken(db, sender, p, now, exe, start)
        && NameSent(p, SessionOf(sender, exe, start)).Some?
        && HasProject(db, sender, p, NameSent(p, SessionOf(sender, exe, start)).value))
  }

  /** The label it has if it has no project. */
  ghost function EndLabel(db: Db, sender: Db, p: Payload, now: Time, exe: string, start: string): Option<string> {
    var own := if Kept(db, p, now, exe, start) then SessionOf(db, exe, start).projectName else None;
    if SessionTaken(db, sender, p, now, exe, start) then LabelSent(p, SessionOf(sender, exe, start)).Or(own) else own
  }

  /** The session ends without a project, beside the name of one that is there. */
  ghost predicate LooksForProject(db: Db, sender: Db, p: Payload, now: Time, exe: string, start: string) {
    var name := EndLabel(db, sender, p, now, exe, start);
    && !EndsLinked(db, sender, p, now, exe, start)
    && name.Some? && name.value != "" && HasProject(db, sender, p, name.value)
  }

  // ----- the session as the merge leaves it -----

  ghost predicate Has(db: Db, exe: string, start: string) {
    exe in db.apps.rows && SessionKey(db.apps.rows[exe].id, start) in db.sessions
  }

  /** The row of a session in an export. */
  ghost function RowSent(sender: Db, exe: string, start: string): SessionRow
    requires Has(sender, exe, start)
  {
    SessionRowOf(SessionKey(sender.apps.rows[exe].id, start), SessionOf(sender, exe, start))
  }

  ghost function Stored(d: Db, exe: string, start: string): Option<Session> {
    if Has(d, exe, start) then Some(SessionOf(d, exe, start)) else None
  }

  /** What the replay of deletions leaves of the receiver's session. */
  ghost function KeptSession(db: Db, p: Payload, now: Time, exe: string, start: string): Option<Session> {
    if Kept(db, p, now, exe, start) then
      var own := SessionOf(db, exe, start);
      Some(UnlinkedSession(own, LosesLink(db, p.tombstones, own.projectId), now))
    else None
  }

  lemma SessionBeforeRows(db: Db, p: Payload, now: Time, exe: string, start: string)
    requires IdsOk(db) && InOrder(p.tombstones) && AheadOf(p.tombstones, now) && exe != ""
    requires exe in AfterApps(db, p, now).apps.rows
    ensures Stored(AfterApps(db, p, now), exe, start) == KeptSession(db, p, now, exe, start)
  {
    var d0, d1, d3 := db.(triggersOn := false), AfterTombstones(db, p, now), AfterApps(db, p, now);
    TombstoneFate(d0, p.tombstones, now, exe);
    SessionAfterTombstones(d0, p.tombstones, now, exe, start);
    SameSessionKept(db, p.tombstones, exe, start, now);
    SessionAcrossApps(db, p, now, exe, start);
    AppKeepsId(db, p, now, exe);
    if exe in d1.apps.rows {
      assert SessionFated(d0, p.tombstones, now, exe, start, d1);
    }
  }

  lemma AppKeepsId(db: Db, p: Payload, now: Time, exe: string)
    requires IdsOk(db)
    ensures exe in AfterTombstones(db, p, now).apps.rows ==>
              && exe in AfterApps(db, p, now).apps.rows && exe in db.apps.rows
              && AfterApps(db, p, now).apps.rows[exe].id == db.apps.rows[exe].id
  {
    var d1, d2 := AfterTombstones(db, p, now), AfterProjects(db, p, now);
    ApplyTombstonesShrinks(db.(triggersOn := false), p.tombstones, now);
    ShrinksKeepsIds(db.(triggersOn := false), d1, now);
    MergeAppsKeepsIds(d2.apps, d2.tombstones, ProjectLinks(d2, p), p.apps, now);
  }

  /** What a row leaves of a session, as far as project and label go. */
  ghost predicate LeavesSo(before: Option<Session>, after: Option<Session>, wins: bool, linked: bool,
                           name: Option<string>) {
    var own := if before.Some? then before.value.projectName else None;
    && (after.Some? <==> before.Some? || wins)
    && (after.Some? ==>
          && (after.value.projectId.Some? <==> (before.Some? && before.value.projectId.Some?) || (wins && linked))
          && (after.value.projectId.None? ==> after.value.projectName == if wins then name.Or(own) else own))
  }

  lemma SentKey(d: Db, sender: Db, p: Payload, exe: string, start: string)
    requires IsExport(sender, EPOCH, p) && IdsOk(sender) && exe != "" && start != "" && exe in d.apps.rows &&
               Has(sender, exe, start)
    ensures LocalSessionKey(AppLinks(d, p), RowSent(sender, exe, start)) == Some(SessionKey(d.apps.rows[exe].id, start))
  {
    RemoteIdOf(sender, p, exe);
  }

  lemma SentAt(sender: Db, p: Payload, exe: string, start: string) returns (i: nat)
    requires IsExport(sender, EPOCH, p) && Has(sender, exe, start)
    ensures i < |p.sessions| && p.sessions[i] == RowSent(sender, exe, start)
  {
    i :| 0 <= i < |p.sessions| && KeyOf(p.sessions[i]) == SessionKey(sender.apps.rows[exe].id, start);
  }

  lemma RowPhase(db: Db, sender: Db, p: Payload, now: Time, exe: string, start: string)
    requires IsExport(sender, EPOCH, p) && IdsOk(db) && IdsOk(sender) && exe != "" && start != ""
    requires exe in AfterApps(db, p, now).apps.rows && Has(sender, exe, start)
    ensures var d, r := AfterApps(db, p, now), RowSent(sender, exe, start);
            LeavesSo(Stored(d, exe, start), Stored(Merged(db, p, now), exe, start),
                     !SessionRowLoses(d.sessions, d.tombstones, AppLinks(d, p), r),
                     ProjectLinks(d, p).Translate(r.projectId).Some?, SessionLabel(ProjectLinks(d, p), r))
  {
    var d := AfterApps(db, p, now);
    SentKey(d, sender, p, exe, start);
    var i := SentAt(sender, p, exe, start);
    SessionDecided(db, sender, EPOCH, p, now, i);
    RowLeaves(d.sessions, d.tombstones, AppLinks(d, p), ProjectLinks(d, p), p.sessions[i], now,
        SessionKey(d.apps.rows[exe].id, start));
  }

  ghost function At<K, V>(rows: map<K, V>, k: K): Option<V> {
    if k in rows then Some(rows[k]) else None
  }

  lemma RowLeaves(sessions: map<SessionKey, Session>, tombs: set<Tombstone>, apps: Links, projects: Links,
                  r: SessionRow,
                  now: Time, k: SessionKey)
    requires LocalSessionKey(apps, r) == Some(k) && r.end.Some?
    ensures LeavesSo(At(sessions, k), At(MergeSession(sessions, tombs, apps, projects, r, now), k),
                     !SessionRowLoses(sessions, tombs, apps, r), projects.Translate(r.projectId).Some?,
                         SessionLabel(projects, r))
  {
  }

  lemma NoRowPhase(db: Db, sender: Db, p: Payload, now: Time, exe: string, start: string)
    requires IsExport(sender, EPOCH, p) && IdsOk(db) && IdsOk(sender)
    requires exe in AfterApps(db, p, now).apps.rows && !Has(sender, exe, start)
    ensures Stored(Merged(db, p, now), exe, start) == Stored(AfterApps(db, p, now), exe, start)
  {
    var d := AfterApps(db, p, now);
    var k := SessionKey(d.apps.rows[exe].id, start);
    AfterAppsIdsOk(db, p, now);
    forall i | 0 <= i < |p.sessions| ensures LocalSessionKey(AppLinks(d, p), p.sessions[i]) != Some(k) {
      NotThisSession(d, sender, p, exe, start, i);
    }
    OtherRowsSpareKey(d.sessions, d.tombstones, AppLinks(d, p), ProjectLinks(d, p), p.sessions, k, now);
  }

  lemma NotThisSession(d: Db, sender: Db, p: Payload, exe: string, start: string, i: nat)
    requires IsExport(sender, EPOCH, p) && IdsOk(d) && IdsOk(sender) && i < |p.sessions| && exe in d.apps.rows
    requires !(exe in sender.apps.rows && SessionKey(sender.apps.rows[exe].id, start) in sender.sessions)
    ensures LocalSessionKey(AppLinks(d, p), p.sessions[i]) != Some(SessionKey(d.apps.rows[exe].id, start))
  {
    ExportNamesApps(sender, EPOCH, p);
    assert KeyOf(p.sessions[i]) in sender.sessions;
  }

  /** A row wins exactly if the two-record rule takes it. */
  lemma WinsIff(db: Db, sender: Db, p: Payload, now: Time, exe: string, start: string)
    requires IsExport(sender, EPOCH, p) && Ahead(sender.tombstones, now) && IdsOk(db) && IdsOk(sender)
    requires exe != "" && start != "" && exe in AfterApps(db, p, now).apps.rows && Has(sender, exe, start)
    ensures var d := AfterApps(db, p, now);
            SessionTaken(db, sender, p, now, exe, start) <==>
              !SessionRowLoses(d.sessions, d.tombstones, AppLinks(d, p), RowSent(sender, exe, start))
  {
    TakenIff(db, sender, p, now, exe, start);
    RemoteIdOf(sender, p, exe);
    WinsBy(AfterApps(db, p, now), p, RowSent(sender, exe, start), exe);
  }

  ghost predicate WinsOver(d: Db, exe: string, start: string, updatedAt: Time) {
    && !Dead(DeathsOf(d.tombstones, Sessions, SessionKeyText(exe, start)), updatedAt)
    && !(Has(d, exe, start) && SessionOf(d, exe, start).updatedAt >= updatedAt)
  }

  lemma KeptIsThere(db: Db, p: Payload, now: Time, exe: string, start: string)
    requires IdsOk(db) && InOrder(p.tombstones) && AheadOf(p.tombstones, now) && exe != ""
    requires exe in AfterApps(db, p, now).apps.rows
    ensures var d, kept := AfterApps(db, p, now), SessionKept(db, p.tombstones, exe, start, now);
            && (Has(d, exe, start) <==> kept.Some?)
            && (kept.Some? ==> SessionOf(d, exe, start).updatedAt == kept.value.updatedAt)
  {
    SessionBeforeRows(db, p, now, exe, start);
  }

  lemma ToldAfter(db: Db, sender: Db, p: Payload, now: Time, exe: string, start: string)
    requires IsExport(sender, EPOCH, p)
    ensures DeathsOf(AfterApps(db, p, now).tombstones, Sessions, SessionKeyText(exe, start)) ==
            Told(SessionPeer(db, exe, start), SessionPeer(sender, exe, start))
  {
    DeathsAfterMerge(db, sender, p, now, Sessions, SessionKeyText(exe, start));
  }

  lemma TakenIff(db: Db, sender: Db, p: Payload, now: Time, exe: string, start: string)
    requires IsExport(sender, EPOCH, p) && Ahead(sender.tombstones, now) && IdsOk(db) && IdsOk(sender)
    requires exe != "" && exe in AfterApps(db, p, now).apps.rows && Has(sender, exe, start)
    ensures SessionTaken(db, sender, p, now, exe, start) <==>
              WinsOver(AfterApps(db, p, now), exe, start, SessionOf(sender, exe, start).updatedAt)
  {
    ListedAreAhead(p.tombstones, sender.tombstones, now);
    ToldAfter(db, sender, p, now, exe, start);
    KeptIsThere(db, p, now, exe, start);
  }

  lemma WinsBy(d: Db, p: Payload, r: SessionRow, exe: string)
    requires r.start != "" && r.appId != 0 && r.appId in RemoteApps(p.apps) && RemoteApps(p.apps)[r.appId] == exe
    requires exe in d.apps.rows
    ensures !SessionRowLoses(d.sessions, d.tombstones, AppLinks(d, p), r) <==> WinsOver(d, exe, r.start, r.updatedAt)
  {
    DeathsMeanCovers(d.tombstones, Sessions, SessionKeyText(exe, r.start), r.updatedAt);
  }

  lemma LabelsAs(db: Db, sender: Db, p: Payload, now: Time, exe: string, start: string)
    requires IsExport(sender, EPOCH, p) && IdsOk(sender) && Has(sender, exe, start)
    ensures var links, r, s := ProjectLinks(AfterApps(db, p, now), p), RowSent(sender, exe, start),
              SessionOf(sender, exe, start);
            && (links.Translate(r.projectId).Some? <==>
                 NameSent(p, s).Some? && HasProject(db, sender, p, NameSent(p, s).value))
            && SessionLabel(links, r) == LabelSent(p, s)
  {
    TranslatesIff(db, sender, p, now, SessionOf(sender, exe, start));
  }

  lemma LeftAs(db: Db, sender: Db, p: Payload, now: Time, exe: string, start: string)
    requires IsExport(sender, EPOCH, p) && Ahead(sender.tombstones, now) && IdsOk(db) && IdsOk(sender)
    requires exe != "" && start != "" && exe in AfterApps(db, p, now).apps.rows && Has(sender, exe, start)
    ensures var s := SessionOf(sender, exe, start);
            LeavesSo(KeptSession(db, p, now, exe, start), Stored(Merged(db, p, now), exe, start),
                     SessionTaken(db, sender, p, now, exe, start),
                     NameSent(p, s).Some? && HasProject(db, sender, p, NameSent(p, s).value), LabelSent(p, s))
  {
    ListedAreAhead(p.tombstones, sender.tombstones, now);
    SessionBeforeRows(db, p, now, exe, start);
    RowPhase(db, sender, p, now, exe, start);
    WinsIff(db, sender, p, now, exe, start);
    LabelsAs(db, sender, p, now, exe, start);
  }

  /** The project and, without one, the label that a merge leaves the session with. */
  lemma EndsAs(db: Db, sender: Db, p: Payload, now: Time, exe: string, start: string)
    requires IsExport(sender, EPOCH, p) && Ahead(sender.tombstones, now) && IdsOk(db) && IdsOk(sender)
    requires exe != "" && start != "" && exe in Merged(db, p, now).apps.rows
    ensures EndsSo(db, sender, p, now, exe, start, Stored(Merged(db, p, now), exe, start))
  {
    if Has(sender, exe, start) {
      LeftAs(db, sender, p, now, exe, start);
      LeftSoEndsSo(db, sender, p, now, exe, start, Stored(Merged(db, p, now), exe, start));
    } else {
      StaysAs(db, sender, p, now, exe, start);
      StaysSoEndsSo(db, sender, p, now, exe, start);
    }
  }

  lemma StaysAs(db: Db, sender: Db, p: Payload, now: Time, exe: string, start: string)
    requires IsExport(sender, EPOCH, p) && Ahead(sender.tombstones, now) && IdsOk(db) && IdsOk(sender)
    requires exe != "" && exe in AfterApps(db, p, now).apps.rows && !Has(sender, exe, start)
    ensures Stored(Merged(db, p, now), exe, start) == KeptSession(db, p, now, exe, start)
  {
    ListedAreAhead(p.tombstones, sender.tombstones, now);
    SessionBeforeRows(db, p, now, exe, start);
    NoRowPhase(db, sender, p, now, exe, start);
  }

  lemma StaysSoEndsSo(db: Db, sender: Db, p: Payload, now: Time, exe: string, start: string)
    requires !Has(sender, exe, start)
    ensures EndsSo(db, sender, p, now, exe, start, KeptSession(db, p, now, exe, start))
  {
  }

  ghost predicate EndsSo(db: Db, sender: Db, p: Payload, now: Time, exe: string, start: string,
                         after: Option<Session>) {
    && (after.Some? <==> Kept(db, p, now, exe, start) || SessionTaken(db, sender, p, now, exe, start))
    && (after.Some? ==>
          && (after.value.projectId.Some? <==> EndsLinked(db, sender, p, now, exe, start))
          && (after.value.projectId.None? ==> after.value.projectName == EndLabel(db, sender, p, now, exe, start)))
  }

  lemma LeftSoEndsSo(db: Db, sender: Db, p: Payload, now: Time, exe: string, start: string, after: Option<Session>)
    requires Has(sender, exe, start)
    requires var s := SessionOf(sender, exe, start);
             LeavesSo(KeptSession(db, p, now, exe, start), after, SessionTaken(db, sender, p, now, exe, start),
                      NameSent(p, s).Some? && HasProject(db, sender, p, NameSent(p, s).value), LabelSent(p, s))
    ensures EndsSo(db, sender, p, now, exe, start, after)
  {
  }

  lemma TranslatesIff(db: Db, sender: Db, p: Payload, now: Time, s: Session)
    requires IsExport(sender, EPOCH, p) && IdsOk(sender)
    ensures ProjectLinks(AfterApps(db, p, now), p).Translate(s.projectId).Some? <==>
              NameSent(p, s).Some? && HasProject(db, sender, p, NameSent(p, s).value)
    ensures ProjectLinks(AfterApps(db, p, now), p).Label(s.projectId) == NameSent(p, s)
  {
    LinkTranslates(AfterApps(db, p, now), p, s);
    if NameSent(p, s).Some? {
      RemoteProjectsNamed(p.projects, s.projectId.value);
      HasProjectIff(db, sender, p, now, NameSent(p, s).value);
    }
  }

  lemma LinkTranslates(d: Db, p: Payload, s: Session)
    ensures ProjectLinks(d, p).Translate(s.projectId).Some? <==>
              NameSent(p, s).Some? && NameSent(p, s).value in d.projects.rows
    ensures ProjectLinks(d, p).Label(s.projectId) == NameSent(p, s)
  {
  }

  lemma {:induction false} RemoteProjectsNamed(rows: seq<ProjectRow>, id: int)
    requires id in RemoteProjects(rows)
    ensures RemoteProjects(rows)[id] != ""
  {
    var init, r := rows[..|rows| - 1], rows[|rows| - 1];
    if !(r.id == id && r.id > 0 && r.name != "") {
      RemoteProjectsNamed(init, id);
    }
  }

  /** Told before the merge: the session is there after it and looks for a project. */
  ghost predicate WillTouch(db: Db, sender: Db, p: Payload, now: Time, exe: string, start: string) {
    && (Kept(db, p, now, exe, start) || SessionTaken(db, sender, p, now, exe, start))
    && LooksForProject(db, sender, p, now, exe, start)
  }

  /** What the repair will stamp of the sessions, told on the databases before the merge. */
  lemma SessionTouchedIff(db: Db, sender: Db, p: Payload, now: Time, exe: string, start: string)
    requires IsExport(sender, EPOCH, p) && Ahead(sender.tombstones, now) && IdsOk(db) && IdsOk(sender) && RefsOk(db)
    requires exe != "" && start != "" && exe in Merged(db, p, now).apps.rows
    ensures SessionTouched(Merged(db, p, now), exe, start) <==> WillTouch(db, sender, p, now, exe, start)
  {
    var after := Merged(db, p, now);
    MergedKeepsRefs(db, p, now);
    EndsAs(db, sender, p, now, exe, start);
    if Has(after, exe, start) {
      TouchedWhenSound(after, SessionOf(after, exe, start));
      var name := EndLabel(db, sender, p, now, exe, start);
      if name.Some? && name.value != "" {
        HasProjectIff(db, sender, p, now, name.value);
      }
    }
  }

  lemma TouchedWhenSound(d: Db, s: Session)
    requires LinkOk(d.projects.rows, s.projectId)
    ensures TouchesSession(d, s) <==> s.projectId.None? && NamesProject(d, s)
  {
    if s.projectId.None? && NamesProject(d, s) {
      assert ProjectExists(d.projects.rows, d.projects.rows[s.projectName.value].id);
    }
  }

  /** The cycle of a session with what the repairs will stamp told before each of the two merges. */
  ghost function ToldCycle(m: Db, s: Db, fromSlave: Payload, fromMaster: Payload, now: Time, later: Time, exe: string,
                           start: string): Cycled<SessionFields>
  {
    PlainCycle(SessionPeer(m, exe, start), SessionPeer(s, exe, start),
               SessionKept(m, fromSlave.tombstones, exe, start, now),
               SessionKept(s, fromMaster.tombstones, exe, start, later),
               WillTouch(m, s, fromSlave, now, exe, start),
               WillTouch(s, MasterAfter(m, fromSlave, now), fromMaster, later, exe, start), now, later)
  }

  /** SessionConverges for sides with valid references, with a condition that reads no merged row of the receiver. */
  lemma SessionConvergesTold(m: Db, s: Db, fromSlave: Payload, fromMaster: Payload, now: Time, later: Time, exe: string,
                             start: string)
    requires IsDatedCycle(m, s, fromSlave, fromMaster, now, later) && exe != "" && start != "" && RefsOk(m) && RefsOk(s)
    requires BothHaveApp(m, s, fromSlave, fromMaster, now, later, exe)
    ensures var c := ToldCycle(m, s, fromSlave, fromMaster, now, later, exe, start);
            var a := SessionPeer(MasterAfter(m, fromSlave, now), exe, start).row;
            var b := SessionPeer(SlaveAfter(s, fromMaster, later), exe, start).row;
            && (Stamp(a) == Stamp(b) <==> c.Agrees())
            && (a == b <==> c.Agrees() && (c.touchedM || !Ties(c.keptM, c.keptS)))
  {
    ToldTrue(m, s, fromSlave, fromMaster, now, later, exe, start);
    SessionConverges(m, s, fromSlave, fromMaster, now, later, exe, start);
  }

  lemma ToldTrue(m: Db, s: Db, fromSlave: Payload, fromMaster: Payload, now: Time, later: Time, exe: string,
                 start: string)
    requires IsDatedCycle(m, s, fromSlave, fromMaster, now, later) && exe != "" && start != "" && RefsOk(m) && RefsOk(s)
    requires BothHaveApp(m, s, fromSlave, fromMaster, now, later, exe)
    ensures SessionCycle(m, s, fromSlave, fromMaster, now, later, exe, start) ==
            ToldCycle(m, s, fromSlave, fromMaster, now, later, exe, start)
  {
    BothMerged(m, s, fromSlave, fromMaster, now, later, exe);
    SessionTouchedIff(m, s, fromSlave, now, exe, start);
    MasterIsFit(m, s, fromSlave, fromMaster, now, later);
    SessionTouchedIff(s, MasterAfter(m, fromSlave, now), fromMaster, later, exe, start);
  }
}
