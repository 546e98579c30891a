/** Every column of a record, from the sender's database through its export into the receiver's: what a record that
    arrives holds, what one that was there takes over, and what the repair leaves of it. Ids and links mean the same
    names on both sides.
 */
module SyncColumns {
  import opened Options
  import opened SyncTypes
  import opened SyncMerge
  import opened SyncInvariants
  import opened SyncSafety
  import opened SyncExport
  import opened SyncPeers
  import opened SyncFate
  import opened SyncConvergence
  import opened SyncDelivery
  import opened SyncLinks
  import opened SyncTwice
  import opened SyncRepair
  import opened SyncManuals
  import opened SyncTouch

  // ----- links -----

  /** `link` there and `local` here are the ids of the project of one name. */
  ghost predicate SameProject(there: map<string, Project>, link: Option<int>, here: map<string, Project>, local: int) {
    exists name :: name != "" && name in there && name in here && link == Some(there[name].id) && local == here[name].id
  }

  ghost predicate SharesProject(there: map<string, Project>, link: Option<int>, here: map<string, Project>) {
    exists name :: name != "" && name in there && name in here && link == Some(there[name].id)
  }

  ghost predicate SameApp(there: map<string, App>, link: Option<int>, here: map<string, App>, local: int) {
    exists exe :: exe != "" && exe in there && exe in here && link == Some(there[exe].id) && local == here[exe].id
  }

  ghost predicate SharesApp(there: map<string, App>, link: Option<int>, here: map<string, App>) {
    exists exe :: exe != "" && exe in there && exe in here && link == Some(there[exe].id)
  }

  /** The link of the same name, or without one `own`. */
  ghost predicate LinksTo(there: map<string, Project>, link: Option<int>, here: map<string, Project>,
                          own: Option<int>, local: Option<int>) {
    if SharesProject(there, link, here) then local.Some? && SameProject(there, link, here, local.value)
    else local == own
  }

  ghost predicate LinksToApp(there: map<string, App>, link: Option<int>, here: map<string, App>, local: Option<int>) {
    if SharesApp(there, link, here) then local.Some? && SameApp(there, link, here, local.value) else local.None?
  }

  lemma NameOfProject(sender: Db, p: Payload, link: Option<int>, name: string)
    requires IdsOk(sender) && IsExport(sender, EPOCH, p) && name != "" && name in sender.projects.rows
    requires link == Some(sender.projects.rows[name].id)
    ensures link.value in RemoteProjects(p.projects) && RemoteProjects(p.projects)[link.value] == name
  {
    ExportNamesProjects(sender, EPOCH, p);
  }

  lemma ProjectOfName(sender: Db, p: Payload, id: int)
    requires IdsOk(sender) && IsExport(sender, EPOCH, p) && id in RemoteProjects(p.projects)
    ensures var name := RemoteProjects(p.projects)[id];
            name != "" && name in sender.projects.rows && sender.projects.rows[name].id == id
  {
    RemoteProjectsExact(p.projects, sender.projects);
    RemoteProjectsNamed(p.projects, id);
  }

  lemma ProjectTranslates(d: Db, sender: Db, p: Payload, link: Option<int>, own: Option<int>)
    requires IdsOk(sender) && IsExport(sender, EPOCH, p)
    ensures LinksTo(sender.projects.rows, link, d.projects.rows, own, ProjectLinks(d, p).Translate(link).Or(own))
    ensures ProjectLinks(d, p).Translate(link).Some? <==> SharesProject(sender.projects.rows, link, d.projects.rows)
  {
    if SharesProject(sender.projects.rows, link, d.projects.rows) {
      forall name | name != "" && name in sender.projects.rows && link == Some(sender.projects.rows[name].id)
        ensures link.value in RemoteProjects(p.projects) && RemoteProjects(p.projects)[link.value] == name
      {
        NameOfProject(sender, p, link, name);
      }
    } else if link.Some? && link.value in RemoteProjects(p.projects) {
      ProjectOfName(sender, p, link.value);
    }
  }

  lemma AppOfName(sender: Db, p: Payload, id: int)
    requires IdsOk(sender) && IsExport(sender, EPOCH, p) && id in RemoteApps(p.apps)
    ensures var exe := RemoteApps(p.apps)[id];
            exe != "" && exe in sender.apps.rows && sender.apps.rows[exe].id == id
  {
    RemoteAppsExact(p.apps, sender.apps);
  }

  lemma AppTranslates(d: Db, sender: Db, p: Payload, link: Option<int>)
    requires IdsOk(sender) && IsExport(sender, EPOCH, p)
    ensures LinksToApp(sender.apps.rows, link, d.apps.rows, AppLinks(d, p).Translate(link))
  {
    if SharesApp(sender.apps.rows, link, d.apps.rows) {
      ExportNamesApps(sender, EPOCH, p);
    } else if link.Some? && link.value in RemoteApps(p.apps) {
      AppOfName(sender, p, link.value);
    }
  }

  // ----- projects -----

  /** A project as it arrives: every column of the sender's, a rate only if it is positive. */
  ghost predicate ProjectArrived(sent: Project, here: Project) {
    && here.createdAt == sent.createdAt && here.folder == sent.folder && here.updatedAt == sent.updatedAt
    && here.fields == sent.fields.(rate := here.fields.rate)
    && here.fields.rate == if sent.fields.rate.Some? && sent.fields.rate.value > 0.0 then sent.fields.rate else None
  }

  /** A project that was there keeps its id, its folder and when it was made. */
  ghost predicate ProjectTook(sent: Project, own: Project, here: Project) {
    && here.id == own.id && here.createdAt == own.createdAt && here.folder == own.folder
    && here.updatedAt == sent.updatedAt
    && here.fields == sent.fields.(rate := here.fields.rate)
    && here.fields.rate == if sent.fields.rate.Some? && sent.fields.rate.value > 0.0 then sent.fields.rate else None
  }

  lemma {:induction false} OtherRowsSpareProject(table: ProjectTable, tombs: set<Tombstone>, rows: seq<ProjectRow>,
                                                 name: string)
    requires forall i :: 0 <= i < |rows| ==> rows[i].name != name
    ensures var after := MergeProjects(table, tombs, rows).rows;
            (name in after <==> name in table.rows) && (name in after ==> after[name] == table.rows[name])
  {
    if rows != [] {
      OtherRowsSpareProject(table, tombs, rows[..|rows| - 1], name);
    }
  }

  ghost predicate ProjectWins(tombs: set<Tombstone>, own: Option<Project>, name: string, updatedAt: Time) {
    && !Covers(tombs, Projects, name, updatedAt)
    && !(own.Some? && own.value.updatedAt >= updatedAt)
  }

  /** What the sender's row makes of the receiver's own. */
  ghost predicate ProjectLeft(own: Option<Project>, wins: bool, sent: Project, here: Option<Project>) {
    if !wins then here == own
    else here.Some? && if own.Some? then ProjectTook(sent, own.value, here.value) else ProjectArrived(sent, here.value)
  }

  lemma ProjectRowLeaves(table: ProjectTable, tombs: set<Tombstone>, name: string, sent: Project)
    requires name != ""
    ensures var own := At(table.rows, name);
            ProjectLeft(own, ProjectWins(tombs, own, name, sent.updatedAt), sent,
                        At(MergeProject(table, tombs, ProjectRowOf(name, sent)).rows, name))
  {
  }

  lemma {:induction false} ProjectRowsLeave(table: ProjectTable, tombs: set<Tombstone>, rows: seq<ProjectRow>,
                                            i: nat, sent: Project)
    requires i < |rows| && rows[i].name != "" && rows[i] == ProjectRowOf(rows[i].name, sent)
    requires forall j, k :: 0 <= j < k < |rows| ==> rows[j].name != rows[k].name
    ensures var own := At(table.rows, rows[i].name);
            ProjectLeft(own, ProjectWins(tombs, own, rows[i].name, sent.updatedAt), sent,
                        At(MergeProjects(table, tombs, rows).rows, rows[i].name))
  {
    var init, last, name := rows[..|rows| - 1], |rows| - 1, rows[i].name;
    if i == last {
      OtherRowsSpareProject(table, tombs, init, name);
      ProjectRowLeaves(MergeProjects(table, tombs, init), tombs, name, sent);
    } else {
      ProjectRowsLeave(table, tombs, init, i, sent);
    }
  }

  /** What the replay of deletions leaves of the receiver's project. */
  ghost function KeptProject(db: Db, p: Payload, name: string): Option<Project> {
    if name !in db.projects.rows || Doomed(db, p.tombstones, name) then None else Some(db.projects.rows[name])
  }

  /** A merge leaves a project as the replay of deletions does, unless the sender's is newer than that and than every
      deletion known by then: then it takes every column, and one that was there keeps what is its own. */
  lemma ProjectTakesRow(db: Db, sender: Db, p: Payload, now: Time, name: string)
    requires IsExport(sender, EPOCH, p) && name != "" && name in sender.projects.rows
    ensures var own, after, sent := KeptProject(db, p, name), Merged(db, p, now), sender.projects.rows[name];
            ProjectLeft(own, ProjectWins(after.tombstones, own, name, sent.updatedAt), sent,
                        At(after.projects.rows, name))
  {
    var d0, d := db.(triggersOn := false), AfterTombstones(db, p, now);
    ProjectFate(d0, p.tombstones, now, name);
    assert KeptProject(d0, p, name) == KeptProject(db, p, name);
    var i :| 0 <= i < |p.projects| && p.projects[i].name == name;
    ProjectRowsLeave(d.projects, d.tombstones, p.projects, i, sender.projects.rows[name]);
  }

  /** Round trip: a project the receiver lacks arrives whole, unless a deletion known by then covers it. */
  lemma ProjectArrivesWhole(db: Db, sender: Db, p: Payload, now: Time, name: string)
    requires IsExport(sender, EPOCH, p) && name != "" && name in sender.projects.rows && name !in db.projects.rows
    ensures var after, sent := Merged(db, p, now), sender.projects.rows[name];
            && (name in after.projects.rows <==> !Covers(after.tombstones, Projects, name, sent.updatedAt))
            && (name in after.projects.rows ==> ProjectArrived(sent, after.projects.rows[name]))
  {
    ProjectTakesRow(db, sender, p, now, name);
  }

  // ----- what an old peer does not send -----

  lemma {:induction false} OneProjectRowDecides(table: ProjectTable, tombs: set<Tombstone>, rows: seq<ProjectRow>,
                                                i: nat)
    requires i < |rows| && rows[i].name in table.rows
    requires forall j :: 0 <= j < |rows| && j != i ==> rows[j].name != rows[i].name
    ensures At(MergeProjects(table, tombs, rows).rows, rows[i].name) ==
            At(MergeProject(table, tombs, rows[i]).rows, rows[i].name)
  {
    var init, last, name := rows[..|rows| - 1], |rows| - 1, rows[i].name;
    if i == last {
      OtherRowsSpareProject(table, tombs, init, name);
    } else {
      OneProjectRowDecides(table, tombs, init, i);
    }
  }

  /** `sent` is what a payload says of a marker: an absent member leaves the receiver's own, an explicit null clears
      it. */
  ghost predicate MarkerTaken<T>(sent: Json<T>, own: Option<T>, here: Option<T>) {
    match sent
    case Absent => here == own
    case Null => here == None
    case Value(value) => here == Some(value)
  }

  /** Any payload: a row that a project takes leaves the merge markers it does not mention, as rows of old peers do. */
  lemma MarkersOfAnyRow(db: Db, p: Payload, now: Time, i: nat)
    requires i < |p.projects| && p.projects[i].name != ""
    requires forall j :: 0 <= j < |p.projects| && j != i ==> p.projects[j].name != p.projects[i].name
    requires var r := p.projects[i];
             && KeptProject(db, p, r.name).Some?
             && ProjectWins(Merged(db, p, now).tombstones, KeptProject(db, p, r.name), r.name, r.updatedAt)
    ensures var r, own, after := p.projects[i], KeptProject(db, p, p.projects[i].name).value, Merged(db, p, now);
            && r.name in after.projects.rows
            && after.projects.rows[r.name].updatedAt == r.updatedAt
            && MarkerTaken(r.mergedInto, own.fields.mergedInto, after.projects.rows[r.name].fields.mergedInto)
            && MarkerTaken(r.mergedAt, own.fields.mergedAt, after.projects.rows[r.name].fields.mergedAt)
  {
    var d0, d, r := db.(triggersOn := false), AfterTombstones(db, p, now), p.projects[i];
    ProjectFate(d0, p.tombstones, now, r.name);
    assert KeptProject(d0, p, r.name) == KeptProject(db, p, r.name);
    OneProjectRowDecides(d.projects, d.tombstones, p.projects, i);
  }

  // ----- applications -----

  /** The stamp of a row that is inserted: the trigger stamps one from 1970-01-01 00:00:00 now. */
  function InsertStamp(updatedAt: Time, now: Time): Time {
    if updatedAt == 0 then now else updatedAt
  }

  ghost predicate AppArrived(there: map<string, Project>, sent: App, d: Db, here: App, now: Time) {
    && here.display == sent.display && here.updatedAt == InsertStamp(sent.updatedAt, now)
    && LinksTo(there, sent.projectId, d.projects.rows, None, here.projectId)
  }

  ghost predicate AppTook(there: map<string, Project>, sent: App, own: App, d: Db, here: App) {
    && here.id == own.id && here.display == sent.display && here.updatedAt == sent.updatedAt
    && LinksTo(there, sent.projectId, d.projects.rows, own.projectId, here.projectId)
  }

  ghost predicate AppWins(tombs: set<Tombstone>, own: Option<App>, exe: string, updatedAt: Time) {
    && !Covers(tombs, Applications, exe, updatedAt)
    && !(own.Some? && own.value.updatedAt >= updatedAt)
  }

  ghost predicate AppLeft(there: map<string, Project>, own: Option<App>, wins: bool, sent: App, d: Db,
                          here: Option<App>, now: Time) {
    if !wins then here == own
    else
      && here.Some?
      && if own.Some? then AppTook(there, sent, own.value, d, here.value)
         else AppArrived(there, sent, d, here.value, now)
  }

  lemma AppRowLeaves(d: Db, sender: Db, p: Payload, table: AppTable, exe: string, sent: App, now: Time)
    requires IdsOk(sender) && IsExport(sender, EPOCH, p) && exe != ""
    ensures var own := At(table.rows, exe);
            AppLeft(sender.projects.rows, own, AppWins(d.tombstones, own, exe, sent.updatedAt), sent, d,
                    At(MergeApp(table, d.tombstones, ProjectLinks(d, p), AppRowOf(exe, sent), now).rows, exe), now)
  {
    ProjectTranslates(d, sender, p, sent.projectId, None);
    if exe in table.rows {
      ProjectTranslates(d, sender, p, sent.projectId, table.rows[exe].projectId);
    }
  }

  lemma {:induction false} AppRowsLeave(d: Db, sender: Db, p: Payload, table: AppTable, rows: seq<AppRow>, i: nat,
                                        sent: App, now: Time)
    requires IdsOk(sender) && IsExport(sender, EPOCH, p)
    requires i < |rows| && rows[i].exe != "" && rows[i] == AppRowOf(rows[i].exe, sent)
    requires forall j, k :: 0 <= j < k < |rows| ==> rows[j].exe != rows[k].exe
    ensures var own := At(table.rows, rows[i].exe);
            AppLeft(sender.projects.rows, own, AppWins(d.tombstones, own, rows[i].exe, sent.updatedAt), sent, d,
                    At(MergeApps(table, d.tombstones, ProjectLinks(d, p), rows, now).rows, rows[i].exe), now)
  {
    var init, last, exe := rows[..|rows| - 1], |rows| - 1, rows[i].exe;
    if i == last {
      OtherRowsSpareApp(table, d.tombstones, ProjectLinks(d, p), init, exe, now);
      AppRowLeaves(d, sender, p, MergeApps(table, d.tombstones, ProjectLinks(d, p), init, now), exe, sent, now);
    } else {
      AppRowsLeave(d, sender, p, table, init, i, sent, now);
    }
  }

  lemma SameLinksLeave(there: map<string, Project>, own: Option<App>, wins: bool, sent: App, d: Db, e: Db,
                       here: Option<App>, now: Time)
    requires d.projects == e.projects && AppLeft(there, own, wins, sent, d, here, now)
    ensures AppLeft(there, own, wins, sent, e, here, now)
  {
  }

  /** From what the replay of deletions leaves on. */
  lemma AppColumns(db: Db, sender: Db, p: Payload, now: Time, exe: string)
    requires IdsOk(sender) && IsExport(sender, EPOCH, p) && exe != "" && exe in sender.apps.rows
    ensures var own, after, sent := At(AfterTombstones(db, p, now).apps.rows, exe), Merged(db, p, now),
              sender.apps.rows[exe];
            AppLeft(sender.projects.rows, own, AppWins(after.tombstones, own, exe, sent.updatedAt), sent, after,
                    At(after.apps.rows, exe), now)
  {
    var d, sent := AfterProjects(db, p, now), sender.apps.rows[exe];
    var own := At(d.apps.rows, exe);
    var i :| 0 <= i < |p.apps| && p.apps[i].exe == exe;
    AppRowsLeave(d, sender, p, d.apps, p.apps, i, sent, now);
    SameLinksLeave(sender.projects.rows, own, AppWins(d.tombstones, own, exe, sent.updatedAt), sent, d,
                   Merged(db, p, now), At(AfterApps(db, p, now).apps.rows, exe), now);
  }

  lemma AppArrivesWhole(db: Db, sender: Db, p: Payload, now: Time, exe: string)
    requires IdsOk(sender) && IsExport(sender, EPOCH, p) && exe != "" && exe in sender.apps.rows
    requires exe !in db.apps.rows
    ensures var after, sent := Merged(db, p, now), sender.apps.rows[exe];
            && (exe in after.apps.rows <==> !Covers(after.tombstones, Applications, exe, sent.updatedAt))
            && (exe in after.apps.rows ==> AppArrived(sender.projects.rows, sent, after, after.apps.rows[exe], now))
  {
    ApplyTombstonesShrinks(db.(triggersOn := false), p.tombstones, now);
    AppColumns(db, sender, p, now, exe);
  }

  ghost function KeptApp(db: Db, p: Payload, now: Time, exe: string): Option<App> {
    if exe !in db.apps.rows || AppFalls(db, p.tombstones, exe) then None
    else Some(UnlinkedApp(db.apps.rows[exe], LosesLink(db, p.tombstones, db.apps.rows[exe].projectId), now))
  }

  lemma SameKeptApp(db: Db, p: Payload, now: Time, exe: string)
    ensures KeptApp(db.(triggersOn := false), p, now, exe) == KeptApp(db, p, now, exe)
  {
  }

  /** The same for an application, its project by name; one that was there keeps its own if the sender's has none here.
      The replay may have taken its project and stamped it. */
  lemma AppTakesRow(db: Db, sender: Db, p: Payload, now: Time, exe: string)
    requires IdsOk(db) && IdsOk(sender) && IsExport(sender, EPOCH, p) && Ahead(sender.tombstones, now)
    requires exe != "" && exe in sender.apps.rows
    ensures var own, after, sent := KeptApp(db, p, now, exe), Merged(db, p, now), sender.apps.rows[exe];
            AppLeft(sender.projects.rows, own, AppWins(after.tombstones, own, exe, sent.updatedAt), sent, after,
                    At(after.apps.rows, exe), now)
  {
    ListedAreAhead(p.tombstones, sender.tombstones, now);
    TombstoneFate(db.(triggersOn := false), p.tombstones, now, exe);
    SameKeptApp(db, p, now, exe);
    AppColumns(db, sender, p, now, exe);
  }

  // ----- sessions -----

  /** The name of the project a session has there, if it has one. */
  ghost predicate IsNameOf(there: map<string, Project>, link: Option<int>, name: Option<string>) {
    if exists n :: n != "" && n in there && link == Some(there[n].id)
    then name.Some? && name.value != "" && name.value in there && link == Some(there[name.value].id)
    else name.None?
  }

  /** The label that comes with a session: its own, or without one the name of its project, or without that `own`. */
  ghost predicate IsLabel(there: map<string, Project>, sent: Session, own: Option<string>, name: Option<string>) {
    if sent.projectName.Some? && sent.projectName.value != "" then name == sent.projectName
    else IsNameOf(there, sent.projectId, name) || (IsNameOf(there, sent.projectId, None) && name == own)
  }

  ghost predicate SessionArrived(there: map<string, Project>, sent: Session, d: Db, here: Session, now: Time) {
    && here.fields == sent.fields && here.date == sent.date
    && here.updatedAt == InsertStamp(sent.updatedAt, now)
    && LinksTo(there, sent.projectId, d.projects.rows, None, here.projectId)
    && IsLabel(there, sent, None, here.projectName)
  }

  /** A session that was there keeps its date; where its project changes the trigger labels it by that project. */
  ghost predicate SessionTook(there: map<string, Project>, sent: Session, own: Session, d: Db, here: Session) {
    && here.fields == sent.fields && here.date == own.date && here.updatedAt == sent.updatedAt
    && LinksTo(there, sent.projectId, d.projects.rows, own.projectId, here.projectId)
    && if here.projectId != own.projectId then IsNameOf(there, sent.projectId, here.projectName)
       else IsLabel(there, sent, own.projectName, here.projectName)
  }

  ghost predicate SessionLeft(there: map<string, Project>, own: Option<Session>, wins: bool, sent: Session, d: Db,
                              here: Option<Session>, now: Time) {
    if !wins then here == own
    else
      && here.Some?
      && if own.Some? then SessionTook(there, sent, own.value, d, here.value)
         else SessionArrived(there, sent, d, here.value, now)
  }

  ghost predicate SessionWins(tombs: set<Tombstone>, own: Option<Session>, exe: string, start: string,
                              updatedAt: Time) {
    && !Covers(tombs, Sessions, exe + "|" + start, updatedAt)
    && !(own.Some? && own.value.updatedAt >= updatedAt)
  }

  lemma LabelTranslates(d: Db, sender: Db, p: Payload, link: Option<int>)
    requires IdsOk(sender) && IsExport(sender, EPOCH, p)
    ensures IsNameOf(sender.projects.rows, link, ProjectLinks(d, p).Label(link))
  {
    if exists n :: n != "" && n in sender.projects.rows && link == Some(sender.projects.rows[n].id) {
      forall n | n != "" && n in sender.projects.rows && link == Some(sender.projects.rows[n].id)
        ensures link.value in RemoteProjects(p.projects) && RemoteProjects(p.projects)[link.value] == n
      {
        NameOfProject(sender, p, link, n);
      }
    } else if link.Some? && link.value in RemoteProjects(p.projects) {
      ProjectOfName(sender, p, link.value);
    }
  }

  lemma SessionRowWins(d: Db, sender: Db, p: Payload, exe: string, start: string)
    requires IdsOk(sender) && IsExport(sender, EPOCH, p) && exe != "" && start != "" && exe in d.apps.rows
    requires Has(sender, exe, start)
    ensures !SessionRowLoses(d.sessions, d.tombstones, AppLinks(d, p), RowSent(sender, exe, start)) <==>
              SessionWins(d.tombstones, Stored(d, exe, start), exe, start, SessionOf(sender, exe, start).updatedAt)
  {
    SentKey(d, sender, p, exe, start);
    RemoteIdOf(sender, p, exe);
    assert SessionKeyText(exe, start) == exe + "|" + start;
  }

  /** What a row that wins stores. */
  lemma SessionRowStores(d: Db, sender: Db, p: Payload, exe: string, start: string, apps: Links, k: SessionKey,
                         now: Time)
    requires IdsOk(sender) && IsExport(sender, EPOCH, p) && Has(sender, exe, start)
    requires LocalSessionKey(apps, RowSent(sender, exe, start)) == Some(k)
    requires !SessionRowLoses(d.sessions, d.tombstones, apps, RowSent(sender, exe, start))
    ensures SessionLeft(sender.projects.rows, At(d.sessions, k), true, SessionOf(sender, exe, start), d,
                        At(MergeSession(d.sessions, d.tombstones, apps, ProjectLinks(d, p),
                                        RowSent(sender, exe, start), now), k), now)
  {
    var sent := SessionOf(sender, exe, start);
    ProjectTranslates(d, sender, p, sent.projectId, None);
    if k in d.sessions {
      ProjectTranslates(d, sender, p, sent.projectId, d.sessions[k].projectId);
    }
    LabelTranslates(d, sender, p, sent.projectId);
  }

  lemma SessionRowLeaves(d: Db, sender: Db, p: Payload, exe: string, start: string, now: Time)
    requires IdsOk(sender) && IsExport(sender, EPOCH, p) && exe != "" && start != "" && exe in d.apps.rows
    requires Has(sender, exe, start)
    ensures var own, sent := Stored(d, exe, start), SessionOf(sender, exe, start);
            SessionLeft(sender.projects.rows, own, SessionWins(d.tombstones, own, exe, start, sent.updatedAt), sent, d,
                        At(MergeSession(d.sessions, d.tombstones, AppLinks(d, p), ProjectLinks(d, p),
                                        RowSent(sender, exe, start), now), SessionKey(d.apps.rows[exe].id, start)), now)
  {
    SentKey(d, sender, p, exe, start);
    SessionRowWins(d, sender, p, exe, start);
    if !SessionRowLoses(d.sessions, d.tombstones, AppLinks(d, p), RowSent(sender, exe, start)) {
      SessionRowStores(d, sender, p, exe, start, AppLinks(d, p), SessionKey(d.apps.rows[exe].id, start), now);
    }
  }

  /** The same for a session, found by executable and start time: the replay of deletions and the phases before leave
      `own`. */
  lemma SessionColumns(db: Db, sender: Db, p: Payload, now: Time, exe: string, start: string)
    requires IsExport(sender, EPOCH, p) && IdsOk(db) && IdsOk(sender) && exe != "" && start != ""
    requires exe in Merged(db, p, now).apps.rows && Has(sender, exe, start)
    ensures var own, after, sent := Stored(AfterApps(db, p, now), exe, start), Merged(db, p, now),
              SessionOf(sender, exe, start);
            SessionLeft(sender.projects.rows, own, SessionWins(after.tombstones, own, exe, start, sent.updatedAt), sent,
                        after, Stored(after, exe, start), now)
  {
    var d := AfterApps(db, p, now);
    SentKey(d, sender, p, exe, start);
    var i := SentAt(sender, p, exe, start);
    SessionDecided(db, sender, EPOCH, p, now, i);
    SessionRowLeaves(d, sender, p, exe, start, now);
  }

  /** Nothing before the session rows adds a session. */
  lemma NoSessionYet(db: Db, p: Payload, now: Time, exe: string, start: string)
    requires IdsOk(db) && !Has(db, exe, start)
    ensures !Has(AfterApps(db, p, now), exe, start)
  {
    SessionAcrossApps(db, p, now, exe, start);
    ApplyTombstonesShrinks(db.(triggersOn := false), p.tombstones, now);
    assert SessionRecord(AfterTombstones(db, p, now).apps.rows, AfterTombstones(db, p, now).sessions, exe, start).None?;
  }

  lemma SessionArrivesWhole(db: Db, sender: Db, p: Payload, now: Time, exe: string, start: string)
    requires IsExport(sender, EPOCH, p) && IdsOk(db) && IdsOk(sender) && exe != "" && start != ""
    requires Has(sender, exe, start) && !Has(db, exe, start)
    ensures var after, sent := Merged(db, p, now), SessionOf(sender, exe, start);
            && (Has(after, exe, start) <==>
                  exe in after.apps.rows && !Covers(after.tombstones, Sessions, exe + "|" + start, sent.updatedAt))
            && (Has(after, exe, start) ==>
                  SessionArrived(sender.projects.rows, sent, after, SessionOf(after, exe, start), now))
  {
    NoSessionYet(db, p, now, exe, start);
    if exe in Merged(db, p, now).apps.rows {
      SessionColumns(db, sender, p, now, exe, start);
    }
  }

  /** A session that was there, told on the database before: the replay may have taken its project and stamped it. */
  lemma SessionTakesRow(db: Db, sender: Db, p: Payload, now: Time, exe: string, start: string)
    requires IsExport(sender, EPOCH, p) && Ahead(sender.tombstones, now) && IdsOk(db) && IdsOk(sender)
    requires exe != "" && start != "" && exe in Merged(db, p, now).apps.rows && Has(sender, exe, start)
    ensures var own, after, sent := KeptSession(db, p, now, exe, start), Merged(db, p, now),
              SessionOf(sender, exe, start);
            SessionLeft(sender.projects.rows, own, SessionWins(after.tombstones, own, exe, start, sent.updatedAt), sent,
                        after, Stored(after, exe, start), now)
  {
    ListedAreAhead(p.tombstones, sender.tombstones, now);
    SessionBeforeRows(db, p, now, exe, start);
    SessionColumns(db, sender, p, now, exe, start);
  }

  // ----- manual sessions -----

  /** The project of the same name, or 0. */
  ghost predicate ManualLinksTo(there: map<string, Project>, link: int, here: map<string, Project>, local: int) {
    if SharesProject(there, Some(link), here) then SameProject(there, Some(link), here, local) else local == 0
  }

  /** A manual session that takes the sender's row takes every column, its project by name: 0 where the sender has none
      or one that is not here, whatever it had before. A project it did not have labels it by its name and stamps it
      now; when it was made is the receiver's, if it was there. */
  ghost predicate ManualTook(sender: Db, sent: Manual, own: Option<Manual>, d: Db, here: Manual, now: Time) {
    && here.fields == sent.fields.(appId := here.fields.appId)
    && here.createdAt == (if own.Some? then own.value.createdAt else sent.createdAt)
    && LinksToApp(sender.apps.rows, sent.fields.appId, d.apps.rows, here.fields.appId)
    && ManualLinksTo(sender.projects.rows, sent.projectId, d.projects.rows, here.projectId)
    && if here.projectId != 0 && (own.None? || own.value.projectId != here.projectId) then
         here.updatedAt == now && IsNameOf(sender.projects.rows, Some(sent.projectId), here.projectName)
       else
         here.updatedAt == sent.updatedAt && here.projectName == if own.Some? then own.value.projectName else None
  }

  ghost predicate ManualWins(tombs: set<Tombstone>, own: Option<Manual>, k: ManualKey, updatedAt: Time) {
    && !CoversManual(tombs, k, updatedAt)
    && !(own.Some? && own.value.updatedAt >= updatedAt)
  }

  ghost predicate ManualLeft(sender: Db, own: Option<Manual>, wins: bool, sent: Manual, d: Db, here: Option<Manual>,
                             now: Time) {
    if !wins then here == own else here.Some? && ManualTook(sender, sent, own, d, here.value, now)
  }

  /** What a row that wins stores. */
  lemma ManualRowStores(d: Db, sender: Db, p: Payload, manuals: map<ManualKey, Manual>, tombs: set<Tombstone>,
                        k: ManualKey, now: Time)
    requires IdsOk(sender) && IsExport(sender, EPOCH, p) && k in sender.manuals
    requires !ManualRowLoses(manuals, tombs, ManualRowOf(k, sender.manuals[k]))
    ensures ManualLeft(sender, At(manuals, k), true, sender.manuals[k], d,
                       At(MergeManual(manuals, tombs, AppLinks(d, p), ProjectLinks(d, p),
                                            ManualRowOf(k, sender.manuals[k]), now), k), now)
  {
    var sent := sender.manuals[k];
    ProjectTranslates(d, sender, p, Some(sent.projectId), None);
    LabelTranslates(d, sender, p, Some(sent.projectId));
    AppTranslates(d, sender, p, sent.fields.appId);
  }

  lemma ManualRowLeaves(d: Db, sender: Db, p: Payload, k: ManualKey, now: Time)
    requires IdsOk(sender) && IsExport(sender, EPOCH, p) && k.title != "" && k.start != "" && k in sender.manuals
    ensures var own, sent := At(d.manuals, k), sender.manuals[k];
            ManualLeft(sender, own, ManualWins(d.tombstones, own, k, sent.updatedAt), sent, d,
                       At(MergeManual(d.manuals, d.tombstones, AppLinks(d, p), ProjectLinks(d, p),
                                            ManualRowOf(k, sent), now), k), now)
  {
    if !ManualRowLoses(d.manuals, d.tombstones, ManualRowOf(k, sender.manuals[k])) {
      ManualRowStores(d, sender, p, d.manuals, d.tombstones, k, now);
    }
  }

  lemma ManualColumns(db: Db, sender: Db, p: Payload, now: Time, k: ManualKey)
    requires IdsOk(sender) && IsExport(sender, EPOCH, p) && k.title != "" && k.start != "" && k in sender.manuals
    ensures var own, after, sent := At(AfterTombstones(db, p, now).manuals, k), Merged(db, p, now),
              sender.manuals[k];
            ManualLeft(sender, own, ManualWins(after.tombstones, own, k, sent.updatedAt), sent, after,
                       At(after.manuals, k), now)
  {
    var f := AfterSessions(db, p, now);
    ListsOnce(p.manuals, sender.manuals, EPOCH);
    var i :| 0 <= i < |p.manuals| && ManualKeyOf(p.manuals[i]) == k;
    OneManualDecides(f.manuals, f.tombstones, AppLinks(f, p), ProjectLinks(f, p), p.manuals, now, i);
    ManualRowLeaves(f, sender, p, k, now);
  }

  lemma ManualArrivesWhole(db: Db, sender: Db, p: Payload, now: Time, k: ManualKey)
    requires IdsOk(sender) && IsExport(sender, EPOCH, p) && k.title != "" && k.start != "" && k in sender.manuals
    requires k !in db.manuals
    ensures var after, sent := Merged(db, p, now), sender.manuals[k];
            && (k in after.manuals <==> !CoversManual(after.tombstones, k, sent.updatedAt))
            && (k in after.manuals ==> ManualTook(sender, sent, None, after, after.manuals[k], now))
  {
    ApplyTombstonesShrinks(db.(triggersOn := false), p.tombstones, now);
    ManualColumns(db, sender, p, now, k);
  }

  /** What the replay of deletions leaves of the receiver's manual session. */
  ghost function KeptManual(db: Db, p: Payload, now: Time, k: ManualKey): Option<Manual> {
    if k !in db.manuals || ManualFalls(db, p.tombstones, k) then None
    else Some(UnlinkedManual(db.manuals[k], LosesLink(db, p.tombstones, Some(db.manuals[k].projectId)), now))
  }

  lemma ManualBeforeRows(db: Db, p: Payload, now: Time, k: ManualKey)
    requires AheadOf(p.tombstones, now)
    ensures At(AfterTombstones(db, p, now).manuals, k) == KeptManual(db, p, now, k)
  {
    var d0 := db.(triggersOn := false);
    ManualFate(d0, p.tombstones, now, k);
    if k in db.manuals {
      forall text ensures FelledBy(d0, p.tombstones, k, text) <==> FelledBy(db, p.tombstones, k, text) {
      }
    }
  }

  /** A manual session through a merge, told on the database before: it is what the replay of deletions leaves, unless
      the sender's is newer than that and than every deletion known by then. */
  lemma ManualTakesRow(db: Db, sender: Db, p: Payload, now: Time, k: ManualKey)
    requires IdsOk(sender) && IsExport(sender, EPOCH, p) && Ahead(sender.tombstones, now)
    requires k.title != "" && k.start != "" && k in sender.manuals
    ensures var own, after, sent := KeptManual(db, p, now, k), Merged(db, p, now), sender.manuals[k];
            ManualLeft(sender, own, ManualWins(after.tombstones, own, k, sent.updatedAt), sent, after,
                       At(after.manuals, k), now)
  {
    ListedAreAhead(p.tombstones, sender.tombstones, now);
    ManualBeforeRows(db, p, now, k);
    ManualColumns(db, sender, p, now, k);
  }

  /** A manual session that takes the sender's row ends with the project of the same name as there, and without one
      exactly if the sender's has none or one that the receiver ends without, whatever it had before. */
  lemma ManualTakesProject(db: Db, sender: Db, p: Payload, now: Time, k: ManualKey)
    requires IdsOk(db) && IdsOk(sender) && IsExport(sender, EPOCH, p)
    requires k.title != "" && k.start != "" && k in sender.manuals
    requires ManualWins(Merged(db, p, now).tombstones, At(AfterTombstones(db, p, now).manuals, k), k,
                        sender.manuals[k].updatedAt)
    ensures var after, link := Merged(db, p, now), Some(sender.manuals[k].projectId);
            && k in after.manuals
            && (forall name | name != "" && name in sender.projects.rows && name in after.projects.rows
                  :: link == Some(sender.projects.rows[name].id) ==>
                       after.manuals[k].projectId == after.projects.rows[name].id)
            && (after.manuals[k].projectId == 0 <==> !SharesProject(sender.projects.rows, link, after.projects.rows))
  {
    ManualColumns(db, sender, p, now, k);
    MergedKeepsIds(db, p, now);
  }

  // ----- through the repair -----

  ghost predicate IsThere(projects: map<string, Project>, link: Option<int>) {
    exists name :: name in projects && link == Some(projects[name].id)
  }

  /** A marker of a merge into a project that is not there is cleared together with its time. */
  lemma ProjectThroughRepair(db: Db, now: Time, name: string)
    requires name in db.projects.rows
    ensures name in Repaired(db, now).projects.rows
    ensures var own, here := db.projects.rows[name], Repaired(db, now).projects.rows[name];
            if own.fields.mergedInto.Some? && own.fields.mergedInto.value !in db.projects.rows then
              here == own.(fields := own.fields.(mergedInto := None, mergedAt := None), updatedAt := now)
            else here == own
  {
    RepairedKeepsIds(db, now);
  }

  lemma AppThroughRepair(db: Db, now: Time, exe: string)
    requires exe in db.apps.rows
    ensures exe in Repaired(db, now).apps.rows
    ensures var own, here := db.apps.rows[exe], Repaired(db, now).apps.rows[exe];
            if own.projectId.None? || IsThere(db.projects.rows, own.projectId) then here == own
            else here == own.(projectId := None, updatedAt := now)
  {
    RepairedKeepsIds(db, now);
  }

  lemma ManualThroughRepair(db: Db, now: Time, k: ManualKey)
    requires k in db.manuals
    ensures k in Repaired(db, now).manuals
    ensures var own, here := db.manuals[k], Repaired(db, now).manuals[k];
            if own.projectId == 0 || IsThere(db.projects.rows, Some(own.projectId)) then here == own
            else here == own.(projectId := 0, updatedAt := now)
  {
    RepairedTables(db, now);
    RepairedKeepsIds(db, now);
    var d := ClearSessionLinks(Reattach(db, now), now);
    assert Relinked(db, now).manuals == ClearManualLinks(d, now).manuals;
    assert d.projects == db.projects && d.manuals == db.manuals;
  }

  /** A session whose project is there stays as it is. Another takes the project its label names, if that is there, and
      else none; what changes is stamped now. */
  lemma SessionThroughRepair(db: Db, now: Time, k: SessionKey)
    requires k in db.sessions
    ensures k in Repaired(db, now).sessions <==> exists exe :: exe in db.apps.rows && db.apps.rows[exe].id == k.appId
    ensures k in Repaired(db, now).sessions ==>
              var own, here := db.sessions[k], Repaired(db, now).sessions[k];
              if IsThere(db.projects.rows, own.projectId) then here == own
              else if own.projectName.Some? && own.projectName.value != "" &&
                        own.projectName.value in db.projects.rows then
                here == own.(projectId := Some(db.projects.rows[own.projectName.value].id), updatedAt := now)
              else if own.projectId.Some? then here == own.(projectId := None, updatedAt := now)
              else here == own
  {
    SessionAfterRepair(db, now, k);
    NamedIsLinked(db, db.sessions[k]);
  }
}
