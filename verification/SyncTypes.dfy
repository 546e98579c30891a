/** The dashboard database and the sync payload, as the merge in src/sync_common.rs sees them.  A time is a number of
    seconds: all stamps are taken to be in the one normalized format, so that the order of the source's strings is
    the order of these numbers. */
module SyncTypes {

  import opened Options

  type Time = nat

  /** "1970-01-01 00:00:00", the cutoff of a full export. */
  const EPOCH: Time := 0

  datatype TableName = Projects | Applications | Sessions | ManualSessions | Unknown(text: string)

  datatype Tombstone = Tombstone(table: TableName, key: string, deletedAt: Time)

  // ----- local rows -----

  /** The columns of a project that a winning remote row overwrites. */
  datatype ProjectFields = ProjectFields(
    color: string,
    rate: Option<real>,
    excludedAt: Option<Time>,
    frozenAt: Option<Time>,
    mergedInto: Option<string>,
    mergedAt: Option<Time>
  )

  datatype Project = Project(
    id: int,
    fields: ProjectFields,
    createdAt: string,
    folder: Option<string>,
    updatedAt: Time
  )

  datatype App = App(id: int, display: string, projectId: Option<int>, updatedAt: Time)

  datatype SessionKey = SessionKey(appId: int, start: string)

  /** The columns of a session that a winning remote row overwrites. */
  datatype SessionFields = SessionFields(
    end: string,
    duration: int,
    rate: real,
    comment: Option<string>,
    hidden: int
  )

  datatype Session = Session(
    fields: SessionFields,
    date: string,
    projectId: Option<int>,
    projectName: Option<string>,
    updatedAt: Time
  )

  datatype ManualKey = ManualKey(title: string, start: string)

  datatype ManualFields = ManualFields(
    kind: string,
    appId: Option<int>,
    end: string,
    duration: int,
    date: string
  )

  /** `projectId` is NOT NULL in the schema; 0 stands for "not assigned". */
  datatype Manual = Manual(
    fields: ManualFields,
    projectId: int,
    projectName: Option<string>,
    createdAt: Option<string>,
    updatedAt: Time
  )

  datatype ProjectTable = ProjectTable(rows: map<string, Project>, next: int)

  datatype AppTable = AppTable(rows: map<string, App>, next: int)

  /** The database. `next` is the next AUTOINCREMENT id of a table; `triggersOn` says whether
      the four AFTER DELETE triggers that mint tombstones are installed. */
  datatype Db = Db(
    projects: ProjectTable,
    apps: AppTable,
    sessions: map<SessionKey, Session>,
    manuals: map<ManualKey, Manual>,
    tombstones: set<Tombstone>,
    triggersOn: bool
  )

  // ----- payload rows -----

  /** A JSON member: an old peer leaves it out, a new peer may send null. */
  datatype Json<+T> = Absent | Null | Value(value: T) {
    function ToOption(): Option<T> {
      if Value? then Some(value) else None
    }

    /** An absent member keeps the local value; an explicit null clears it. */
    function Over(local: Option<T>): Option<T> {
      if Absent? then local else ToOption()
    }
  }

  datatype ProjectRow = ProjectRow(
    id: int,
    name: string,
    color: string,
    rate: Option<real>,
    createdAt: string,
    excludedAt: Option<Time>,
    frozenAt: Option<Time>,
    folder: Option<string>,
    mergedInto: Json<string>,
    mergedAt: Json<Time>,
    updatedAt: Time
  )

  datatype AppRow = AppRow(
    id: int,
    exe: string,
    display: Option<string>,
    projectId: Option<int>,
    updatedAt: Time
  )

  datatype SessionRow = SessionRow(
    appId: int,
    start: string,
    end: Option<string>,
    duration: int,
    date: string,
    rate: real,
    comment: Option<string>,
    hidden: int,
    projectId: Option<int>,
    projectName: Option<string>,
    updatedAt: Time
  )

  datatype ManualRow = ManualRow(
    title: string,
    start: string,
    kind: Option<string>,
    projectId: Option<int>,
    projectName: Option<string>,
    appId: Option<int>,
    end: Option<string>,
    duration: int,
    date: Option<string>,
    createdAt: Option<string>,
    updatedAt: Time
  )

  datatype Payload = Payload(
    projects: seq<ProjectRow>,
    apps: seq<AppRow>,
    sessions: seq<SessionRow>,
    manuals: seq<ManualRow>,
    tombstones: seq<Tombstone>
  )

  // ----- sync keys -----

  function SessionKeyText(exe: string, start: string): string {
    exe + "|" + start
  }

  /** Rust's split_once('|'). */
  function SplitOnce(text: string): Option<(string, string)> {
    if text == "" then None
    else if text[0] == '|' then Some(("", text[1..]))
    else
      match SplitOnce(text[1..])
      case None => None
      case Some((head, tail)) => Some(([text[0]] + head, tail))
  }

  /** What splits off a key puts back together, and the head never holds a separator. */
  lemma {:induction false} SplitOnceSound(text: string)
    ensures SplitOnce(text).Some? ==>
              && SessionKeyText(SplitOnce(text).value.0, SplitOnce(text).value.1) == text
              && '|' !in SplitOnce(text).value.0
  {
    if text != "" && text[0] != '|' {
      SplitOnceSound(text[1..]);
      if SplitOnce(text).Some? {
        assert [text[0]] + text[1..] == text;
        var (head, tail) := SplitOnce(text[1..]).value;
        assert SessionKeyText([text[0]] + head, tail) == [text[0]] + SessionKeyText(head, tail);
      }
    }
  }

  /** A session's sync key is read back as its executable and start time exactly when the executable name holds no
      separator. */
  lemma {:induction false} SplitOnceInverse(exe: string, start: string)
    ensures SplitOnce(SessionKeyText(exe, start)) == Some((exe, start)) <==> '|' !in exe
  {
    var text := SessionKeyText(exe, start);
    if exe == "" {
      assert text[1..] == start;
    } else {
      assert text[1..] == SessionKeyText(exe[1..], start);
      SplitOnceInverse(exe[1..], start);
      assert exe == [exe[0]] + exe[1..];
      if '|' in exe {
        SplitOnceSound(text);
      }
    }
  }

  /** The start time and title of a manual session key "project_id|start_time|title". */
  function SplitManualKey(text: string): Option<ManualKey> {
    match SplitOnce(text)
    case None => None
    case Some((_, rest)) =>
      match SplitOnce(rest)
      case None => None
      case Some((start, title)) => Some(ManualKey(title, start))
  }

  lemma DigitIsNoSeparator(n: int)
    requires 0 <= n < 10
    ensures Digit(n) != '|'
  {
  }

  lemma {:induction false} IdTextHasNoSeparator(id: int)
    ensures '|' !in IdText(id)
    decreases if id < 0 then 1 - id else id
  {
    if id < 0 {
      IdTextHasNoSeparator(-id);
    } else if id < 10 {
      DigitIsNoSeparator(id);
    } else {
      IdTextHasNoSeparator(id / 10);
      DigitIsNoSeparator(id % 10);
    }
  }

  /** The key the deletion of a manual session leaves reads back as its start time and title, exactly if the start time
      holds no separator; the title may. */
  lemma SplitManualInverse(projectId: int, start: string, title: string)
    ensures SplitManualKey(IdText(projectId) + "|" + start + "|" + title) == Some(ManualKey(title, start)) <==>
              '|' !in start
  {
    var id, rest := IdText(projectId), start + "|" + title;
    IdTextHasNoSeparator(projectId);
    SplitOnceInverse(id, rest);
    SplitOnceInverse(start, title);
    assert id + "|" + start + "|" + title == SessionKeyText(id, rest);
    assert rest == SessionKeyText(start, title);
  }

  predicate EndsWith(text: string, suffix: string) {
    |suffix| <= |text| && text[|text| - |suffix|..] == suffix
  }

  function Digit(n: int): char
    requires 0 <= n < 10
  {
    "0123456789"[n]
  }

  function IdText(id: int): string
    decreases if id < 0 then 1 - id else id
  {
    if id < 0 then "-" + IdText(-id)
    else if id < 10 then [Digit(id)]
    else IdText(id / 10) + [Digit(id % 10)]
  }
}
