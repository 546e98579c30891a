/** The daemon's daily store: the nested snapshot of a day, the four tables that hold it, what a
    save must do to the tables and what a load must make of them.
 */
module DailyTables {
  import opened Options
  import ActivitySpans

  /** A day; dates in the source's format compare as days do. */
  type Date = nat

  const U64_MAX: nat := 0xFFFF_FFFF_FFFF_FFFF

  // ----- the nested value -----

  datatype StoredSession = StoredSession(start: string, end: string, duration: nat)

  /** All columns of a file but the two that identify it. */
  datatype FileBody = FileBody(
    totalSeconds: nat,
    firstSeen: ActivitySpans.Instant,
    lastSeen: ActivitySpans.Instant,
    windowTitle: string,
    titleHistory: seq<string>,
    activityType: Option<string>,
    activitySpans: seq<ActivitySpans.Span>
  )

  datatype StoredFile = StoredFile(name: string, detectedPath: Option<string>, body: FileBody)

  datatype StoredApp = StoredApp(display: string, totalSeconds: nat, sessions: seq<StoredSession>,
      files: seq<StoredFile>)

  datatype Snapshot = Snapshot(date: Date, generatedAt: string, apps: map<string, StoredApp>)

  // ----- the tables -----

  datatype Header = Header(generatedAt: string, updatedMs: nat, revision: nat)

  datatype AppKey = AppKey(date: Date, exe: string)
  datatype AppRow = AppRow(display: string, totalSeconds: nat)

  datatype SessionKey = SessionKey(date: Date, exe: string, index: nat)

  datatype FileKey = FileKey(date: Date, exe: string, name: string, path: string)
  datatype FileRow = FileRow(ordinal: int, body: FileBody)

  datatype Tables = Tables(
    headers: map<Date, Header>,
    apps: map<AppKey, AppRow>,
    sessions: map<SessionKey, StoredSession>,
    files: map<FileKey, FileRow>
  )

  /** What the dashboard compares to see that a day has changed. */
  datatype DaySignature = DaySignature(updatedMs: nat, revision: nat)

  function SignatureOf(t: Tables, date: Date): Option<DaySignature> {
    if date in t.headers then Some(DaySignature(t.headers[date].updatedMs, t.headers[date].revision)) else None
  }

  // ----- file keys -----

  function PathKey(path: Option<string>): string {
    path.GetOr("")
  }

  function DecodePath(path: string): Option<string> {
    if path == "" then None else Some(path)
  }

  function NameAndPath(f: StoredFile): (string, string) {
    (f.name, PathKey(f.detectedPath))
  }

  /** An empty path reads back as none. */
  function Decoded(f: StoredFile): StoredFile {
    f.(detectedPath := DecodePath(PathKey(f.detectedPath)))
  }

  predicate HasKey(fs: seq<StoredFile>, key: (string, string)) {
    exists i :: 0 <= i < |fs| && NameAndPath(fs[i]) == key
  }

  /** Of the files with one key, the last. */
  function Deduped(fs: seq<StoredFile>): seq<StoredFile> {
    if fs == [] then []
    else if HasKey(fs[1..], NameAndPath(fs[0])) then Deduped(fs[1..])
    else [fs[0]] + Deduped(fs[1..])
  }

  /** No later file has the key of this one. */
  ghost predicate IsLast(fs: seq<StoredFile>, f: StoredFile) {
    exists i :: 0 <= i < |fs| && fs[i] == f && forall j :: i < j < |fs| ==> NameAndPath(fs[j]) != NameAndPath(f)
  }

  /** Each key once, and for each key the last file that had it. */
  lemma {:induction false} DedupedIsLast(fs: seq<StoredFile>)
    ensures forall i, j :: 0 <= i < j < |Deduped(fs)| ==> NameAndPath(Deduped(fs)[i]) != NameAndPath(Deduped(fs)[j])
    ensures forall k :: HasKey(Deduped(fs), k) <==> HasKey(fs, k)
    ensures forall f :: f in Deduped(fs) <==> IsLast(fs, f)
  {
    if fs != [] {
      var rest := fs[1..];
      DedupedIsLast(rest);
      assert forall i :: 0 < i < |fs| ==> fs[i] == rest[i - 1];
      forall k ensures HasKey(Deduped(fs), k) <==> HasKey(fs, k) {
        DedupedKeys(fs, k);
      }
      forall f ensures f in Deduped(fs) <==> IsLast(fs, f) {
        DedupedElement(fs, f);
      }
      if !HasKey(rest, NameAndPath(fs[0])) {
        assert forall j :: 0 <= j < |Deduped(rest)| ==> NameAndPath(Deduped(rest)[j]) != NameAndPath(fs[0]) by {
          assert !HasKey(Deduped(rest), NameAndPath(fs[0]));
        }
      }
    }
  }

  lemma DedupedKeys(fs: seq<StoredFile>, k: (string, string))
    requires fs != [] && (HasKey(Deduped(fs[1..]), k) <==> HasKey(fs[1..], k))
    ensures HasKey(Deduped(fs), k) <==> HasKey(fs, k)
  {
    var rest := fs[1..];
    KeyOfCons(fs[0], rest, k);
    KeyOfCons(fs[0], Deduped(rest), k);
    assert fs == [fs[0]] + rest;
  }

  lemma KeyOfCons(f: StoredFile, fs: seq<StoredFile>, k: (string, string))
    ensures HasKey([f] + fs, k) <==> NameAndPath(f) == k || HasKey(fs, k)
  {
    var all := [f] + fs;
    assert all[0] == f;
    if HasKey(all, k) {
      var i :| 0 <= i < |all| && NameAndPath(all[i]) == k;
      assert all[i] == if i == 0 then f else fs[i - 1];
    }
    if HasKey(fs, k) {
      var i :| 0 <= i < |fs| && NameAndPath(fs[i]) == k;
      assert all[i + 1] == fs[i];
    }
  }

  lemma DedupedElement(fs: seq<StoredFile>, f: StoredFile)
    requires fs != [] && (f in Deduped(fs[1..]) <==> IsLast(fs[1..], f))
    ensures f in Deduped(fs) <==> IsLast(fs, f)
  {
    var rest := fs[1..];
    assert forall i :: 0 < i < |fs| ==> fs[i] == rest[i - 1];
    if IsLast(rest, f) {
      var i :| 0 <= i < |rest| && rest[i] == f && forall j :: i < j < |rest| ==> NameAndPath(rest[j]) != NameAndPath(f);
      assert fs[i + 1] == f && forall j :: i + 1 < j < |fs| ==> NameAndPath(fs[j]) != NameAndPath(f);
    }
    if IsLast(fs, f) {
      var i :| 0 <= i < |fs| && fs[i] == f && forall j :: i < j < |fs| ==> NameAndPath(fs[j]) != NameAndPath(f);
      if i > 0 {
        assert rest[i - 1] == f && forall j :: i - 1 < j < |rest| ==> rest[j] == fs[j + 1];
        assert IsLast(rest, f);
      } else {
        assert forall j :: 0 <= j < |rest| ==> rest[j] == fs[j + 1];
        assert !HasKey(rest, NameAndPath(f));
      }
    }
    if f == fs[0] && !HasKey(rest, NameAndPath(f)) {
      assert forall j :: 0 < j < |fs| ==> NameAndPath(fs[j]) != NameAndPath(f);
      assert IsLast(fs, f);
    }
  }

  // ----- wholesale replacement -----

  function NextRevision(headers: map<Date, Header>, date: Date): nat {
    var previous := if date in headers then headers[date].revision else 0;
    if previous < U64_MAX then previous + 1 else U64_MAX
  }

  /** The apps of the day are those of the snapshot; other days keep theirs. */
  ghost predicate AppsReplaced(before: map<AppKey, AppRow>, after: map<AppKey, AppRow>, s: Snapshot) {
    && (forall k :: k in after <==> if k.date == s.date then k.exe in s.apps else k in before)
    && (forall k :: k in after ==>
          after[k] == if k.date == s.date then AppRow(s.apps[k.exe].display, s.apps[k.exe].totalSeconds) else before[k])
  }

  ghost predicate SessionsReplaced(before: Tables, after: map<SessionKey, StoredSession>, s: Snapshot) {
    && (forall k :: k in after <==>
          if k.date != s.date then k in before.sessions
          else if k.exe in s.apps then k.index < |s.apps[k.exe].sessions|
          else k in before.sessions && AppKey(s.date, k.exe) !in before.apps)
    && (forall k :: k in after ==>
          after[k] == if k.date == s.date && k.exe in s.apps then s.apps[k.exe].sessions[k.index]
              else before.sessions[k])
  }

  /** Row `o` of the deduplicated files of one app. */
  ghost predicate IsFileRow(fs: seq<StoredFile>, name: string, path: string, row: FileRow) {
    && 0 <= row.ordinal < |Deduped(fs)|
    && NameAndPath(Deduped(fs)[row.ordinal]) == (name, path)
    && Deduped(fs)[row.ordinal].body == row.body
  }

  ghost predicate FilesReplaced(before: Tables, after: map<FileKey, FileRow>, s: Snapshot) {
    && (forall k :: k in after <==>
          if k.date != s.date then k in before.files
          else if k.exe in s.apps then HasKey(s.apps[k.exe].files, (k.name, k.path))
          else k in before.files && AppKey(s.date, k.exe) !in before.apps)
    && (forall k :: k in after ==>
          if k.date == s.date && k.exe in s.apps then IsFileRow(s.apps[k.exe].files, k.name, k.path, after[k])
          else after[k] == before.files[k])
  }

  /** The tables after the day of `s` has been thrown away and written again. Rows of the day that belong
      to no app, which foreign keys rule out, are all that can be left of it. */
  ghost predicate Replaced(before: Tables, after: Tables, s: Snapshot, nowMs: nat) {
    && after.headers == before.headers[s.date := Header(s.generatedAt, nowMs, NextRevision(before.headers, s.date))]
    && AppsReplaced(before.apps, after.apps, s)
    && SessionsReplaced(before, after.sessions, s)
    && FilesReplaced(before, after.files, s)
  }

  // ----- loading -----

  ghost predicate Increasing(ns: seq<int>) {
    forall i, j :: 0 <= i < j < |ns| ==> ns[i] < ns[j]
  }

  /** The sessions of one app, in the order of their indexes. */
  ghost predicate SessionsListed(t: Tables, date: Date, exe: string, ss: seq<StoredSession>, order: seq<nat>) {
    && |order| == |ss|
    && Increasing(order)
    && (forall i :: i in order <==> SessionKey(date, exe, i) in t.sessions)
    && (forall n :: 0 <= n < |ss| ==> SessionKey(date, exe, order[n]) in t.sessions &&
                                      ss[n] == t.sessions[SessionKey(date, exe, order[n])])
  }

  function FileOf(k: FileKey, row: FileRow): StoredFile {
    StoredFile(k.name, DecodePath(k.path), row.body)
  }

  /** The files of one app, each row once, in the order of their ordinals. */
  ghost predicate FilesListed(t: Tables, date: Date, exe: string, fs: seq<StoredFile>, order: seq<FileKey>) {
    && |order| == |fs|
    && (forall k :: k in order <==> k in t.files && k.date == date && k.exe == exe)
    && (forall m, n :: 0 <= m < n < |order| ==> order[m] != order[n])
    && (forall n :: 0 <= n < |fs| ==> order[n] in t.files && fs[n] == FileOf(order[n], t.files[order[n]]))
    && (forall m, n :: 0 <= m < n < |order| ==>
         order[m] in t.files && order[n] in t.files && t.files[order[m]].ordinal <= t.files[order[n]].ordinal)
  }

  ghost predicate AppLoaded(t: Tables, date: Date, exe: string, app: StoredApp) {
    && AppKey(date, exe) in t.apps
    && app.display == t.apps[AppKey(date, exe)].display
    && app.totalSeconds == t.apps[AppKey(date, exe)].totalSeconds
    && (exists order :: SessionsListed(t, date, exe, app.sessions, order))
    && (exists order :: FilesListed(t, date, exe, app.files, order))
  }

  /** `s` is a snapshot that loading the day may give; SQL leaves the order of equal ordinals open. */
  ghost predicate Loaded(t: Tables, date: Date, s: Option<Snapshot>) {
    && (s.Some? <==> date in t.headers)
    && (s.Some? ==>
          && s.value.date == date
          && s.value.generatedAt == t.headers[date].generatedAt
          && (forall e :: e in s.value.apps <==> AppKey(date, e) in t.apps)
          && (forall e :: e in s.value.apps ==> AppLoaded(t, date, e, s.value.apps[e])))
  }

  // ----- what is loaded after a save -----

  function Normalized(s: Snapshot): Snapshot {
    s.(apps := map e | e in s.apps :: s.apps[e].(files := DecodedAll(Deduped(s.apps[e].files))))
  }

  function DecodedAll(fs: seq<StoredFile>): seq<StoredFile> {
    seq(|fs|, i requires 0 <= i < |fs| => Decoded(fs[i]))
  }

  /** An increasing list of exactly the numbers below n counts them off. */
  lemma {:induction false} CountsOff(ns: seq<int>, n: nat)
    requires Increasing(ns) && forall i :: i in ns <==> 0 <= i < n
    ensures |ns| == n && forall i :: 0 <= i < n ==> ns[i] == i
  {
    if |ns| > 0 {
      assert ns[0] in ns;
    }
    if n != 0 {
      assert n - 1 in ns;
      var last := |ns| - 1;
      var at :| 0 <= at < |ns| && ns[at] == n - 1;
      assert ns[last] in ns;
      assert at == last;
      var init := ns[..last];
      forall i ensures i in init <==> 0 <= i < n - 1 {
        if i in init {
          var j :| 0 <= j < |init| && init[j] == i;
          assert ns[j] == i && i in ns;
        }
        if 0 <= i < n - 1 {
          assert i in ns;
          var j :| 0 <= j < |ns| && ns[j] == i;
          assert init[j] == i;
        }
      }
      CountsOff(init, n - 1);
      assert forall i :: 0 <= i < last ==> ns[i] == init[i];
    }
  }

  lemma SavedSessions(t: Tables, date: Date, exe: string, saved: seq<StoredSession>, ss: seq<StoredSession>,
                      order: seq<nat>)
    requires forall k: SessionKey :: k.date == date && k.exe == exe ==> (k in t.sessions <==> k.index < |saved|)
    requires forall i :: 0 <= i < |saved| ==>
               SessionKey(date, exe, i) in t.sessions && t.sessions[SessionKey(date, exe, i)] == saved[i]
    requires SessionsListed(t, date, exe, ss, order)
    ensures ss == saved
  {
    forall i ensures i in order <==> 0 <= i < |saved| {
      if 0 <= i {
        assert i in order <==> SessionKey(date, exe, i) in t.sessions;
      }
    }
    CountsOff(order, |saved|);
  }

  lemma SavedFiles(t: Tables, date: Date, exe: string, saved: seq<StoredFile>, fs: seq<StoredFile>, order: seq<FileKey>)
    requires forall k: FileKey :: k.date == date && k.exe == exe ==> (k in t.files <==> HasKey(saved, (k.name, k.path)))
    requires forall k: FileKey :: k in t.files && k.date == date && k.exe == exe ==>
               IsFileRow(saved, k.name, k.path, t.files[k])
    requires FilesListed(t, date, exe, fs, order)
    ensures fs == DecodedAll(Deduped(saved))
  {
    var d := Deduped(saved);
    var ordinals := Ordinals(t.files, order);
    OrdinalsIncrease(t, date, exe, saved, order);
    forall o ensures o in ordinals <==> 0 <= o < |d| {
      OrdinalCovered(t, date, exe, saved, order, o);
    }
    CountsOff(ordinals, |d|);
    forall n | 0 <= n < |fs| ensures fs[n] == Decoded(d[n]) {
      assert ordinals[n] == n && order[n] in order;
    }
  }

  ghost function Ordinals(files: map<FileKey, FileRow>, order: seq<FileKey>): seq<int>
    requires forall k :: k in order ==> k in files
  {
    seq(|order|, n requires 0 <= n < |order| => files[order[n]].ordinal)
  }

  lemma OrdinalsIncrease(t: Tables, date: Date, exe: string, saved: seq<StoredFile>, order: seq<FileKey>)
    requires forall k: FileKey :: k in t.files && k.date == date && k.exe == exe ==>
               IsFileRow(saved, k.name, k.path, t.files[k])
    requires forall k :: k in order ==> k in t.files && k.date == date && k.exe == exe
    requires forall m, n :: 0 <= m < n < |order| ==>
               order[m] != order[n] && t.files[order[m]].ordinal <= t.files[order[n]].ordinal
    ensures Increasing(Ordinals(t.files, order))
  {
    var d, ordinals := Deduped(saved), Ordinals(t.files, order);
    forall m, n | 0 <= m < n < |order| ensures ordinals[m] < ordinals[n] {
      assert order[m] in order && order[n] in order;
      assert NameAndPath(d[ordinals[m]]) == (order[m].name, order[m].path);
      assert NameAndPath(d[ordinals[n]]) == (order[n].name, order[n].path);
    }
  }

  lemma OrdinalCovered(t: Tables, date: Date, exe: string, saved: seq<StoredFile>, order: seq<FileKey>, o: int)
    requires forall k: FileKey :: k.date == date && k.exe == exe ==> (k in t.files <==> HasKey(saved, (k.name, k.path)))
    requires forall k: FileKey :: k in t.files && k.date == date && k.exe == exe ==>
               IsFileRow(saved, k.name, k.path, t.files[k])
    requires forall k :: k in order <==> k in t.files && k.date == date && k.exe == exe
    ensures o in Ordinals(t.files, order) <==> 0 <= o < |Deduped(saved)|
  {
    var ordinals := Ordinals(t.files, order);
    if 0 <= o < |Deduped(saved)| {
      OrdinalUsed(t, date, exe, saved, order, o);
      var n :| 0 <= n < |order| && order[n] in t.files && t.files[order[n]].ordinal == o;
      assert ordinals[n] == o;
    }
    if o in ordinals {
      var n :| 0 <= n < |ordinals| && ordinals[n] == o;
      assert order[n] in order;
    }
  }

  lemma OrdinalUsed(t: Tables, date: Date, exe: string, saved: seq<StoredFile>, order: seq<FileKey>, o: int)
    requires forall k: FileKey :: k.date == date && k.exe == exe ==> (k in t.files <==> HasKey(saved, (k.name, k.path)))
    requires forall k: FileKey :: k in t.files && k.date == date && k.exe == exe ==>
               IsFileRow(saved, k.name, k.path, t.files[k])
    requires forall k :: k in order <==> k in t.files && k.date == date && k.exe == exe
    requires 0 <= o < |Deduped(saved)|
    ensures exists n :: 0 <= n < |order| && order[n] in t.files && t.files[order[n]].ordinal == o
  {
    var d := Deduped(saved);
    DedupedIsLast(saved);
    var (name, path) := NameAndPath(d[o]);
    var k := FileKey(date, exe, name, path);
    assert HasKey(d, (name, path));
    assert k in t.files && k in order;
    var n :| 0 <= n < |order| && order[n] == k;
    var p := t.files[k].ordinal;
    assert NameAndPath(d[p]) == NameAndPath(d[o]);
  }

  lemma AppAfterReplace(before: Tables, after: Tables, s: Snapshot, nowMs: nat, exe: string, app: StoredApp)
    requires Replaced(before, after, s, nowMs) && exe in s.apps && AppLoaded(after, s.date, exe, app)
    ensures app == s.apps[exe].(files := DecodedAll(Deduped(s.apps[exe].files)))
  {
    var order :| SessionsListed(after, s.date, exe, app.sessions, order);
    SavedSessions(after, s.date, exe, s.apps[exe].sessions, app.sessions, order);
    var files :| FilesListed(after, s.date, exe, app.files, files);
    SavedFiles(after, s.date, exe, s.apps[exe].files, app.files, files);
  }

  /** Save, then load: whatever the tables held before, loading the day gives the snapshot
      with its files deduplicated and empty paths read as none. */
  lemma LoadAfterReplace(before: Tables, after: Tables, s: Snapshot, nowMs: nat, r: Option<Snapshot>)
    requires Replaced(before, after, s, nowMs) && Loaded(after, s.date, r)
    ensures r == Some(Normalized(s))
  {
    AppsAfterReplace(before, after, s, nowMs, r.value.apps);
  }

  lemma AppsAfterReplace(before: Tables, after: Tables, s: Snapshot, nowMs: nat, got: map<string, StoredApp>)
    requires Replaced(before, after, s, nowMs)
    requires forall e :: e in got <==> AppKey(s.date, e) in after.apps
    requires forall e :: e in got ==> AppLoaded(after, s.date, e, got[e])
    ensures got == Normalized(s).apps
  {
    var want := Normalized(s).apps;
    forall e ensures e in got <==> e in want {
      assert e in got <==> AppKey(s.date, e) in after.apps;
    }
    forall e | e in want ensures got[e] == want[e] {
      AppAfterReplace(before, after, s, nowMs, e, got[e]);
    }
  }

  /** A save of one day loads nothing else differently. */
  lemma OtherDaysUntouched(before: Tables, after: Tables, s: Snapshot, nowMs: nat, date: Date, r: Option<Snapshot>)
    requires Replaced(before, after, s, nowMs) && date != s.date
    ensures Loaded(before, date, r) <==> Loaded(after, date, r)
  {
    forall e, app ensures AppLoaded(before, date, e, app) <==> AppLoaded(after, date, e, app) {
      AppElsewhere(before, after, s, nowMs, date, e, app);
    }
    assert forall e :: AppKey(date, e) in before.apps <==> AppKey(date, e) in after.apps;
  }

  lemma AppElsewhere(before: Tables, after: Tables, s: Snapshot, nowMs: nat, date: Date, exe: string, app: StoredApp)
    requires Replaced(before, after, s, nowMs) && date != s.date
    ensures AppLoaded(before, date, exe, app) <==> AppLoaded(after, date, exe, app)
  {
    SessionsElsewhere(before, after, s, nowMs, date, exe, app.sessions);
    FilesElsewhere(before, after, s, nowMs, date, exe, app.files);
  }

  lemma SessionsElsewhere(before: Tables, after: Tables, s: Snapshot, nowMs: nat, date: Date, exe: string,
                          ss: seq<StoredSession>)
    requires Replaced(before, after, s, nowMs) && date != s.date
    ensures forall order :: SessionsListed(before, date, exe, ss, order) <==>
              SessionsListed(after, date, exe, ss, order)
  {
    assert forall i :: SessionKey(date, exe, i) in before.sessions <==> SessionKey(date, exe, i) in after.sessions;
  }

  lemma FilesElsewhere(before: Tables, after: Tables, s: Snapshot, nowMs: nat, date: Date, exe: string,
                       fs: seq<StoredFile>)
    requires Replaced(before, after, s, nowMs) && date != s.date
    ensures forall order :: FilesListed(before, date, exe, fs, order) <==> FilesListed(after, date, exe, fs, order)
  {
  }
}
