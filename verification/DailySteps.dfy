/** The steps by which the store saves a day and loads it again, each as a relation between
    what was there before and what is there after.
 */
module DailySteps {
  import opened Options
  import opened DailyTables

  // ----- steps of the save, as relations between tables before and after -----

  /** The rows of one app on one day. */
  ghost predicate SessionRowsSaved(before: map<SessionKey, StoredSession>, after: map<SessionKey, StoredSession>,
                                   date: Date, exe: string, ss: seq<StoredSession>) {
    && (forall k :: k in after <==> if k.date == date && k.exe == exe then k.index < |ss| else k in before)
    && (forall k :: k in after ==> after[k] == if k.date == date && k.exe == exe then ss[k.index] else before[k])
  }

  ghost predicate FileRowsSaved(before: map<FileKey, FileRow>, after: map<FileKey, FileRow>, date: Date, exe: string,
                                fs: seq<StoredFile>) {
    && (forall k :: k in after <==> if k.date == date && k.exe == exe then HasKey(fs, (k.name, k.path))
         else k in before)
    && (forall k :: k in after ==>
          if k.date == date && k.exe == exe then IsFileRow(fs, k.name, k.path, after[k]) else after[k] == before[k])
  }

  /** The first `o` of the deduplicated files are written. */
  ghost predicate FilesUpserted(before: map<FileKey, FileRow>, after: map<FileKey, FileRow>, date: Date, exe: string,
                                d: seq<StoredFile>, o: nat)
    requires o <= |d|
  {
    && (forall k :: k in after <==> k in before || (k.date == date && k.exe == exe && HasKey(d[..o], (k.name, k.path))))
    && (forall k :: k in after ==>
          if k.date == date && k.exe == exe && HasKey(d[..o], (k.name, k.path))
          then 0 <= after[k].ordinal < o && NameAndPath(d[after[k].ordinal]) == (k.name, k.path) &&
              d[after[k].ordinal].body == after[k].body
          else after[k] == before[k])
  }

  lemma HasKeyGrows(d: seq<StoredFile>, o: nat, key: (string, string))
    requires o < |d|
    ensures HasKey(d[..o + 1], key) <==> HasKey(d[..o], key) || NameAndPath(d[o]) == key
  {
    assert d[..o + 1][o] == d[o];
    assert forall i :: 0 <= i < o ==> d[..o + 1][i] == d[..o][i];
  }

  lemma UpsertStep(before: map<FileKey, FileRow>, mid: map<FileKey, FileRow>, date: Date, exe: string,
                   d: seq<StoredFile>, o: nat)
    requires o < |d| && FilesUpserted(before, mid, date, exe, d, o)
    ensures FilesUpserted(before,
              mid[FileKey(date, exe, d[o].name, PathKey(d[o].detectedPath)) := FileRow(o, d[o].body)], date, exe, d,
              o + 1)
  {
    forall key ensures HasKey(d[..o + 1], key) <==> HasKey(d[..o], key) || NameAndPath(d[o]) == key {
      HasKeyGrows(d, o, key);
    }
  }

  lemma UpsertedThenTrimmed(before: map<FileKey, FileRow>, mid: map<FileKey, FileRow>, after: map<FileKey, FileRow>,
                            date: Date, exe: string, fs: seq<StoredFile>)
    requires FilesUpserted(before, mid, date, exe, Deduped(fs), |Deduped(fs)|)
    requires forall k :: k in after <==> k in mid && !(k.date == date && k.exe == exe && !HasKey(fs, (k.name, k.path)))
    requires forall k :: k in after ==> after[k] == mid[k]
    ensures FileRowsSaved(before, after, date, exe, fs)
  {
    var d := Deduped(fs);
    assert d[..|d|] == d;
    DedupedIsLast(fs);
  }

  /** Only the rows of the apps in `gone` are missing. */
  ghost predicate SessionsDropped(before: map<SessionKey, StoredSession>, after: map<SessionKey, StoredSession>,
                                  gone: set<AppKey>) {
    && (forall k :: k in after <==> k in before && AppKey(k.date, k.exe) !in gone)
    && (forall k :: k in after ==> after[k] == before[k])
  }

  ghost predicate FilesDropped(before: map<FileKey, FileRow>, after: map<FileKey, FileRow>, gone: set<AppKey>) {
    && (forall k :: k in after <==> k in before && AppKey(k.date, k.exe) !in gone)
    && (forall k :: k in after ==> after[k] == before[k])
  }

  ghost predicate Stale(before: Tables, s: Snapshot, gone: set<AppKey>) {
    forall k :: k in gone <==> k in before.apps && k.date == s.date && k.exe !in s.apps
  }

  /** The apps in `left` are still to be saved. */
  ghost predicate AppsInProgress(before: map<AppKey, AppRow>, after: map<AppKey, AppRow>, s: Snapshot,
                                 left: set<string>) {
    && (forall k :: k in after <==> if k.date != s.date then k in before else k.exe in s.apps &&
                                                                              (k in before || k.exe !in left))
    && (forall k :: k in after ==>
          if k.date != s.date then after[k] == before[k]
          else k.exe !in left ==> after[k] == AppRow(s.apps[k.exe].display, s.apps[k.exe].totalSeconds))
  }

  ghost predicate SessionsInProgress(before: map<SessionKey, StoredSession>, after: map<SessionKey, StoredSession>,
                                     s: Snapshot, left: set<string>) {
    && (forall k :: k in after <==>
          if k.date == s.date && k.exe in s.apps && k.exe !in left then k.index < |s.apps[k.exe].sessions|
              else k in before)
    && (forall k :: k in after ==>
          after[k] == if k.date == s.date && k.exe in s.apps && k.exe !in left then s.apps[k.exe].sessions[k.index]
              else before[k])
  }

  ghost predicate FilesInProgress(before: map<FileKey, FileRow>, after: map<FileKey, FileRow>, s: Snapshot,
                                  left: set<string>) {
    && (forall k :: k in after <==>
          if k.date == s.date && k.exe in s.apps && k.exe !in left then HasKey(s.apps[k.exe].files, (k.name, k.path))
              else k in before)
    && (forall k :: k in after ==>
          if k.date == s.date && k.exe in s.apps && k.exe !in left
              then IsFileRow(s.apps[k.exe].files, k.name, k.path, after[k])
          else after[k] == before[k])
  }

  lemma AppsStep(before: map<AppKey, AppRow>, mid: map<AppKey, AppRow>, s: Snapshot, left: set<string>, exe: string)
    requires exe in s.apps && AppsInProgress(before, mid, s, left)
    ensures AppsInProgress(before, mid[AppKey(s.date, exe) := AppRow(s.apps[exe].display, s.apps[exe].totalSeconds)],
              s, left - {exe})
  {
  }

  lemma SessionsStep(before: map<SessionKey, StoredSession>, mid: map<SessionKey, StoredSession>,
                     after: map<SessionKey, StoredSession>, s: Snapshot, left: set<string>, exe: string)
    requires exe in s.apps && SessionsInProgress(before, mid, s, left) &&
               SessionRowsSaved(mid, after, s.date, exe, s.apps[exe].sessions)
    ensures SessionsInProgress(before, after, s, left - {exe})
  {
  }

  lemma FilesStep(before: map<FileKey, FileRow>, mid: map<FileKey, FileRow>, after: map<FileKey, FileRow>,
                  s: Snapshot, left: set<string>, exe: string)
    requires exe in s.apps && FilesInProgress(before, mid, s, left) &&
               FileRowsSaved(mid, after, s.date, exe, s.apps[exe].files)
    ensures FilesInProgress(before, after, s, left - {exe})
  {
  }

  lemma ProgressDone(before: Tables, sessions1: map<SessionKey, StoredSession>, files1: map<FileKey, FileRow>,
                     after: Tables, s: Snapshot, gone: set<AppKey>)
    requires Stale(before, s, gone) && SessionsDropped(before.sessions, sessions1, gone) &&
               FilesDropped(before.files, files1, gone)
    requires SessionsInProgress(sessions1, after.sessions, s, {}) && FilesInProgress(files1, after.files, s, {})
    ensures SessionsReplaced(before, after.sessions, s) && FilesReplaced(before, after.files, s)
  {
  }

  // ----- query results -----

  ghost predicate IndexesOrdered(keys: seq<SessionKey>) {
    forall m, n :: 0 <= m < n < |keys| && keys[m].date == keys[n].date && keys[m].exe == keys[n].exe ==>
        keys[m].index < keys[n].index
  }

  /** `k` may be listed before `l`. */
  ghost predicate Precedes(files: map<FileKey, FileRow>, k: FileKey, l: FileKey) {
    && k != l
    && k in files
    && l in files
    && (k.date == l.date && k.exe == l.exe ==> files[k].ordinal <= files[l].ordinal)
  }

  ghost predicate OrdinalsOrdered(files: map<FileKey, FileRow>, keys: seq<FileKey>) {
    forall m, n :: 0 <= m < n < |keys| ==> Precedes(files, keys[m], keys[n])
  }

  /** The session keys of a range of days, each once; ORDER BY puts those of one app in the order of their indexes. */
  ghost predicate SessionsQueried(sessions: map<SessionKey, StoredSession>, lo: Date, hi: Date, keys: seq<SessionKey>) {
    && (forall k :: k in keys <==> k in sessions && lo <= k.date <= hi)
    && IndexesOrdered(keys)
  }

  /** The file keys of a range of days, each once; those of one app in the order of their ordinals. */
  ghost predicate FilesQueried(files: map<FileKey, FileRow>, lo: Date, hi: Date, keys: seq<FileKey>) {
    && (forall k :: k in keys <==> k in files && lo <= k.date <= hi)
    && OrdinalsOrdered(files, keys)
  }

  function PickSessions(keys: seq<SessionKey>, date: Date, exe: string): seq<SessionKey> {
    if keys == [] then []
    else
      var before, k := PickSessions(keys[..|keys| - 1], date, exe), keys[|keys| - 1];
      if k.date == date && k.exe == exe then before + [k] else before
  }

  function PickFiles(keys: seq<FileKey>, date: Date, exe: string): seq<FileKey> {
    if keys == [] then []
    else
      var before, k := PickFiles(keys[..|keys| - 1], date, exe), keys[|keys| - 1];
      if k.date == date && k.exe == exe then before + [k] else before
  }

  lemma {:induction false} PickSessionsHas(keys: seq<SessionKey>, date: Date, exe: string, k: SessionKey)
    ensures k in PickSessions(keys, date, exe) <==> k in keys && k.date == date && k.exe == exe
  {
    if keys != [] {
      assert keys == keys[..|keys| - 1] + [keys[|keys| - 1]];
      PickSessionsHas(keys[..|keys| - 1], date, exe, k);
    }
  }

  lemma {:induction false} PickFilesHas(keys: seq<FileKey>, date: Date, exe: string, k: FileKey)
    ensures k in PickFiles(keys, date, exe) <==> k in keys && k.date == date && k.exe == exe
  {
    if keys != [] {
      assert keys == keys[..|keys| - 1] + [keys[|keys| - 1]];
      PickFilesHas(keys[..|keys| - 1], date, exe, k);
    }
  }

  lemma {:induction false} PickSessionsOrdered(keys: seq<SessionKey>, date: Date, exe: string)
    requires IndexesOrdered(keys)
    ensures IndexesOrdered(PickSessions(keys, date, exe))
  {
    if keys != [] {
      var init := keys[..|keys| - 1];
      PickSessionsOrdered(init, date, exe);
      var p := PickSessions(init, date, exe);
      forall m | 0 <= m < |p| ensures exists j :: 0 <= j < |init| && init[j] == p[m] && p[m].date == date &&
                                                  p[m].exe == exe {
        PickSessionsHas(init, date, exe, p[m]);
      }
    }
  }

  lemma OrdinalsPrefix(files: map<FileKey, FileRow>, keys: seq<FileKey>)
    requires OrdinalsOrdered(files, keys) && keys != []
    ensures OrdinalsOrdered(files, keys[..|keys| - 1])
  {
    var init := keys[..|keys| - 1];
    forall m, n | 0 <= m < n < |init| ensures Precedes(files, init[m], init[n]) {
      assert init[m] == keys[m] && init[n] == keys[n];
    }
  }

  lemma {:induction false} PickFilesOrdered(files: map<FileKey, FileRow>, keys: seq<FileKey>, date: Date, exe: string)
    requires OrdinalsOrdered(files, keys)
    ensures OrdinalsOrdered(files, PickFiles(keys, date, exe))
  {
    if keys != [] {
      var init := keys[..|keys| - 1];
      OrdinalsPrefix(files, keys);
      PickFilesOrdered(files, init, date, exe);
      var p := PickFiles(init, date, exe);
      forall m | 0 <= m < |p| ensures exists j :: 0 <= j < |init| && init[j] == p[m] && p[m].date == date &&
                                                  p[m].exe == exe {
        PickFilesHas(init, date, exe, p[m]);
      }
    }
  }

  /** What the load loops have pushed to one app after these rows. */
  ghost predicate SessionsPushed(t: Tables, keys: seq<SessionKey>, date: Date, exe: string, ss: seq<StoredSession>) {
    var p := PickSessions(keys, date, exe);
    |ss| == |p| && forall n :: 0 <= n < |p| ==> p[n] in t.sessions && ss[n] == t.sessions[p[n]]
  }

  ghost predicate FilesPushed(t: Tables, keys: seq<FileKey>, date: Date, exe: string, fs: seq<StoredFile>) {
    var p := PickFiles(keys, date, exe);
    |fs| == |p| && forall n :: 0 <= n < |p| ==> p[n] in t.files && fs[n] == FileOf(p[n], t.files[p[n]])
  }

  lemma PushedSessionsAreListed(t: Tables, lo: Date, hi: Date, keys: seq<SessionKey>, date: Date, exe: string,
                                ss: seq<StoredSession>)
    requires SessionsQueried(t.sessions, lo, hi, keys) && lo <= date <= hi && SessionsPushed(t, keys, date, exe, ss)
    ensures exists order :: SessionsListed(t, date, exe, ss, order)
  {
    var p := PickSessions(keys, date, exe);
    PickSessionsOrdered(keys, date, exe);
    var order := seq(|p|, n requires 0 <= n < |p| => p[n].index);
    forall n | 0 <= n < |p| ensures p[n] == SessionKey(date, exe, order[n]) {
      PickSessionsHas(keys, date, exe, p[n]);
    }
    forall i ensures i in order <==> SessionKey(date, exe, i) in t.sessions {
      PickSessionsHas(keys, date, exe, SessionKey(date, exe, i));
      if SessionKey(date, exe, i) in t.sessions {
        var n :| 0 <= n < |p| && p[n] == SessionKey(date, exe, i);
        assert order[n] == i;
      }
    }
    assert SessionsListed(t, date, exe, ss, order);
  }

  lemma PushedFilesAreListed(t: Tables, lo: Date, hi: Date, keys: seq<FileKey>, date: Date, exe: string,
                             fs: seq<StoredFile>)
    requires FilesQueried(t.files, lo, hi, keys) && lo <= date <= hi && FilesPushed(t, keys, date, exe, fs)
    ensures exists order :: FilesListed(t, date, exe, fs, order)
  {
    var p := PickFiles(keys, date, exe);
    PickFilesOrdered(t.files, keys, date, exe);
    forall k ensures k in p <==> k in t.files && k.date == date && k.exe == exe {
      PickFilesHas(keys, date, exe, k);
    }
    assert FilesListed(t, date, exe, fs, p);
  }

  ghost predicate AppProgress(t: Tables, date: Date, exe: string, app: StoredApp, sessionKeys: seq<SessionKey>,
                              fileKeys: seq<FileKey>) {
    && AppKey(date, exe) in t.apps
    && app.display == t.apps[AppKey(date, exe)].display
    && app.totalSeconds == t.apps[AppKey(date, exe)].totalSeconds
    && SessionsPushed(t, sessionKeys, date, exe, app.sessions)
    && FilesPushed(t, fileKeys, date, exe, app.files)
  }

  /** The apps of one day after these session rows and these file rows have been pushed. */
  ghost predicate LoadProgress(t: Tables, date: Date, loaded: map<string, StoredApp>, sessionKeys: seq<SessionKey>,
                               fileKeys: seq<FileKey>) {
    && (forall e :: e in loaded <==> AppKey(date, e) in t.apps)
    && (forall e :: e in loaded ==> AppProgress(t, date, e, loaded[e], sessionKeys, fileKeys))
  }

  function PushSession(loaded: map<string, StoredApp>, exe: string, s: StoredSession): map<string, StoredApp> {
    if exe in loaded then loaded[exe := loaded[exe].(sessions := loaded[exe].sessions + [s])] else loaded
  }

  function PushFile(loaded: map<string, StoredApp>, exe: string, f: StoredFile): map<string, StoredApp> {
    if exe in loaded then loaded[exe := loaded[exe].(files := loaded[exe].files + [f])] else loaded
  }

  lemma SessionsPushedStep(t: Tables, keys: seq<SessionKey>, i: nat, date: Date, exe: string, ss: seq<StoredSession>)
    requires i < |keys| && keys[i] in t.sessions && SessionsPushed(t, keys[..i], date, exe, ss)
    ensures SessionsPushed(t, keys[..i + 1], date, exe, if keys[i].date == date && keys[i].exe == exe
              then ss + [t.sessions[keys[i]]] else ss)
  {
    assert keys[..i + 1][..i] == keys[..i];
  }

  lemma FilesPushedStep(t: Tables, keys: seq<FileKey>, i: nat, date: Date, exe: string, fs: seq<StoredFile>)
    requires i < |keys| && keys[i] in t.files && FilesPushed(t, keys[..i], date, exe, fs)
    ensures FilesPushed(t, keys[..i + 1], date, exe, if keys[i].date == date && keys[i].exe == exe
              then fs + [FileOf(keys[i], t.files[keys[i]])] else fs)
  {
    assert keys[..i + 1][..i] == keys[..i];
  }

  lemma PushSessionStep(t: Tables, date: Date, loaded: map<string, StoredApp>, keys: seq<SessionKey>, i: nat,
                        fileKeys: seq<FileKey>)
    requires i < |keys| && keys[i] in t.sessions && LoadProgress(t, date, loaded, keys[..i], fileKeys)
    ensures LoadProgress(t, date, if keys[i].date == date then PushSession(loaded, keys[i].exe, t.sessions[keys[i]])
              else loaded, keys[..i + 1], fileKeys)
  {
    var after := if keys[i].date == date then PushSession(loaded, keys[i].exe, t.sessions[keys[i]]) else loaded;
    forall e | e in after ensures AppProgress(t, date, e, after[e], keys[..i + 1], fileKeys) {
      assert AppProgress(t, date, e, loaded[e], keys[..i], fileKeys);
      SessionsPushedStep(t, keys, i, date, e, loaded[e].sessions);
    }
  }

  lemma PushFileStep(t: Tables, date: Date, loaded: map<string, StoredApp>, sessionKeys: seq<SessionKey>,
                     keys: seq<FileKey>, i: nat)
    requires i < |keys| && keys[i] in t.files && LoadProgress(t, date, loaded, sessionKeys, keys[..i])
    ensures LoadProgress(t, date, if keys[i].date == date
              then PushFile(loaded, keys[i].exe, FileOf(keys[i], t.files[keys[i]]))
              else loaded, sessionKeys, keys[..i + 1])
  {
    var after := if keys[i].date == date then PushFile(loaded, keys[i].exe, FileOf(keys[i], t.files[keys[i]]))
        else loaded;
    forall e | e in after ensures AppProgress(t, date, e, after[e], sessionKeys, keys[..i + 1]) {
      assert AppProgress(t, date, e, loaded[e], sessionKeys, keys[..i]);
      FilesPushedStep(t, keys, i, date, e, loaded[e].files);
    }
  }

  ghost predicate DayProgress(t: Tables, date: Date, s: Snapshot, sessionKeys: seq<SessionKey>,
                              fileKeys: seq<FileKey>) {
    date in t.headers && s.date == date && s.generatedAt == t.headers[date].generatedAt &&
        LoadProgress(t, date, s.apps, sessionKeys, fileKeys)
  }

  ghost predicate RangeProgress(t: Tables, lo: Date, hi: Date, days: map<Date, Snapshot>,
                                sessionKeys: seq<SessionKey>, fileKeys: seq<FileKey>) {
    && (forall d :: d in days <==> d in t.headers && lo <= d <= hi)
    && (forall d :: d in days ==> DayProgress(t, d, days[d], sessionKeys, fileKeys))
  }

  lemma RangeSessionStep(t: Tables, lo: Date, hi: Date, days: map<Date, Snapshot>, keys: seq<SessionKey>, i: nat,
                         fileKeys: seq<FileKey>)
    requires i < |keys| && keys[i] in t.sessions && RangeProgress(t, lo, hi, days, keys[..i], fileKeys)
    ensures var k := keys[i];
            var after := if k.date in days
                then days[k.date := days[k.date].(apps := PushSession(days[k.date].apps, k.exe, t.sessions[k]))]
                else days;
            RangeProgress(t, lo, hi, after, keys[..i + 1], fileKeys)
  {
    forall d | d in days
      ensures LoadProgress(t, d, if keys[i].date == d then PushSession(days[d].apps, keys[i].exe, t.sessions[keys[i]])
                else days[d].apps, keys[..i + 1], fileKeys)
    {
      PushSessionStep(t, d, days[d].apps, keys, i, fileKeys);
    }
  }

  lemma RangeFileStep(t: Tables, lo: Date, hi: Date, days: map<Date, Snapshot>, sessionKeys: seq<SessionKey>,
                      keys: seq<FileKey>, i: nat)
    requires i < |keys| && keys[i] in t.files && RangeProgress(t, lo, hi, days, sessionKeys, keys[..i])
    ensures var k := keys[i];
            var after := if k.date in days
                then days[k.date := days[k.date].(apps := PushFile(days[k.date].apps, k.exe, FileOf(k, t.files[k])))]
                else days;
            RangeProgress(t, lo, hi, after, sessionKeys, keys[..i + 1])
  {
    forall d | d in days
      ensures LoadProgress(t, d, if keys[i].date == d
                then PushFile(days[d].apps, keys[i].exe, FileOf(keys[i], t.files[keys[i]]))
                else days[d].apps, sessionKeys, keys[..i + 1])
    {
      PushFileStep(t, d, days[d].apps, sessionKeys, keys, i);
    }
  }

  /** When all rows have been pushed the day is loaded. */
  lemma LoadFinished(t: Tables, lo: Date, hi: Date, date: Date, loaded: map<string, StoredApp>,
                     sessionKeys: seq<SessionKey>, fileKeys: seq<FileKey>)
    requires lo <= date <= hi && date in t.headers && LoadProgress(t, date, loaded, sessionKeys, fileKeys)
    requires SessionsQueried(t.sessions, lo, hi, sessionKeys) && FilesQueried(t.files, lo, hi, fileKeys)
    ensures Loaded(t, date, Some(Snapshot(date, t.headers[date].generatedAt, loaded)))
  {
    forall e | e in loaded ensures AppLoaded(t, date, e, loaded[e]) {
      PushedSessionsAreListed(t, lo, hi, sessionKeys, date, e, loaded[e].sessions);
      PushedFilesAreListed(t, lo, hi, fileKeys, date, e, loaded[e].files);
    }
  }

  /** Equal ordinals within one app are what leaves the order open. */
  ghost predicate DistinctOrdinals(t: Tables, date: Date) {
    forall k, l :: k in t.files && l in t.files && k.date == l.date == date && k.exe == l.exe && k != l ==>
        t.files[k].ordinal != t.files[l].ordinal
  }

  lemma SavedOrdinalsDistinct(before: Tables, after: Tables, s: Snapshot, nowMs: nat)
    requires Replaced(before, after, s, nowMs)
    requires forall k :: k in before.files && k.date == s.date ==> AppKey(k.date, k.exe) in before.apps
    ensures DistinctOrdinals(after, s.date)
  {
    forall k, l | k in after.files && l in after.files && k.date == l.date == s.date && k.exe == l.exe && k != l
      ensures after.files[k].ordinal != after.files[l].ordinal
    {
      assert k.exe in s.apps;
      assert IsFileRow(s.apps[k.exe].files, k.name, k.path, after.files[k]);
      assert IsFileRow(s.apps[k.exe].files, l.name, l.path, after.files[l]);
    }
  }

  lemma OrdinalsHave(files: map<FileKey, FileRow>, keys: seq<FileKey>, k: FileKey)
    requires k in keys && forall k :: k in keys ==> k in files
    ensures files[k].ordinal in Ordinals(files, keys)
  {
    var n :| 0 <= n < |keys| && keys[n] == k;
    assert Ordinals(files, keys)[n] == files[k].ordinal;
  }

  lemma SameOrdinals(files: map<FileKey, FileRow>, a: seq<FileKey>, b: seq<FileKey>, o: int)
    requires forall k :: k in a ==> k in b && k in files
    requires forall k :: k in b ==> k in files
    ensures o in Ordinals(files, a) ==> o in Ordinals(files, b)
  {
    if o in Ordinals(files, a) {
      var n :| 0 <= n < |a| && Ordinals(files, a)[n] == o;
      assert a[n] in a;
      OrdinalsHave(files, b, a[n]);
    }
  }

  /** Two listings of the same rows by distinct ordinals are the same. */
  lemma OrderUnique(files: map<FileKey, FileRow>, a: seq<FileKey>, b: seq<FileKey>)
    requires forall k :: k in a <==> k in b
    requires forall k :: k in a ==> k in files
    requires forall k, l :: k in a && l in a && k != l ==> files[k].ordinal != files[l].ordinal
    requires Increasing(Ordinals(files, a)) && Increasing(Ordinals(files, b))
    ensures a == b
  {
    forall o ensures o in Ordinals(files, a) <==> o in Ordinals(files, b) {
      SameOrdinals(files, a, b, o);
      SameOrdinals(files, b, a, o);
    }
    IncreasingUnique(Ordinals(files, a), Ordinals(files, b));
    forall n | 0 <= n < |a| ensures a[n] == b[n] {
      assert a[n] in a && b[n] in b;
      assert Ordinals(files, a)[n] == Ordinals(files, b)[n];
    }
  }

  lemma ListedIncreases(t: Tables, date: Date, exe: string, fs: seq<StoredFile>, order: seq<FileKey>)
    requires DistinctOrdinals(t, date) && FilesListed(t, date, exe, fs, order)
    ensures Increasing(Ordinals(t.files, order))
  {
    forall m, n | 0 <= m < n < |order| ensures Ordinals(t.files, order)[m] < Ordinals(t.files, order)[n] {
      assert order[m] in order && order[n] in order;
    }
  }

  lemma {:induction false} IncreasingUnique(a: seq<int>, b: seq<int>)
    requires Increasing(a) && Increasing(b) && forall i :: i in a <==> i in b
    ensures a == b
  {
    if b != [] {
      assert b[0] in b;
    }
    if a != [] {
      assert a[0] in a;
      assert a[0] in b;
      assert b[0] in b && b[0] in a;
      var i :| 0 <= i < |b| && b[i] == a[0];
      var j :| 0 <= j < |a| && a[j] == b[0];
      assert a[0] == b[0];
      forall k ensures k in a[1..] <==> k in b[1..] {
        assert k in a[1..] <==> k in a && k != a[0] by {
          if k in a && k != a[0] {
            var n :| 0 <= n < |a| && a[n] == k;
            assert a[1..][n - 1] == k;
          }
        }
        assert k in b[1..] <==> k in b && k != b[0] by {
          if k in b && k != b[0] {
            var n :| 0 <= n < |b| && b[n] == k;
            assert b[1..][n - 1] == k;
          }
        }
      }
      IncreasingUnique(a[1..], b[1..]);
    }
  }

  lemma SessionsListedUnique(t: Tables, date: Date, exe: string, a: seq<StoredSession>, b: seq<StoredSession>,
                             sa: seq<nat>, sb: seq<nat>)
    requires SessionsListed(t, date, exe, a, sa) && SessionsListed(t, date, exe, b, sb)
    ensures a == b
  {
    forall i ensures i in sa <==> i in sb {
      if 0 <= i {
        assert i in sa <==> SessionKey(date, exe, i) in t.sessions;
      }
    }
    IncreasingUnique(sa, sb);
  }

  lemma FilesListedUnique(t: Tables, date: Date, exe: string, a: seq<StoredFile>, b: seq<StoredFile>,
                          fa: seq<FileKey>, fb: seq<FileKey>)
    requires DistinctOrdinals(t, date) && FilesListed(t, date, exe, a, fa) && FilesListed(t, date, exe, b, fb)
    ensures a == b
  {
    ListedIncreases(t, date, exe, a, fa);
    ListedIncreases(t, date, exe, b, fb);
    OrderUnique(t.files, fa, fb);
  }

  lemma AppLoadedUnique(t: Tables, date: Date, exe: string, a: StoredApp, b: StoredApp)
    requires DistinctOrdinals(t, date) && AppLoaded(t, date, exe, a) && AppLoaded(t, date, exe, b)
    ensures a == b
  {
    var sa: seq<nat> :| SessionsListed(t, date, exe, a.sessions, sa);
    var sb: seq<nat> :| SessionsListed(t, date, exe, b.sessions, sb);
    SessionsListedUnique(t, date, exe, a.sessions, b.sessions, sa, sb);
    var fa :| FilesListed(t, date, exe, a.files, fa);
    var fb :| FilesListed(t, date, exe, b.files, fb);
    FilesListedUnique(t, date, exe, a.files, b.files, fa, fb);
  }

  /** Loading is a function of the tables wherever ordinals are distinct, as every save leaves them;
      so the range load gives for each day what the day load gives. */
  lemma LoadedUnique(t: Tables, date: Date, a: Option<Snapshot>, b: Option<Snapshot>)
    requires DistinctOrdinals(t, date) && Loaded(t, date, a) && Loaded(t, date, b)
    ensures a == b
  {
    if a.Some? {
      forall e ensures e in a.value.apps <==> e in b.value.apps {
        assert e in a.value.apps <==> AppKey(date, e) in t.apps;
      }
      forall e | e in a.value.apps ensures a.value.apps[e] == b.value.apps[e] {
        AppLoadedUnique(t, date, e, a.value.apps[e], b.value.apps[e]);
      }
      assert a.value.apps == b.value.apps;
    }
  }
}
