/** The daily store as replace_day_snapshot edits it in place and load_day_snapshot and
    load_range_snapshots read it.
 */
module DailyStore {
  import opened Options
  import opened DailyTables
  import opened DailySteps

  // ----- the store, edited in place -----

  class Store {
    var headers: map<Date, Header>
    var apps: map<AppKey, AppRow>
    var sessions: map<SessionKey, StoredSession>
    var files: map<FileKey, FileRow>
    var fileKeys: set<(string, string)>  // the temp table _daily_store_file_keys

    ghost function State(): Tables
      reads this
    {
      Tables(headers, apps, sessions, files)
    }

    constructor (t: Tables)
      ensures State() == t
    {
      headers, apps, sessions, files, fileKeys := t.headers, t.apps, t.sessions, t.files, {};
    }

    /** dedupe_files_preserving_last: from the back, keeping what has not been seen. */
    method DedupeFiles(fs: seq<StoredFile>) returns (deduped: seq<StoredFile>)
      ensures deduped == Deduped(fs)
    {
      var seen := {};
      var reversed := [];
      var i := |fs|;
      while i > 0
        invariant 0 <= i <= |fs|
        invariant forall k :: k in seen <==> HasKey(fs[i..], k)
        invariant |reversed| == |Deduped(fs[i..])|
        invariant forall j :: 0 <= j < |reversed| ==> reversed[j] == Deduped(fs[i..])[|reversed| - 1 - j]
      {
        i := i - 1;
        assert fs[i..] == [fs[i]] + fs[i + 1..];
        forall k ensures HasKey(fs[i..], k) <==> NameAndPath(fs[i]) == k || HasKey(fs[i + 1..], k) {
          KeyOfCons(fs[i], fs[i + 1..], k);
        }
        if NameAndPath(fs[i]) !in seen {
          seen := seen + {NameAndPath(fs[i])};
          reversed := reversed + [fs[i]];
        }
      }
      assert fs[0..] == fs;
      deduped := seq(|reversed|, j requires 0 <= j < |reversed| => reversed[|reversed| - 1 - j]);
    }

    /** ON DELETE CASCADE: the sessions and files of the app go with it. */
    method DeleteApp(k: AppKey)
      requires k in apps
      modifies this`apps, this`sessions, this`files
      ensures apps == old(apps) - {k}
      ensures SessionsDropped(old(sessions), sessions, {k}) && FilesDropped(old(files), files, {k})
    {
      sessions := map s | s in sessions && !(s.date == k.date && s.exe == k.exe) :: sessions[s];
      files := map f | f in files && !(f.date == k.date && f.exe == k.exe) :: files[f];
      apps := apps - {k};
    }

    /** Deletes the day's apps that the snapshot no longer has. */
    method DeleteRemovedApps(s: Snapshot) returns (ghost gone: set<AppKey>)
      modifies this`apps, this`sessions, this`files
      ensures Stale(old(State()), s, gone)
      ensures apps == old(apps) - gone
      ensures SessionsDropped(old(sessions), sessions, gone) && FilesDropped(old(files), files, gone)
    {
      var removed := set k | k in apps && k.date == s.date && k.exe !in s.apps;
      gone := removed;
      while removed != {}
        invariant removed <= gone
        invariant apps == old(apps) - (gone - removed)
        invariant SessionsDropped(old(sessions), sessions, gone - removed)
        invariant FilesDropped(old(files), files, gone - removed)
        decreases removed
      {
        var k :| k in removed;
        DeleteApp(k);
        removed := removed - {k};
      }
    }

    /** Upserts the sessions by index and trims what lies beyond. */
    method SaveSessions(date: Date, exe: string, ss: seq<StoredSession>)
      modifies this`sessions
      ensures SessionRowsSaved(old(sessions), sessions, date, exe, ss)
    {
      for i := 0 to |ss|
        invariant forall k :: k in sessions <==> k in old(sessions) || (k.date == date && k.exe == exe && k.index < i)
        invariant forall k :: k in sessions ==>
                    sessions[k] == if k.date == date && k.exe == exe && k.index < i then ss[k.index]
                        else old(sessions)[k]
      {
        sessions := sessions[SessionKey(date, exe, i) := ss[i]];
      }
      sessions := map k | k in sessions && !(k.date == date && k.exe == exe && k.index >= |ss|) :: sessions[k];
    }

    /** Writes the deduplicated files, noting their keys in the temp table. */
    method UpsertFiles(date: Date, exe: string, fs: seq<StoredFile>)
      modifies this`files, this`fileKeys
      ensures FilesUpserted(old(files), files, date, exe, Deduped(fs), |Deduped(fs)|)
      ensures forall key :: key in fileKeys <==> HasKey(fs, key)
    {
      fileKeys := {};
      var deduped := DedupeFiles(fs);
      for o := 0 to |deduped|
        invariant forall key :: key in fileKeys <==> HasKey(deduped[..o], key)
        invariant FilesUpserted(old(files), files, date, exe, deduped, o)
      {
        var f := deduped[o];
        UpsertStep(old(files), files, date, exe, deduped, o);
        forall key ensures HasKey(deduped[..o + 1], key) <==> HasKey(deduped[..o], key) || NameAndPath(f) == key {
          HasKeyGrows(deduped, o, key);
        }
        fileKeys := fileKeys + {NameAndPath(f)};
        files := files[FileKey(date, exe, f.name, PathKey(f.detectedPath)) := FileRow(o, f.body)];
      }
      assert deduped[..|deduped|] == deduped;
      DedupedIsLast(fs);
    }

    /** Upserts the files and deletes the rows whose key was not noted. */
    method SaveFiles(date: Date, exe: string, fs: seq<StoredFile>)
      modifies this`files, this`fileKeys
      ensures FileRowsSaved(old(files), files, date, exe, fs)
    {
      UpsertFiles(date, exe, fs);
      ghost var mid := files;
      files := map k | k in files && !(k.date == date && k.exe == exe && (k.name, k.path) !in fileKeys) :: files[k];
      UpsertedThenTrimmed(old(files), mid, files, date, exe, fs);
    }

    /** One app: its row, its sessions, its files. */
    method SaveApp(date: Date, exe: string, app: StoredApp)
      modifies this`apps, this`sessions, this`files, this`fileKeys
      ensures apps == old(apps)[AppKey(date, exe) := AppRow(app.display, app.totalSeconds)]
      ensures SessionRowsSaved(old(sessions), sessions, date, exe, app.sessions)
      ensures FileRowsSaved(old(files), files, date, exe, app.files)
    {
      apps := apps[AppKey(date, exe) := AppRow(app.display, app.totalSeconds)];
      SaveSessions(date, exe, app.sessions);
      SaveFiles(date, exe, app.files);
    }

    method SaveApps(s: Snapshot)
      requires forall k :: k in apps && k.date == s.date ==> k.exe in s.apps
      modifies this`apps, this`sessions, this`files, this`fileKeys
      ensures AppsInProgress(old(apps), apps, s, {})
      ensures SessionsInProgress(old(sessions), sessions, s, {})
      ensures FilesInProgress(old(files), files, s, {})
    {
      var left := s.apps.Keys;
      while left != {}
        invariant left <= s.apps.Keys
        invariant AppsInProgress(old(apps), apps, s, left)
        invariant SessionsInProgress(old(sessions), sessions, s, left)
        invariant FilesInProgress(old(files), files, s, left)
        decreases left
      {
        var exe :| exe in left;
        ghost var apps1, sessions1, files1 := apps, sessions, files;
        SaveApp(s.date, exe, s.apps[exe]);
        AppsStep(old(apps), apps1, s, left, exe);
        SessionsStep(old(sessions), sessions1, sessions, s, left, exe);
        FilesStep(old(files), files1, files, s, left, exe);
        left := left - {exe};
      }
    }

    /** replace_day_snapshot. */
    method ReplaceDay(s: Snapshot, nowMs: nat) returns (signature: DaySignature)
      modifies this
      ensures Replaced(old(State()), State(), s, nowMs)
      ensures Some(signature) == SignatureOf(State(), s.date)
    {
      signature := DaySignature(nowMs, NextRevision(headers, s.date));
      headers := headers[s.date := Header(s.generatedAt, nowMs, signature.revision)];
      ghost var gone := DeleteRemovedApps(s);
      ghost var sessions1, files1 := sessions, files;
      SaveApps(s);
      fileKeys := {};
      ProgressDone(old(State()), sessions1, files1, State(), s, gone);
    }

    // ----- loading -----

    /** get_day_signature */
    method LoadSignature(date: Date) returns (signature: Option<DaySignature>)
      ensures signature == SignatureOf(State(), date)
    {
      if date !in headers {
        return None;
      }
      signature := Some(DaySignature(headers[date].updatedMs, headers[date].revision));
    }

    method QuerySessions(lo: Date, hi: Date) returns (keys: seq<SessionKey>)
      ensures SessionsQueried(sessions, lo, hi, keys)
    {
      keys := [];
      var left := set k | k in sessions && lo <= k.date <= hi;
      while left != {}
        invariant forall k :: k in left ==> k in sessions && lo <= k.date <= hi
        invariant forall k :: k in keys || k in left <==> k in sessions && lo <= k.date <= hi
        invariant forall n, k :: 0 <= n < |keys| && k in left && keys[n].date == k.date && keys[n].exe == k.exe ==>
                    keys[n].index < k.index
        invariant IndexesOrdered(keys)
        decreases left
      {
        LeastIndexExists(left);
        var k :| k in left && forall l :: l in left ==> k.index <= l.index;
        keys := keys + [k];
        left := left - {k};
      }
    }

    method QueryFiles(lo: Date, hi: Date) returns (keys: seq<FileKey>)
      ensures FilesQueried(files, lo, hi, keys)
    {
      keys := [];
      var left := set k | k in files && lo <= k.date <= hi;
      while left != {}
        invariant forall k :: k in left ==> k in files && lo <= k.date <= hi
        invariant forall k :: k in keys || k in left <==> k in files && lo <= k.date <= hi
        invariant forall n :: 0 <= n < |keys| ==> keys[n] in files && keys[n] !in left
        invariant forall n, k :: 0 <= n < |keys| && k in left ==> files[keys[n]].ordinal <= files[k].ordinal
        invariant OrdinalsOrdered(files, keys)
        decreases left
      {
        LeastOrdinalExists(files, left);
        var k :| k in left && forall l :: l in left ==> files[k].ordinal <= files[l].ordinal;
        keys := keys + [k];
        left := left - {k};
      }
    }

    /** The apps of one day, still without sessions and files. */
    method QueryApps(date: Date) returns (loaded: map<string, StoredApp>)
      ensures LoadProgress(State(), date, loaded, [], [])
    {
      loaded := map k | k in apps && k.date == date ::
          k.exe := StoredApp(apps[k].display, apps[k].totalSeconds, [], []);
      assert forall e :: e in loaded ==> AppKey(date, e) in apps;
    }

    /** load_day_snapshot: apps first, then each session row and each file row is pushed to its app. */
    method LoadDay(date: Date) returns (r: Option<Snapshot>)
      ensures Loaded(State(), date, r)
    {
      if date !in headers {
        return None;
      }
      var loaded := QueryApps(date);
      var sessionKeys := QuerySessions(date, date);
      for i := 0 to |sessionKeys|
        invariant LoadProgress(State(), date, loaded, sessionKeys[..i], [])
      {
        assert sessionKeys[i] in sessionKeys;
        PushSessionStep(State(), date, loaded, sessionKeys, i, []);
        loaded := PushSession(loaded, sessionKeys[i].exe, sessions[sessionKeys[i]]);
      }
      assert sessionKeys[..|sessionKeys|] == sessionKeys;
      var fileKeys := QueryFiles(date, date);
      for i := 0 to |fileKeys|
        invariant LoadProgress(State(), date, loaded, sessionKeys, fileKeys[..i])
      {
        assert fileKeys[i] in fileKeys;
        PushFileStep(State(), date, loaded, sessionKeys, fileKeys, i);
        loaded := PushFile(loaded, fileKeys[i].exe, FileOf(fileKeys[i], files[fileKeys[i]]));
      }
      assert fileKeys[..|fileKeys|] == fileKeys;
      LoadFinished(State(), date, date, date, loaded, sessionKeys, fileKeys);
      r := Some(Snapshot(date, headers[date].generatedAt, loaded));
    }

    /** The headers of a range of days with their apps: the LEFT JOIN of the range load. */
    method QueryDays(lo: Date, hi: Date) returns (days: map<Date, Snapshot>)
      ensures RangeProgress(State(), lo, hi, days, [], [])
    {
      days := map[];
      var left := set d | d in headers && lo <= d <= hi;
      while left != {}
        invariant forall d :: d in left ==> d in headers && lo <= d <= hi
        invariant forall d :: d in days || d in left <==> d in headers && lo <= d <= hi
        invariant forall d :: d in days ==> DayProgress(State(), d, days[d], [], [])
        decreases left
      {
        var d :| d in left;
        var loaded := QueryApps(d);
        days := days[d := Snapshot(d, headers[d].generatedAt, loaded)];
        left := left - {d};
      }
    }

    method PushSessionRows(lo: Date, hi: Date, empty: map<Date, Snapshot>)
      returns (days: map<Date, Snapshot>, ghost sessionKeys: seq<SessionKey>)
      requires RangeProgress(State(), lo, hi, empty, [], [])
      ensures SessionsQueried(sessions, lo, hi, sessionKeys) && RangeProgress(State(), lo, hi, days, sessionKeys, [])
    {
      days := empty;
      var keys := QuerySessions(lo, hi);
      for i := 0 to |keys|
        invariant RangeProgress(State(), lo, hi, days, keys[..i], [])
      {
        var k := keys[i];
        assert k in keys;
        RangeSessionStep(State(), lo, hi, days, keys, i, []);
        if k.date in days {
          days := days[k.date := days[k.date].(apps := PushSession(days[k.date].apps, k.exe, sessions[k]))];
        }
      }
      assert keys[..|keys|] == keys;
      sessionKeys := keys;
    }

    method PushFileRows(lo: Date, hi: Date, half: map<Date, Snapshot>, ghost sessionKeys: seq<SessionKey>)
      returns (days: map<Date, Snapshot>, ghost fileKeys: seq<FileKey>)
      requires RangeProgress(State(), lo, hi, half, sessionKeys, [])
      ensures FilesQueried(files, lo, hi, fileKeys) && RangeProgress(State(), lo, hi, days, sessionKeys, fileKeys)
    {
      days := half;
      var keys := QueryFiles(lo, hi);
      for i := 0 to |keys|
        invariant RangeProgress(State(), lo, hi, days, sessionKeys, keys[..i])
      {
        var k := keys[i];
        assert k in keys;
        RangeFileStep(State(), lo, hi, days, sessionKeys, keys, i);
        if k.date in days {
          days := days[k.date := days[k.date].(apps := PushFile(days[k.date].apps, k.exe, FileOf(k, files[k])))];
        }
      }
      assert keys[..|keys|] == keys;
      fileKeys := keys;
    }

    /** load_range_snapshots: one pass over the rows of all days of the range. */
    method LoadRange(lo: Date, hi: Date) returns (days: map<Date, Snapshot>)
      ensures forall d :: d in days <==> d in headers && lo <= d <= hi
      ensures forall d :: d in days ==> Loaded(State(), d, Some(days[d]))
    {
      days := QueryDays(lo, hi);
      if days == map[] {
        return;
      }
      ghost var sessionKeys, fileKeys;
      days, sessionKeys := PushSessionRows(lo, hi, days);
      days, fileKeys := PushFileRows(lo, hi, days, sessionKeys);
      forall d | d in days ensures Loaded(State(), d, Some(days[d])) {
        LoadFinished(State(), lo, hi, d, days[d].apps, sessionKeys, fileKeys);
      }
    }
  }

  lemma {:induction false} LeastIndexExists(keys: set<SessionKey>)
    requires keys != {}
    ensures exists k :: k in keys && forall l :: l in keys ==> k.index <= l.index
  {
    var x :| x in keys;
    if keys == {x} {
      assert x in keys;
    } else {
      LeastIndexExists(keys - {x});
      var y :| y in keys - {x} && forall l :: l in keys - {x} ==> y.index <= l.index;
      var least := if x.index <= y.index then x else y;
      assert least in keys && forall l :: l in keys ==> l == x || l in keys - {x};
    }
  }

  lemma {:induction false} LeastOrdinalExists(files: map<FileKey, FileRow>, keys: set<FileKey>)
    requires keys != {} && keys <= files.Keys
    ensures exists k :: k in keys && forall l :: l in keys ==> files[k].ordinal <= files[l].ordinal
  {
    var x :| x in keys;
    if keys == {x} {
      assert x in keys;
    } else {
      LeastOrdinalExists(files, keys - {x});
      var y :| y in keys - {x} && forall l :: l in keys - {x} ==> files[y].ordinal <= files[l].ordinal;
      var least := if files[x].ordinal <= files[y].ordinal then x else y;
      assert least in keys && forall l :: l in keys ==> l == x || l in keys - {x};
    }
  }
}
