/** The tracker together with its store: what is reloaded is what was saved, so nothing has to be assumed of reloads. */
module TrackerStore {
  import opened Options
  import opened DailyTables
  import opened DailyRuns
  import opened TextLimits
  import opened FileIndex
  import opened FileTracker

  // ----- the tracker's life -----

  /** A tick, a save that may fail to be written, or a load of a day (at the start of the daemon or of a new day) that
      may fail to be read. */
  datatype Step =
    | Ticked(activity: Activity, display: string)
    | Saved(generatedAt: string, nowMs: nat, written: bool)
    | Opened(date: Date, readable: bool)

  datatype Life = Life(day: Day, date: Date, saves: seq<Save>)

  /** load_daily: the stored snapshot of the day, or an empty day. */
  function StoredDay(saves: seq<Save>, date: Date): map<string, StoredApp> {
    match LastSaved(saves, date)
    case Some(s) => Normalized(s).apps
    case None => map[]
  }

  function EventOf(l: Life, step: Step): Event {
    match step
    case Ticked(a, display) => Tick(a, display)
    case Saved(_, _, _) => Event.Save
    case Opened(date, readable) => Reload(if readable then StoredDay(l.saves, date) else map[])
  }

  function Lived(l: Life, step: Step): Life {
    var day := After(l.day, EventOf(l, step));
    match step
    case Ticked(_, _) => l.(day := day)
    case Saved(generatedAt, nowMs, written) =>
      if written then Life(day, l.date, l.saves + [Save.Save(Snapshot(l.date, generatedAt, day.apps), nowMs)])
      else l.(day := day)
    case Opened(date, _) => Life(day, date, l.saves)
  }

  function Live(steps: seq<Step>): Life {
    if steps == [] then Life(Day(map[], map[]), 0, []) else Lived(Live(steps[..|steps| - 1]), steps[|steps| - 1])
  }

  /** A load reads just this: whatever tables a history of saves from empty ones has left, loading the day gives the
      stored snapshot, or none where it was never saved. */
  lemma LoadIsStoredDay(states: seq<Tables>, saves: seq<Save>, date: Date, r: Option<Snapshot>)
    requires IsHistory(states, saves) && states[0] == Tables(map[], map[], map[], map[])
    requires Loaded(states[|saves|], date, r)
    ensures (if r.Some? then r.value.apps else map[]) == StoredDay(saves, date)
    ensures StoreOk(states[|saves|])
  {
    LoadAfterHistory(states, saves, date, r);
    EmptyIsOk();
    HistoryKeepsOk(states, saves);
  }

  // ----- what is stored -----

  ghost predicate StoredTidy(files: seq<StoredFile>) {
    Named(files) && OnePerPath(files) && CleanPaths(files)
  }

  ghost predicate NamesTidy(files: seq<StoredFile>) {
    OnePerName(files) && CleanNames(files) && CleanPaths(files)
  }

  lemma DedupedAt(files: seq<StoredFile>, i: nat) returns (a: nat)
    requires i < |Deduped(files)|
    ensures a < |files| && files[a] == Deduped(files)[i]
  {
    DedupedIsLast(files);
    assert Deduped(files)[i] in Deduped(files);
    a :| 0 <= a < |files| && files[a] == Deduped(files)[i];
  }

  /** Two files of the deduplicated list are two files of the list. */
  lemma DedupedPair(files: seq<StoredFile>, i: nat, j: nat) returns (a: nat, b: nat)
    requires i < j < |Deduped(files)|
    ensures a < |files| && b < |files| && a != b && files[a] == Deduped(files)[i] && files[b] == Deduped(files)[j]
  {
    a := DedupedAt(files, i);
    b := DedupedAt(files, j);
    DedupedIsLast(files);
    assert NameAndPath(Deduped(files)[i]) != NameAndPath(Deduped(files)[j]);
  }

  /** A path that is not blank is not empty, so it reads back as it is. */
  lemma DecodedAsStored(f: StoredFile)
    requires !Pathless(f) ==> SanitizePath(f.detectedPath).Some?
    ensures Decoded(f) == f
  {
    if !Pathless(f) && f.detectedPath.value == "" {
      SanitizeSettles("", MAX_DETECTED_PATH_CHARS);
    }
  }

  lemma NormalFilesAre(files: seq<StoredFile>)
    requires CleanPaths(files)
    ensures DecodedAll(Deduped(files)) == Deduped(files) && CleanPaths(Deduped(files))
  {
    forall i | 0 <= i < |Deduped(files)|
      ensures !Pathless(Deduped(files)[i]) ==> SanitizePath(Deduped(files)[i].detectedPath).Some?
      ensures Decoded(Deduped(files)[i]) == Deduped(files)[i]
    {
      var a := DedupedAt(files, i);
      DecodedAsStored(files[a]);
    }
  }

  lemma NormalKeepsTidy(files: seq<StoredFile>)
    requires StoredTidy(files)
    ensures StoredTidy(DecodedAll(Deduped(files)))
  {
    var d := Deduped(files);
    NormalFilesAre(files);
    forall i | 0 <= i < |d| ensures !Blank(d[i].name) {
      var a := DedupedAt(files, i);
    }
    forall i, j | 0 <= i < j < |d| && SanitizePath(d[i].detectedPath).Some?
      ensures SanitizePath(d[i].detectedPath) != SanitizePath(d[j].detectedPath)
    {
      var a, b := DedupedPair(files, i, j);
    }
  }

  lemma NormalKeepsNames(files: seq<StoredFile>)
    requires NamesTidy(files)
    ensures NamesTidy(DecodedAll(Deduped(files)))
  {
    var d := Deduped(files);
    NormalFilesAre(files);
    forall i | 0 <= i < |d| && Pathless(d[i]) ensures SanitizeName(d[i].name) == d[i].name {
      var a := DedupedAt(files, i);
    }
    forall i, j | 0 <= i < j < |d| && Pathless(d[i]) && Pathless(d[j])
      ensures SanitizeName(d[i].name) != SanitizeName(d[j].name)
    {
      var a, b := DedupedPair(files, i, j);
    }
  }

  // ----- names and paths that are not blank -----

  lemma NewFileNamed(a: Activity)
    requires a.Key().Some?
    ensures !Blank(NewFile(a).name) && (!Pathless(NewFile(a)) ==> SanitizePath(NewFile(a).detectedPath).Some?)
  {
    NameMakesKey(a);
    TrimmedPath(a);
    var head, tail := TrimSplits(a.fileName);
    BlankIff(a.fileName, head, a.Name(), tail);
    BlankIff(a.Name(), "", a.Name(), "");
    assert a.Name() == "" + a.Name() + "";
  }

  lemma UpdateKeepsNamed(files: seq<StoredFile>, index: Index, a: Activity)
    requires IndexSound(files, index) && Named(files) && CleanPaths(files)
    ensures Named(FilesAfter(files, index, a)) && CleanPaths(FilesAfter(files, index, a))
  {
    if a.Key().Some? {
      var key := a.Key().value;
      MatchDescribed(files, index, a, key);
      match Matched(files, index, a, key)
      case None =>
        NewFileNamed(a);
      case Some(i) =>
        UpdateKeepsPathless(files[i], a, key);
    }
  }

  lemma StorageKeepsNamed(files: seq<StoredFile>)
    requires Named(files)
    ensures Named(PreparedAll(files)) && CleanPaths(PreparedAll(files))
  {
    forall i | 0 <= i < |files|
      ensures !Blank(PreparedAll(files)[i].name)
      ensures !Pathless(PreparedAll(files)[i]) ==> SanitizePath(PreparedAll(files)[i].detectedPath).Some?
    {
      var name := SanitizeName(files[i].name);
      SanitizeSettles(files[i].name, MAX_FILE_ENTRY_NAME_CHARS);
      PathSettles(files[i].detectedPath);
      assert !IsWhitespace(name[0]);
    }
  }

  // ----- paths -----

  ghost predicate DayNamed(d: Day) {
    forall exe :: exe in d.apps ==> Named(d.Files(exe)) && CleanPaths(d.Files(exe))
  }

  ghost predicate SavesTidy(saves: seq<Save>) {
    forall i, exe :: 0 <= i < |saves| && exe in saves[i].snapshot.apps ==> StoredTidy(saves[i].snapshot.apps[exe].files)
  }

  ghost predicate LifeTidy(l: Life) {
    DaySound(l.day) && DayTidy(l.day) && DayNamed(l.day) && SavesTidy(l.saves)
  }

  lemma {:induction false} LastSavedIsSaved(saves: seq<Save>, date: Date)
    ensures LastSaved(saves, date).Some? ==>
              exists i :: 0 <= i < |saves| && saves[i].snapshot == LastSaved(saves, date).value
  {
    if saves != [] && saves[|saves| - 1].snapshot.date != date {
      LastSavedIsSaved(saves[..|saves| - 1], date);
    }
  }

  /** What a load gives is tidy, because what was saved was. */
  lemma StoredDayTidy(saves: seq<Save>, date: Date)
    requires SavesTidy(saves)
    ensures forall exe :: exe in StoredDay(saves, date) ==> StoredTidy(StoredDay(saves, date)[exe].files)
  {
    LastSavedIsSaved(saves, date);
    forall exe | exe in StoredDay(saves, date) ensures StoredTidy(StoredDay(saves, date)[exe].files) {
      NormalKeepsTidy(LastSaved(saves, date).value.apps[exe].files);
    }
  }

  lemma EventKeepsNamed(d: Day, event: Event)
    requires DaySound(d) && DayNamed(d)
    requires event.Reload? ==> forall exe :: exe in event.apps ==> StoredTidy(event.apps[exe].files)
    ensures DayNamed(After(d, event))
  {
    var after := After(d, event);
    forall exe | exe in after.apps ensures Named(after.Files(exe)) && CleanPaths(after.Files(exe)) {
      match event
      case Tick(a, display) =>
        if exe == a.exe {
          EmptySound(d.Files(exe));
          UpdateKeepsNamed(d.Files(exe), d.IndexFor(exe), a);
        }
      case Save =>
        StorageKeepsNamed(d.Files(exe));
      case Reload(apps) =>
        assert StoredTidy(apps[exe].files);
    }
  }

  lemma StepKeepsTidy(l: Life, step: Step)
    requires LifeTidy(l)
    ensures LifeTidy(Lived(l, step))
  {
    var event := EventOf(l, step);
    if step.Opened? {
      StoredDayTidy(l.saves, step.date);
    }
    EventKeepsSound(l.day, event);
    EventKeepsTidy(l.day, event);
    EventKeepsNamed(l.day, event);
  }

  /** From an empty store, through any activity, saves, restarts and changes of day, failed ones included: every
      cached key leads to a file it describes, and no path is ever split over two files. */
  lemma {:induction false} LifeStaysTidy(steps: seq<Step>)
    ensures LifeTidy(Live(steps))
  {
    if steps != [] {
      LifeStaysTidy(steps[..|steps| - 1]);
      StepKeepsTidy(Live(steps[..|steps| - 1]), steps[|steps| - 1]);
    }
  }

  // ----- names -----

  ghost predicate SavesNamesTidy(saves: seq<Save>) {
    forall i, exe :: 0 <= i < |saves| && exe in saves[i].snapshot.apps ==> NamesTidy(saves[i].snapshot.apps[exe].files)
  }

  predicate LongTicked(step: Step) {
    step.Ticked? && LongName(step.activity)
  }

  /** A name of more than 260 characters is saved, or its day left, before the next tick. */
  predicate SavedInTime(steps: seq<Step>) {
    forall i :: 0 <= i < |steps| - 1 && LongTicked(steps[i]) ==> !steps[i + 1].Ticked?
  }

  lemma StoredDayNames(saves: seq<Save>, date: Date)
    requires SavesNamesTidy(saves)
    ensures forall exe :: exe in StoredDay(saves, date) ==> NamesTidy(StoredDay(saves, date)[exe].files)
  {
    LastSavedIsSaved(saves, date);
    forall exe | exe in StoredDay(saves, date) ensures NamesTidy(StoredDay(saves, date)[exe].files) {
      NormalKeepsNames(LastSaved(saves, date).value.apps[exe].files);
    }
  }

  lemma StepKeepsNames(l: Life, step: Step)
    requires DaySound(l.day) && DayOnePerName(l.day) && SavesNamesTidy(l.saves) && (step.Ticked? ==> DayClean(l.day))
    ensures var after := Lived(l, step);
            && DayOnePerName(after.day) && SavesNamesTidy(after.saves)
            && (!LongTicked(step) ==> DayClean(after.day))
  {
    match step
    case Ticked(a, display) =>
      TickKeepsNames(l.day, a, display);
    case Saved(_, _, _) =>
      SaveCleansNames(l.day);
      var after := After(l.day, Event.Save);
      forall exe | exe in after.apps ensures NamesTidy(after.apps[exe].files) {
        assert after.Files(exe) == after.apps[exe].files;
      }
    case Opened(date, readable) =>
      StoredDayNames(l.saves, date);
  }

  lemma InTimeBefore(steps: seq<Step>)
    requires SavedInTime(steps) && steps != []
    ensures SavedInTime(steps[..|steps| - 1])
    ensures |steps| > 1 && steps[|steps| - 1].Ticked? ==> !LongTicked(steps[..|steps| - 1][|steps| - 2])
  {
    var init := steps[..|steps| - 1];
    assert forall i :: 0 <= i < |init| ==> init[i] == steps[i];
  }

  ghost predicate LifeNames(l: Life) {
    DaySound(l.day) && DayOnePerName(l.day) && SavesNamesTidy(l.saves)
  }

  /** And no name without a path is split either, if long names are saved before the next tick. */
  lemma {:induction false} LifeKeepsNames(steps: seq<Step>)
    requires SavedInTime(steps)
    ensures LifeNames(Live(steps))
    ensures steps == [] || !LongTicked(steps[|steps| - 1]) ==> DayClean(Live(steps).day)
  {
    LifeStaysTidy(steps);
    if steps != [] {
      InTimeBefore(steps);
      LifeKeepsNames(steps[..|steps| - 1]);
      StepKeepsNames(Live(steps[..|steps| - 1]), steps[|steps| - 1]);
    }
  }

  // ----- what was saved is what is loaded -----

  /** Step `i` writes this day. */
  predicate Writes(steps: seq<Step>, i: int, date: Date) {
    0 <= i < |steps| && steps[i].Saved? && steps[i].written && Live(steps[..i]).date == date
  }

  /** Step `i` writes the day that `j` opens again, and nothing in between writes it. */
  ghost predicate Reopens(steps: seq<Step>, i: nat, j: nat) {
    && i < j < |steps| && steps[j].Opened? && steps[j].readable
    && Writes(steps, i, steps[j].date)
    && forall k :: i < k < j ==> !Writes(steps, k, steps[j].date)
  }

  lemma LiveStep(steps: seq<Step>, k: nat)
    requires k < |steps|
    ensures Live(steps[..k + 1]) == Lived(Live(steps[..k]), steps[k])
  {
    assert steps[..k + 1][..k] == steps[..k];
  }

  lemma LastSavedOfSnoc(saves: seq<Save>, save: Save, date: Date)
    ensures LastSaved(saves + [save], date) ==
              if save.snapshot.date == date then Some(save.snapshot) else LastSaved(saves, date)
  {
    assert (saves + [save])[..|saves|] == saves;
  }

  lemma LastSavedStep(l: Life, step: Step, date: Date)
    ensures LastSaved(Lived(l, step).saves, date) ==
              if step.Saved? && step.written && l.date == date
              then Some(Snapshot(date, step.generatedAt, Lived(l, step).day.apps))
              else LastSaved(l.saves, date)
  {
    if step.Saved? && step.written {
      var snapshot := Snapshot(l.date, step.generatedAt, Lived(l, step).day.apps);
      LastSavedOfSnoc(l.saves, Save.Save(snapshot, step.nowMs), date);
    }
  }

  lemma WritesPrefix(steps: seq<Step>, n: nat, k: nat, date: Date)
    requires k < n <= |steps|
    ensures Writes(steps[..n], k, date) <==> Writes(steps, k, date)
    ensures Live(steps[..n][..k + 1]) == Live(steps[..k + 1])
  {
    assert steps[..n][..k] == steps[..k] && steps[..n][..k + 1] == steps[..k + 1];
  }

  ghost function WrittenBy(steps: seq<Step>, i: nat, date: Date): Snapshot
    requires Writes(steps, i, date)
  {
    Snapshot(date, steps[i].generatedAt, Live(steps[..i + 1]).day.apps)
  }

  /** Step `i` is the last of these that writes this day. */
  ghost predicate WritesLast(steps: seq<Step>, i: nat, date: Date) {
    Writes(steps, i, date) && forall k :: i < k < |steps| ==> !Writes(steps, k, date)
  }

  lemma WritesLastOf(steps: seq<Step>, n: nat, i: nat, date: Date)
    requires i < n <= |steps| && Writes(steps, i, date) && forall k :: i < k < n ==> !Writes(steps, k, date)
    ensures WritesLast(steps[..n], i, date) && WrittenBy(steps[..n], i, date) == WrittenBy(steps, i, date)
  {
    forall k | i <= k < n ensures Writes(steps[..n], k, date) <==> Writes(steps, k, date) {
      WritesPrefix(steps, n, k, date);
    }
    WritesPrefix(steps, n, i, date);
  }

  lemma WrittenNow(steps: seq<Step>, date: Date)
    requires steps != [] && Writes(steps, |steps| - 1, date)
    ensures LastSaved(Live(steps).saves, date) == Some(WrittenBy(steps, |steps| - 1, date))
  {
    LastSavedStep(Live(steps[..|steps| - 1]), steps[|steps| - 1], date);
    assert steps[..|steps|] == steps;
  }

  lemma NotWrittenNow(steps: seq<Step>, date: Date)
    requires steps != [] && !Writes(steps, |steps| - 1, date)
    ensures LastSaved(Live(steps).saves, date) == LastSaved(Live(steps[..|steps| - 1]).saves, date)
  {
    LastSavedStep(Live(steps[..|steps| - 1]), steps[|steps| - 1], date);
  }

  /** What step `i` wrote stays the last snapshot of its day until something else is written. */
  lemma {:induction false} StaysLast(steps: seq<Step>, i: nat, date: Date)
    requires WritesLast(steps, i, date)
    ensures LastSaved(Live(steps).saves, date) == Some(WrittenBy(steps, i, date))
  {
    if i == |steps| - 1 {
      WrittenNow(steps, date);
    } else {
      NotWrittenNow(steps, date);
      WritesLastOf(steps, |steps| - 1, i, date);
      StaysLast(steps[..|steps| - 1], i, date);
    }
  }

  /** So what is opened is what was saved, as the store normalizes it. */
  lemma ReopensStored(steps: seq<Step>, i: nat, j: nat)
    requires Reopens(steps, i, j)
    ensures var saved := Live(steps[..i + 1]).day.apps;
            Live(steps[..j + 1]).day.apps ==
              map e | e in saved :: saved[e].(files := DecodedAll(Deduped(saved[e].files)))
  {
    var date := steps[j].date;
    WritesLastOf(steps, j, i, date);
    StaysLast(steps[..j], i, date);
    LiveStep(steps, j);
  }

  lemma {:induction false} DistinctStay(files: seq<StoredFile>)
    requires forall i, j :: 0 <= i < j < |files| ==> NameAndPath(files[i]) != NameAndPath(files[j])
    ensures Deduped(files) == files
  {
    if files != [] {
      DistinctStay(files[1..]);
    }
  }

  lemma TidyAreDistinct(files: seq<StoredFile>)
    requires StoredTidy(files) && NamesTidy(files)
    ensures forall i, j :: 0 <= i < j < |files| ==> NameAndPath(files[i]) != NameAndPath(files[j])
  {
    forall i, j | 0 <= i < j < |files| ensures NameAndPath(files[i]) != NameAndPath(files[j]) {
      DecodedAsStored(files[i]);
      DecodedAsStored(files[j]);
    }
  }

  /** The day that is opened has the apps, seconds and sessions of the one that was saved, and of the files of one name
      and path the last. */
  lemma LifeLoadsLastSave(steps: seq<Step>, i: nat, j: nat)
    requires Reopens(steps, i, j)
    ensures var saved, loaded := Live(steps[..i + 1]).day.apps, Live(steps[..j + 1]).day.apps;
            && loaded.Keys == saved.Keys
            && forall exe :: exe in saved ==>
                 && loaded[exe] == saved[exe].(files := loaded[exe].files)
                 && (forall f :: f in loaded[exe].files <==> IsLast(saved[exe].files, f))
  {
    var saved := Live(steps[..i + 1]).day;
    ReopensStored(steps, i, j);
    LifeStaysTidy(steps[..i + 1]);
    forall exe | exe in saved.apps
      ensures DecodedAll(Deduped(saved.apps[exe].files)) == Deduped(saved.apps[exe].files)
      ensures forall f :: f in Deduped(saved.apps[exe].files) <==> IsLast(saved.apps[exe].files, f)
    {
      NormalFilesAre(saved.Files(exe));
      DedupedIsLast(saved.Files(exe));
    }
  }

  lemma NormalAre(files: seq<StoredFile>)
    requires StoredTidy(files) && NamesTidy(files)
    ensures DecodedAll(Deduped(files)) == files
  {
    TidyAreDistinct(files);
    DistinctStay(files);
    NormalFilesAre(files);
  }

  /** What a step writes is tidy. */
  lemma WrittenIsTidy(steps: seq<Step>, i: nat, date: Date, exe: string)
    requires Writes(steps, i, date) && SavedInTime(steps) && exe in Live(steps[..i + 1]).day.apps
    ensures StoredTidy(Live(steps[..i + 1]).day.apps[exe].files) && NamesTidy(Live(steps[..i + 1]).day.apps[exe].files)
  {
    var part := steps[..i + 1];
    LiveStep(steps, i);
    assert forall k :: 0 <= k < |part| ==> part[k] == steps[k];
    LifeStaysTidy(part);
    LifeKeepsNames(part);
    var last := |Live(part).saves| - 1;
    assert exe in Live(part).saves[last].snapshot.apps;
  }

  /** Where long names are saved in time, it is the day that was saved. */
  lemma LifeRestores(steps: seq<Step>, i: nat, j: nat)
    requires Reopens(steps, i, j) && SavedInTime(steps)
    ensures Live(steps[..j + 1]).day.apps == Live(steps[..i + 1]).day.apps
  {
    var saved := Live(steps[..i + 1]).day.apps;
    ReopensStored(steps, i, j);
    forall exe | exe in saved ensures DecodedAll(Deduped(saved[exe].files)) == saved[exe].files {
      WrittenIsTidy(steps, i, steps[j].date, exe);
      NormalAre(saved[exe].files);
    }
  }
}
