/** The tracker's day: apps, their files and the file index over any run of activity, saves and reloads. */
module FileTracker {
  import opened Options
  import opened DailyTables
  import opened TextLimits
  import opened FileIndex
  import ActivitySpans

  datatype Day = Day(apps: map<string, StoredApp>, cache: map<string, Index>) {
    function Files(exe: string): seq<StoredFile> {
      if exe in apps then apps[exe].files else []
    }

    function Seconds(exe: string): nat {
      if exe in apps then apps[exe].totalSeconds else 0
    }

    function IndexFor(exe: string): Index {
      if exe in cache then cache[exe] else map[]
    }
  }

  // ----- the steps -----

  /** The app with the time of the activity, and its files credited. */
  function Credited(d: Day, a: Activity, display: string): StoredApp {
    var app := if a.exe in d.apps then d.apps[a.exe] else StoredApp(display, 0, [], []);
    app.(totalSeconds := app.totalSeconds + a.seconds, files := FilesAfter(d.Files(a.exe), d.IndexFor(a.exe), a))
  }

  function Reindexed(d: Day, a: Activity): map<string, Index> {
    if a.Name() == "" then d.cache else d.cache[a.exe := IndexAfter(d.Files(a.exe), d.IndexFor(a.exe), a)]
  }

  function Recorded(d: Day, a: Activity, display: string): Day {
    Day(d.apps[a.exe := Credited(d, a, display)], Reindexed(d, a))
  }

  function StoredApps(apps: map<string, StoredApp>): map<string, StoredApp> {
    map e | e in apps :: apps[e].(files := PreparedAll(apps[e].files))
  }

  function Rebuilt(apps: map<string, StoredApp>): map<string, Index> {
    map e | e in apps :: IndexOf(apps[e].files)
  }

  datatype Event =
    | Tick(activity: Activity, display: string)
    | Save
    | Reload(apps: map<string, StoredApp>)

  function After(d: Day, event: Event): Day {
    match event
    case Tick(a, display) => Recorded(d, a, display)
    case Save => d.(apps := StoredApps(d.apps))
    case Reload(apps) => Day(apps, Rebuilt(apps))
  }

  function Run(d: Day, events: seq<Event>): Day {
    if events == [] then d else After(Run(d, events[..|events| - 1]), events[|events| - 1])
  }

  lemma NamelessCreditsNone(files: seq<StoredFile>, index: Index, a: Activity)
    requires a.Name() == ""
    ensures FilesAfter(files, index, a) == files
  {
    assert SanitizeName("") == "";
  }

  // ----- the code -----

  method PushTitleHistory(history: seq<string>, title: string) returns (pushed: seq<string>)
    ensures pushed == Pushed(history, title)
  {
    pushed := history;
    var normalized := SanitizeEntry(title);
    if normalized == "" || normalized in pushed {
      return;
    }
    if |pushed| >= MAX_TITLE_HISTORY_LEN {
      pushed := pushed[1..];
    }
    pushed := pushed + [normalized];
  }

  method UpdateFileEntry(f: StoredFile, a: Activity) returns (updated: StoredFile)
    ensures updated == Updated(f, a)
  {
    var spans := ActivitySpans.ExtendActivitySpans(f.body.activitySpans, a.now, a.now);
    updated := f.(body := f.body.(totalSeconds := f.body.totalSeconds + a.seconds, lastSeen := a.now,
        activitySpans := spans));
    var title, path := a.Title(), a.Path();
    if title != "" {
      var history := PushTitleHistory(updated.body.titleHistory, title);
      updated := updated.(body := updated.body.(windowTitle := title, titleHistory := history));
    }
    if path.Some? {
      updated := updated.(detectedPath := path);
    }
    if a.kind.Some? {
      updated := updated.(body := updated.body.(activityType := a.kind));
    }
  }

  method IndexFiles(files: seq<StoredFile>, ghost keys: seq<Option<string>>) returns (fileMap: Index)
    requires |keys| == |files| && forall i :: 0 <= i < |files| ==> keys[i] == KeyOf(files[i])
    ensures fileMap == IndexFrom(keys, |keys|)
  {
    fileMap := map[];
    for i := 0 to |files|
      invariant fileMap == IndexFrom(keys, i)
    {
      var key := KeyOf(files[i]);
      if key.Some? {
        fileMap := fileMap[key.value := i];
      }
    }
  }

  /** The files and the index of one app after an activity. */
  method CreditFiles(files: seq<StoredFile>, index: Index, a: Activity) returns (credited: seq<StoredFile>, kept: Index)
    ensures credited == FilesAfter(files, index, a) && kept == IndexAfter(files, index, a)
  {
    credited, kept := files, index;
    var keyed := a.Key();
    if keyed.None? {
      return;
    }
    var key := keyed.value;
    var matched := Matched(files, index, a, key);
    if matched.Some? {
      var i := matched.value;
      if key !in kept {
        kept := kept[key := i];
      }
      if i < |files| {
        var updated := UpdateFileEntry(files[i], a);
        credited := files[i := updated];
        var updatedKey := KeyOf(updated);
        if updatedKey.Some? {
          if updatedKey.value != key {
            kept := kept - {key};
          }
          kept := kept[updatedKey.value := i];
        }
      }
    } else {
      kept := kept[key := |files|];
      credited := files + [NewFile(a)];
    }
  }

  class Tracker {
    var apps: map<string, StoredApp>
    var cache: map<string, Index>

    ghost function Value(): Day
      reads this
    {
      Day(apps, cache)
    }

    constructor (daily: map<string, StoredApp>)
      ensures Value() == Day(daily, Rebuilt(daily))
    {
      apps := daily;
      cache := map[];
      new;
      RebuildFileIndexCache();
    }

    method RebuildFileIndexCache()
      modifies this`cache
      ensures Value() == Day(old(apps), Rebuilt(old(apps)))
    {
      cache := map[];
      var left := apps.Keys;
      while left != {}
        invariant left <= apps.Keys
        invariant cache == map e | e in apps && e !in left :: IndexOf(apps[e].files)
      {
        var exe :| exe in left;
        var fileMap := IndexFiles(apps[exe].files, Keys(apps[exe].files));
        cache := cache[exe := fileMap];
        left := left - {exe};
      }
    }

    method RecordAppActivity(a: Activity, display: string)
      modifies this
      ensures Value() == Recorded(old(Value()), a, display)
    {
      ghost var d := Value();
      var app := if a.exe in apps then apps[a.exe] else StoredApp(display, 0, [], []);
      app := app.(totalSeconds := app.totalSeconds + a.seconds);
      if a.Name() != "" {
        var index: Index := if a.exe in cache then cache[a.exe] else map[];
        var files, kept := CreditFiles(app.files, index, a);
        app := app.(files := files);
        cache := cache[a.exe := kept];
      } else {
        NamelessCreditsNone(app.files, d.IndexFor(a.exe), a);
      }
      assert app == Credited(d, a, display);
      assert cache == Reindexed(d, a);
      apps := apps[a.exe := app];
    }

    method PrepareDailyForStorage()
      modifies this`apps
      ensures Value() == old(Value()).(apps := StoredApps(old(apps)))
    {
      var before := apps;
      var left := apps.Keys;
      while left != {}
        invariant left <= before.Keys
        invariant apps == map e | e in before :: if e in left then before[e]
                    else before[e].(files := PreparedAll(before[e].files))
      {
        var exe :| exe in left;
        var prepared := PrepareFiles(apps[exe].files);
        apps := apps[exe := apps[exe].(files := prepared)];
        left := left - {exe};
      }
    }
  }

  method PrepareFiles(files: seq<StoredFile>) returns (prepared: seq<StoredFile>)
    ensures prepared == PreparedAll(files)
  {
    prepared := files;
    for i := 0 to |files|
      invariant |prepared| == |files|
      invariant forall j :: 0 <= j < i ==> prepared[j] == Prepared(files[j])
      invariant forall j :: i <= j < |files| ==> prepared[j] == files[j]
    {
      var f := prepared[i];
      var history := NormalizeHistory(f.body.titleHistory);
      prepared := prepared[i := StoredFile(
        SanitizeName(f.name),
        SanitizePath(f.detectedPath),
        f.body.(windowTitle := SanitizeTitle(f.body.windowTitle), titleHistory := history)
      )];
    }
  }

  // ----- soundness over every run -----

  ghost predicate DaySound(d: Day) {
    forall exe :: exe in d.cache ==> IndexSound(d.Files(exe), d.cache[exe])
  }

  lemma EmptySound(files: seq<StoredFile>)
    ensures IndexSound(files, map[])
  {
  }

  lemma EventKeepsSound(d: Day, event: Event)
    requires DaySound(d)
    ensures DaySound(After(d, event))
  {
    var after := After(d, event);
    forall exe | exe in after.cache ensures IndexSound(after.Files(exe), after.cache[exe]) {
      match event
      case Tick(a, display) =>
        if exe == a.exe {
          EmptySound(d.Files(exe));
          RecordKeepsSound(d.Files(exe), d.IndexFor(exe), a);
          NameMakesKey(a);
        }
      case Save =>
        StorageKeepsSound(d.Files(exe), d.cache[exe]);
      case Reload(apps) =>
        RebuiltSound(apps[exe].files);
    }
  }

  /** Through any activity, saves and reloads every cached key leads to a file it describes. */
  lemma {:induction false} RunKeepsSound(d: Day, events: seq<Event>)
    requires DaySound(d)
    ensures DaySound(Run(d, events))
  {
    if events != [] {
      RunKeepsSound(d, events[..|events| - 1]);
      EventKeepsSound(Run(d, events[..|events| - 1]), events[|events| - 1]);
    }
  }

  // ----- one file for each path over every run -----

  ghost predicate DayTidy(d: Day) {
    forall exe :: exe in d.apps ==> PathsIndexed(d.Files(exe), d.IndexFor(exe)) && OnePerPath(d.Files(exe))
  }

  /** What is loaded has named files and no path twice. */
  ghost predicate LoadsTidy(event: Event) {
    event.Reload? ==> forall exe :: exe in event.apps ==>
        Named(event.apps[exe].files) && OnePerPath(event.apps[exe].files)
  }

  lemma EventKeepsTidy(d: Day, event: Event)
    requires DaySound(d) && DayTidy(d) && LoadsTidy(event)
    ensures DayTidy(After(d, event))
  {
    var after := After(d, event);
    forall exe | exe in after.apps ensures PathsIndexed(after.Files(exe), after.IndexFor(exe)) &&
        OnePerPath(after.Files(exe)) {
      match event
      case Tick(a, display) =>
        if exe == a.exe {
          EmptySound(d.Files(exe));
          RecordKeepsPaths(d.Files(exe), d.IndexFor(exe), a);
          NameMakesKey(a);
        }
      case Save =>
        StorageKeepsPaths(d.Files(exe), d.IndexFor(exe));
      case Reload(apps) =>
        RebuiltPaths(apps[exe].files);
    }
  }

  /** Through any activity and saves no path is ever split over two files. */
  lemma {:induction false} RunKeepsTidy(d: Day, events: seq<Event>)
    requires DaySound(d) && DayTidy(d) && forall i :: 0 <= i < |events| ==> LoadsTidy(events[i])
    ensures DayTidy(Run(d, events))
  {
    if events != [] {
      RunKeepsTidy(d, events[..|events| - 1]);
      RunKeepsSound(d, events[..|events| - 1]);
      EventKeepsTidy(Run(d, events[..|events| - 1]), events[|events| - 1]);
    }
  }

  // ----- one file for each name over every run -----

  ghost predicate DayOnePerName(d: Day) {
    forall exe :: exe in d.apps ==> OnePerName(d.Files(exe)) && CleanPaths(d.Files(exe))
  }

  ghost predicate DayClean(d: Day) {
    forall exe :: exe in d.apps ==> CleanNames(d.Files(exe))
  }

  /** What is loaded was stored: no name twice without a path, and names and paths clean. */
  ghost predicate LoadsStored(event: Event) {
    event.Reload? ==> DayOnePerName(After(Day(map[], map[]), event)) && DayClean(After(Day(map[], map[]), event))
  }

  predicate LongTick(event: Event) {
    event.Tick? && LongName(event.activity)
  }

  /** A long name is stored before the next tick. */
  predicate StoredInTime(events: seq<Event>) {
    forall i :: 0 <= i < |events| - 1 && LongTick(events[i]) ==> !events[i + 1].Tick?
  }

  lemma TickKeepsNames(d: Day, a: Activity, display: string)
    requires DaySound(d) && DayOnePerName(d) && DayClean(d)
    ensures DayOnePerName(Recorded(d, a, display))
    ensures !LongName(a) ==> DayClean(Recorded(d, a, display))
  {
    var after, files, index := Recorded(d, a, display), d.Files(a.exe), d.IndexFor(a.exe);
    EmptySound(files);
    CleanNeverMisses(files, index, a);
    RecordKeepsNamesIff(files, index, a);
    RecordKeepsCleanIff(files, index, a);
    assert forall exe :: exe in after.apps && exe != a.exe ==> after.Files(exe) == d.Files(exe);
  }

  lemma SaveCleansNames(d: Day)
    requires DayOnePerName(d)
    ensures DayOnePerName(After(d, Save)) && DayClean(After(d, Save))
  {
    forall exe | exe in d.apps {
      StorageCleansNames(d.Files(exe));
    }
  }

  /** Through any activity, saves and reloads no name without a path is ever split over two files, if long
      names are stored before the next tick. */
  lemma {:induction false} RunKeepsNames(d: Day, events: seq<Event>)
    requires DaySound(d) && DayOnePerName(d) && DayClean(d)
    requires StoredInTime(events) && forall i :: 0 <= i < |events| ==> LoadsStored(events[i])
    ensures DayOnePerName(Run(d, events))
    ensures events == [] || !LongTick(events[|events| - 1]) ==> DayClean(Run(d, events))
  {
    if events != [] {
      var init, last := events[..|events| - 1], |events| - 1;
      assert forall i :: 0 <= i < |init| ==> init[i] == events[i];
      RunKeepsNames(d, init);
      RunKeepsSound(d, init);
      match events[last]
      case Tick(a, display) =>
        assert init != [] ==> !LongTick(events[last - 1]);
        TickKeepsNames(Run(d, init), a, display);
      case Save =>
        SaveCleansNames(Run(d, init));
      case Reload(apps) =>
        assert LoadsStored(events[last]);
    }
  }

  // ----- seconds over every run -----

  /** The seconds of an app's ticks, and of those that name a file. */
  function TickSeconds(events: seq<Event>, exe: string): nat {
    if events == [] then 0
    else
      var last := events[|events| - 1];
      TickSeconds(events[..|events| - 1], exe) +
          (if last.Tick? && last.activity.exe == exe then last.activity.seconds else 0)
  }

  function NamedSeconds(events: seq<Event>, exe: string): nat {
    if events == [] then 0
    else
      var last := events[|events| - 1];
      NamedSeconds(events[..|events| - 1], exe) +
      (if last.Tick? && last.activity.exe == exe && !Blank(last.activity.fileName) then last.activity.seconds else 0)
  }

  lemma {:induction false} StorageKeepsSeconds(files: seq<StoredFile>, stored: seq<StoredFile>)
    requires |stored| == |files| && forall i :: 0 <= i < |files| ==>
               stored[i].body.totalSeconds == files[i].body.totalSeconds
    ensures FileSeconds(stored) == FileSeconds(files)
  {
    if files != [] {
      StorageKeepsSeconds(files[..|files| - 1], stored[..|files| - 1]);
    }
  }

  lemma EventConserves(d: Day, event: Event, exe: string)
    requires DaySound(d) && !event.Reload?
    ensures After(d, event).Seconds(exe) == d.Seconds(exe) + TickSeconds([event], exe)
    ensures FileSeconds(After(d, event).Files(exe)) == FileSeconds(d.Files(exe)) + NamedSeconds([event], exe)
  {
    assert [event][..0] == [];
    match event
    case Tick(a, display) =>
      if a.exe == exe {
        EmptySound(d.Files(exe));
        RecordCreditsOne(d.Files(exe), d.IndexFor(exe), a);
      }
    case Save =>
      StorageKeepsSeconds(d.Files(exe), PreparedAll(d.Files(exe)));
  }

  /** Between reloads an app gains exactly the seconds of its ticks and its files together exactly those
      of the ticks with a file name. */
  lemma {:induction false} RunConserves(d: Day, events: seq<Event>, exe: string)
    requires DaySound(d) && forall i :: 0 <= i < |events| ==> !events[i].Reload?
    ensures Run(d, events).Seconds(exe) == d.Seconds(exe) + TickSeconds(events, exe)
    ensures FileSeconds(Run(d, events).Files(exe)) == FileSeconds(d.Files(exe)) + NamedSeconds(events, exe)
  {
    if events != [] {
      var before, last := events[..|events| - 1], events[|events| - 1];
      RunConserves(d, before, exe);
      RunKeepsSound(d, before);
      EventConserves(Run(d, before), last, exe);
      assert [last][..0] == [];
    }
  }
}
