/** What a tick writes on the file it is credited to, and what of it stays: the file's times, its title, its kind and
    its spans on the timeline.
 */
module FileTimeline {
  import opened Options
  import opened DailyTables
  import opened ActivitySpans
  import opened ActivityCap
  import opened TextLimits
  import opened FileIndex
  import opened FileTracker

  // ----- one tick -----

  /** At most 100 spans in order, more than 30 seconds apart. */
  ghost predicate TimelineOk(spans: seq<Span>) {
    && |spans| <= 100
    && (forall i :: 0 <= i < |spans| ==> spans[i].start <= spans[i].end)
    && (forall i, j :: 0 <= i < j < |spans| ==> spans[j].start - spans[i].end > 30)
  }

  /** The moment lies in one of the spans. */
  ghost predicate Shows(spans: seq<Span>, t: Instant) {
    exists i :: 0 <= i < |spans| && spans[i].start <= t <= spans[i].end
  }

  /** Every span of `before` lies inside one of `after`. */
  ghost predicate SpansKept(before: seq<Span>, after: seq<Span>) {
    forall i :: 0 <= i < |before| ==>
      exists j :: 0 <= j < |after| && after[j].start <= before[i].start && before[i].end <= after[j].end
  }

  /** What a tick makes of a file: the first half holds whatever the file was. */
  ghost predicate Ticked(a: Activity, f: StoredFile) {
    && f.body.lastSeen == a.now
    && TimelineOk(f.body.activitySpans) && Shows(f.body.activitySpans, a.now)
    && (Trim(a.windowTitle) != "" ==>
          f.body.windowTitle == Trim(a.windowTitle) && SanitizeEntry(Trim(a.windowTitle)) in f.body.titleHistory)
    && (a.kind.Some? ==> f.body.activityType == a.kind)
    && (a.detectedPath.Some? && Trim(a.detectedPath.value) != "" ==> f.detectedPath == Some(Trim(a.detectedPath.value)))
  }

  ghost predicate Continues(a: Activity, before: StoredFile, after: StoredFile) {
    && Ticked(a, after)
    && after.name == before.name
    && after.body.firstSeen == before.body.firstSeen
    && after.body.totalSeconds == before.body.totalSeconds + a.seconds
    && SpansKept(before.body.activitySpans, after.body.activitySpans)
    && (Trim(a.windowTitle) == "" ==> after.body.windowTitle == before.body.windowTitle)
    && (Trim(a.windowTitle) == "" ==> after.body.titleHistory == before.body.titleHistory)
    && (a.kind.None? ==> after.body.activityType == before.body.activityType)
    && (a.detectedPath.None? || Trim(a.detectedPath.value) == "" ==> after.detectedPath == before.detectedPath)
  }

  ghost predicate Opens(a: Activity, f: StoredFile) {
    && Ticked(a, f)
    && f.name == Trim(a.fileName)
    && f.body.firstSeen == a.now
    && f.body.totalSeconds == a.seconds
    && f.body.windowTitle == Trim(a.windowTitle)
    && f.body.activityType == a.kind
    && (a.detectedPath.None? || Trim(a.detectedPath.value) == "" ==> f.detectedPath.None?)
  }

  /** File `i` and no other is written, or opened behind the others. */
  ghost predicate WrittenAt(files: seq<StoredFile>, after: seq<StoredFile>, a: Activity, i: int) {
    && 0 <= i <= |files| && |after| == (if i == |files| then |files| + 1 else |files|)
    && (forall j :: 0 <= j < |files| && j != i ==> after[j] == files[j])
    && if i < |files| then Continues(a, files[i], after[i]) else Opens(a, after[i])
  }

  /** A tick that names a file writes exactly one; one without a name writes none. */
  ghost predicate Writes(files: seq<StoredFile>, after: seq<StoredFile>, a: Activity) {
    if Blank(a.fileName) then after == files else exists i :: WrittenAt(files, after, a, i)
  }

  ghost predicate FilesUpright(files: seq<StoredFile>) {
    forall i :: 0 <= i < |files| ==> Upright(files[i].body.activitySpans)
  }

  lemma SpansExtended(spans: seq<Span>, t: Instant)
    requires Upright(spans)
    ensures var after := Extended(spans, Span(t, t));
            Upright(after) && TimelineOk(after) && Shows(after, t) && SpansKept(spans, after)
  {
    ExtendedSound(spans, Span(t, t));
    var after := Extended(spans, Span(t, t));
    forall i | 0 <= i < |spans|
      ensures exists j :: 0 <= j < |after| && after[j].start <= spans[i].start && spans[i].end <= after[j].end
    {
      assert Inside(spans[i], after);
    }
  }

  lemma TitleIsPushed(history: seq<string>, text: string)
    requires Trim(text) != ""
    ensures SanitizeEntry(Trim(text)) in Pushed(history, Trim(text))
  {
    var head, tail := TrimSplits(text);
    BlankIff(Trim(text), "", Trim(text), "");
    assert Trim(text) == "" + Trim(text) + "";
    SanitizeSettles(Trim(text), MAX_TITLE_HISTORY_ENTRY_CHARS);
    var pushed := Pushed(history, Trim(text));
    assert pushed == history || pushed[|pushed| - 1] == SanitizeEntry(Trim(text));
  }

  lemma UpdateContinues(f: StoredFile, a: Activity)
    requires Upright(f.body.activitySpans)
    ensures Continues(a, f, Updated(f, a)) && Upright(Updated(f, a).body.activitySpans)
  {
    SpansExtended(f.body.activitySpans, a.now);
    if Trim(a.windowTitle) != "" {
      TitleIsPushed(f.body.titleHistory, a.windowTitle);
    }
  }

  lemma NewFileOpens(a: Activity)
    ensures Opens(a, NewFile(a)) && Upright(NewFile(a).body.activitySpans)
  {
    assert NewFile(a).body.activitySpans[0] == Span(a.now, a.now);
    if Trim(a.windowTitle) != "" {
      TitleIsPushed([], a.windowTitle);
    }
  }

  lemma RecordWritesOne(files: seq<StoredFile>, index: Index, a: Activity)
    requires IndexSound(files, index) && FilesUpright(files)
    ensures var after := FilesAfter(files, index, a);
            FilesUpright(after) && Writes(files, after, a)
  {
    NameMakesKey(a);
    if a.Key().Some? {
      var key, after := a.Key().value, FilesAfter(files, index, a);
      MatchDescribed(files, index, a, key);
      match Matched(files, index, a, key)
      case None =>
        NewFileOpens(a);
        assert WrittenAt(files, after, a, |files|);
      case Some(i) =>
        UpdateContinues(files[i], a);
        assert WrittenAt(files, after, a, i);
    }
  }

  // ----- any run -----

  ghost predicate DayUpright(d: Day) {
    forall exe :: exe in d.apps ==> FilesUpright(d.Files(exe))
  }

  /** What is loaded has spans that start no later than they end. */
  ghost predicate LoadsUpright(event: Event) {
    event.Reload? ==> forall exe :: exe in event.apps ==> FilesUpright(event.apps[exe].files)
  }

  lemma EventKeepsUpright(d: Day, event: Event)
    requires DaySound(d) && DayUpright(d) && LoadsUpright(event)
    ensures DayUpright(After(d, event))
  {
    var after := After(d, event);
    forall exe | exe in after.apps ensures FilesUpright(after.Files(exe)) {
      match event
      case Tick(a, display) =>
        if exe == a.exe {
          EmptySound(d.Files(exe));
          RecordWritesOne(d.Files(exe), d.IndexFor(exe), a);
        }
      case Save =>
      case Reload(apps) =>
        assert FilesUpright(apps[exe].files);
    }
  }

  lemma {:induction false} RunKeepsUpright(d: Day, events: seq<Event>)
    requires DaySound(d) && DayUpright(d) && forall i :: 0 <= i < |events| ==> LoadsUpright(events[i])
    ensures DayUpright(Run(d, events))
  {
    if events != [] {
      var init := events[..|events| - 1];
      RunKeepsUpright(d, init);
      RunKeepsSound(d, init);
      EventKeepsUpright(Run(d, init), events[|events| - 1]);
    }
  }

  /** The app gains the time and keeps its name; the others are left alone. */
  ghost predicate AppWritten(before: Day, after: Day, a: Activity, display: string) {
    && after.apps.Keys == before.apps.Keys + {a.exe}
    && (forall exe :: exe in before.apps && exe != a.exe ==> after.apps[exe] == before.apps[exe])
    && after.apps[a.exe].totalSeconds == before.Seconds(a.exe) + a.seconds
    && after.apps[a.exe].display == if a.exe in before.apps then before.apps[a.exe].display else display
  }

  lemma TickWritesOne(d: Day, a: Activity, display: string)
    requires DaySound(d) && DayUpright(d)
    ensures Writes(d.Files(a.exe), Recorded(d, a, display).Files(a.exe), a)
  {
    EmptySound(d.Files(a.exe));
    RecordWritesOne(d.Files(a.exe), d.IndexFor(a.exe), a);
    assert Recorded(d, a, display).Files(a.exe) == FilesAfter(d.Files(a.exe), d.IndexFor(a.exe), a);
  }

  /** At any point of any run: a tick that names a file writes exactly one file of its app, and no tick touches another
      app. */
  lemma RunWritesOne(d: Day, events: seq<Event>, a: Activity, display: string)
    requires DaySound(d) && DayUpright(d) && forall i :: 0 <= i < |events| ==> LoadsUpright(events[i])
    ensures var before, after := Run(d, events), Run(d, events + [Tick(a, display)]);
            AppWritten(before, after, a, display) && Writes(before.Files(a.exe), after.Files(a.exe), a)
  {
    var all := events + [Tick(a, display)];
    assert all[..|all| - 1] == events;
    RunKeepsUpright(d, events);
    RunKeepsSound(d, events);
    TickWritesOne(Run(d, events), a, display);
    assert Run(d, all) == Recorded(Run(d, events), a, display);
  }

  // ----- nothing leaves the timeline -----

  /** Some file of the app shows the moment. */
  ghost predicate OnTimeline(files: seq<StoredFile>, t: Instant) {
    exists i :: 0 <= i < |files| && Shows(files[i].body.activitySpans, t)
  }

  lemma SpansKeptShow(before: seq<Span>, after: seq<Span>, t: Instant)
    requires SpansKept(before, after) && Shows(before, t)
    ensures Shows(after, t)
  {
    var i :| 0 <= i < |before| && before[i].start <= t <= before[i].end;
    var j :| 0 <= j < |after| && after[j].start <= before[i].start && before[i].end <= after[j].end;
  }

  lemma WritingKeepsShown(files: seq<StoredFile>, after: seq<StoredFile>, a: Activity, i: int, t: Instant)
    requires WrittenAt(files, after, a, i) && OnTimeline(files, t)
    ensures OnTimeline(after, t)
  {
    var j :| 0 <= j < |files| && Shows(files[j].body.activitySpans, t);
    if j == i {
      SpansKeptShow(files[i].body.activitySpans, after[i].body.activitySpans, t);
    }
    assert Shows(after[j].body.activitySpans, t);
  }

  lemma EventKeepsShown(d: Day, event: Event, exe: string, t: Instant)
    requires DaySound(d) && DayUpright(d) && !event.Reload? && OnTimeline(d.Files(exe), t)
    ensures OnTimeline(After(d, event).Files(exe), t)
  {
    match event
    case Tick(a, display) =>
      EmptySound(d.Files(exe));
      RecordWritesOne(d.Files(exe), d.IndexFor(exe), a);
      if exe == a.exe && !Blank(a.fileName) {
        var files, after := d.Files(exe), FilesAfter(d.Files(exe), d.IndexFor(exe), a);
        var i :| WrittenAt(files, after, a, i);
        WritingKeepsShown(files, after, a, i, t);
      }
    case Save =>
      var i :| 0 <= i < |d.Files(exe)| && Shows(d.Files(exe)[i].body.activitySpans, t);
      assert After(d, event).Files(exe)[i].body.activitySpans == d.Files(exe)[i].body.activitySpans;
  }

  lemma TickIsShown(d: Day, a: Activity, display: string)
    requires DaySound(d) && DayUpright(d) && !Blank(a.fileName)
    ensures OnTimeline(Recorded(d, a, display).Files(a.exe), a.now)
  {
    TickWritesOne(d, a, display);
    var files, after := d.Files(a.exe), Recorded(d, a, display).Files(a.exe);
    var i :| WrittenAt(files, after, a, i);
    assert Shows(after[i].body.activitySpans, a.now);
  }

  /** Between reloads every moment of a tick that named a file stays on the timeline of its app. */
  lemma {:induction false} TicksStayShown(d: Day, events: seq<Event>, i: nat)
    requires DaySound(d) && DayUpright(d) && forall j :: 0 <= j < |events| ==> !events[j].Reload?
    requires i < |events| && events[i].Tick? && !Blank(events[i].activity.fileName)
    ensures OnTimeline(Run(d, events).Files(events[i].activity.exe), events[i].activity.now)
  {
    var init, last := events[..|events| - 1], |events| - 1;
    RunKeepsSound(d, init);
    RunKeepsUpright(d, init);
    if i == last {
      TickIsShown(Run(d, init), events[i].activity, events[i].display);
    } else {
      TicksStayShown(d, init, i);
      EventKeepsShown(Run(d, init), events[last], events[i].activity.exe, events[i].activity.now);
    }
  }
}
