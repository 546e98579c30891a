/** The tracker's file index: for each app, cache keys that lead to positions in its list of files.
    Activity is credited through the index, and files are stored and loaded again underneath it.
 */
module FileIndex {
  import opened Options
  import opened DailyTables
  import opened TextLimits
  import ActivitySpans

  const CACHE_PREFIX_PATH: string := "path:"
  const CACHE_PREFIX_TITLE: string := "title:"
  const CACHE_PREFIX_NAME: string := "name:"

  // ----- cache keys -----

  function TitleKey(name: string, title: string): string {
    CACHE_PREFIX_TITLE + name + "\n" + title
  }

  function FileCacheKey(name: string, path: Option<string>, title: string): Option<string> {
    var cleanName, cleanTitle := SanitizeName(name), SanitizeTitle(title);
    if cleanName == "" then None
    else match SanitizePath(path)
      case Some(p) => Some(CACHE_PREFIX_PATH + p)
      case None => if cleanTitle != "" then Some(TitleKey(cleanName, cleanTitle))
          else Some(CACHE_PREFIX_NAME + cleanName)
  }

  function KeyOf(f: StoredFile): Option<string> {
    FileCacheKey(f.name, f.detectedPath, f.body.windowTitle)
  }

  /** Keys of the three kinds never meet. */
  lemma PrefixesApart(a: string, b: string)
    ensures CACHE_PREFIX_PATH + a != CACHE_PREFIX_TITLE + b
    ensures CACHE_PREFIX_PATH + a != CACHE_PREFIX_NAME + b
    ensures CACHE_PREFIX_TITLE + a != CACHE_PREFIX_NAME + b
  {
    assert (CACHE_PREFIX_PATH + a)[0] == 'p' && (CACHE_PREFIX_TITLE + b)[0] == 't' && (CACHE_PREFIX_NAME + b)[0] == 'n';
    assert (CACHE_PREFIX_TITLE + a)[0] == 't';
  }

  lemma SamePrefix(prefix: string, a: string, b: string)
    ensures prefix + a == prefix + b <==> a == b
  {
    if prefix + a == prefix + b {
      assert (prefix + a)[|prefix|..] == a && (prefix + b)[|prefix|..] == b;
    }
  }

  /** A title as it stands in a key: trimmed, short enough and not empty. */
  predicate CleanTitle(title: string) {
    title != "" && SanitizeTitle(title) == title
  }

  lemma CleanTitleIff(title: string)
    ensures CleanTitle(title) <==> title != "" && Tight(title) && |title| <= MAX_WINDOW_TITLE_CHARS
  {
    TrimOfTight(title);
    SanitizeSettles(title, MAX_WINDOW_TITLE_CHARS);
  }

  /** `longer` goes on after a newline where `shorter` ends, without a space there and by no more than fits in a title
      beside a newline and one more character. */
  predicate GoesOn(shorter: string, longer: string) {
    && shorter + "\n" <= longer
    && |shorter| + 1 < |longer|
    && !IsWhitespace(longer[|shorter| + 1])
    && |longer| - |shorter| + 1 <= MAX_WINDOW_TITLE_CHARS
  }

  predicate Clash(name: string, name': string) {
    GoesOn(name, name') || GoesOn(name', name)
  }

  lemma EqualKeys(name: string, title: string, name': string, title': string)
    ensures TitleKey(name, title) == TitleKey(name', title') <==> name + "\n" + title == name' + "\n" + title'
  {
    var rest, rest' := name + "\n" + title, name' + "\n" + title';
    assert TitleKey(name, title) == CACHE_PREFIX_TITLE + rest && TitleKey(name', title') == CACHE_PREFIX_TITLE + rest';
    SamePrefix(CACHE_PREFIX_TITLE, rest, rest');
  }

  /** Of two names in front of one text, one ends where the other has a newline, if they differ. */
  lemma SharedText(name: string, title: string, name': string, title': string)
    requires name + "\n" + title == name' + "\n" + title' && |name| <= |name'|
    ensures if |name| == |name'| then name == name' && title == title' else name + "\n" <= name'
  {
    var text := name + "\n" + title;
    assert text[..|name|] == name && text[|name|] == '\n' && text[|name| + 1..] == title;
    assert text[..|name'|] == name' && text[|name'| + 1..] == title';
    if |name| < |name'| {
      assert name'[..|name|] == name && name'[|name|] == '\n';
    }
  }

  lemma LongerGoesOn(name: string, title: string, name': string, title': string)
    requires CleanTitle(title) && CleanTitle(title') && |name| < |name'|
    requires name + "\n" + title == name' + "\n" + title'
    ensures GoesOn(name, name')
  {
    SharedText(name, title, name', title');
    CleanTitleIff(title);
    CleanTitleIff(title');
    var text := name + "\n" + title;
    assert title[0] == text[|name| + 1] && text[|name'|] == '\n';
    assert |name| + 1 < |name'| ==> text[|name| + 1] == name'[|name| + 1];
  }

  /** A title key names one file and one title, unless the names clash. */
  lemma TitleKeySplits(name: string, title: string, name': string, title': string)
    requires CleanTitle(title) && CleanTitle(title') && !Clash(name, name')
    ensures TitleKey(name, title) == TitleKey(name', title') <==> name == name' && title == title'
  {
    EqualKeys(name, title, name', title');
    if TitleKey(name, title) == TitleKey(name', title') {
      if |name| < |name'| {
        LongerGoesOn(name, title, name', title');
      } else if |name'| < |name| {
        LongerGoesOn(name', title', name, title);
      } else {
        SharedText(name, title, name', title');
      }
    }
  }

  predicate CleanName(name: string) {
    name != "" && SanitizeName(name) == name
  }

  lemma KeyOfCleanName(name: string, title: string)
    requires CleanName(name)
    ensures FileCacheKey(name, None, title) ==
              Some(if SanitizeTitle(title) == "" then CACHE_PREFIX_NAME + name
                  else TitleKey(name, SanitizeTitle(title)))
    ensures SanitizeTitle(title) != "" ==> CleanTitle(SanitizeTitle(title))
  {
    SanitizeSettles(title, MAX_WINDOW_TITLE_CHARS);
  }

  /** Two different names of files without a path share a cache key, under some titles, exactly if they clash. */
  lemma NamesShareKeyIff(name: string, name': string)
    requires CleanName(name) && CleanName(name') && name != name'
    ensures (exists title, title' :: FileCacheKey(name, None, title) == FileCacheKey(name', None, title')) <==>
              Clash(name, name')
  {
    if GoesOn(name, name') {
      ClashingKeys(name, name');
    } else if GoesOn(name', name) {
      ClashingKeys(name', name);
    } else {
      forall title, title' ensures FileCacheKey(name, None, title) != FileCacheKey(name', None, title') {
        KeysApart(name, title, name', title');
      }
    }
  }

  lemma KeysApart(name: string, title: string, name': string, title': string)
    requires CleanName(name) && CleanName(name') && name != name' && !Clash(name, name')
    ensures FileCacheKey(name, None, title) != FileCacheKey(name', None, title')
  {
    var t, t' := SanitizeTitle(title), SanitizeTitle(title');
    KeyOfCleanName(name, title);
    KeyOfCleanName(name', title');
    SamePrefix(CACHE_PREFIX_NAME, name, name');
    TitleIsNotName(name, t, name');
    TitleIsNotName(name', t', name);
    if t != "" && t' != "" {
      TitleKeySplits(name, t, name', t');
    }
  }

  lemma ClashingKeys(name: string, name': string)
    requires CleanName(name) && CleanName(name') && GoesOn(name, name')
    ensures exists title, title' :: FileCacheKey(name, None, title) == FileCacheKey(name', None, title')
    ensures exists title, title' :: FileCacheKey(name', None, title') == FileCacheKey(name, None, title)
  {
    var title := name'[|name| + 1..] + "\n" + "x";
    assert name' == name + "\n" + name'[|name| + 1..];
    assert name + "\n" + title == name' + "\n" + "x";
    EqualKeys(name, title, name', "x");
    CleanTitleIff(title);
    CleanTitleIff("x");
    KeyOfCleanName(name, title);
    KeyOfCleanName(name', "x");
    assert FileCacheKey(name, None, title) == FileCacheKey(name', None, "x");
  }

  /** With a newline in the name two files can share a key. */
  lemma TitleKeysCollide()
    ensures FileCacheKey("a\nb", None, "c") == FileCacheKey("a", None, "b\nc") != None
  {
    assert Tight("a\nb") && Tight("c") && Tight("a") && Tight("b\nc");
    TrimOfTight("a\nb");
    TrimOfTight("c");
    TrimOfTight("a");
    TrimOfTight("b\nc");
    assert TitleKey("a\nb", "c") == TitleKey("a", "b\nc");
  }

  /** A stored file has the key it had before it was stored. */
  lemma KeySurvivesStorage(f: StoredFile)
    ensures KeyOf(Prepared(f)) == KeyOf(f)
  {
    SanitizeSettles(f.name, MAX_FILE_ENTRY_NAME_CHARS);
    SanitizeSettles(f.body.windowTitle, MAX_WINDOW_TITLE_CHARS);
    PathSettles(f.detectedPath);
  }

  // ----- activity -----

  /** What one tick reports of the foreground app. */
  datatype Activity = Activity(
    exe: string,
    fileName: string,
    windowTitle: string,
    detectedPath: Option<string>,
    kind: Option<string>,
    seconds: nat,
    now: ActivitySpans.Instant
  ) {
    function Name(): string { Trim(fileName) }

    function Title(): string { Trim(windowTitle) }

    function Path(): Option<string> {
      if detectedPath.Some? && Trim(detectedPath.value) != "" then Some(Trim(detectedPath.value)) else None
    }

    function Key(): Option<string> { FileCacheKey(Name(), Path(), Title()) }
  }

  function Updated(f: StoredFile, a: Activity): StoredFile {
    StoredFile(
      f.name,
      if a.Path().Some? then a.Path() else f.detectedPath,
      f.body.(
        totalSeconds := f.body.totalSeconds + a.seconds,
        lastSeen := a.now,
        activitySpans := ActivitySpans.Extended(f.body.activitySpans, ActivitySpans.Span(a.now, a.now)),
        windowTitle := if a.Title() != "" then a.Title() else f.body.windowTitle,
        titleHistory := if a.Title() != "" then Pushed(f.body.titleHistory, a.Title()) else f.body.titleHistory,
        activityType := if a.kind.Some? then a.kind else f.body.activityType
      )
    )
  }

  function NewFile(a: Activity): StoredFile {
    StoredFile(
      a.Name(),
      a.Path(),
      FileBody(a.seconds, a.now, a.now, a.Title(), Pushed([], a.Title()), a.kind, [ActivitySpans.Span(a.now, a.now)])
    )
  }

  /** The first file of that name without a path. */
  function FirstPathless(files: seq<StoredFile>, name: string, from: nat): (found: Option<nat>)
    requires from <= |files|
    ensures found.Some? ==> from <= found.value < |files| && files[found.value].detectedPath.None? &&
                            files[found.value].name == name
    ensures forall i :: from <= i < (if found.Some? then found.value else |files|) ==>
              !(files[i].detectedPath.None? && files[i].name == name)
    decreases |files| - from
  {
    if from == |files| then None
    else if files[from].detectedPath.None? && files[from].name == name then Some(from)
    else FirstPathless(files, name, from + 1)
  }

  predicate StartsWith(s: string, prefix: string) {
    prefix <= s
  }

  type Index = map<string, nat>

  /** The file the activity is credited to: by its key, else by its name if it has no path. */
  function Matched(files: seq<StoredFile>, index: Index, a: Activity, key: string): Option<nat> {
    if key in index then Some(index[key])
    else if StartsWith(key, CACHE_PREFIX_TITLE) || StartsWith(key, CACHE_PREFIX_NAME) then
      FirstPathless(files, SanitizeName(a.Name()), 0)
    else None
  }

  function FilesAfter(files: seq<StoredFile>, index: Index, a: Activity): seq<StoredFile> {
    if a.Key().None? then files
    else
      match Matched(files, index, a, a.Key().value)
      case Some(i) => if i < |files| then files[i := Updated(files[i], a)] else files
      case None => files + [NewFile(a)]
  }

  function IndexAfter(files: seq<StoredFile>, index: Index, a: Activity): Index {
    if a.Key().None? then index
    else
      var key := a.Key().value;
      match Matched(files, index, a, key)
      case None => index[key := |files|]
      case Some(i) =>
        var hit := if key in index then index else index[key := i];
        if i >= |files| then hit
        else
          match KeyOf(Updated(files[i], a))
          case None => hit
          case Some(updated) => (if updated != key then hit - {key} else hit)[updated := i]
  }

  // ----- soundness of the index -----

  /** What a key says about the file it leads to: its path, or that it has none and which name. */
  ghost predicate Describes(key: string, f: StoredFile) {
    var name := SanitizeName(f.name);
    || (SanitizePath(f.detectedPath).Some? && key == CACHE_PREFIX_PATH + SanitizePath(f.detectedPath).value)
    || (SanitizePath(f.detectedPath).None? && key == CACHE_PREFIX_NAME + name)
    || (SanitizePath(f.detectedPath).None? && exists title :: CleanTitle(title) && key == TitleKey(name, title))
  }

  ghost predicate IndexSound(files: seq<StoredFile>, index: Index) {
    forall key :: key in index ==> index[key] < |files| && Describes(key, files[index[key]])
  }

  lemma KeyDescribes(f: StoredFile)
    requires KeyOf(f).Some?
    ensures Describes(KeyOf(f).value, f)
  {
    SanitizeSettles(f.body.windowTitle, MAX_WINDOW_TITLE_CHARS);
    assert SanitizeTitle(f.body.windowTitle) != "" ==> CleanTitle(SanitizeTitle(f.body.windowTitle));
  }

  function Keys(files: seq<StoredFile>): seq<Option<string>> {
    seq(|files|, i requires 0 <= i < |files| => KeyOf(files[i]))
  }

  /** The index with the first `n` files entered; of two files with one key the later wins. */
  function IndexFrom(keys: seq<Option<string>>, n: nat): Index
    requires n <= |keys|
  {
    if n == 0 then map[]
    else match keys[n - 1]
      case None => IndexFrom(keys, n - 1)
      case Some(key) => IndexFrom(keys, n - 1)[key := n - 1]
  }

  function IndexOf(files: seq<StoredFile>): Index {
    IndexFrom(Keys(files), |files|)
  }

  lemma EntrySound(files: seq<StoredFile>, index: Index, key: string, i: nat)
    requires IndexSound(files, index) && i < |files| && Describes(key, files[i])
    ensures IndexSound(files, index[key := i])
  {
  }

  lemma {:induction false} IndexFromSound(files: seq<StoredFile>, n: nat)
    requires n <= |files|
    ensures IndexSound(files, IndexFrom(Keys(files), n))
  {
    if n > 0 {
      IndexFromSound(files, n - 1);
      var key := Keys(files)[n - 1];
      if key.Some? {
        assert KeyOf(files[n - 1]) == key;
        KeyDescribes(files[n - 1]);
        EntrySound(files, IndexFrom(Keys(files), n - 1), key.value, n - 1);
      }
    }
  }

  lemma {:induction false} IndexFromComplete(keys: seq<Option<string>>, n: nat, i: nat)
    requires i < n <= |keys| && keys[i].Some?
    ensures keys[i].value in IndexFrom(keys, n)
  {
    if i < n - 1 {
      IndexFromComplete(keys, n - 1, i);
    }
  }

  /** File `i` is the last with this key. */
  ghost predicate LastWithKey(files: seq<StoredFile>, i: int, key: string) {
    0 <= i < |files| && KeyOf(files[i]) == Some(key) && forall j :: i < j < |files| ==> KeyOf(files[j]) != Some(key)
  }

  lemma {:induction false} IndexFromLast(keys: seq<Option<string>>, n: nat, i: nat, key: string)
    requires i < n <= |keys| && keys[i] == Some(key) && forall j :: i < j < n ==> keys[j] != Some(key)
    ensures key in IndexFrom(keys, n) && IndexFrom(keys, n)[key] == i
  {
    if i < n - 1 {
      IndexFromLast(keys, n - 1, i, key);
    }
  }

  /** Of files with one key a rebuilt index leads to the last. */
  lemma RebuiltLeadsToLast(files: seq<StoredFile>, i: nat, key: string)
    requires LastWithKey(files, i, key)
    ensures key in IndexOf(files) && IndexOf(files)[key] == i
  {
    IndexFromLast(Keys(files), |files|, i, key);
  }

  /** A rebuilt index is sound whatever the files are, and has the key of every file that has one. */
  lemma RebuiltSound(files: seq<StoredFile>)
    ensures IndexSound(files, IndexOf(files))
    ensures forall i :: 0 <= i < |files| && KeyOf(files[i]).Some? ==> KeyOf(files[i]).value in IndexOf(files)
  {
    IndexFromSound(files, |files|);
    forall i | 0 <= i < |files| && KeyOf(files[i]).Some? ensures KeyOf(files[i]).value in IndexOf(files) {
      assert Keys(files)[i] == KeyOf(files[i]);
      IndexFromComplete(Keys(files), |files|, i);
    }
  }

  lemma TrimmedPath(a: Activity)
    ensures SanitizePath(a.Path()) == SanitizePath(a.detectedPath)
    ensures a.Path().Some? <==> SanitizePath(a.Path()).Some?
  {
    if a.detectedPath.Some? {
      var p := a.detectedPath.value;
      var _, _ := TrimSplits(p);
      TrimOfTight(Trim(p));
      if Trim(p) != "" {
        assert !Blank(Trim(p)) by { assert !IsWhitespace(Trim(p)[0]); }
        SanitizeSettles(Trim(p), MAX_DETECTED_PATH_CHARS);
      }
    }
  }

  /** A key that describes a file still describes it after an update under that key. */
  lemma UpdateKeepsDescription(f: StoredFile, a: Activity, key: string, other: string)
    requires a.Key() == Some(key) && Describes(key, f) && Describes(other, f)
    ensures Describes(other, Updated(f, a))
  {
    TrimmedPath(a);
    if SanitizePath(f.detectedPath).None? && a.Path().Some? {
      var p := SanitizePath(a.Path()).value;
      PrefixesApart(p, SanitizeName(f.name));
      forall title ensures CACHE_PREFIX_PATH + p != TitleKey(SanitizeName(f.name), title) {
        PrefixesApart(p, SanitizeName(f.name) + "\n" + title);
        assert TitleKey(SanitizeName(f.name), title) == CACHE_PREFIX_TITLE + (SanitizeName(f.name) + "\n" + title);
      }
      assert false;
    }
    if SanitizePath(f.detectedPath).Some? && a.Path().Some? {
      PathKeyIs(a, key);
      PathDescribed(f, key, SanitizePath(a.Path()).value);
    }
  }

  lemma PathKeyIs(a: Activity, key: string)
    requires a.Key() == Some(key) && a.Path().Some?
    ensures SanitizePath(a.Path()).Some? && key == CACHE_PREFIX_PATH + SanitizePath(a.Path()).value
  {
    TrimmedPath(a);
  }

  lemma PathDescribed(f: StoredFile, key: string, p: string)
    requires key == CACHE_PREFIX_PATH + p && Describes(key, f)
    ensures SanitizePath(f.detectedPath) == Some(p)
  {
    var name := SanitizeName(f.name);
    PrefixesApart(p, name);
    forall title ensures key != TitleKey(name, title) {
      PrefixesApart(p, name + "\n" + title);
      assert TitleKey(name, title) == CACHE_PREFIX_TITLE + (name + "\n" + title);
    }
    SamePrefix(CACHE_PREFIX_PATH, p, SanitizePath(f.detectedPath).GetOr(""));
  }

  lemma KeyKinds(a: Activity)
    requires a.Key().Some?
    ensures SanitizePath(a.Path()).None? <==>
            StartsWith(a.Key().value, CACHE_PREFIX_TITLE) || StartsWith(a.Key().value, CACHE_PREFIX_NAME)
  {
    var key := a.Key().value;
    match SanitizePath(a.Path())
    case Some(p) =>
      assert key[0] == 'p';
    case None =>
      var name := SanitizeName(a.Name());
      assert TitleKey(name, SanitizeTitle(a.Title())) == CACHE_PREFIX_TITLE + (name + "\n" + SanitizeTitle(a.Title()));
  }

  /** Whatever file is matched, the key of the activity describes it. */
  lemma MatchDescribed(files: seq<StoredFile>, index: Index, a: Activity, key: string)
    requires IndexSound(files, index) && a.Key() == Some(key)
    ensures Matched(files, index, a, key).Some? ==>
              Matched(files, index, a, key).value < |files| &&
                  Describes(key, files[Matched(files, index, a, key).value])
  {
    if key !in index && Matched(files, index, a, key).Some? {
      KeyKinds(a);
      SanitizeSettles(a.Name(), MAX_FILE_ENTRY_NAME_CHARS);
      SanitizeSettles(a.Title(), MAX_WINDOW_TITLE_CHARS);
      assert SanitizeTitle(a.Title()) != "" ==> CleanTitle(SanitizeTitle(a.Title()));
    }
  }

  lemma NewFileDescribed(a: Activity)
    requires a.Key().Some?
    ensures Describes(a.Key().value, NewFile(a))
  {
    KeyDescribes(NewFile(a));
  }

  lemma UpdateKeepsSound(files: seq<StoredFile>, index: Index, a: Activity, key: string, i: nat)
    requires IndexSound(files, index) && a.Key() == Some(key) && i < |files| && Describes(key, files[i])
    ensures IndexSound(files[i := Updated(files[i], a)], index)
  {
    var after := files[i := Updated(files[i], a)];
    forall other | other in index ensures index[other] < |after| && Describes(other, after[index[other]]) {
      assert Describes(other, files[index[other]]);
      if index[other] == i {
        UpdateKeepsDescription(files[i], a, key, other);
      }
    }
  }

  lemma RemovalKeepsSound(files: seq<StoredFile>, index: Index, keys: set<string>)
    requires IndexSound(files, index)
    ensures IndexSound(files, index - keys)
  {
  }

  lemma AppendKeepsSound(files: seq<StoredFile>, index: Index, f: StoredFile)
    requires IndexSound(files, index)
    ensures IndexSound(files + [f], index)
  {
  }

  /** Recording keeps the index sound. */
  lemma RecordKeepsSound(files: seq<StoredFile>, index: Index, a: Activity)
    requires IndexSound(files, index)
    ensures IndexSound(FilesAfter(files, index, a), IndexAfter(files, index, a))
  {
    if a.Key().Some? {
      var key := a.Key().value;
      MatchDescribed(files, index, a, key);
      match Matched(files, index, a, key)
      case None =>
        NewFileDescribed(a);
        AppendKeepsSound(files, index, NewFile(a));
        EntrySound(files + [NewFile(a)], index, key, |files|);
      case Some(i) =>
        var hit := if key in index then index else index[key := i];
        EntrySound(files, index, key, i);
        UpdateKeepsSound(files, hit, a, key, i);
        var after := files[i := Updated(files[i], a)];
        if KeyOf(after[i]).Some? {
          var updated := KeyOf(after[i]).value;
          KeyDescribes(after[i]);
          RemovalKeepsSound(after, hit, {key});
          EntrySound(after, hit, updated, i);
          EntrySound(after, hit - {key}, updated, i);
        }
    }
  }

  /** File `i` is the one written, the key it has now leads to it, and the tick's own key is kept only if it is that
      one. (A file with a path but a blank name, as another program may have stored it, has no key.) */
  ghost predicate LeadsAt(files: seq<StoredFile>, after: seq<StoredFile>, kept: Index, now: ActivitySpans.Instant,
                          key: string, i: int) {
    && 0 <= i < |after| && |files| <= |after|
    && (forall j :: 0 <= j < |files| && j != i ==> after[j] == files[j])
    && (if i < |files| then after[i].body.lastSeen == now else after == files + [after[i]])
    && match KeyOf(after[i])
       case Some(own) => own in kept && kept[own] == i && (key in kept <==> key == own)
       case None => key in kept && kept[key] == i
  }

  lemma RecordedKeyLeads(files: seq<StoredFile>, index: Index, a: Activity)
    requires IndexSound(files, index) && a.Key().Some?
    ensures var after, kept := FilesAfter(files, index, a), IndexAfter(files, index, a);
            exists i :: LeadsAt(files, after, kept, a.now, a.Key().value, i)
  {
    var key, after, kept := a.Key().value, FilesAfter(files, index, a), IndexAfter(files, index, a);
    MatchDescribed(files, index, a, key);
    match Matched(files, index, a, key)
    case None =>
      assert KeyOf(NewFile(a)) == a.Key();
      assert LeadsAt(files, after, kept, a.now, key, |files|);
    case Some(i) =>
      assert LeadsAt(files, after, kept, a.now, key, i);
  }

  lemma DescriptionSurvives(key: string, f: StoredFile)
    ensures Describes(key, Prepared(f)) <==> Describes(key, f)
  {
    SanitizeSettles(f.name, MAX_FILE_ENTRY_NAME_CHARS);
    PathSettles(f.detectedPath);
  }

  function PreparedAll(files: seq<StoredFile>): seq<StoredFile> {
    seq(|files|, i requires 0 <= i < |files| => Prepared(files[i]))
  }

  /** Storing the files in place keeps the index sound, though it is not rebuilt. */
  lemma StorageKeepsSound(files: seq<StoredFile>, index: Index)
    requires IndexSound(files, index)
    ensures IndexSound(PreparedAll(files), index)
  {
    forall key | key in index ensures index[key] < |files| && Describes(key, PreparedAll(files)[index[key]]) {
      DescriptionSurvives(key, files[index[key]]);
    }
  }

  /** An index rebuilt after a restart is the one rebuilt before it. */
  lemma RebuiltSurvivesStorage(files: seq<StoredFile>)
    ensures IndexOf(PreparedAll(files)) == IndexOf(files)
  {
    var stored := PreparedAll(files);
    forall i | 0 <= i < |files| ensures Keys(stored)[i] == Keys(files)[i] {
      KeySurvivesStorage(files[i]);
    }
    assert Keys(stored) == Keys(files);
  }

  // ----- seconds -----

  function FileSeconds(files: seq<StoredFile>): nat {
    if files == [] then 0 else FileSeconds(files[..|files| - 1]) + files[|files| - 1].body.totalSeconds
  }

  lemma {:induction false} SecondsOfUpdate(files: seq<StoredFile>, i: nat, f: StoredFile)
    requires i < |files|
    ensures FileSeconds(files[i := f]) == FileSeconds(files) - files[i].body.totalSeconds + f.body.totalSeconds
  {
    var init, after := files[..|files| - 1], files[i := f];
    if i < |init| {
      SecondsOfUpdate(init, i, f);
      assert after[..|after| - 1] == init[i := f];
    } else {
      assert after[..|after| - 1] == init;
    }
  }

  lemma NameMakesKey(a: Activity)
    ensures a.Key().Some? <==> !Blank(a.fileName)
  {
    var head, tail := TrimSplits(a.fileName);
    BlankIff(a.fileName, head, a.Name(), tail);
    SanitizeSettles(a.Name(), MAX_FILE_ENTRY_NAME_CHARS);
    BlankIff(a.Name(), "", a.Name(), "");
    assert a.Name() == "" + a.Name() + "";
  }

  /** The file an activity may be credited to: of its path, or without a path and of its name, or of
      a name that clashes with it. */
  ghost predicate Suits(f: StoredFile, a: Activity) {
    var name, mine := SanitizeName(f.name), SanitizeName(a.Name());
    && SanitizePath(f.detectedPath) == SanitizePath(a.detectedPath)
    && (SanitizePath(a.detectedPath).None? ==> name == mine || Clash(name, mine))
  }

  lemma DescribedSuits(f: StoredFile, a: Activity)
    requires a.Key().Some? && Describes(a.Key().value, f)
    ensures Suits(f, a)
  {
    TrimmedPath(a);
    var key, name, mine := a.Key().value, SanitizeName(f.name), SanitizeName(a.Name());
    match SanitizePath(a.Path())
    case Some(p) =>
      PathDescribed(f, key, p);
    case None =>
      NotPathKey(a, SanitizePath(f.detectedPath).GetOr(""));
      var title := SanitizeTitle(a.Title());
      if !Clash(name, mine) {
        SanitizeSettles(a.Title(), MAX_WINDOW_TITLE_CHARS);
        forall other | CleanTitle(other) && title != "" ensures TitleKey(name, other) == TitleKey(mine, title) ==>
            name == mine {
          TitleKeySplits(name, other, mine, title);
        }
        SamePrefix(CACHE_PREFIX_NAME, name, mine);
        TitleIsNotName(mine, title, name);
        forall other ensures TitleKey(name, other) != CACHE_PREFIX_NAME + mine {
          TitleIsNotName(name, other, mine);
        }
      }
  }

  lemma TitleIsNotName(name: string, title: string, other: string)
    ensures TitleKey(name, title) != CACHE_PREFIX_NAME + other
  {
    PrefixesApart(name + "\n" + title, other);
    assert TitleKey(name, title) == CACHE_PREFIX_TITLE + (name + "\n" + title);
  }

  lemma NotPathKey(a: Activity, p: string)
    requires a.Key().Some? && SanitizePath(a.Path()).None?
    ensures a.Key().value != CACHE_PREFIX_PATH + p
  {
    KeyKinds(a);
    assert (CACHE_PREFIX_PATH + p)[0] == 'p';
  }

  /** Only file `i` is credited, with the whole of the time; it may be new. */
  ghost predicate CreditedTo(files: seq<StoredFile>, after: seq<StoredFile>, i: int, seconds: nat) {
    && 0 <= i < |after| && i <= |files| && |after| == (if i == |files| then |files| + 1 else |files|)
    && (forall j :: 0 <= j < |files| && j != i ==> after[j] == files[j])
    && after[i].body.totalSeconds == (if i < |files| then files[i].body.totalSeconds else 0) + seconds
  }

  /** An activity with a name credits exactly one file, one that suits it; without one it credits none. */
  lemma RecordCreditsOne(files: seq<StoredFile>, index: Index, a: Activity)
    requires IndexSound(files, index)
    ensures var after := FilesAfter(files, index, a);
            if Blank(a.fileName) then after == files
            else
              && FileSeconds(after) == FileSeconds(files) + a.seconds
              && exists i :: CreditedTo(files, after, i, a.seconds) && Suits(after[i], a)
  {
    NameMakesKey(a);
    if a.Key().Some? {
      var key, after := a.Key().value, FilesAfter(files, index, a);
      MatchDescribed(files, index, a, key);
      match Matched(files, index, a, key)
      case None =>
        NewFileDescribed(a);
        DescribedSuits(NewFile(a), a);
        assert after[..|after| - 1] == files;
        assert CreditedTo(files, after, |files|, a.seconds) && Suits(after[|files|], a);
      case Some(i) =>
        UpdateKeepsDescription(files[i], a, key, key);
        DescribedSuits(after[i], a);
        SecondsOfUpdate(files, i, Updated(files[i], a));
        assert CreditedTo(files, after, i, a.seconds) && Suits(after[i], a);
    }
  }

  // ----- one file for each path -----

  ghost predicate PathsIndexed(files: seq<StoredFile>, index: Index) {
    forall i :: 0 <= i < |files| && SanitizePath(files[i].detectedPath).Some? ==>
                  CACHE_PREFIX_PATH + SanitizePath(files[i].detectedPath).value in index
  }

  ghost predicate OnePerPath(files: seq<StoredFile>) {
    forall i, j :: 0 <= i < j < |files| && SanitizePath(files[i].detectedPath).Some? ==>
                     SanitizePath(files[i].detectedPath) != SanitizePath(files[j].detectedPath)
  }

  ghost predicate Named(files: seq<StoredFile>) {
    forall i :: 0 <= i < |files| ==> !Blank(files[i].name)
  }

  lemma UpdateKeepsPath(f: StoredFile, a: Activity, key: string)
    requires a.Key() == Some(key) && Describes(key, f)
    ensures SanitizePath(Updated(f, a).detectedPath) == SanitizePath(f.detectedPath)
    ensures SanitizePath(f.detectedPath).Some? && KeyOf(Updated(f, a)).Some? ==> KeyOf(Updated(f, a)) == Some(key)
  {
    DescribedSuits(f, a);
    TrimmedPath(a);
  }

  lemma SamePaths(files: seq<StoredFile>, index: Index, i: nat, f: StoredFile)
    requires i < |files| && SanitizePath(f.detectedPath) == SanitizePath(files[i].detectedPath)
    requires PathsIndexed(files, index) && OnePerPath(files)
    ensures PathsIndexed(files[i := f], index) && OnePerPath(files[i := f])
  {
  }

  lemma IndexGrows(files: seq<StoredFile>, index: Index, key: string, i: nat)
    requires PathsIndexed(files, index)
    ensures PathsIndexed(files, index[key := i])
  {
  }

  lemma RemovalKeepsPaths(files: seq<StoredFile>, index: Index, a: Activity)
    requires PathsIndexed(files, index) && a.Key().Some? && SanitizePath(a.Path()).None?
    ensures PathsIndexed(files, index - {a.Key().value})
  {
    forall i | 0 <= i < |files| && SanitizePath(files[i].detectedPath).Some?
      ensures CACHE_PREFIX_PATH + SanitizePath(files[i].detectedPath).value in index - {a.Key().value}
    {
      NotPathKey(a, SanitizePath(files[i].detectedPath).value);
    }
  }

  lemma NewPathKept(files: seq<StoredFile>, index: Index, a: Activity)
    requires PathsIndexed(files, index) && OnePerPath(files) && a.Key().Some? && a.Key().value !in index
    ensures PathsIndexed(files + [NewFile(a)], index[a.Key().value := |files|]) && OnePerPath(files + [NewFile(a)])
  {
    TrimmedPath(a);
    forall i | 0 <= i < |files| && SanitizePath(files[i].detectedPath).Some?
      ensures SanitizePath(files[i].detectedPath) != SanitizePath(a.Path())
    {
      assert CACHE_PREFIX_PATH + SanitizePath(files[i].detectedPath).value in index;
    }
  }

  /** Recording never opens a second file for a path. */
  lemma RecordKeepsPaths(files: seq<StoredFile>, index: Index, a: Activity)
    requires IndexSound(files, index) && PathsIndexed(files, index) && OnePerPath(files)
    ensures PathsIndexed(FilesAfter(files, index, a), IndexAfter(files, index, a)) &&
              OnePerPath(FilesAfter(files, index, a))
  {
    if a.Key().Some? {
      var key := a.Key().value;
      MatchDescribed(files, index, a, key);
      match Matched(files, index, a, key)
      case None =>
        NewPathKept(files, index, a);
      case Some(i) =>
        var hit := if key in index then index else index[key := i];
        IndexGrows(files, index, key, i);
        UpdateKeepsPath(files[i], a, key);
        SamePaths(files, hit, i, Updated(files[i], a));
        var after := files[i := Updated(files[i], a)];
        if KeyOf(after[i]).Some? {
          if KeyOf(after[i]).value != key {
            DescribedSuits(files[i], a);
            TrimmedPath(a);
            RemovalKeepsPaths(after, hit, a);
          }
          IndexGrows(after, if KeyOf(after[i]).value != key then hit - {key} else hit, KeyOf(after[i]).value, i);
        }
    }
  }

  lemma RebuiltPaths(files: seq<StoredFile>)
    requires Named(files)
    ensures PathsIndexed(files, IndexOf(files))
  {
    RebuiltSound(files);
    forall i | 0 <= i < |files| && SanitizePath(files[i].detectedPath).Some?
      ensures CACHE_PREFIX_PATH + SanitizePath(files[i].detectedPath).value in IndexOf(files)
    {
      SanitizeSettles(files[i].name, MAX_FILE_ENTRY_NAME_CHARS);
      assert KeyOf(files[i]) == Some(CACHE_PREFIX_PATH + SanitizePath(files[i].detectedPath).value);
    }
  }

  lemma StorageKeepsPaths(files: seq<StoredFile>, index: Index)
    requires PathsIndexed(files, index) && OnePerPath(files)
    ensures PathsIndexed(PreparedAll(files), index) && OnePerPath(PreparedAll(files))
  {
    forall i | 0 <= i < |files| ensures SanitizePath(PreparedAll(files)[i].detectedPath) ==
        SanitizePath(files[i].detectedPath) {
      PathSettles(files[i].detectedPath);
    }
    assert forall i :: 0 <= i < |files| ==> PreparedAll(files)[i] == Prepared(files[i]);
  }

  // ----- one file for each name -----

  predicate Pathless(f: StoredFile) {
    f.detectedPath.None?
  }

  /** No two files without a path are of one name. */
  ghost predicate OnePerName(files: seq<StoredFile>) {
    forall i, j :: 0 <= i < j < |files| && Pathless(files[i]) && Pathless(files[j]) ==>
        SanitizeName(files[i].name) != SanitizeName(files[j].name)
  }

  /** Names of files without a path are as they are stored. */
  ghost predicate CleanNames(files: seq<StoredFile>) {
    forall i :: 0 <= i < |files| && Pathless(files[i]) ==> SanitizeName(files[i].name) == files[i].name
  }

  /** A path that is there is not blank. */
  ghost predicate CleanPaths(files: seq<StoredFile>) {
    forall i :: 0 <= i < |files| && !Pathless(files[i]) ==> SanitizePath(files[i].detectedPath).Some?
  }

  /** The activity misses the file of its name: that is in memory under another spelling, and no key leads to it. */
  ghost predicate Misses(files: seq<StoredFile>, index: Index, a: Activity) {
    var mine := SanitizeName(a.Name());
    && a.Key().Some? && a.Path().None? && a.Key().value !in index
    && (exists i :: 0 <= i < |files| && Pathless(files[i]) && SanitizeName(files[i].name) == mine)
    && (forall i :: 0 <= i < |files| && Pathless(files[i]) ==> files[i].name != mine)
  }

  /** An update leaves the name, and a file without a path gets none. */
  lemma UpdateKeepsPathless(f: StoredFile, a: Activity, key: string)
    requires a.Key() == Some(key) && Describes(key, f) && (Pathless(f) || SanitizePath(f.detectedPath).Some?)
    ensures var g := Updated(f, a);
            g.name == f.name && (Pathless(g) <==> Pathless(f)) && (Pathless(g) || SanitizePath(g.detectedPath).Some?)
  {
    DescribedSuits(f, a);
    TrimmedPath(a);
  }

  lemma NewNameKept(files: seq<StoredFile>, index: Index, a: Activity)
    requires OnePerName(files) && CleanPaths(files) && a.Key().Some? && Matched(files, index, a, a.Key().value).None?
    ensures OnePerName(files + [NewFile(a)]) <==> !Misses(files, index, a)
    ensures CleanPaths(files + [NewFile(a)])
  {
    TrimmedPath(a);
    KeyKinds(a);
    var after := files + [NewFile(a)];
    assert after[|files|] == NewFile(a);
    if Misses(files, index, a) {
      var i :| 0 <= i < |files| && Pathless(files[i]) && SanitizeName(files[i].name) == SanitizeName(a.Name());
      assert after[i] == files[i];
    }
  }

  lemma SameNamesKept(files: seq<StoredFile>, after: seq<StoredFile>)
    requires OnePerName(files) && |after| == |files|
    requires forall i :: 0 <= i < |files| ==>
               after[i].name == files[i].name && (Pathless(after[i]) <==> Pathless(files[i]))
    ensures OnePerName(after)
  {
  }

  /** Recording opens a second file for a name exactly if it misses the first. */
  lemma RecordKeepsNamesIff(files: seq<StoredFile>, index: Index, a: Activity)
    requires IndexSound(files, index) && OnePerName(files) && CleanPaths(files)
    ensures OnePerName(FilesAfter(files, index, a)) <==> !Misses(files, index, a)
    ensures CleanPaths(FilesAfter(files, index, a))
  {
    if a.Key().Some? {
      var key := a.Key().value;
      MatchDescribed(files, index, a, key);
      match Matched(files, index, a, key)
      case None =>
        NewNameKept(files, index, a);
      case Some(i) =>
        UpdateKeepsPathless(files[i], a, key);
        SameNamesKept(files, FilesAfter(files, index, a));
        if key !in index {
          KeyKinds(a);
          assert files[i].name == SanitizeName(a.Name());
        }
    }
  }

  /** While the names are as stored, no activity misses its file. */
  lemma CleanNeverMisses(files: seq<StoredFile>, index: Index, a: Activity)
    requires CleanNames(files)
    ensures !Misses(files, index, a)
  {
  }

  /** The activity names no path, and its name is too long to be stored as it is. */
  predicate LongName(a: Activity) {
    a.Path().None? && |a.Name()| > MAX_FILE_ENTRY_NAME_CHARS
  }

  lemma NameFits(name: string)
    requires Tight(name)
    ensures SanitizeName(name) == name <==> |name| <= MAX_FILE_ENTRY_NAME_CHARS
  {
    TrimOfTight(name);
  }

  /** A name is as stored after recording too, unless the activity opens a file under a long one. */
  lemma RecordKeepsCleanIff(files: seq<StoredFile>, index: Index, a: Activity)
    requires IndexSound(files, index) && CleanPaths(files) && CleanNames(files)
    ensures CleanNames(FilesAfter(files, index, a)) <==>
              !(LongName(a) && a.Key().Some? && Matched(files, index, a, a.Key().value).None?)
  {
    if a.Key().Some? {
      var key, after := a.Key().value, FilesAfter(files, index, a);
      MatchDescribed(files, index, a, key);
      match Matched(files, index, a, key)
      case None =>
        var _, _ := TrimSplits(a.fileName);
        NameFits(a.Name());
        assert after[|files|] == NewFile(a);
        assert forall i :: 0 <= i < |files| ==> after[i] == files[i];
      case Some(i) =>
        UpdateKeepsPathless(files[i], a, key);
    }
  }

  /** Storing the files makes every name one that is found again. */
  lemma StorageCleansNames(files: seq<StoredFile>)
    requires OnePerName(files) && CleanPaths(files)
    ensures var stored := PreparedAll(files); OnePerName(stored) && CleanPaths(stored) && CleanNames(stored)
  {
    var stored := PreparedAll(files);
    forall i | 0 <= i < |files|
      ensures SanitizeName(stored[i].name) == SanitizeName(files[i].name) == stored[i].name
      ensures Pathless(stored[i]) <==> Pathless(files[i])
      ensures !Pathless(stored[i]) ==> SanitizePath(stored[i].detectedPath).Some?
    {
      SanitizeSettles(files[i].name, MAX_FILE_ENTRY_NAME_CHARS);
      PathSettles(files[i].detectedPath);
    }
  }

  /** Two ticks without a save between them, the first on an empty list: they end in one file exactly if
      their keys are equal or the name is short enough to be stored as it is. A longer one is kept uncut
      until it is stored, and looked for cut. */
  lemma ChangedTitleOneFile(a: Activity, b: Activity)
    requires !Blank(a.fileName) && a.Name() == b.Name() && a.Path().None? && b.Path().None?
    ensures var index := IndexAfter([], map[], a);
            |FilesAfter(FilesAfter([], map[], a), index, b)| == 1 <==> a.Key() == b.Key() || !LongName(a)
  {
    NameMakesKey(a);
    KeyKinds(a);
    KeyKinds(b);
    var _, _ := TrimSplits(a.fileName);
    NameFits(a.Name());
    assert Matched([], map[], a, a.Key().value) == None;
    var once, index := FilesAfter([], map[], a), IndexAfter([], map[], a);
    assert once == [NewFile(a)] && index == map[a.Key().value := 0];
    assert FirstPathless(once, SanitizeName(b.Name()), 1) == None;
  }
}
