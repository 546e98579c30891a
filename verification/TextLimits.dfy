/** The text limits of the daily store: values are trimmed, then shortened in the middle. */
module TextLimits {
  import opened Options
  import opened DailyTables

  const MAX_FILE_ENTRY_NAME_CHARS: nat := 260
  const MAX_WINDOW_TITLE_CHARS: nat := 240
  const MAX_DETECTED_PATH_CHARS: nat := 512
  const MAX_TITLE_HISTORY_ENTRY_CHARS: nat := 180
  const MAX_TITLE_HISTORY_LEN: nat := 12

  // ----- trimming -----

  /** Unicode's White_Space property. */
  predicate IsWhitespace(c: char) {
    var n := c as int;
    || 0x9 <= n <= 0xD || n == 0x20 || n == 0x85 || n == 0xA0 || n == 0x1680
    || 0x2000 <= n <= 0x200A || n == 0x2028 || n == 0x2029 || n == 0x202F || n == 0x205F || n == 0x3000
  }

  function TrimStart(s: string): string {
    if s != "" && IsWhitespace(s[0]) then TrimStart(s[1..]) else s
  }

  function TrimEnd(s: string): string {
    if s != "" && IsWhitespace(s[|s| - 1]) then TrimEnd(s[..|s| - 1]) else s
  }

  function Trim(s: string): string {
    TrimEnd(TrimStart(s))
  }

  /** No whitespace at either end. */
  predicate Tight(s: string) {
    s != "" ==> !IsWhitespace(s[0]) && !IsWhitespace(s[|s| - 1])
  }

  predicate Blank(s: string) {
    forall i :: 0 <= i < |s| ==> IsWhitespace(s[i])
  }

  lemma {:induction false} TrimStartSplits(s: string) returns (head: string)
    ensures s == head + TrimStart(s) && Blank(head)
    ensures TrimStart(s) != "" ==> !IsWhitespace(TrimStart(s)[0])
  {
    if s != "" && IsWhitespace(s[0]) {
      var rest := TrimStartSplits(s[1..]);
      head := [s[0]] + rest;
      assert s == [s[0]] + s[1..];
    } else {
      head := "";
    }
  }

  lemma {:induction false} TrimEndSplits(s: string) returns (tail: string)
    ensures s == TrimEnd(s) + tail && Blank(tail)
    ensures TrimEnd(s) != "" ==> !IsWhitespace(TrimEnd(s)[|TrimEnd(s)| - 1])
  {
    if s != "" && IsWhitespace(s[|s| - 1]) {
      var rest := TrimEndSplits(s[..|s| - 1]);
      tail := rest + [s[|s| - 1]];
      assert s == s[..|s| - 1] + [s[|s| - 1]];
    } else {
      tail := "";
    }
  }

  /** Trimming takes whitespace off both ends, all of it, and nothing else. */
  lemma TrimSplits(s: string) returns (head: string, tail: string)
    ensures s == head + Trim(s) + tail && Blank(head) && Blank(tail) && Tight(Trim(s))
  {
    head := TrimStartSplits(s);
    tail := TrimEndSplits(TrimStart(s));
    if Trim(s) != "" {
      assert TrimStart(s)[0] == Trim(s)[0];
    }
  }

  lemma TrimOfTight(s: string)
    ensures Trim(s) == s <==> Tight(s)
  {
    var _, _ := TrimSplits(s);
  }

  // ----- shortening -----

  /** The head and the tail around three dots, if the value is too long. */
  function TruncateMiddle(value: string, max: nat): (r: string)
    ensures |r| == if |value| <= max then |value| else max
  {
    if |value| <= max then value
    else if max <= 3 then value[..max]
    else
      var headLen := (max - 3) / 2;
      var tailLen := max - 3 - headLen;
      value[..headLen] + "..." + value[|value| - tailLen..]
  }

  /** `r` is the first `head` and the last `tail` characters around three dots. */
  predicate EndsOf(value: string, r: string, head: int, tail: int) {
    && 0 <= head && 0 <= tail && head + tail <= |value|
    && r == value[..head] + "..." + value[|value| - tail..]
  }

  /** What is kept of a value that is too long: its beginning and its end, as much as fits around three dots, the end by
      at most one character the longer. */
  lemma TruncatedShows(value: string, max: nat)
    requires |value| > max > 3
    ensures exists head, tail :: EndsOf(value, TruncateMiddle(value, max), head, tail) &&
              head <= tail <= head + 1 && head + 3 + tail == max
  {
    var head := (max - 3) / 2;
    assert EndsOf(value, TruncateMiddle(value, max), head, max - 3 - head);
  }

  function Sanitize(value: string, max: nat): string {
    TruncateMiddle(Trim(value), max)
  }

  /** Shortening a tight value leaves it tight, but for limits 2 and 3, which cut it off without dots. */
  lemma TruncatedTight(value: string, max: nat)
    requires Tight(value)
    ensures Tight(TruncateMiddle(value, max)) <==> !(max in {2, 3} && |value| > max && IsWhitespace(value[max - 1]))
  {
    var r := TruncateMiddle(value, max);
    if |value| > max > 3 {
      assert r[0] == value[0] || r[0] == '.';
      assert r[|r| - 1] == value[|value| - 1];
    }
  }

  /** Sanitizing twice is sanitizing once, exactly if the limit does not cut the value off behind a space. */
  lemma SanitizeTwice(value: string, max: nat)
    ensures Sanitize(Sanitize(value, max), max) == Sanitize(value, max) <==>
            !(max in {2, 3} && |Trim(value)| > max && IsWhitespace(Trim(value)[max - 1]))
  {
    var _, _ := TrimSplits(value);
    var once := Sanitize(value, max);
    TruncatedTight(Trim(value), max);
    TrimOfTight(once);
    var head, tail := TrimSplits(once);
    if !Tight(once) {
      assert |once| == |head| + |Trim(once)| + |tail|;
      assert Trim(once) != once;
      assert |Sanitize(once, max)| <= |Trim(once)|;
      assert head == "" && tail == "" ==> Trim(once) == once;
    }
  }

  /** So the limits in use are safe, and 2 and 3 are the only ones that would not be. */
  lemma SafeLimits(max: nat)
    ensures (forall value :: Sanitize(Sanitize(value, max), max) == Sanitize(value, max)) <==> max !in {2, 3}
  {
    if max in {2, 3} {
      var value := if max == 2 then "a bc" else "ab cd";
      assert Tight(value);
      TrimOfTight(value);
      SanitizeTwice(value, max);
    } else {
      forall value ensures Sanitize(Sanitize(value, max), max) == Sanitize(value, max) {
        SanitizeTwice(value, max);
      }
    }
  }

  lemma SanitizeSettles(value: string, max: nat)
    requires max > 3
    ensures Sanitize(Sanitize(value, max), max) == Sanitize(value, max)
    ensures |Sanitize(value, max)| <= max && Tight(Sanitize(value, max))
    ensures Sanitize(value, max) == "" <==> Blank(value)
  {
    SanitizeTwice(value, max);
    var head, tail := TrimSplits(value);
    TruncatedTight(Trim(value), max);
    BlankIff(value, head, Trim(value), tail);
  }

  lemma BlankIff(s: string, head: string, core: string, tail: string)
    requires s == head + core + tail && Blank(head) && Blank(tail) && Tight(core)
    ensures core == "" <==> Blank(s)
  {
    if core != "" {
      assert s[|head|] == core[0];
    }
  }

  // ----- the fields of a file -----

  function SanitizeName(value: string): string {
    Sanitize(value, MAX_FILE_ENTRY_NAME_CHARS)
  }

  function SanitizeTitle(value: string): string {
    Sanitize(value, MAX_WINDOW_TITLE_CHARS)
  }

  /** A path with nothing left counts as none. */
  function SanitizePath(path: Option<string>): Option<string> {
    match path
    case None => None
    case Some(p) =>
      var clean := Sanitize(p, MAX_DETECTED_PATH_CHARS);
      if clean == "" then None else Some(clean)
  }

  function SanitizeEntry(value: string): string {
    Sanitize(value, MAX_TITLE_HISTORY_ENTRY_CHARS)
  }

  /** The first `n` titles cleaned, without the empty ones and the repeated ones. */
  function CleanTitles(history: seq<string>, n: nat): seq<string>
    requires n <= |history|
  {
    if n == 0 then []
    else
      var before, title := CleanTitles(history, n - 1), SanitizeEntry(history[n - 1]);
      if title == "" || title in before then before else before + [title]
  }

  function LastTitles(history: seq<string>): seq<string> {
    if |history| > MAX_TITLE_HISTORY_LEN then history[|history| - MAX_TITLE_HISTORY_LEN..] else history
  }

  function PreparedHistory(history: seq<string>): seq<string> {
    LastTitles(CleanTitles(history, |history|))
  }

  /** What a stored title history looks like. */
  ghost predicate HistoryOk(history: seq<string>) {
    && |history| <= MAX_TITLE_HISTORY_LEN
    && AllClean(history)
  }

  ghost predicate AllClean(history: seq<string>) {
    && (forall i :: 0 <= i < |history| ==> history[i] != "" && SanitizeEntry(history[i]) == history[i])
    && (forall i, j :: 0 <= i < j < |history| ==> history[i] != history[j])
  }

  lemma {:induction false} CleanTitlesClean(history: seq<string>, n: nat)
    requires n <= |history|
    ensures AllClean(CleanTitles(history, n))
  {
    if n > 0 {
      CleanTitlesClean(history, n - 1);
      SanitizeSettles(history[n - 1], MAX_TITLE_HISTORY_ENTRY_CHARS);
    }
  }

  lemma {:induction false} CleanTitlesKept(history: seq<string>, n: nat)
    requires n <= |history| && AllClean(history)
    ensures CleanTitles(history, n) == history[..n]
  {
    if n > 0 {
      CleanTitlesKept(history, n - 1);
      assert history[..n] == history[..n - 1] + [history[n - 1]];
    }
  }

  /** Preparing makes a history fit for the store and leaves exactly the fit ones alone. */
  lemma HistoryPrepared(history: seq<string>)
    ensures HistoryOk(PreparedHistory(history))
    ensures PreparedHistory(history) == history <==> HistoryOk(history)
  {
    CleanTitlesClean(history, |history|);
    if HistoryOk(history) {
      CleanTitlesKept(history, |history|);
      assert history[..|history|] == history;
    }
  }

  /** Entry `i` is the first that cleans to `title`. */
  predicate FirstAt(history: seq<string>, i: int, title: string) {
    && 0 <= i < |history| && SanitizeEntry(history[i]) == title
    && forall j :: 0 <= j < i ==> SanitizeEntry(history[j]) != title
  }

  lemma {:induction false} EveryTitleIn(history: seq<string>, n: nat, i: nat)
    requires i < n <= |history| && SanitizeEntry(history[i]) != ""
    ensures SanitizeEntry(history[i]) in CleanTitles(history, n)
  {
    if i < n - 1 {
      EveryTitleIn(history, n - 1, i);
    }
  }

  lemma OccursNow(history: seq<string>, n: nat)
    requires n < |history| && SanitizeEntry(history[n]) != "" && SanitizeEntry(history[n]) !in CleanTitles(history, n)
    ensures FirstAt(history, n, SanitizeEntry(history[n]))
  {
    var title := SanitizeEntry(history[n]);
    forall j | 0 <= j < n ensures SanitizeEntry(history[j]) != title {
      if SanitizeEntry(history[j]) != "" {
        EveryTitleIn(history, n, j);
      }
    }
  }

  /** `at` says where each of the titles first occurs, among the first `n` entries. */
  ghost predicate PlacesOf(history: seq<string>, n: nat, titles: seq<string>, at: seq<nat>) {
    && |at| == |titles|
    && (forall k :: 0 <= k < |at| ==> at[k] < n && FirstAt(history, at[k], titles[k]))
    && (forall k, l :: 0 <= k < l < |at| ==> at[k] < at[l])
  }

  lemma PlacesGrow(history: seq<string>, n: nat, titles: seq<string>, at: seq<nat>, title: string)
    requires PlacesOf(history, n, titles, at) && FirstAt(history, n, title)
    ensures PlacesOf(history, n + 1, titles + [title], at + [n])
  {
  }

  /** Where the cleaned titles first occur. */
  lemma {:induction false} FirstPlaces(history: seq<string>, n: nat) returns (at: seq<nat>)
    requires n <= |history|
    ensures PlacesOf(history, n, CleanTitles(history, n), at)
  {
    if n == 0 {
      at := [];
    } else {
      at := FirstPlaces(history, n - 1);
      var before, title := CleanTitles(history, n - 1), SanitizeEntry(history[n - 1]);
      if title != "" && title !in before {
        OccursNow(history, n - 1);
        PlacesGrow(history, n - 1, before, at, title);
        at := at + [n - 1];
      }
    }
  }

  lemma FirstIsOne(history: seq<string>, i: int, j: int, title: string)
    requires FirstAt(history, i, title) && FirstAt(history, j, title)
    ensures i == j
  {
  }

  /** `titles` stand in the order in which they first occur. */
  ghost predicate InOrderOf(history: seq<string>, titles: seq<string>) {
    forall k, l, i, j :: 0 <= k < l < |titles| && FirstAt(history, i, titles[k]) && FirstAt(history, j, titles[l]) ==>
      i < j
  }

  lemma CleanTitlesInOrder(history: seq<string>)
    ensures var all := CleanTitles(history, |history|);
            && InOrderOf(history, all)
            && (forall t :: t in all ==> t != "" && exists i :: FirstAt(history, i, t))
            && (forall i, t :: FirstAt(history, i, t) && t != "" ==> t in all)
  {
    var all := CleanTitles(history, |history|);
    var at := FirstPlaces(history, |history|);
    CleanTitlesClean(history, |history|);
    forall i, t | FirstAt(history, i, t) && t != "" ensures t in all {
      EveryTitleIn(history, |history|, i);
    }
    forall k, l, i, j | 0 <= k < l < |all| && FirstAt(history, i, all[k]) && FirstAt(history, j, all[l]) ensures i < j {
      FirstIsOne(history, i, at[k], all[k]);
      FirstIsOne(history, j, at[l], all[l]);
    }
  }

  lemma EndInOrder(history: seq<string>, all: seq<string>, cut: nat)
    requires InOrderOf(history, all) && cut <= |all|
    ensures InOrderOf(history, all[cut..])
  {
  }

  lemma LeftOutIsOlder(history: seq<string>, all: seq<string>, cut: nat, i: int, t: string, j: int, u: string)
    requires InOrderOf(history, all) && cut <= |all| && FirstAt(history, i, t) && FirstAt(history, j, u)
    requires t in all && t !in all[cut..] && u in all[cut..]
    ensures i < j
  {
    var k :| 0 <= k < |all| && all[k] == t;
    var l :| 0 <= l < |all[cut..]| && all[cut..][l] == u;
    assert all[cut + l] == u;
  }

  /** What is stored of a history: 12 titles at most, in the order in which they first occur, and what is left out of
      them occurs first before all that are kept. */
  lemma HistoryKeepsNewest(history: seq<string>)
    ensures var kept := PreparedHistory(history);
            && |kept| <= 12 && InOrderOf(history, kept)
            && (forall t :: t in kept ==> t != "" && exists i :: FirstAt(history, i, t))
            && (forall i, t :: FirstAt(history, i, t) && t != "" && t !in kept ==>
                  |kept| == 12 && forall j, u :: u in kept && FirstAt(history, j, u) ==> i < j)
  {
    CleanTitlesInOrder(history);
    var all, kept := CleanTitles(history, |history|), PreparedHistory(history);
    var cut := |all| - |kept|;
    assert kept == all[cut..];
    EndInOrder(history, all, cut);
    assert forall t :: t in all[cut..] ==> t in all;
    forall i, t, j, u | FirstAt(history, i, t) && t != "" && t !in kept && u in kept && FirstAt(history, j, u)
      ensures i < j
    {
      LeftOutIsOlder(history, all, cut, i, t, j, u);
    }
  }

  method NormalizeHistory(history: seq<string>) returns (normalized: seq<string>)
    ensures normalized == PreparedHistory(history)
  {
    normalized := [];
    for k := 0 to |history|
      invariant normalized == CleanTitles(history, k)
    {
      var sanitized := SanitizeEntry(history[k]);
      if sanitized == "" || sanitized in normalized {
        continue;
      }
      normalized := normalized + [sanitized];
    }
    if |normalized| > MAX_TITLE_HISTORY_LEN {
      normalized := normalized[|normalized| - MAX_TITLE_HISTORY_LEN..];
    }
  }

  /** The newest title is added at the end, unless it is there already; the oldest makes room. */
  function Pushed(history: seq<string>, title: string): seq<string> {
    var normalized := SanitizeEntry(title);
    if normalized == "" || normalized in history then history
    else if |history| >= MAX_TITLE_HISTORY_LEN then history[1..] + [normalized]
    else history + [normalized]
  }

  lemma PushKeepsOk(history: seq<string>, title: string)
    requires HistoryOk(history)
    ensures HistoryOk(Pushed(history, title))
    ensures !Blank(title) ==> SanitizeEntry(title) in Pushed(history, title)
  {
    SanitizeSettles(title, MAX_TITLE_HISTORY_ENTRY_CHARS);
    var normalized, pushed := SanitizeEntry(title), Pushed(history, title);
    if normalized != "" && normalized !in history {
      assert pushed[|pushed| - 1] == normalized;
    }
  }

  /** Where a new title does not fit any more the oldest makes room; the others stay as they are. */
  lemma PushedLast(history: seq<string>, title: string)
    requires |history| <= 12 && SanitizeEntry(title) != "" && SanitizeEntry(title) !in history
    ensures var pushed := Pushed(history, title);
            && |pushed| == (if |history| == 12 then 12 else |history| + 1)
            && pushed[|pushed| - 1] == SanitizeEntry(title)
            && forall i :: 0 <= i < |pushed| - 1 ==> pushed[i] == history[|history| - |pushed| + 1 + i]
  {
  }

  /** A file as it is stored. */
  function Prepared(f: StoredFile): StoredFile {
    StoredFile(
      SanitizeName(f.name),
      SanitizePath(f.detectedPath),
      f.body.(windowTitle := SanitizeTitle(f.body.windowTitle), titleHistory := PreparedHistory(f.body.titleHistory))
    )
  }

  /** A text within its limit is stored trimmed, a longer one cut to the limit. */
  predicate StoredText(value: string, stored: string, limit: nat) {
    if |Trim(value)| <= limit then stored == Trim(value) else |stored| == limit
  }

  /** Storing shortens the texts of a file, and nothing else of it changes. */
  lemma PreparedShows(f: StoredFile)
    ensures var p := Prepared(f);
            && StoredText(f.name, p.name, 260)
            && StoredText(f.body.windowTitle, p.body.windowTitle, 240)
            && (p.detectedPath.Some? <==> f.detectedPath.Some? && !Blank(f.detectedPath.value))
            && (p.detectedPath.Some? ==> StoredText(f.detectedPath.value, p.detectedPath.value, 512))
            && p.body == f.body.(windowTitle := p.body.windowTitle, titleHistory := p.body.titleHistory)
            && forall t :: t in p.body.titleHistory ==>
                 exists i :: 0 <= i < |f.body.titleHistory| && StoredText(f.body.titleHistory[i], t, 180)
  {
    if f.detectedPath.Some? {
      SanitizeSettles(f.detectedPath.value, MAX_DETECTED_PATH_CHARS);
    }
    HistoryKeepsNewest(f.body.titleHistory);
    forall t | t in Prepared(f).body.titleHistory
      ensures exists i :: 0 <= i < |f.body.titleHistory| && StoredText(f.body.titleHistory[i], t, 180)
    {
      var i :| FirstAt(f.body.titleHistory, i, t);
      assert StoredText(f.body.titleHistory[i], t, 180);
    }
  }

  lemma PathSettles(path: Option<string>)
    ensures SanitizePath(SanitizePath(path)) == SanitizePath(path)
  {
    if path.Some? {
      SanitizeSettles(path.value, MAX_DETECTED_PATH_CHARS);
    }
  }

  /** Saving again changes nothing. */
  lemma PreparedTwice(f: StoredFile)
    ensures Prepared(Prepared(f)) == Prepared(f)
  {
    SanitizeSettles(f.name, MAX_FILE_ENTRY_NAME_CHARS);
    SanitizeSettles(f.body.windowTitle, MAX_WINDOW_TITLE_CHARS);
    PathSettles(f.detectedPath);
    HistoryPrepared(f.body.titleHistory);
    HistoryPrepared(PreparedHistory(f.body.titleHistory));
  }
}
