/** The user state of NetworkEducationApp as values: learning-progress entries,
    the settings record, what local storage hands back for a key, visit-based
    completion, the per-minute study-time tick and the progress-bar figures. */
module Progress {
  import opened Pages

  /** One lesson's progress record. `completedAt` is an ISO-8601 timestamp
      that this layer never inspects. */
  datatype Entry = Entry(completed: bool, completedAt: string, timeSpent: int, score: int)

  /** The `learningProgress` object: page identifier to entry. */
  type ProgressMap = map<string, Entry>

  /** The `appSettings` record. */
  datatype Settings = Settings(
    theme: string,
    language: string,
    animations: bool,
    autoSave: bool,
    fontSize: string,
    videoQuality: string)

  function DefaultSettings(): Settings {
    Settings("light", "ar", true, true, "medium", "auto")
  }

  /** The value `JSON.parse` produced for a stored document: `null`, another
      falsy JSON value (`false`, `0`, `""`), or a document of the expected shape. */
  datatype Parsed<T> = Null | Falsy | Value(value: T)

  /** What local storage holds under one key: nothing, text that does not
      parse as JSON, or a JSON document. */
  datatype Slot<T> = Absent | Unparsable | Json(doc: Parsed<T>)

  /** `getFromStorage`: a missing key parses to `null` and a parse error is
      swallowed and turned into `null`. */
  function GetFromStorage<T>(slot: Slot<T>): Parsed<T> {
    match slot
    case Absent => Null
    case Unparsable => Null
    case Json(doc) => doc
  }

  /** `parsed || fallback`: every falsy parse result selects the fallback. */
  function OrElse<T>(p: Parsed<T>, fallback: T): T {
    if p.Value? then p.value else fallback
  }

  /** What `saveToStorage` leaves under a key after a successful write. */
  function Encoded<T>(v: T): Slot<T> {
    Json(Value(v))
  }

  function LoadProgress(slot: Slot<ProgressMap>): ProgressMap {
    OrElse(GetFromStorage(slot), map[])
  }

  function LoadSettings(slot: Slot<Settings>): Settings {
    OrElse(GetFromStorage(slot), DefaultSettings())
  }

  /** Absent or corrupt storage loads as an empty progress map and exactly the
      six default settings. */
  lemma LoadFallsBackToDefaults(progress: Slot<ProgressMap>, settings: Slot<Settings>)
    requires !progress.Json? || !progress.doc.Value?
    requires !settings.Json? || !settings.doc.Value?
    ensures LoadProgress(progress) == map[]
    ensures LoadSettings(settings) == Settings("light", "ar", true, true, "medium", "auto")
  {
  }

  /** A document `saveToStorage` wrote is truthy, so the `||` fallbacks never
      replace it on the next load. The JSON text itself is not modelled, so
      this is no round trip through encoding. */
  lemma SavedProgressReloads(progress: ProgressMap, settings: Settings)
    ensures LoadProgress(Encoded(progress)) == progress
    ensures LoadSettings(Encoded(settings)) == settings
  {
  }

  // ----- Visit-based completion (updateLearningProgress) -----

  const LessonPrefix: string := "Network_"

  /** A page name that is non-empty and starts with `Network_`. */
  predicate IsLessonPage(page: string) {
    page != [] && LessonPrefix <= page
  }

  /** A visit creates an entry exactly when the page is a lesson page with no
      entry yet. */
  predicate VisitAdds(progress: ProgressMap, page: string) {
    IsLessonPage(page) && page !in progress
  }

  /** The map after visiting `page` at time `now`. */
  function Visited(progress: ProgressMap, page: string, now: string): ProgressMap {
    if VisitAdds(progress, page) then progress[page := Entry(true, now, 0, 0)] else progress
  }

  /** A first visit to a lesson page adds exactly one entry, completed at the
      visit with no time and no score, and keeps every other entry. */
  lemma VisitCreatesOneEntry(progress: ProgressMap, page: string, now: string)
    requires VisitAdds(progress, page)
    ensures Visited(progress, page, now).Keys == progress.Keys + {page}
    ensures |Visited(progress, page, now)| == |progress| + 1
    ensures Visited(progress, page, now)[page] == Entry(true, now, 0, 0)
    ensures forall k :: k in progress ==> Visited(progress, page, now)[k] == progress[k]
  {
  }

  /** Revisiting a page, or visiting a page that is not a lesson page, leaves
      the map alone: no duplicate entry and no new `completedAt`. */
  lemma VisitOtherwiseNoOp(progress: ProgressMap, page: string, now: string)
    requires page in progress || page == [] || !(LessonPrefix <= page)
    ensures Visited(progress, page, now) == progress
  {
  }

  /** Visiting the same page again, at any later time, changes nothing. */
  lemma VisitIdempotent(progress: ProgressMap, page: string, now: string, later: string)
    ensures Visited(Visited(progress, page, now), page, later) == Visited(progress, page, now)
  {
  }

  // ----- Study-time tick (updateTime inside trackStudyTime) -----

  /** The map after one study-time tick on `page`. */
  function Ticked(progress: ProgressMap, page: string): (r: ProgressMap)
    ensures r.Keys == progress.Keys
    ensures forall k :: k in progress && k != page ==> r[k] == progress[k]
    ensures page != [] && page in progress ==>
      r[page] == progress[page].(timeSpent := progress[page].timeSpent + 1)
    ensures page == [] ==> r == progress
  {
    if page != [] && page in progress then
      progress[page := progress[page].(timeSpent := progress[page].timeSpent + 1)]
    else progress
  }

  // ----- Progress bar (updateProgressBar) -----

  /** The hard-coded lesson identifiers the progress bar counts; they lack the
      `.html` of the page names that visits record. */
  const LessonKeys: seq<string> := ["Network_Basics", "Network_Devices", "Network_Protocols", "Network_Security"]

  predicate Distinct(keys: seq<string>) {
    forall i, j :: 0 <= i < j < |keys| ==> keys[i] != keys[j]
  }

  predicate EndsWith(s: string, suffix: string) {
    |suffix| <= |s| && s[|s| - |suffix|..] == suffix
  }

  /** `keys.filter(k => progress[k]?.completed)`. */
  function CompletedAmong(keys: seq<string>, progress: ProgressMap): (done: seq<string>)
    ensures |done| <= |keys|
    ensures forall k :: k in done <==> k in keys && k in progress && progress[k].completed
  {
    if keys == [] then []
    else
      var rest := CompletedAmong(keys[1..], progress);
      if keys[0] in progress && progress[keys[0]].completed then [keys[0]] + rest else rest
  }

  /** The progress bar's figures: completed lessons, lessons in all, and the
      fill percentage `completed / total * 100`, which is exact for a total of
      four. */
  datatype ProgressBar = ProgressBar(done: nat, total: nat, percent: int)

  function Bar(progress: ProgressMap): (b: ProgressBar)
    ensures b.total == 4 && b.done <= b.total
    ensures b.done == |CompletedSet(LessonKeys, progress)|
    ensures b.percent == 25 * b.done
    ensures b.percent == 0 || b.percent == 25 || b.percent == 50 || b.percent == 75 || b.percent == 100
  {
    var done := CompletedAmong(LessonKeys, progress);
    assert Distinct(LessonKeys);
    CompletedCount(LessonKeys, progress);
    ProgressBar(|done|, |LessonKeys|, |done| * 100 / |LessonKeys|)
  }

  /** The keys among `keys` whose entry is marked completed. */
  function CompletedSet(keys: seq<string>, progress: ProgressMap): set<string> {
    set k | k in keys && k in progress && progress[k].completed
  }

  /** One completed lesson entry fills a quarter of the bar. */
  lemma OneLessonCompleted(now: string)
    ensures Bar(map["Network_Basics" := Entry(true, now, 0, 0)]) == ProgressBar(1, 4, 25)
  {
    var p := map["Network_Basics" := Entry(true, now, 0, 0)];
    assert CompletedSet(LessonKeys, p) == {"Network_Basics"} by {
      assert "Network_Basics" == LessonKeys[0];
    }
  }

  lemma DistinctTail(keys: seq<string>)
    requires keys != [] && Distinct(keys)
    ensures Distinct(keys[1..]) && keys[0] !in keys[1..]
  {
    forall i, j | 0 <= i < j < |keys[1..]| ensures keys[1..][i] != keys[1..][j] {
      assert keys[1..][i] == keys[i + 1] && keys[1..][j] == keys[j + 1];
    }
    forall i | 0 <= i < |keys[1..]| ensures keys[1..][i] != keys[0] {
      assert keys[1..][i] == keys[i + 1];
    }
  }

  /** Over a duplicate-free key list the filtered list names each completed
      key once, so its length is the number of completed keys. */
  lemma {:induction false} CompletedCount(keys: seq<string>, progress: ProgressMap)
    requires Distinct(keys)
    ensures |CompletedAmong(keys, progress)| == |CompletedSet(keys, progress)|
  {
    if keys == [] {
      assert CompletedSet(keys, progress) == {};
    } else {
      var rest := keys[1..];
      DistinctTail(keys);
      CompletedCount(rest, progress);
      var head := if keys[0] in progress && progress[keys[0]].completed then {keys[0]} else {};
      assert CompletedSet(keys, progress) == head + CompletedSet(rest, progress) by {
        assert keys == [keys[0]] + rest;
      }
      assert keys[0] !in CompletedSet(rest, progress);
    }
  }

  /** Writing an entry under a key outside `keys` does not change the count. */
  lemma {:induction false} CompletedIgnoresOtherKeys(keys: seq<string>, progress: ProgressMap, key: string, e: Entry)
    requires key !in keys
    ensures CompletedAmong(keys, progress[key := e]) == CompletedAmong(keys, progress)
  {
    if keys != [] {
      CompletedIgnoresOtherKeys(keys[1..], progress, key, e);
    }
  }

  /** Adding a completed entry under a fresh key raises the count by one when
      the key is one of `keys`, and leaves it otherwise. */
  lemma {:induction false} CompletedAfterAdding(keys: seq<string>, progress: ProgressMap, key: string, e: Entry)
    requires Distinct(keys) && key !in progress && e.completed
    ensures |CompletedAmong(keys, progress[key := e])| ==
            |CompletedAmong(keys, progress)| + (if key in keys then 1 else 0)
  {
    if keys != [] {
      DistinctTail(keys);
      if keys[0] == key {
        CompletedIgnoresOtherKeys(keys[1..], progress, key, e);
      } else {
        CompletedAfterAdding(keys[1..], progress, key, e);
      }
    }
  }

  /** A visit raises the completed count by one exactly when it records a
      first visit under one of the four literal lesson keys. */
  lemma VisitProgress(progress: ProgressMap, page: string, now: string)
    ensures Bar(Visited(progress, page, now)).done ==
            Bar(progress).done + (if VisitAdds(progress, page) && page in LessonKeys then 1 else 0)
  {
    if VisitAdds(progress, page) {
      CompletedAfterAdding(LessonKeys, progress, page, Entry(true, now, 0, 0));
    }
  }

  /** An entry stored under a `.html` page name, the names visits record, never
      counts towards the progress bar. */
  lemma HtmlEntriesNeverCount(progress: ProgressMap, key: string, e: Entry)
    requires EndsWith(key, ".html")
    ensures Bar(progress[key := e]) == Bar(progress)
  {
    assert key !in LessonKeys;
    CompletedIgnoresOtherKeys(LessonKeys, progress, key, e);
  }

  /** Hence a visit to a page named `Network_X.html` leaves the bar unchanged. */
  lemma HtmlVisitNeverCounts(progress: ProgressMap, page: string, now: string)
    requires EndsWith(page, ".html")
    ensures Bar(Visited(progress, page, now)) == Bar(progress)
  {
    if VisitAdds(progress, page) {
      HtmlEntriesNeverCount(progress, page, Entry(true, now, 0, 0));
    }
  }

  /** The study-time tick never changes the progress bar. */
  lemma TickKeepsBar(progress: ProgressMap, page: string)
    ensures Bar(Ticked(progress, page)) == Bar(progress)
  {
    if page != [] && page in progress {
      var e := progress[page];
      assert Ticked(progress, page) == progress[page := e.(timeSpent := e.timeSpent + 1)];
      TickKeepsCompleted(LessonKeys, progress, page, e.(timeSpent := e.timeSpent + 1));
    }
  }

  /** Rewriting an entry without touching its `completed` flag keeps the
      completed lessons. */
  lemma {:induction false} TickKeepsCompleted(keys: seq<string>, progress: ProgressMap, key: string, e: Entry)
    requires key in progress && e.completed == progress[key].completed
    ensures CompletedAmong(keys, progress[key := e]) == CompletedAmong(keys, progress)
  {
    if keys != [] {
      TickKeepsCompleted(keys[1..], progress, key, e);
    }
  }
}
