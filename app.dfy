/** The state-keeping part of the NetworkEducationApp controller: loading the
    user state from local storage, visit-based completion, the study-time
    tick and the theme toggle. The page's URL path, the clock reading used for
    `completedAt` and whether storage writes succeed are given from outside. */
module NetworkApp {
  import opened Pages
  import opened Progress

  /** The `currentUser` document, which this layer loads and never reads. */
  type User = string

  /** Local storage under the three keys the controller uses. */
  datatype Storage = Storage(
    currentUser: Slot<User>,
    learningProgress: Slot<ProgressMap>,
    appSettings: Slot<Settings>)

  /** Storage after `saveToStorage('learningProgress', progress)`; a failed
      write is swallowed and leaves storage as it was. */
  function StoreProgress(st: Storage, writable: bool, progress: ProgressMap): Storage {
    if writable then st.(learningProgress := Encoded(progress)) else st
  }

  /** Storage after `saveToStorage('appSettings', settings)`. */
  function StoreSettings(st: Storage, writable: bool, settings: Settings): Storage {
    if writable then st.(appSettings := Encoded(settings)) else st
  }

  /** The toast text announcing a completed lesson. */
  function AchievementMessage(title: string): string {
    "\U{1F389} أكملت درس " + title + "!"
  }

  /** The `theme` setting that names a state of the `dark-theme` body class. */
  function ThemeName(dark: bool): string {
    if dark then "dark" else "light"
  }

  /** The settings `toggleTheme` writes when the body was dark or not before. */
  function ToggledSettings(wasDark: bool, settings: Settings): (s: Settings)
    ensures s.theme == "dark" <==> !wasDark
  {
    settings.(theme := ThemeName(!wasDark))
  }

  /** Two toggles in a row restore the body class and leave the theme naming
      it; they restore the settings exactly when the stored theme named the
      body class before. */
  lemma ToggleTwice(dark: bool, settings: Settings)
    ensures ToggledSettings(!dark, ToggledSettings(dark, settings)).theme == ThemeName(dark)
    ensures ToggledSettings(!dark, ToggledSettings(dark, settings)) == settings <==> settings.theme == ThemeName(dark)
  {
  }

  class App {
    const pathname: string
    /** `getCurrentPageName`: the path does not change while the page is
        open, so its last segment is taken once. */
    const pageName: string
    const storageWritable: bool
    var currentUser: Parsed<User>
    var learningProgress: ProgressMap
    var settings: Settings
    /** Whether the body carries the `dark-theme` class. */
    var dark: bool
    var storage: Storage
    /** The achievement toasts shown so far, oldest first. */
    var achievements: seq<string>

    /** `new NetworkEducationApp()`: the fields start empty and `loadUserData`
        runs at once, since it reaches no `await` before it returns. */
    constructor (pathname: string, storage: Storage, storageWritable: bool, bodyDark: bool, now: string)
      ensures this.pathname == pathname && pageName == LastSegment(pathname)
      ensures this.storageWritable == storageWritable && dark == bodyDark
      ensures currentUser == GetFromStorage(storage.currentUser)
      ensures settings == LoadSettings(storage.appSettings)
      ensures learningProgress == Visited(LoadProgress(storage.learningProgress), pageName, now)
      ensures if VisitAdds(LoadProgress(storage.learningProgress), pageName) then
          this.storage == StoreProgress(storage, storageWritable, learningProgress) &&
          achievements == [AchievementMessage(PageTitle(pageName))]
        else this.storage == storage && achievements == []
    {
      this.pathname := pathname;
      pageName := LastSegment(pathname);
      this.storageWritable := storageWritable;
      this.storage := storage;
      currentUser := Null;
      learningProgress := map[];
      settings := DefaultSettings();
      dark := bodyDark;
      achievements := [];
      new;
      LoadUserData(now);
    }

    /** `loadUserData`: read the three documents, falling back to an empty map
        and the default settings, then record a visit to the current page. */
    method LoadUserData(now: string)
      modifies this`currentUser, this`learningProgress, this`settings, this`storage, this`achievements
      ensures currentUser == GetFromStorage(old(storage).currentUser)
      ensures settings == LoadSettings(old(storage).appSettings)
      ensures learningProgress == Visited(LoadProgress(old(storage).learningProgress), pageName, now)
      ensures if VisitAdds(LoadProgress(old(storage).learningProgress), pageName) then
          storage == StoreProgress(old(storage), storageWritable, learningProgress) &&
          achievements == old(achievements) + [AchievementMessage(PageTitle(pageName))]
        else storage == old(storage) && achievements == old(achievements)
    {
      currentUser := GetFromStorage(storage.currentUser);
      learningProgress := LoadProgress(storage.learningProgress);
      settings := LoadSettings(storage.appSettings);
      UpdateLearningProgress(now);
    }

    /** `updateLearningProgress`: the first visit to a lesson page records it as
        completed at `now`, saves the whole map and shows a toast. */
    method UpdateLearningProgress(now: string)
      modifies this`learningProgress, this`storage, this`achievements
      ensures learningProgress == Visited(old(learningProgress), pageName, now)
      ensures if VisitAdds(old(learningProgress), pageName) then
          storage == StoreProgress(old(storage), storageWritable, learningProgress) &&
          achievements == old(achievements) + [AchievementMessage(PageTitle(pageName))]
        else storage == old(storage) && achievements == old(achievements)
    {
      if VisitAdds(learningProgress, pageName) {
        learningProgress := learningProgress[pageName := Entry(true, now, 0, 0)];
        SaveProgress();
        achievements := achievements + [AchievementMessage(PageTitle(pageName))];
      }
    }

    /** `updateTime`, run once a minute: one more minute on the current page's
        entry, if it has one. The map is not saved. */
    method UpdateTime()
      modifies this`learningProgress
      ensures learningProgress == Ticked(old(learningProgress), pageName)
    {
      if pageName != [] && pageName in learningProgress {
        var e := learningProgress[pageName];
        learningProgress := learningProgress[pageName := e.(timeSpent := e.timeSpent + 1)];
      }
    }

    /** `toggleTheme`: flip the body class, name the new state in the theme
        setting and save the settings. */
    method ToggleTheme()
      modifies this`dark, this`settings, this`storage
      ensures dark == !old(dark)
      ensures settings == ToggledSettings(old(dark), old(settings))
      ensures settings.theme == "dark" <==> dark
      ensures storage == StoreSettings(old(storage), storageWritable, settings)
    {
      dark := !dark;
      settings := settings.(theme := if dark then "dark" else "light");
      SaveSettings();
    }

    method SaveProgress()
      modifies this`storage
      ensures storage == StoreProgress(old(storage), storageWritable, learningProgress)
    {
      if storageWritable {
        storage := storage.(learningProgress := Encoded(learningProgress));
      }
    }

    method SaveSettings()
      modifies this`storage
      ensures storage == StoreSettings(old(storage), storageWritable, settings)
    {
      if storageWritable {
        storage := storage.(appSettings := Encoded(settings));
      }
    }
  }

  /** A first page load on empty storage at a lesson page: the map holds the
      one completed visit under the page's file name, the settings are the
      defaults, one toast names the lesson, and the progress bar, which counts
      keys without `.html`, still shows no lesson completed. */
  method FirstVisitOnEmptyStorage(now: string) returns (progress: ProgressMap, settings: Settings, toasts: seq<string>, bar: ProgressBar)
    ensures progress == map["Network_Basics.html" := Entry(true, now, 0, 0)]
    ensures settings == Settings("light", "ar", true, true, "medium", "auto")
    ensures toasts == [AchievementMessage("أساسيات الشبكات")]
    ensures bar == Bar(progress) && bar.total == 4
    ensures bar.done == 0 && bar.percent == 0
  {
    var page := "Network_Basics.html";
    LastSegmentOfJoin("/WECN", page);
    assert LessonPrefix <= page;
    var storage := Storage(Absent, Absent, Absent);
    LoadFallsBackToDefaults(storage.learningProgress, storage.appSettings);
    var app := new App("/WECN" + "/" + page, storage, true, false, now);
    assert app.pageName == page;
    progress, settings, toasts := app.learningProgress, app.settings, app.achievements;
    HtmlVisitNeverCounts(map[], page, now);
    bar := Bar(progress);
  }
}
