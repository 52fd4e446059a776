/** Pure helpers of the NetworkEducationApp controller: the page name taken
    from the URL path, the lesson-title table and the page dispatch table. */
module Pages {

  /** Everything after the last '/' of a path, the whole path when it holds no
      '/' (what `pathname.split('/').pop()` returns). */
  function LastSegment(path: string): string {
    if path == [] || path[|path| - 1] == '/' then []
    else LastSegment(path[..|path| - 1]) + [path[|path| - 1]]
  }

  /** The page name is a suffix of the path holding no '/', and it is the
      whole path or directly follows a '/'. */
  lemma {:induction false} LastSegmentSpec(path: string)
    ensures var r := LastSegment(path);
      && |r| <= |path| && r == path[|path| - |r|..]
      && '/' !in r
      && (|r| == |path| || path[|path| - |r| - 1] == '/')
  {
    if path != [] && path[|path| - 1] != '/' {
      var init := path[..|path| - 1];
      LastSegmentSpec(init);
      var r' := LastSegment(init);
      assert path[|path| - |r'| - 1..] == init[|init| - |r'|..] + [path[|path| - 1]];
      assert |r'| < |init| ==> path[|path| - |r'| - 2] == init[|init| - |r'| - 1];
    }
  }

  /** A page served from any directory is known by its file name. */
  lemma LastSegmentOfJoin(dir: string, name: string)
    requires '/' !in name
    ensures LastSegment(dir + "/" + name) == name
  {
    var path := dir + "/" + name;
    LastSegmentSpec(path);
    assert path[|path| - |name| - 1] == '/';
    assert path[|path| - |name|..] == name;
  }

  /** Arabic lesson titles keyed by page file name. */
  const Titles: map<string, string> := map[
    "Network_Basics.html" := "أساسيات الشبكات",
    "Network_Devices.html" := "أجهزة الشبكات",
    "Network_Protocols.html" := "بروتوكولات الشبكات",
    "Network_Security.html" := "أمن الشبكات"
  ]

  /** The title used for any page missing from `Titles` ("the page"). */
  const DefaultTitle: string := "الصفحة"

  /** The title of a page, or the default title. */
  function PageTitle(page: string): (t: string)
    ensures t != []
    ensures t == DefaultTitle <==> page !in Titles
    ensures page in Titles ==> t == Titles[page]
  {
    if page in Titles then Titles[page] else DefaultTitle
  }

  /** The page-specific feature set chosen by file name; `Other` means no
      page-specific setup runs. */
  datatype PageKind = Home | Basics | Devices | Protocols | Security | Auth | Other

  predicate IsLessonKind(k: PageKind) {
    k == Basics || k == Devices || k == Protocols || k == Security
  }

  function Dispatch(page: string): (k: PageKind)
  {
    if page == "Home_Network.html" then Home
    else if page == "Network_Basics.html" then Basics
    else if page == "Network_Devices.html" then Devices
    else if page == "Network_Protocols.html" then Protocols
    else if page == "Network_Security.html" then Security
    else if page == "Login_to.html" || page == "Single_up.html" then Auth
    else Other
  }

  /** The dispatch table and the title table recognise the same lesson pages:
      a page gets lesson-specific features exactly when it has a title. */
  lemma DispatchAgreesWithTitles(page: string)
    ensures IsLessonKind(Dispatch(page)) <==> page in Titles
    ensures IsLessonKind(Dispatch(page)) ==> PageTitle(page) != DefaultTitle
  {
  }

  /** Every titled lesson page is eligible for visit-based completion. */
  lemma TitledPagesAreLessonNamed(page: string)
    requires page in Titles
    ensures "Network_" <= page
  {
  }

  /** Each page name dispatches to at most one feature set, and the two
      authentication pages are the only names sharing one. */
  lemma DispatchInjectiveOutsideAuth(p: string, q: string)
    requires Dispatch(p) == Dispatch(q) && Dispatch(p) != Other && Dispatch(p) != Auth
    ensures p == q
  {
  }
}
