/** The project gallery page: the project table with its generated image
    paths, the category tabs and the filtered list, the project modal with
    its image grid, and the full-screen image viewer with wheel zoom. The
    Escape key closes the viewer before the modal. */
module ProjectList {
  import opened Js

  // ----- image paths -----

  /** The directory part of every image path of a project. */
  function Dir(folder: string, prefix: string): string {
    "/Portfolio - webp/" + folder + "/" + prefix
  }

  /** `path` is `dir`, then a digit string whose value is `k`, then ".webp". */
  predicate NamesImage(path: string, dir: string, k: nat) {
    |path| > |dir| + 5 && path[..|dir|] == dir && path[|path| - 5..] == ".webp"
    && var num := path[|dir|..|path| - 5];
       (forall i :: 0 <= i < |num| ==> IsDigit(num[i])) && ParseDecimal(num) == k
  }

  /** The number in an image's file name: `String(n)`, left-padded with
      zeros to two digits when `pad` is set. */
  function ImageNumber(n: nat, pad: bool): (s: string)
    ensures |s| >= 1 && forall i :: 0 <= i < |s| ==> IsDigit(s[i])
    ensures ParseDecimal(s) == n
    ensures pad ==> |s| == if n < 10 then 2 else |DecimalString(n)|
    ensures !pad ==> |s| == |DecimalString(n)|
    ensures !pad && n > 0 ==> s[0] != '0'
  {
    DecimalRoundTrip(n);
    TwoDigitsRoundTrip(n);
    if pad then TwoDigits(n) else DecimalString(n)
  }

  /** The path of image number `n`. */
  function ImagePath(folder: string, prefix: string, n: nat, pad: bool): (path: string)
    ensures NamesImage(path, Dir(folder, prefix), n)
    ensures pad ==> |path| == |Dir(folder, prefix)| + 5 + (if n < 10 then 2 else |DecimalString(n)|)
    ensures !pad && n > 0 ==> path[|Dir(folder, prefix)|] != '0'
  {
    var dir := Dir(folder, prefix);
    var num := ImageNumber(n, pad);
    var path := dir + num + ".webp";
    assert path[..|dir|] == dir && path[|path| - 5..] == ".webp";
    assert path[|dir|..|path| - 5] == num;
    path
  }

  /** `getImages(folder, prefix, count, pad)`: `count` paths, the i-th
      naming image i + 1, the numbers padded to two digits when `pad` is
      set and without leading zero otherwise. */
  function GetImages(folder: string, prefix: string, count: nat, pad: bool): (r: seq<string>)
    ensures |r| == count
    ensures forall i :: 0 <= i < count ==> NamesImage(r[i], Dir(folder, prefix), i + 1)
    ensures pad ==> forall i :: 0 <= i < count ==>
      |r[i]| == |Dir(folder, prefix)| + 5 + (if i + 1 < 10 then 2 else |DecimalString(i + 1)|)
    ensures !pad ==> forall i :: 0 <= i < count ==> |r[i]| > |Dir(folder, prefix)| && r[i][|Dir(folder, prefix)|] != '0'
  {
    seq(count, i requires 0 <= i < count => ImagePath(folder, prefix, i + 1, pad))
  }

  /** The paths of a project are pairwise different, so each image of the
      gallery is a different file. */
  lemma ImagesDistinct(folder: string, prefix: string, count: nat, pad: bool, i: nat, j: nat)
    requires i < j < count
    ensures GetImages(folder, prefix, count, pad)[i] != GetImages(folder, prefix, count, pad)[j]
  {
    var r := GetImages(folder, prefix, count, pad);
    assert NamesImage(r[i], Dir(folder, prefix), i + 1);
    assert NamesImage(r[j], Dir(folder, prefix), j + 1);
  }

  // ----- the project table -----

  datatype Category = UiUx | EventSlides | Socials | Academics

  /** The category's name, as stored in the table and shown on its tab. */
  function Label(c: Category): (s: string)
    ensures s != "All"
  {
    match c
    case UiUx => "UI/UX"
    case EventSlides => "Event Slides"
    case Socials => "Socials"
    case Academics => "Academics"
  }

  /** Different categories have different names. */
  lemma LabelInjective(a: Category, b: Category)
    ensures Label(a) == Label(b) <==> a == b
  {
  }

  /** The tabs, in display order. */
  const Categories: seq<string> := ["All", "UI/UX", "Event Slides", "Socials", "Academics"]

  /** Every category has its tab, after "All". */
  lemma EveryCategoryHasTab(c: Category)
    ensures 1 <= IndexOf(Categories, Label(c)) < |Categories|
  {
    match c
    case UiUx => assert Categories[1] == Label(c);
    case EventSlides => assert Categories[2] == Label(c);
    case Socials => assert Categories[3] == Label(c);
    case Academics => assert Categories[4] == Label(c);
  }

  /** Where a project's images live and how they are numbered. */
  datatype Gallery = Gallery(folder: string, prefix: string, count: nat, pad: bool)

  datatype Project = Project(id: int, title: string, category: Category, gallery: Gallery)

  /** A project's images. */
  function Images(p: Project): (r: seq<string>)
    ensures |r| == p.gallery.count
  {
    GetImages(p.gallery.folder, p.gallery.prefix, p.gallery.count, p.gallery.pad)
  }

  const Projects: seq<Project> := [
    Project(1, "ACES DOTA 2 Postings", Socials,
      Gallery("ACES DOTA 2 Postings", "ACES DOTA 2 Postings_compress-page", 12, true)),
    Project(2, "BAHAGHARI Vivant GA", EventSlides,
      Gallery("BAHAGHARI Vivant - General Assembly Presentation Slides",
              "BAHAGHARI Vivant - General Assembly Presentation Slides_page", 33, false)),
    Project(3, "CSSEC Recruitment", Socials,
      Gallery("CSSEC Committee Recruitment", "CSSEC Committee Recruitment_compress-page", 9, true)),
    Project(4, "Gender & Dev E-Magazine", Academics,
      Gallery("Gender and Development E-Magazine", "Gender and Development E-Magazine-page", 11, true)),
    Project(5, "Lead Series: Day 1", EventSlides,
      Gallery("Lead Series Presentation Slides - Day 1",
              "Lead Series Presentation Slides - Day 3 Part 1_page", 95, false)),
    Project(6, "Palaro 2025 PubMats", Socials,
      Gallery("Palaro 2025 Recruitment Boosting PubMats", "Palaro 2025 Recruitment Boosting PubMats_page", 9, false)),
    Project(7, "Payment Tracker App", UiUx,
      Gallery("Payment Tracker - High Fidelity Wireframes", "Payment Tracker - High Fidelity Wireframe_page", 14, false)),
    Project(8, "TESDA Website Revamp", UiUx,
      Gallery("TESDA Website Revamped - High Fidelity Wireframes",
              "TESDA Website Revamped - High Fidelity Wireframe-page", 13, true)),
    Project(9, "White Teeth Clinic", UiUx,
      Gallery("White Teeth Dental Clinic Main  Modules - High Fidelity Wireframes",
              "White Teeth Dental Clinic Main Modules - High-Fidelity Wireframe_page", 5, false)),
    Project(10, "Volleyball Brochure", Academics,
      Gallery("PE 2237 - Volleyball Brochure", "PE 2237 - Volleyball Brochure_page", 2, false))]

  /** The ids are 1 to 10 in table order, hence unique. */
  lemma ProjectIds()
    ensures |Projects| == 10
    ensures forall i :: 0 <= i < |Projects| ==> Projects[i].id == i + 1
    ensures forall i, j :: 0 <= i < j < |Projects| ==> Projects[i].id != Projects[j].id
  {
  }

  // ----- filtering -----

  /** Whether a project belongs to a category. */
  function InCategory(c: Category): (keep: Project -> bool)
    ensures forall p :: keep(p) <==> p.category == c
  {
    (p: Project) => p.category == c
  }

  /** `filteredProjects`: every project on "All", otherwise those whose
      category name equals the tab, in table order. */
  function Filtered(tab: string): (r: seq<Project>)
    ensures tab == "All" ==> r == Projects
    ensures IsSubsequence(r, Projects)
    ensures tab != "All" ==> forall p :: p in Projects ==> (p in r <==> Label(p.category) == tab)
  {
    if tab == "All" then
      assert IsSubsequence(Projects, Projects) by { SubsequenceOfSelf(Projects); }
      Projects
    else
      var keep: Project -> bool := (p: Project) => Label(p.category) == tab;
      FilterIsSubsequence(Projects, keep);
      FilterMembers(Projects, keep);
      Filter(Projects, keep)
  }

  lemma {:induction false} SubsequenceOfSelf<T>(xs: seq<T>)
    ensures IsSubsequence(xs, xs)
    decreases |xs|
  {
    if xs != [] {
      SubsequenceOfSelf(xs[1..]);
    }
  }

  /** A category's tab lists exactly that category's projects. */
  lemma TabIsCategory(c: Category)
    ensures Filtered(Label(c)) == Filter(Projects, InCategory(c))
  {
    forall p | p in Projects
      ensures (Label(p.category) == Label(c)) == InCategory(c)(p)
    {
      LabelInjective(p.category, c);
    }
    FilterCongruent(Projects, (p: Project) => Label(p.category) == Label(c), InCategory(c));
  }

  /** The four category filters split any list of projects: the counts add
      up to its length. */
  lemma {:induction false} CategoriesPartition(xs: seq<Project>)
    ensures |Filter(xs, InCategory(UiUx))| + |Filter(xs, InCategory(EventSlides))|
      + |Filter(xs, InCategory(Socials))| + |Filter(xs, InCategory(Academics))| == |xs|
    decreases |xs|
  {
    if xs != [] {
      CategoriesPartition(xs[1..]);
    }
  }

  /** On the table each project is on exactly the tab of its category. */
  lemma ProjectOnItsTab(p: Project, c: Category)
    requires p in Projects
    ensures p in Filtered(Label(c)) <==> p.category == c
  {
    LabelInjective(p.category, c);
  }

  /** The four category tabs together list all ten projects. */
  lemma CategoryTabsPartition()
    ensures |Filtered(Label(UiUx))| + |Filtered(Label(EventSlides))|
      + |Filtered(Label(Socials))| + |Filtered(Label(Academics))| == |Projects|
  {
    TabIsCategory(UiUx);
    TabIsCategory(EventSlides);
    TabIsCategory(Socials);
    TabIsCategory(Academics);
    CategoriesPartition(Projects);
  }

  /** `projects.find(p => p.id === id)`. */
  function Find(xs: seq<Project>, id: int): (r: Option<Project>)
    ensures r.Some? ==> r.value in xs && r.value.id == id
    ensures r.None? <==> forall p :: p in xs ==> p.id != id
    ensures r.Some? ==> exists i :: 0 <= i < |xs| && xs[i] == r.value && forall j :: 0 <= j < i ==> xs[j].id != id
  {
    if xs == [] then None
    else if xs[0].id == id then Some(xs[0])
    else Find(xs[1..], id)
  }

  /** The ids 1 to 10 find their project; every other id finds nothing. */
  lemma FindById(id: int)
    ensures 1 <= id <= 10 ==> Find(Projects, id) == Some(Projects[id - 1])
    ensures (id < 1 || id > 10) ==> Find(Projects, id) == None
  {
    ProjectIds();
  }

  // ----- gallery and viewer -----

  /** The column span of a gallery image out of 12. */
  function GridSize(count: nat): (span: nat)
    ensures span == 12 || span == 6 || span == 4
  {
    if count <= 1 then 12 else if count == 2 then 6 else 4
  }

  /** A gallery of up to three images fills exactly one row; larger ones
      are laid out three to a row. */
  lemma GalleryRows(count: nat)
    ensures 1 <= count <= 3 ==> count * GridSize(count) == 12
    ensures count >= 3 ==> 12 / GridSize(count) == 3
  {
  }

  /** The full-screen viewer: the image shown, if any, and the zoom. */
  datatype Viewer = Viewer(image: Option<string>, scale: real)

  /** Setting the viewer's image; the zoom resets to 1 whenever the image
      changes. */
  function ShowImage(v: Viewer, image: Option<string>): (r: Viewer)
    ensures r.image == image
    ensures image != v.image ==> r.scale == 1.0
    ensures image == v.image ==> r == v
  {
    if image != v.image then Viewer(image, 1.0) else v
  }

  /** A wheel step: `min(max(1, scale + deltaY * -0.001), 3)`. */
  function Zoom(scale: real, deltaY: real): (r: real)
    ensures 1.0 <= r <= 3.0
  {
    var s := scale + deltaY * -0.001;
    var lo := if s > 1.0 then s else 1.0;
    if lo < 3.0 then lo else 3.0
  }

  /** Zoom is the clamp of the wheel's target to [1, 3]: inside the range
      it is the target, below it 1, above it 3; and scrolling further down
      never zooms in. */
  lemma ZoomIsClamp(scale: real, deltaY: real, deltaY': real)
    ensures var t := scale - deltaY / 1000.0;
      (1.0 <= t <= 3.0 ==> Zoom(scale, deltaY) == t)
      && (t < 1.0 ==> Zoom(scale, deltaY) == 1.0)
      && (t > 3.0 ==> Zoom(scale, deltaY) == 3.0)
    ensures deltaY <= deltaY' ==> Zoom(scale, deltaY') <= Zoom(scale, deltaY)
  {
  }

  // ----- page state -----

  /** The page's state: the selected tab, the selected project's id and the viewer. */
  datatype Page = Page(tab: string, selected: Option<int>, viewer: Viewer)

  /** The page as first rendered: all projects, nothing open. */
  const InitialPage: Page := Page("All", None, Viewer(None, 1.0))

  /** Whether the modal is shown: a truthy id that a project has. */
  predicate ModalShown(s: Page) {
    TruthyInt(s.selected) && Find(Projects, s.selected.value).Some?
  }

  /** Whether the viewer is shown: a non-empty image. */
  predicate ViewerShown(s: Page) {
    TruthyString(s.viewer.image)
  }

  /** The Escape key: closes the viewer if it is shown, and otherwise
      clears the selected project if there is one. */
  function Escape(s: Page): (r: Page)
    ensures ViewerShown(s) ==> !ViewerShown(r) && r.selected == s.selected && r.tab == s.tab
    ensures !ViewerShown(s) && TruthyInt(s.selected) ==> r == s.(selected := None)
    ensures !ViewerShown(s) && !TruthyInt(s.selected) ==> r == s
  {
    if TruthyString(s.viewer.image) then s.(viewer := ShowImage(s.viewer, None))
    else if TruthyInt(s.selected) then s.(selected := None)
    else s
  }

  /** With both the viewer and the modal shown, one Escape closes only the
      viewer and a second one the modal. */
  lemma EscapeClosesViewerFirst(s: Page)
    requires ViewerShown(s) && ModalShown(s)
    ensures ModalShown(Escape(s)) && !ViewerShown(Escape(s))
    ensures !ModalShown(Escape(Escape(s))) && !ViewerShown(Escape(Escape(s)))
  {
  }

  /** The events of the page. Tab buttons exist for the categories only,
      and the wheel reaches the viewer only while it is shown. */
  datatype Event =
    | TabClick(index: nat)
    | SelectProject(id: int)
    | CloseProject
    | OpenImage(image: string)
    | CloseImage
    | EscapeKey
    | Wheel(deltaY: real)

  /** Clicking a tab selects it; clicking the selected one changes nothing. */
  function ClickTab(s: Page, cat: string): (r: Page)
    ensures r.tab == cat && r.selected == s.selected && r.viewer == s.viewer
    ensures cat == s.tab ==> r == s
  {
    if s.tab != cat then s.(tab := cat) else s
  }

  function Next(s: Page, e: Event): (r: Page)
    ensures !e.TabClick? ==> r.tab == s.tab
    ensures e.TabClick? && e.index < |Categories| ==> r.tab == Categories[e.index]
    ensures e.SelectProject? ==> r.selected == Some(e.id) && r.viewer == s.viewer
    ensures e.CloseProject? ==> r.selected == None && r.viewer == s.viewer
    ensures e.CloseImage? ==> !ViewerShown(r) && r.selected == s.selected
    ensures e.Wheel? && !ViewerShown(s) ==> r == s
  {
    match e
    case TabClick(i) => if i < |Categories| then ClickTab(s, Categories[i]) else s
    case SelectProject(id) => s.(selected := Some(id))
    case CloseProject => s.(selected := None)
    case OpenImage(img) => s.(viewer := ShowImage(s.viewer, Some(img)))
    case CloseImage => s.(viewer := ShowImage(s.viewer, None))
    case EscapeKey => Escape(s)
    case Wheel(d) =>
      if TruthyString(s.viewer.image) then s.(viewer := s.viewer.(scale := Zoom(s.viewer.scale, d)))
      else s
  }

  /** What holds of every reachable page: the tab is one of the tabs and
      the zoom lies in [1, 3]. */
  predicate Valid(s: Page) {
    s.tab in Categories && 1.0 <= s.viewer.scale <= 3.0
  }

  lemma InitialValid()
    ensures Valid(InitialPage)
  {
  }

  lemma NextValid(s: Page, e: Event)
    requires Valid(s)
    ensures Valid(Next(s, e))
  {
  }

  /** `categories.indexOf(activeTab)`: where the tab pill sits. On a valid
      page it is the selected tab's position, and after a click on tab i it
      is i. */
  function PillIndex(s: Page): (i: int)
    ensures s.tab in Categories ==> 0 <= i < |Categories| && Categories[i] == s.tab
  {
    IndexOf(Categories, s.tab)
  }

  lemma PillFollowsClick(s: Page, i: nat)
    requires i < |Categories|
    ensures PillIndex(Next(s, TabClick(i))) == i
  {
    CategoriesDistinct(i);
  }

  /** No tab name occurs before its own position. */
  lemma CategoriesDistinct(i: nat)
    requires i < |Categories|
    ensures Categories[i] !in Categories[..i]
  {
    var keys := "AUESA";
    var seconds := "lIvoc";
    assert forall k :: 0 <= k < |Categories| ==> Categories[k][0] == keys[k] && Categories[k][1] == seconds[k];
  }
}
