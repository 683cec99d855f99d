/** The CV page: a bar of five tabs with a selected tab and a hovered tab,
    the content section chosen by the selected tab, the connector line of
    each timeline entry, and the pills of the skills section. */
module Cv {
  import opened Js

  datatype Tab = Education | Affiliations | Awards | Experience | Skills

  /** `tabs`, in display order. */
  function Tabs(): (tabs: seq<Tab>)
    ensures |tabs| == 5
    ensures forall i, j :: 0 <= i < j < |tabs| ==> tabs[i] != tabs[j]
  {
    [Education, Affiliations, Awards, Experience, Skills]
  }

  /** Every tab is in the bar. */
  lemma EveryTabListed(t: Tab)
    ensures t in Tabs()
  {
    var tabs := Tabs();
    match t
    case Education => assert tabs[0] == t;
    case Affiliations => assert tabs[1] == t;
    case Awards => assert tabs[2] == t;
    case Experience => assert tabs[3] == t;
    case Skills => assert tabs[4] == t;
  }

  /** The tab bar's state: the selected tab and the hovered one, if any. */
  datatype TabBar = TabBar(active: Tab, hovered: Option<Tab>)

  /** The page opens on Education with nothing hovered. */
  const InitialTabBar: TabBar := TabBar(Education, None)

  /** Clicking a tab: only a different tab changes the selection. */
  function ClickTab(st: TabBar, t: Tab): (r: TabBar)
    ensures r.active == t && r.hovered == st.hovered
    ensures t == st.active ==> r == st
  {
    if st.active != t then st.(active := t) else st
  }

  /** Entering a tab with the mouse marks it hovered. */
  function EnterTab(st: TabBar, t: Tab): (r: TabBar)
    ensures r.active == st.active && r.hovered == Some(t)
  {
    st.(hovered := Some(t))
  }

  /** Leaving the whole tab bar clears the hover. */
  function LeaveBar(st: TabBar): (r: TabBar)
    ensures r.active == st.active && r.hovered == None
  {
    st.(hovered := None)
  }

  /** The hover pill is drawn behind a tab that is hovered but not selected. */
  predicate HoverPill(st: TabBar, t: Tab) {
    st.hovered == Some(t) && st.active != t
  }

  /** The hover pill is drawn behind at most one tab, never the selected
      one, and never after the pointer leaves the bar. */
  lemma HoverPillAtMostOne(st: TabBar, t: Tab, u: Tab)
    ensures HoverPill(st, t) && HoverPill(st, u) ==> t == u
    ensures !HoverPill(st, st.active)
    ensures !HoverPill(LeaveBar(st), t)
  {
  }

  /** Clicking the hovered tab selects it and so removes its hover pill,
      while it stays hovered. */
  lemma ClickRemovesHoverPill(st: TabBar, t: Tab)
    requires HoverPill(st, t)
    ensures !HoverPill(ClickTab(st, t), t) && ClickTab(st, t).hovered == Some(t)
  {
  }

  /** Where the selection pill sits: `tabs.indexOf(activeTab)`. */
  function PillIndex(st: TabBar): (i: int)
    ensures 0 <= i < |Tabs()| && Tabs()[i] == st.active
  {
    EveryTabListed(st.active);
    IndexOf(Tabs(), st.active)
  }

  /** The pill moves exactly when the selection does. */
  lemma PillFollowsSelection(st: TabBar, t: Tab)
    ensures PillIndex(ClickTab(st, t)) == PillIndex(st) <==> t == st.active
  {
    var i := PillIndex(st);
    var j := PillIndex(ClickTab(st, t));
    assert Tabs()[i] == st.active && Tabs()[j] == t;
  }

  // ----- content -----

  /** The sections the content area can show. */
  datatype Section = ExperienceTimeline | AffiliationTimeline | EducationTimeline
                   | AwardTimeline | SkillsGrid

  /** Each section is guarded by its own test on the selected tab; the
      rendered sections are those whose guard holds. */
  function Rendered(active: Tab): (r: seq<Section>)
    ensures r == [SectionFor(active)]
  {
    (if active == Experience then [ExperienceTimeline] else [])
    + (if active == Affiliations then [AffiliationTimeline] else [])
    + (if active == Education then [EducationTimeline] else [])
    + (if active == Awards then [AwardTimeline] else [])
    + (if active == Skills then [SkillsGrid] else [])
  }

  /** The section each tab stands for. */
  function SectionFor(t: Tab): Section {
    match t
    case Education => EducationTimeline
    case Affiliations => AffiliationTimeline
    case Awards => AwardTimeline
    case Experience => ExperienceTimeline
    case Skills => SkillsGrid
  }

  /** Different tabs show different sections, so every section is reached
      from exactly one tab. */
  lemma RenderedIsInjective(a: Tab, b: Tab)
    ensures Rendered(a) == Rendered(b) <==> a == b
  {
    if a != b {
      assert Rendered(a)[0] != Rendered(b)[0];
    }
  }

  /** The number of entries in each timeline. */
  function TimelineLength(s: Section): (n: nat)
    ensures s.SkillsGrid? <==> n == 0
  {
    match s
    case ExperienceTimeline => 8
    case AffiliationTimeline => 9
    case EducationTimeline => 3
    case AwardTimeline => 2
    case SkillsGrid => 0
  }

  // ----- timeline connector geometry -----

  /** Where an entry's vertical line ends: 16px below where it starts
      (`height: 16px`), or at the entry's bottom edge. */
  datatype LineEnd = Height16 | Bottom

  /** The vertical line of one entry: its top offset in px and its end. */
  datatype Connector = Connector(top: nat, end: LineEnd)

  /** Entry i of n: the first starts at its marker's centre (16px), the
      others at the top; the last is 16px tall, the others run to the
      bottom to meet the next entry. */
  function ConnectorOf(i: nat, n: nat): (c: Connector)
    requires i < n
    ensures c.top == 16 <==> i == 0
    ensures c.top == 0 <==> i != 0
    ensures c.end == Height16 <==> i == n - 1
  {
    var isFirst := i == 0;
    var isLast := i == n - 1;
    Connector(if isFirst then 16 else 0, if isLast then Height16 else Bottom)
  }

  /** The stretch of an entry a line covers, in px from the entry's top:
      a fixed span, or from an offset down to the bottom edge. */
  datatype Extent = Span(from: nat, to: nat) | ToBottom(from: nat)

  function ExtentOf(c: Connector): (e: Extent)
    ensures e.from == c.top
    ensures e.Span? <==> c.end == Height16
    ensures e.Span? ==> e.to == c.top + 16
  {
    match c.end
    case Height16 => Span(c.top, c.top + 16)
    case Bottom => ToBottom(c.top)
  }

  /** Consecutive entries join: every entry but the last runs to its
      bottom and every entry but the first starts at its top, so the line
      is unbroken from the first marker to the last. */
  lemma ConnectorsJoin(n: nat, i: nat)
    requires i + 1 < n
    ensures ConnectorOf(i, n).end == Bottom && ConnectorOf(i + 1, n).top == 0
  {
  }

  /** In a timeline of two or more entries the line stops at the last
      marker's centre, 16px below that entry's top. */
  lemma LastStopsAtCentre(n: nat)
    requires n >= 2
    ensures ExtentOf(ConnectorOf(n - 1, n)) == Span(0, 16)
  {
  }

  /** A one-entry timeline is first and last at once: its line starts at
      the marker's centre and runs 16px further down, to 32px. Every
      timeline of the page has at least two entries. */
  lemma SingleEntryStub()
    ensures ExtentOf(ConnectorOf(0, 1)) == Span(16, 32)
  {
  }

  // ----- skills -----

  const Technical: seq<string> := ["Frontend Development", "UI/UX Design", "Quality Assurance"]
  const Tools: seq<string> :=
    ["Microsoft Office", "Google Workspace", "Canva", "Figma", "Github", "OBS Studio", "Visual Studio Code"]

  /** The pills of the "Technical & Tools" group: the technical skills, then
      the tools. */
  function TechnicalAndTools(): (pills: seq<string>)
    ensures |pills| == |Technical| + |Tools|
    ensures pills[..|Technical|] == Technical && pills[|Technical|..] == Tools
  {
    Technical + Tools
  }

  /** Every pill name appears once, so the names serve as distinct keys. */
  lemma PillNamesDistinct()
    ensures forall i, j :: 0 <= i < j < |TechnicalAndTools()| ==>
      TechnicalAndTools()[i] != TechnicalAndTools()[j]
  {
    var p := TechnicalAndTools();
    forall i, j | 0 <= i < j < |p|
      ensures p[i] != p[j]
    {
      DistinctByFirstChars(p, i, j);
    }
  }

  /** The ten names are told apart by their first two characters. */
  lemma DistinctByFirstChars(p: seq<string>, i: int, j: int)
    requires p == TechnicalAndTools() && 0 <= i < j < |p|
    ensures p[i] != p[j]
  {
    var keys := ["Fr", "UI", "Qu", "Mi", "Go", "Ca", "Fi", "Gi", "OB", "Vi"];
    assert forall k :: 0 <= k < |p| ==> |p[k]| >= 2 && p[k][..2] == keys[k];
    assert keys[i] != keys[j];
  }
}
