/** The application shell: the colour mode, the open flags of the mobile
    menu and the command palette, the current path with its page and
    document title, and the window-level keyboard shortcut.

    Effects the palette performs are applied here: a navigation sets the
    path, a theme toggle flips the mode, and a clipboard write or a new
    window leaves the page and is handed back as an external effect. */
module AppShell {
  import opened Js
  import opened ThemeMode
  import CommandPalette
  import NavBar
  import Host

  /** The page a route renders. */
  datatype Page = HomePage | ProjectListPage | CvPage

  /** The path with its trailing slashes removed: the router matches
      `/cv`, `/cv/` and `/cv//` alike. */
  function TrimSlashes(path: string): (t: string)
    ensures t <= path
    ensures t == [] || t[|t| - 1] != '/'
    ensures forall i :: |t| <= i < |path| ==> path[i] == '/'
    decreases |path|
  {
    if |path| > 0 && path[|path| - 1] == '/' then TrimSlashes(path[..|path| - 1]) else path
  }

  /** The form the router compares: no trailing slashes, letters in lower
      case. The root path "/" becomes empty. */
  function Canonical(path: string): string {
    Lower(TrimSlashes(path))
  }

  /** The route table: "/portfolio" and "/cv" matched regardless of letter
      case and trailing slashes, "/" and the catch-all to the home page. */
  function Route(path: string): (p: Page)
    ensures p == ProjectListPage <==> Canonical(path) == "/portfolio"
    ensures p == CvPage <==> Canonical(path) == "/cv"
  {
    var c := Canonical(path);
    if c == "/portfolio" then ProjectListPage
    else if c == "/cv" then CvPage
    else HomePage
  }

  /** Lower-casing and trimming slashes commute: a slash is not a letter. */
  lemma {:induction false} TrimLower(path: string)
    ensures TrimSlashes(Lower(path)) == Lower(TrimSlashes(path))
    decreases |path|
  {
    if |path| > 0 && path[|path| - 1] == '/' {
      assert Lower(path)[..|path| - 1] == Lower(path[..|path| - 1]);
      TrimLower(path[..|path| - 1]);
    }
  }

  /** The named paths render their pages. */
  lemma RouteNamedPaths()
    ensures Route("/") == HomePage && Route("/portfolio") == ProjectListPage && Route("/cv") == CvPage
  {
    assert TrimSlashes("/portfolio") == "/portfolio";
    assert TrimSlashes("/cv") == "/cv";
  }

  /** A trailing slash and the letter case of a path never change the
      page. */
  lemma RouteMatching(path: string)
    ensures Route(path + "/") == Route(path)
    ensures Route(Lower(path)) == Route(path)
  {
    assert (path + "/")[..|path|] == path;
    TrimLower(path);
    LowerIdempotent(TrimSlashes(path));
  }

  const HomeTitle: string := "Yahyah Odin | Portfolio"
  const WorksTitle: string := "My Works | Yahyah Odin"
  const ProfileTitle: string := "My Profile | Yahyah Odin"

  /** The title meant for each page. */
  function PageTitle(p: Page): (t: string)
    ensures t in {HomeTitle, WorksTitle, ProfileTitle}
  {
    match p
    case HomePage => HomeTitle
    case ProjectListPage => WorksTitle
    case CvPage => ProfileTitle
  }

  /** Different pages have different titles. */
  lemma PageTitleInjective(p: Page, q: Page)
    ensures PageTitle(p) == PageTitle(q) <==> p == q
  {
    assert HomeTitle != WorksTitle && HomeTitle != ProfileTitle && WorksTitle != ProfileTitle by {
      assert HomeTitle[0] == 'Y' && WorksTitle[0] == 'M' && ProfileTitle[3] == 'P' && WorksTitle[3] == 'W';
    }
  }

  /** The document title set whenever the location changes: a `switch` on
      the exact path, whatever the router matched. */
  function Title(path: string): (t: string)
    ensures t in {HomeTitle, WorksTitle, ProfileTitle}
  {
    if path == "/" then HomeTitle
    else if path == "/portfolio" then WorksTitle
    else if path == "/cv" then ProfileTitle
    else HomeTitle
  }

  /** The title as written matches the rendered page exactly on the home
      page and on the two exact paths; a variant the router accepts for the
      gallery or the CV gets the home title. */
  lemma TitleFollowsRoute(path: string)
    ensures Title(path) == PageTitle(Route(path)) <==>
      Route(path) == HomePage || path == "/portfolio" || path == "/cv"
  {
    RouteNamedPaths();
    PageTitleInjective(Route(path), HomePage);
  }

  /** "/cv/" and "/CV" render the CV page under the home title. */
  lemma TitleMissesVariants()
    ensures Route("/cv/") == CvPage && Title("/cv/") == HomeTitle
    ensures Route("/CV") == CvPage && Title("/CV") == HomeTitle
  {
    RouteNamedPaths();
    RouteMatching("/cv");
    assert "/cv" + "/" == "/cv/";
    assert Canonical("/CV") == "/cv";
  }

  /** The title, corrected: the same switch on the path the router matches. */
  function CorrectedTitle(path: string): (t: string)
    ensures Canonical(path) == path ==> t == Title(path)
  {
    Title(Canonical(path))
  }

  /** The corrected title is the rendered page's title on every path. */
  lemma CorrectedTitleFollowsRoute(path: string)
    ensures CorrectedTitle(path) == PageTitle(Route(path))
  {
  }

  /** With the corrected title, two paths carry the same title exactly when
      they render the same page. */
  lemma SamePageSameTitle(p: string, q: string)
    ensures CorrectedTitle(p) == CorrectedTitle(q) <==> Route(p) == Route(q)
  {
    CorrectedTitleFollowsRoute(p);
    CorrectedTitleFollowsRoute(q);
    PageTitleInjective(Route(p), Route(q));
  }

  // ----- shell state -----

  datatype Shell = Shell(
    mode: Mode,
    mobileOpen: bool,
    commandOpen: bool,
    path: string,
    palette: CommandPalette.PaletteState)

  /** The shell as first rendered at `path`: light mode, menu and palette closed. */
  function Initial(path: string): (s: Shell)
    ensures s.mode == Light && !s.mobileOpen && !s.commandOpen && s.path == path
    ensures CommandPalette.CursorIsIndex(s.palette) && s.palette.query == ""
  {
    Shell(InitialMode, false, false, path, CommandPalette.InitialPalette)
  }

  /** `toggleTheme`. */
  function ToggleTheme(s: Shell): (r: Shell)
    ensures r.mode != s.mode
    ensures r == s.(mode := r.mode)
  {
    s.(mode := Toggle(s.mode))
  }

  /** `openCommandPalette`: sets, rather than flips, the open flag. The
      navigation bar receives it but never calls it, so it is not an event
      below: only the keyboard shortcut opens the palette. */
  function OpenPalette(s: Shell): (r: Shell)
    ensures r.commandOpen
    ensures r == s.(commandOpen := true)
  {
    s.(commandOpen := true)
  }

  lemma ToggleThemeInvolution(s: Shell)
    ensures ToggleTheme(ToggleTheme(s)) == s
  {
    ToggleInvolution(s.mode);
  }

  lemma OpenPaletteIdempotent(s: Shell)
    ensures OpenPalette(OpenPalette(s)) == OpenPalette(s)
    ensures s.commandOpen ==> OpenPalette(s) == s
  {
  }

  // ----- effects -----

  /** An effect the shell cannot apply itself. */
  predicate External(e: Host.Effect) {
    e.WriteClipboard? || e.OpenWindow?
  }

  /** Apply an action's effect: navigation and the theme change the shell,
      the others leave it as it is. */
  function Perform(s: Shell, e: Host.Effect): (r: Shell)
    ensures e.Navigate? ==> r == s.(path := e.path)
    ensures e.ToggleTheme? ==> r == ToggleTheme(s)
    ensures External(e) ==> r == s
  {
    match e
    case Navigate(p) => s.(path := p)
    case ToggleTheme => ToggleTheme(s)
    case WriteClipboard(_) => s
    case OpenWindow(_, _) => s
  }

  // ----- events -----

  /** A key press with its modifier flags. */
  datatype KeyPress = KeyPress(key: string, ctrl: bool, meta: bool)

  /** The shortcut that flips the palette: Ctrl+k or Cmd+k. */
  predicate IsPaletteShortcut(k: KeyPress) {
    (k.ctrl || k.meta) && k.key == "k"
  }

  /** The events reaching the shell. Palette events other than keys come
      from the palette's own controls, which exist only while it is open. */
  datatype Event =
    | Key(press: KeyPress)
    | ThemeButton
    | HamburgerButton
    | MenuLink(link: NavBar.NavLink)
    | TypeQuery(query: string)
    | HoverResult(index: nat)
    | ClickResult(index: nat)
    | Dismiss
    | FollowLink(to: string)

  /** The new shell and the external effect (if any) one event produced. */
  datatype Step = Step(shell: Shell, external: Option<Host.Effect>)

  /** Apply a palette outcome: the new palette state, then the performed
      effect, then the close request. */
  function ApplyOutcome(s: Shell, o: CommandPalette.Outcome): (r: Step)
    ensures r.shell.palette == o.state
    ensures r.external.Some? <==> o.performed.Some? && External(o.performed.value)
    ensures o.close ==> !r.shell.commandOpen
    ensures !o.close ==> r.shell.commandOpen == s.commandOpen
    ensures o.performed == None ==> r.shell == s.(palette := o.state, commandOpen := r.shell.commandOpen)
  {
    var s1 := s.(palette := o.state);
    var s2 := if o.performed.Some? then Perform(s1, o.performed.value) else s1;
    var s3 := if o.close then s2.(commandOpen := false) else s2;
    var ext := if o.performed.Some? && External(o.performed.value) then o.performed else None;
    Step(s3, ext)
  }

  /** A window keydown: the palette's handler, with the arrow keys of
      revision `rev`, and the shell's shortcut handler both see it. */
  function KeyDown(rev: CommandPalette.Revision, s: Shell, k: KeyPress): (r: Step)
    ensures !IsPaletteShortcut(k) && !s.commandOpen ==> r == Step(s, None)
    ensures IsPaletteShortcut(k) ==> r == Step(s.(commandOpen := !s.commandOpen), None)
    ensures !IsPaletteShortcut(k) && k.key != "Enter" ==>
      r.shell == s.(palette := r.shell.palette) && r.external == None
  {
    var o := CommandPalette.KeyDown(rev, s.commandOpen, s.mode, s.palette, k.key);
    var r := ApplyOutcome(s, o);
    if IsPaletteShortcut(k) then r.(shell := r.shell.(commandOpen := !r.shell.commandOpen)) else r
  }

  /** One event, with the palette's arrow keys of revision `rev`. */
  function Next(rev: CommandPalette.Revision, s: Shell, e: Event): (r: Step)
    ensures e.ThemeButton? ==> r == Step(ToggleTheme(s), None)
    ensures e.HamburgerButton? ==> r == Step(s.(mobileOpen := !s.mobileOpen), None)
    ensures e.MenuLink? ==> r == Step(s.(mobileOpen := false, path := e.link.path), None)
    ensures e.FollowLink? ==> r == Step(s.(path := e.to), None)
    ensures e.Dismiss? ==> r == Step(s.(commandOpen := false), None)
    ensures !s.commandOpen && (e.TypeQuery? || e.HoverResult? || e.ClickResult?) ==> r == Step(s, None)
    ensures r.shell.commandOpen && !s.commandOpen ==> e.Key? && IsPaletteShortcut(e.press)
  {
    match e
    case Key(k) => KeyDown(rev, s, k)
    case ThemeButton => Step(ToggleTheme(s), None)
    case HamburgerButton => Step(s.(mobileOpen := NavBar.Hamburger(s.mobileOpen)), None)
    case MenuLink(l) =>
      var (m, p) := NavBar.FollowMenuLink(s.mobileOpen, l);
      Step(s.(mobileOpen := m, path := p), None)
    case TypeQuery(q) =>
      if s.commandOpen then Step(s.(palette := CommandPalette.ChangeQuery(s.palette, q)), None)
      else Step(s, None)
    case HoverResult(i) =>
      if s.commandOpen then Step(s.(palette := CommandPalette.Hover(s.palette, i)), None)
      else Step(s, None)
    case ClickResult(i) =>
      if s.commandOpen && i < |CommandPalette.Results(s.mode, s.palette.query)| then
        ApplyOutcome(s, CommandPalette.Click(s.mode, s.palette, i))
      else Step(s, None)
    case Dismiss => Step(s.(commandOpen := false), None)
    case FollowLink(to) => Step(s.(path := to), None)
  }

  // ----- properties of the shell -----

  /** The shortcut is an involution on the whole shell. */
  lemma ShortcutTwiceRestores(rev: CommandPalette.Revision, s: Shell, k: KeyPress)
    requires IsPaletteShortcut(k)
    ensures Next(rev, Next(rev, s, Key(k)).shell, Key(k)) == Step(s, None)
  {
  }

  /** With the corrected arrow keys every event keeps the palette cursor a
      valid index: NaN never appears. */
  lemma NextKeepsCursorIndex(s: Shell, e: Event)
    requires CommandPalette.CursorIsIndex(s.palette)
    ensures CommandPalette.CursorIsIndex(Next(CommandPalette.Corrected, s, e).shell.palette)
  {
    match e
    case Key(k) =>
      CommandPalette.CorrectedKeepsCursorIndex(s.commandOpen, s.mode, s.palette, k.key, "", 0);
    case TypeQuery(q) =>
      CommandPalette.CorrectedKeepsCursorIndex(s.commandOpen, s.mode, s.palette, "", q, 0);
    case HoverResult(i) =>
      CommandPalette.CorrectedKeepsCursorIndex(s.commandOpen, s.mode, s.palette, "", "", i);
    case _ =>
  }

  /** Enter on the listed theme action flips the mode and closes the
      palette; nothing leaves the page. */
  lemma EnterOnThemeAction(rev: CommandPalette.Revision, s: Shell)
    requires s.commandOpen && s.mode == Light
    requires s.palette == CommandPalette.PaletteState("dark", Num(0))
    ensures var r := Next(rev, s, Key(KeyPress("Enter", false, false)));
      r.shell.mode == Dark && !r.shell.commandOpen && r.external == None
      && r.shell.path == s.path && r.shell.palette == s.palette
  {
    CommandPalette.QueryDarkDependsOnMode(s.mode);
  }

  /** Clicking a listed navigation action moves to its path, which renders
      the matching page; the palette closes. */
  lemma ClickNavigates(rev: CommandPalette.Revision, s: Shell, i: nat)
    requires s.commandOpen && i < |CommandPalette.Results(s.mode, s.palette.query)|
    requires CommandPalette.Results(s.mode, s.palette.query)[i].perform.Navigate?
    ensures var r := Next(rev, s, ClickResult(i));
      var p := CommandPalette.Results(s.mode, s.palette.query)[i].perform.path;
      r.shell.path == p && !r.shell.commandOpen && r.external == None
      && r.shell.mode == s.mode
  {
  }

  /** Clicking the e-mail or a social-link action leaves the shell's mode,
      path and palette alone, closes the palette and hands the clipboard
      write or the new window out. */
  lemma ClickExternal(rev: CommandPalette.Revision, s: Shell, i: nat)
    requires s.commandOpen && i < |CommandPalette.Results(s.mode, s.palette.query)|
    requires External(CommandPalette.Results(s.mode, s.palette.query)[i].perform)
    ensures var r := Next(rev, s, ClickResult(i));
      r.external == Some(CommandPalette.Results(s.mode, s.palette.query)[i].perform)
      && r.shell == s.(commandOpen := false)
  {
  }

  // ----- the kept query, through the shell -----

  const Shortcut: KeyPress := KeyPress("k", true, false)
  const ArrowDown: KeyPress := KeyPress("ArrowDown", false, false)

  /** In the dark mode reached through the palette, "dark" is kept and
      lists nothing. ArrowDown, then dismissing the palette, the theme
      button and the shortcut bring light mode back with the palette open
      and the theme action listed again; as written the cursor is NaN by
      then, with the corrected arrows it is still 0. */
  lemma KeptQueryReachesNaN(rev: CommandPalette.Revision, s: Shell)
    requires s.commandOpen && s.mode == Dark
    requires s.palette == CommandPalette.PaletteState("dark", Num(0))
    ensures var down := Next(rev, s, Key(ArrowDown)).shell;
      var t := Next(rev, Next(rev, Next(rev, down, Dismiss).shell, ThemeButton).shell, Key(Shortcut)).shell;
      t.commandOpen && t.mode == Light && t.path == s.path
      && t.palette.query == "dark" && |CommandPalette.Results(Light, "dark")| == 1
      && (rev == CommandPalette.AsWritten ==> t.palette.cursor == NaN)
      && (rev == CommandPalette.Corrected ==> t.palette.cursor == Num(0))
  {
    CommandPalette.QueryDarkDependsOnMode(Light);
    CommandPalette.QueryDarkDependsOnMode(Dark);
  }

  /** The shell then differs on Enter: as written the theme action is
      listed but Enter runs nothing and the palette stays open; with the
      corrected arrows Enter switches to dark and closes the palette. */
  lemma KeptQueryEnter(rev: CommandPalette.Revision, s: Shell)
    requires s.commandOpen && s.mode == Light && s.palette.query == "dark"
    requires rev == CommandPalette.AsWritten ==> s.palette.cursor == NaN
    requires rev == CommandPalette.Corrected ==> s.palette.cursor == Num(0)
    ensures var r := Next(rev, s, Key(KeyPress("Enter", false, false)));
      (rev == CommandPalette.AsWritten ==> r == Step(s, None))
      && (rev == CommandPalette.Corrected ==> r.shell.mode == Dark && !r.shell.commandOpen)
  {
    CommandPalette.QueryDarkDependsOnMode(Light);
  }
}
