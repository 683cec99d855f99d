# Portfolio site: a Dafny model of its decision rules

The site is a React single-page portfolio. It has a shell that holds the
colour mode, the mobile-menu flag, the command-palette flag and the
current path. It has three routed pages: home, project gallery and CV.
Around them sit a handful of components: the navigation bar, the command
palette, bento tiles, a scrambling text effect, a first-visit preloader
and a scroll-driven marquee. None of this is algorithmically deep. What
can be stated and proved is the set of small decision rules each
component applies on every event.

The model makes each rule a pure function or a step function over an
immutable record:

- Randomness and elapsed time are inputs: the preloader's draws, the
  scramble's picks and the animation frame's `delta`.
- Effects on the host are returned as values (`Host.Effect`):
  navigation, theme toggle, clipboard write and new window.
- Timers are separate events: interval ticks and the preloader's
  delayed finish.

One module per source file:

| module | file |
|---|---|
| `Js` | the JavaScript semantics the components rely on: truncating `%`, NaN, truthiness, `toLowerCase` on ASCII, `includes`, `startsWith`, `indexOf`, `String(n)`, `padStart`, `Array.filter` |
| `Host` | the effects an action asks of the browser or router |
| `ThemeMode` | the colour mode and `toggleTheme` |
| `CommandPalette` | components/CommandPalette.tsx |
| `AppShell` | App.tsx |
| `NavBar` | components/NavBar.tsx |
| `ProjectList` | pages/ProjectList.tsx |
| `Cv` | pages/CV.tsx |
| `Home` | pages/Home.tsx |
| `BentoGrid` | components/BentoGrid.tsx |
| `GlitchText` | components/GlitchText.tsx |
| `Preloader` | components/Preloader.tsx |
| `VelocityScroll` | components/VelocityScroll.tsx |

In these places the code does something a reader might not expect; the
model follows the code:

- The palette's query is not cleared when the palette opens. The
  component stays mounted, so the query survives closing.
- The index reset is an effect keyed on the query. It fires only when
  the query actually changes.
- The navigation bar receives `openCommandPalette` but never calls it.
  Only the keyboard shortcut opens the palette.
- An arrow key over an empty result list does not do nothing. It
  computes `% 0` and stores NaN (see Findings). The palette and the shell
  take the revision of the arrow keys as a parameter: `AsWritten` is the
  code, `Corrected` the repair.
- The palette's e-mail action copies the placeholder address
  `hello@alex.dev`, not the address on the home page. The model keeps
  the placeholder.

## Model

| member | source | states |
|---|---|---|
| Js.Rem | components/CommandPalette.tsx:118 | JavaScript `%` on integers: the result is smaller than the divisor in magnitude and is zero or takes the sign of the dividend |
| Js.RemDivision | components/CommandPalette.tsx:118 | the truncated quotient and the remainder reassemble the dividend |
| Js.RemNumber | components/CommandPalette.tsx:118 | `%` by zero is NaN, and only `%` by zero is NaN |
| Js.Lower | components/CommandPalette.tsx:103 | `toLowerCase` keeps the length and maps every character independently |
| Js.LowerIdempotent | components/CommandPalette.tsx:103 | lower-casing twice is lower-casing once |
| Js.LowerAbsence | components/CommandPalette.tsx:103 | a lower-case letter is missing from the lower-cased text exactly when the text lacks it in both cases |
| Js.MissingCharNotContained | components/CommandPalette.tsx:103 | `includes` fails when the needle has a character the text lacks |
| Js.EmptyIsContained | components/CommandPalette.tsx:103 | every text includes the empty string |
| Js.IndexOf | pages/CV.tsx:336 | `indexOf` gives -1 exactly for an absent element, and otherwise the first position holding it |
| Js.DecimalString | pages/ProjectList.tsx:11 | `String(n)` is a non-empty digit string with no leading zero, one digit exactly below 10 |
| Js.DecimalRoundTrip | pages/ProjectList.tsx:11 | reading `String(n)` back gives n |
| Js.PadStart | pages/ProjectList.tsx:11 | `padStart` reaches the width only with fill characters in front and keeps the text as its suffix |
| Js.TwoDigitsRoundTrip | pages/ProjectList.tsx:11 | zero-padding to two digits does not change the value |
| Js.Filter | components/CommandPalette.tsx:102-104 | `filter` keeps only elements of the input that pass the test |
| Js.FilterMembers | components/CommandPalette.tsx:102-104 | an element of the input is kept exactly when it passes the test |
| Js.FilterIsSubsequence | components/CommandPalette.tsx:102-104 | `filter` keeps the input's order |
| Js.FilterCounts | components/CommandPalette.tsx:102-104 | `filter` keeps every passing element as often as it occurs and drops every failing one |
| Js.FilterAppend | pages/ProjectList.tsx:272-276 | filtering distributes over concatenation |
| ThemeMode.Toggle | App.tsx:23-25 | toggling always changes the mode |
| ThemeMode.ToggleInvolution | App.tsx:23-25 | toggling twice restores the mode |
| CommandPalette.Registry | components/CommandPalette.tsx:52-100 | seven actions with ids home, work, cv, theme, email, github, linkedin in that order, distinct; the theme action toggles; the first three navigate to /, /portfolio, /cv |
| CommandPalette.RegistryModeOnlyAffectsThemeLabel | components/CommandPalette.tsx:73 | only the theme action's label depends on the mode, and the two modes give different labels |
| CommandPalette.Results | components/CommandPalette.tsx:102-104 | every listed action is in the registry and matches the query |
| CommandPalette.Matches | components/CommandPalette.tsx:103 | an action matches when its label passes the lower-cased `includes` test |
| CommandPalette.LabelMatches | components/CommandPalette.tsx:103 | the lower-cased label includes the lower-cased query |
| CommandPalette.ResultsAreMatchingSubsequence | components/CommandPalette.tsx:102-104 | the list is the order-preserving subsequence of exactly the matching actions, ids still distinct |
| CommandPalette.EmptyQueryListsAll | components/CommandPalette.tsx:102-104 | the empty query lists the registry unchanged |
| CommandPalette.CaseInsensitive | components/CommandPalette.tsx:102-104 | queries equal up to letter case give the same list |
| CommandPalette.QueryPortSelectsPortfolio | components/CommandPalette.tsx:60-63 | the query "port" lists the portfolio action alone, in either mode |
| CommandPalette.QueryDarkDependsOnMode | components/CommandPalette.tsx:73 | the query "dark" lists the theme action in light mode and nothing in dark mode |
| CommandPalette.Selected | components/CommandPalette.tsx:124 | an action is under the cursor exactly when the cursor is a number indexing the list |
| CommandPalette.ArrowDownAsWritten | components/CommandPalette.tsx:116-118 | ArrowDown as written: (i + 1) mod n on an index; NaN for an empty list, and NaN stays NaN |
| CommandPalette.ArrowUpAsWritten | components/CommandPalette.tsx:119-121 | ArrowUp as written: (i - 1 + n) mod n on an index; NaN for an empty list, and NaN stays NaN |
| CommandPalette.MoveDown | components/CommandPalette.tsx:116-118 | ArrowDown stays in range, steps forward and wraps n-1 to 0; it does nothing on an empty list |
| CommandPalette.MoveUp | components/CommandPalette.tsx:119-121 | ArrowUp stays in range, steps back and wraps 0 to n-1; it does nothing on an empty list |
| CommandPalette.Down | components/CommandPalette.tsx:116-118 | ArrowDown of the chosen revision: the code as written or the repair |
| CommandPalette.Up | components/CommandPalette.tsx:119-121 | ArrowUp of the chosen revision: the code as written or the repair |
| CommandPalette.MovesAreInverse | components/CommandPalette.tsx:116-121 | ArrowUp undoes ArrowDown and the reverse, on every in-range cursor |
| CommandPalette.KeyDown | components/CommandPalette.tsx:111-133 | closed: every key is ignored; ArrowDown and ArrowUp set the cursor to the revision's step over the current list and change nothing else; any other key leaves the state as it is; Enter runs the action under the cursor and asks to close exactly when there is one; nothing else performs or closes |
| CommandPalette.ChangeQuery | components/CommandPalette.tsx:107-109 | a changed query puts the cursor at 0; retyping the same query changes nothing |
| CommandPalette.Hover | components/CommandPalette.tsx:210 | hovering result k puts the cursor on k |
| CommandPalette.Click | components/CommandPalette.tsx:206-209 | clicking result k runs that result's action and asks to close |
| CommandPalette.EnterOnEmptyIsNoOp | components/CommandPalette.tsx:122-127 | with no results Enter performs nothing and changes nothing |
| CommandPalette.CorrectedKeepsCursorIndex | components/CommandPalette.tsx:107-121 | with the corrected arrows every palette event keeps the cursor a non-negative number |
| CommandPalette.ArrowLandsOnResult | components/CommandPalette.tsx:116-121 | over a non-empty list an arrow key always leaves the cursor on a result |
| CommandPalette.AsWrittenEmptyArrowGivesNaN | components/CommandPalette.tsx:116-121 | as written, an arrow key over an empty list sets the cursor to NaN |
| CommandPalette.AsWrittenNaNIsStuck | components/CommandPalette.tsx:116-127 | as written, once NaN, no key repairs the cursor and Enter never runs an action |
| CommandPalette.KeptQueryTrace | components/CommandPalette.tsx:107-127 | with the kept query "dark": dark mode, ArrowDown, back to light, Enter runs nothing as written but toggles with the correction |
| AppShell.TrimSlashes | App.tsx:106-111 | the router drops trailing slashes: what remains is a prefix of the path not ending in a slash, and everything dropped is a slash |
| AppShell.Canonical | App.tsx:106-111 | the form of a path the router compares: trailing slashes dropped, letters lower-cased |
| AppShell.Route | App.tsx:106-111 | a path renders the gallery exactly when it reads /portfolio up to letter case and trailing slashes, the CV exactly when it reads /cv so, and the home page otherwise |
| AppShell.TrimLower | App.tsx:106-111 | trimming slashes and lower-casing can be done in either order |
| AppShell.RouteNamedPaths | App.tsx:106-111 | /, /portfolio and /cv render their pages |
| AppShell.RouteMatching | App.tsx:106-111 | appending a slash or lower-casing a path never changes the page |
| AppShell.PageTitle | App.tsx:32-47 | each page's title is one of the three titles |
| AppShell.PageTitleInjective | App.tsx:32-47 | different pages have different titles |
| AppShell.Title | App.tsx:32-47 | the title is one of the three titles |
| AppShell.TitleFollowsRoute | App.tsx:32-47 | the title as written is the rendered page's title exactly on home-page paths and on the exact paths /portfolio and /cv |
| AppShell.TitleMissesVariants | App.tsx:32-47 | /cv/ and /CV render the CV page under the home title |
| AppShell.CorrectedTitle | App.tsx:32-47 | the corrected title agrees with the title as written on every path already in the router's form |
| AppShell.CorrectedTitleFollowsRoute | App.tsx:32-47 | the corrected title is the rendered page's title on every path |
| AppShell.SamePageSameTitle | App.tsx:32-47 | with the corrected title, two paths have the same title exactly when they render the same page |
| AppShell.Initial | App.tsx:17-19 | the shell starts in light mode with the menu and the palette closed |
| AppShell.ToggleTheme | App.tsx:23-25 | toggling changes the mode and nothing else |
| AppShell.ToggleThemeInvolution | App.tsx:23-25 | toggling the shell's theme twice restores the shell |
| AppShell.OpenPalette | App.tsx:27-29 | opening sets the palette flag and changes nothing else |
| AppShell.OpenPaletteIdempotent | App.tsx:27-29 | opening twice is opening once; an open palette stays as it is |
| AppShell.Perform | components/CommandPalette.tsx:57-98 | navigation sets the path, the theme action toggles, clipboard and new-window effects leave the shell alone |
| AppShell.ApplyOutcome | App.tsx:119 | the palette's close request always closes it; without one the flag is kept; only clipboard and window effects leave the page |
| AppShell.IsPaletteShortcut | App.tsx:55 | the shortcut is "k" with Ctrl or Cmd held |
| AppShell.KeyDown | App.tsx:53-62 | Ctrl+K or Cmd+K flips the palette flag and does nothing else; other keys leave it alone and only Enter can act; the palette's arrow keys are those of the given revision |
| AppShell.Next | App.tsx:17-119 | the shell's response to each event, under either revision of the arrow keys; the palette opens only by the shortcut |
| AppShell.ShortcutTwiceRestores | App.tsx:53-62 | the shortcut twice restores the whole shell |
| AppShell.NextKeepsCursorIndex | App.tsx:117-122 | with the corrected arrow keys every shell event keeps the palette cursor a valid number |
| AppShell.EnterOnThemeAction | components/CommandPalette.tsx:122-127 | Enter on the listed theme action switches to dark mode and closes the palette |
| AppShell.ClickNavigates | components/CommandPalette.tsx:206-209 | clicking a navigation result moves to its path and closes the palette |
| AppShell.ClickExternal | components/CommandPalette.tsx:206-209 | clicking the e-mail or a social result hands its effect out and only closes the palette |
| AppShell.KeptQueryReachesNaN | App.tsx:23-62 | from dark mode with "dark" kept, ArrowDown, dismissing, the theme button and the shortcut reopen the palette in light mode over the listed theme action, with the cursor NaN as written and 0 when corrected |
| AppShell.KeptQueryEnter | components/CommandPalette.tsx:122-127 | in that state Enter changes nothing as written, and with the correction switches to dark and closes the palette |
| NavBar.Links | components/NavBar.tsx:30-34 | the links are Home /, Portfolio /portfolio, Profile /cv, in that order |
| NavBar.IsActive | components/NavBar.tsx:36-39 | the root link is active only on /, every other link on any location that starts with its path |
| NavBar.ActiveLinks | components/NavBar.tsx:30-39 | at most one link is highlighted: exactly the active one |
| NavBar.NotBothActive | components/NavBar.tsx:36-39 | no location starts with both /portfolio and /cv |
| NavBar.ActiveLinkOnRoutedPages | components/NavBar.tsx:30-39 | on /, /portfolio and /cv the highlighted link is that page's own; outside the sections none is highlighted |
| NavBar.Hamburger | components/NavBar.tsx:125 | the hamburger flips the menu flag |
| NavBar.FollowMenuLink | components/NavBar.tsx:171 | a menu link closes the menu and goes to its path |
| NavBar.MenuLinkClosesAndHighlights | components/NavBar.tsx:149-174 | after a menu link the menu is hidden and exactly that link is highlighted |
| NavBar.HamburgerTwiceRestores | components/NavBar.tsx:125-149 | two presses restore the flag; the menu shows only on a small screen with the flag set |
| NavBar.MenuVisible | components/NavBar.tsx:149 | the menu renders only on a small screen with the flag set |
| ProjectList.ImageNumber | pages/ProjectList.tsx:11 | the file number is a digit string worth n; padded it has exactly two digits below 10 and as many as `String(n)` from 10 on; unpadded as many as `String(n)`, without leading zero |
| ProjectList.ImagePath | pages/ProjectList.tsx:12 | a path is the project's directory, a number naming the image, then .webp, the padded number being exactly `padStart(2, '0')` long |
| ProjectList.GetImages | pages/ProjectList.tsx:9-14 | count paths, the i-th naming image i + 1, padded to exactly two digits below 10 or unpadded without leading zero, as asked |
| ProjectList.ImagesDistinct | pages/ProjectList.tsx:9-14 | a project's image paths are pairwise different |
| ProjectList.Label | pages/ProjectList.tsx:190 | no category is named "All" |
| ProjectList.LabelInjective | pages/ProjectList.tsx:190 | different categories have different names |
| ProjectList.EveryCategoryHasTab | pages/ProjectList.tsx:190 | every category has a tab, after "All" |
| ProjectList.ProjectIds | pages/ProjectList.tsx:17-187 | ten projects with ids 1 to 10 in order, hence unique |
| ProjectList.InCategory | pages/ProjectList.tsx:275 | the category test accepts exactly the projects of that category |
| ProjectList.Filtered | pages/ProjectList.tsx:272-276 | "All" lists every project; any other tab lists, in table order, exactly the projects whose category name is the tab |
| ProjectList.TabIsCategory | pages/ProjectList.tsx:272-276 | a category's tab lists exactly the projects of that category |
| ProjectList.CategoriesPartition | pages/ProjectList.tsx:272-276 | for any project list the four category filters' sizes add up to its length |
| ProjectList.ProjectOnItsTab | pages/ProjectList.tsx:17-190 | each project is on exactly its own category's tab |
| ProjectList.CategoryTabsPartition | pages/ProjectList.tsx:17-190 | the four category tabs together list all ten projects |
| ProjectList.Find | pages/ProjectList.tsx:278 | `find` returns the first project with the id, and none exactly when no project has it |
| ProjectList.FindById | pages/ProjectList.tsx:278 | ids 1 to 10 find their project, every other id nothing |
| ProjectList.GridSize | pages/ProjectList.tsx:597-598 | a gallery image spans 12, 6 or 4 columns |
| ProjectList.GalleryRows | pages/ProjectList.tsx:597-598 | up to three images fill exactly one row; more go three to a row |
| ProjectList.ShowImage | pages/ProjectList.tsx:196 | changing the viewer's image resets the zoom to 1; setting the same image changes nothing |
| ProjectList.Zoom | pages/ProjectList.tsx:200-204 | the wheel zoom always lies in [1, 3] |
| ProjectList.ZoomIsClamp | pages/ProjectList.tsx:200-204 | the zoom is the wheel's target clamped to [1, 3], and scrolling further down never zooms in |
| ProjectList.ModalShown | pages/ProjectList.tsx:278-442 | the modal shows for a truthy selected id that some project has |
| ProjectList.ViewerShown | pages/ProjectList.tsx:209 | the viewer shows for a non-empty image |
| ProjectList.Escape | pages/ProjectList.tsx:286-290 | Escape closes the viewer if shown and keeps the selection; otherwise clears a selected project; otherwise does nothing |
| ProjectList.EscapeClosesViewerFirst | pages/ProjectList.tsx:286-290 | with both open, the first Escape closes only the viewer and the second the modal |
| ProjectList.ClickTab | pages/ProjectList.tsx:381-385 | a tab click selects that tab; clicking the selected tab changes nothing |
| ProjectList.Next | pages/ProjectList.tsx:259-632 | the page's response to each event: tabs, project select and close, viewer open and close, Escape, wheel |
| ProjectList.Valid | pages/ProjectList.tsx:190-204 | the tab is one of the tabs and the zoom lies in [1, 3] |
| ProjectList.InitialValid | pages/ProjectList.tsx:194-262 | the page as first rendered is valid |
| ProjectList.NextValid | pages/ProjectList.tsx:190-385 | every event keeps the tab one of the tabs and the zoom in [1, 3] |
| ProjectList.PillIndex | pages/ProjectList.tsx:298 | on a valid page the pill sits at the selected tab's position |
| ProjectList.PillFollowsClick | pages/ProjectList.tsx:298-385 | after a click on tab i the pill sits at i |
| Cv.Tabs | pages/CV.tsx:330 | five distinct tabs |
| Cv.EveryTabListed | pages/CV.tsx:330 | every tab is in the bar |
| Cv.ClickTab | pages/CV.tsx:397 | a click selects the tab and keeps the hover; clicking the selected tab changes nothing |
| Cv.EnterTab | pages/CV.tsx:398 | entering a tab marks it hovered and keeps the selection |
| Cv.LeaveBar | pages/CV.tsx:386 | leaving the bar clears the hover and keeps the selection |
| Cv.HoverPill | pages/CV.tsx:391-401 | the hover pill is behind a tab that is hovered and not selected |
| Cv.HoverPillAtMostOne | pages/CV.tsx:386-401 | the hover pill is behind at most one tab, never the selected one, and never after leaving the bar |
| Cv.ClickRemovesHoverPill | pages/CV.tsx:397-401 | clicking the hovered tab removes its hover pill while it stays hovered |
| Cv.PillIndex | pages/CV.tsx:336 | the selection pill sits at the selected tab's position |
| Cv.PillFollowsSelection | pages/CV.tsx:336-397 | the pill moves exactly when the selection changes |
| Cv.Rendered | pages/CV.tsx:415-489 | exactly one section renders, the selected tab's |
| Cv.RenderedIsInjective | pages/CV.tsx:415-489 | different tabs render different sections |
| Cv.TimelineLength | pages/CV.tsx:21-208 | only the skills section has no timeline entries |
| Cv.ConnectorOf | pages/CV.tsx:253-257 | the line starts at 16px exactly for the first entry and is 16px tall exactly for the last; the others run to the bottom |
| Cv.ExtentOf | pages/CV.tsx:253-257 | a 16px-tall line covers 16px from its top; any other runs on to the bottom edge |
| Cv.ConnectorsJoin | pages/CV.tsx:253-257 | consecutive entries' lines meet, so the line is unbroken |
| Cv.LastStopsAtCentre | pages/CV.tsx:253-257 | in a timeline of two or more entries the line stops at the last marker's centre, 16px down |
| Cv.SingleEntryStub | pages/CV.tsx:253-257 | a one-entry timeline's line runs from the marker's centre at 16px down to 32px |
| Cv.TechnicalAndTools | pages/CV.tsx:501 | the technical-and-tools pills are the technical skills followed by the tools |
| Cv.PillNamesDistinct | pages/CV.tsx:213-214 | the ten pill names are distinct keys |
| Home.Tick | pages/Home.tsx:87 | a counter tick steps forward and wraps the last entry to 0 |
| Home.Ticks | pages/Home.tsx:85-90 | k interval ticks in a row |
| Home.TicksAdvance | pages/Home.tsx:85-90 | k ticks advance an in-range counter k places around the cycle |
| Home.ModStep | pages/Home.tsx:87 | stepping the remainder steps the number |
| Home.ProfileAlternates | pages/Home.tsx:83-88 | the profile image index is 0 or 1 and alternates |
| Home.RolesCycle | pages/Home.tsx:67-75 | the role index is always valid, shows role k at tick k, and repeats every seven ticks |
| Home.ContactClick | pages/Home.tsx:168-175 | only the Email title writes the clipboard, and it opens the toast; any other title opens its link in a new tab and keeps the toast |
| Home.CloseToast | pages/Home.tsx:439 | closing the snackbar hides it |
| Home.EmailClick | pages/Home.tsx:168-172 | the click that opens the toast is one on the e-mail tile |
| Home.ToastAfter | pages/Home.tsx:153-175 | the toast flag after a run of tile clicks and close requests, from false |
| Home.ToastShowsAfterEmail | pages/Home.tsx:153-175 | the toast shows exactly when some e-mail click has not been followed by a close request |
| Home.OnlyEmailCopies | pages/Home.tsx:316-319 | of the four tiles only the last copies the address; the others open their links |
| Home.Doubled | pages/Home.tsx:368 | a marquee list is its source twice: double length, both halves the source |
| Home.DoubledShiftInvariant | pages/Home.tsx:368-408 | shifting by one copy shows the same entry, so the loop is seamless |
| Home.MarqueeLengths | pages/Home.tsx:47-65 | the marquees render ten timeline entries and sixteen thumbnails, each eight places from its twin |
| BentoGrid.CursorOf | components/BentoGrid.tsx:48 | the pointer cursor shows exactly when a link or a click handler is given |
| BentoGrid.RestOpacity | components/BentoGrid.tsx:71 | the resting border shows exactly on always-active tiles |
| BentoGrid.HoverReveals | components/BentoGrid.tsx:71-77 | hover never dims, and changes the border exactly on tiles that are not always active |
| BentoGrid.GradientLine | components/BentoGrid.tsx:96 | the gradient line shows for a gradient tile that is not always active |
| BentoGrid.GradientOnlyWithoutBorder | components/BentoGrid.tsx:71-96 | the gradient line and the resting border never show together |
| BentoGrid.HeaderShown | components/BentoGrid.tsx:109 | the header block shows with a truthy title or an icon |
| BentoGrid.SubtitleShown | components/BentoGrid.tsx:109-113 | the subtitle shows inside the header block when truthy |
| BentoGrid.SubtitleNeedsHeader | components/BentoGrid.tsx:109-113 | a subtitle shows only inside the header block, which needs a title or an icon |
| BentoGrid.EmptyLinkIsInert | components/BentoGrid.tsx:48 | an empty or missing link leaves the cursor to the click handler |
| BentoGrid.EntranceDelay | components/BentoGrid.tsx:144 | child i starts its entrance 100 ms times i after the grid |
| BentoGrid.EntranceOrdered | components/BentoGrid.tsx:139-147 | children enter in order, a fixed 100 ms apart |
| GlitchText.Pick | components/GlitchText.tsx:31 | a random pick is one of the scramble characters |
| GlitchText.Frame | components/GlitchText.tsx:24-33 | a frame has the text's length, shows the real character at revealed positions and a scramble character elsewhere |
| GlitchText.RevealGrows | components/GlitchText.tsx:28-40 | a later tick reveals everything an earlier one did |
| GlitchText.RevealedPrefix | components/GlitchText.tsx:28-40 | the revealed positions form a prefix whose length is min(length, ceil(k / 3)) in exact arithmetic |
| GlitchText.Initial | components/GlitchText.tsx:15 | before any hover the text is shown as it is |
| GlitchText.Start | components/GlitchText.tsx:18-23 | a hover starts a fresh interval from tick 0, cancelling the old one |
| GlitchText.Tick | components/GlitchText.tsx:23-41 | a tick shows the frame for its count and stops the interval once the count has reached the length |
| GlitchText.Run | components/GlitchText.tsx:23-41 | m interval ticks in a row |
| GlitchText.RunStopsRevealed | components/GlitchText.tsx:36-40 | after a start the interval runs exactly 3 * length + 1 ticks in exact arithmetic and leaves the text itself on screen |
| Preloader.Mount | components/Preloader.tsx:7-17 | after the mount effect a visited session has its screen hidden, with the exit still animating, and no interval; a first visit starts counting from 0; the caption is mounted showing the text for 0 |
| Preloader.Recaption | components/Preloader.tsx:84-88 | a reused caption keeps its state across a prop change; a keyed one is mounted afresh with the new text exactly when the prop changes |
| Preloader.Tick | components/Preloader.tsx:18-28 | below 100 a tick adds 1 to 3; at 100 or more it sets exactly 100, stops the interval and schedules the finish; the caption follows the counter's prop as the keying allows |
| Preloader.Timeout | components/Preloader.tsx:21-24 | the delayed finish hides the screen and marks the session visited |
| Preloader.Run | components/Preloader.tsx:17-29 | the interval ticks with the given draws, in order |
| Preloader.Shown | components/Preloader.tsx:69 | the shown percentage is the counter capped at 100 |
| Preloader.Label | components/Preloader.tsx:84-88 | the caption prop is one of the two captions |
| Preloader.LabelFollowsShown | components/Preloader.tsx:69-88 | the caption prop is ACCESS GRANTED exactly when 100 is shown |
| Preloader.VisitedSkips | components/Preloader.tsx:11-15 | in a visited session the counter never moves, whatever the draws |
| Preloader.ShownMonotone | components/Preloader.tsx:19-27 | the shown percentage never decreases, although the counter can drop from 102 to 100 |
| Preloader.RunBound | components/Preloader.tsx:17-29 | while running after k ticks the counter is at least k and at most 102; stopped, it is exactly 100 |
| Preloader.ReusedCaptionStays | components/Preloader.tsx:84-88 | as written the caption keeps its mount state, showing SYSTEM INITIALIZING... whatever the counter |
| Preloader.KeyedCaptionFollows | components/Preloader.tsx:84-88 | keyed, the caption on screen is always the prop for the counter |
| Preloader.FirstVisitFinishes | components/Preloader.tsx:17-29 | 101 ticks always finish the count, and the finish makes the next visit skip the screen; at 100 the caption reads ACCESS GRANTED when keyed and still SYSTEM INITIALIZING... as written |
| VelocityScroll.Wrap | components/VelocityScroll.tsx:15-18 | `wrap` is NaN exactly for an empty range |
| VelocityScroll.RemNegate | components/VelocityScroll.tsx:17 | JavaScript `%` changes sign when both operands do |
| VelocityScroll.WrapMirror | components/VelocityScroll.tsx:15-18 | mirroring the range and the value mirrors the result |
| VelocityScroll.WrapIsEuclidean | components/VelocityScroll.tsx:15-18 | for min < max the result is the non-negative remainder shifted to start at min |
| VelocityScroll.WrapInRange | components/VelocityScroll.tsx:15-18 | for min < max the result lies in [min, max) |
| VelocityScroll.WrapIdentity | components/VelocityScroll.tsx:15-18 | `wrap` is the identity on [min, max) |
| VelocityScroll.WrapPeriodic | components/VelocityScroll.tsx:15-18 | `wrap` has period max - min |
| VelocityScroll.MarqueeCall | components/VelocityScroll.tsx:39 | the call `wrap(-20, -45, v)` lands in (-45, -20], has period 25 and is the identity there |
| VelocityScroll.Frame | components/VelocityScroll.tsx:43-56 | one animation frame: the move in the old direction, scaled by 1 + the new direction times the factor, and the new direction |
| VelocityScroll.Direction | components/VelocityScroll.tsx:47-51 | the direction becomes -1 on a negative factor and +1 on a positive one, and is kept at 0 |
| VelocityScroll.FrameMoves | components/VelocityScroll.tsx:41-56 | the direction stays ±1; a frame moves the text in its previous direction by the base distance times 1 + the factor's magnitude |

## Left out

- Rendering, styling, MUI theming (theme.ts) and the `GlobalStyles`
  colours: none of these makes a decision beyond a mode-to-constant
  lookup. This includes the bento tile's inner `background || paper`
  colour, whose `background` prop no page passes.
- Background3D, Lab, CustomCursor, Tilt, Magnetic, Footer, ProjectCard,
  InfiniteScroll and main.tsx: floating-point scenes and pointer physics,
  markup, and the React bootstrap.
- Timer periods, the spring and easing transitions, the preloader's exit
  animation and the `window.scrollTo(0, 0)` on navigation. These are
  timing or browser effects with no state of their own.
- DOM measurement for the tab pills (`offsetLeft`, `clientWidth`) and
  the responsive breakpoints. The model keeps only the index the pill is
  measured at and treats `isMobile` as an input.
- `document.title` and `document.body.style` writes, `sessionStorage`,
  the clipboard, `window.open` and `navigate`. These are host effects:
  they are returned as values or held as plain state.
- Js.Lower: only ASCII letters are case-mapped. Full Unicode
  `toLowerCase` is not modelled, and every label the palette filters is
  ASCII except the shortcut mark, which is never compared.
- AppShell.Route: the router's percent-decoding of the path before
  matching is not modelled. Letter case is compared on ASCII letters
  only, which is exact for the ASCII route paths.
- NavBar: the `openCommandPalette` prop the bar receives is never called
  there, so the bar has no event that opens the palette.
- CommandPalette.KeyDown: React's re-render timing (stale closures
  between two key events) is not modelled. The handler is a synchronous
  step over the current state.
- GlitchText.Frame: the counter's growth by one third is modelled by an
  integer tick count k with iteration k / 3 in exact arithmetic. The
  floating-point sum of 1/3 drifts from k / 3 and is not modelled.
- GlitchText.RevealedPrefix: the prefix length is exact only in real
  arithmetic. Up to tick 117 (texts of at most 38 characters) the
  floating-point sum is exactly k / 3 at ticks 0, 3, 9, 12, 30, 57 and
  117, just above it at ticks 33, 36, ..., 54, whose frames reveal one
  character more, and just below it at the other multiples of 3. Longer
  texts are not described here.
- GlitchText.RunStopsRevealed: the tick count 3 * length + 1 is exact
  only in real arithmetic. For texts of at most 38 characters the
  interval runs one tick longer exactly for 2, 5 to 9 and 20 to 38
  characters, among them the navigation bar's 20-character text (62
  ticks) and the preloader's 22-character caption (68 ticks). The text is
  still left on screen. Longer texts are not described here.
- GlitchText.Tick: the state updater is taken to run at the tick.
  React's deferred updater (which reads the iteration after the
  increment) is not modelled.
- GlitchText.Pick: a random draw is an unbounded natural reduced modulo
  the character count. The distribution of `Math.random` is not
  modelled.
- Preloader.Tick: a draw is a number below 3 standing for
  `Math.floor(Math.random() * 3)`. The unmount cleanup that clears the
  interval, and React's development-mode double effect, are not
  modelled. A hover on the caption, which would start a scramble toward
  the current caption prop, is not an event of the loading screen.
- VelocityScroll.Wrap: positions are integers here. The component feeds
  `wrap` floating-point percentages, for which JavaScript `%` behaves
  the same way but rounding is not modelled.
- VelocityScroll.FrameMoves: the scroll velocity's spring smoothing and
  the `useTransform` mapping are not modelled. The velocity factor is an
  input real.
- ProjectList.Zoom: the zoom is real arithmetic, without floating-point
  rounding. The viewer's drag constraints are not modelled.
- ProjectList: the prose fields of the project table (dates,
  descriptions, challenges, details) are not modelled. Only id, title,
  category and the image-path parameters are kept.
- Home: the hero text, the skill groups and the timeline labels are
  display data, and are not modelled beyond the lists the marquees
  double.

## Findings

| source | as written | input that shows it | evidently intended | confidence | as-written member | corrected member |
|---|---|---|---|---|---|---|
| components/CommandPalette.tsx:116-121 | ArrowDown and ArrowUp compute `% filteredActions.length` even when the list is empty. That stores NaN as the selected index, and NaN then survives every later arrow key and makes Enter do nothing. | In light mode open the palette, type "dark" and press Enter: the theme becomes dark and the palette closes with the query kept. Reopen it with Ctrl+K: "dark" now lists nothing. Press ArrowDown: the index becomes NaN. Close it, switch back to light from the navigation bar and reopen: the theme action is listed again, but Enter does nothing until the query changes or a result is hovered. | An arrow key over an empty list leaves the index alone, so that every later arrow key lands on a listed result | not executed | CommandPalette.ArrowDownAsWritten, CommandPalette.ArrowUpAsWritten, CommandPalette.KeptQueryTrace, AppShell.KeptQueryReachesNaN | CommandPalette.MoveDown, CommandPalette.MoveUp, CommandPalette.CorrectedKeepsCursorIndex, AppShell.NextKeepsCursorIndex |
| App.tsx:32-47 | The title is a `switch` on the exact path, while the router matches paths regardless of letter case and trailing slashes. | Open /cv/ or /CV: the CV page renders under the home page's title. | Every path gets the title of the page it renders | not executed | AppShell.Title, AppShell.TitleMissesVariants | AppShell.CorrectedTitle, AppShell.CorrectedTitleFollowsRoute |
| components/Preloader.tsx:84-88 | Both branches render a scramble text at the same place without a `key`. React keeps the one instance, whose shown text was seeded once from the first caption and is never updated from the prop. | On a first visit let the counter reach 100: for the 800 ms before the screen leaves it shows "100%" over "SYSTEM INITIALIZING...", unless the caption is hovered. | "ACCESS GRANTED" shows once the counter reaches 100 | not executed | Preloader.ReusedCaptionStays | Preloader.KeyedCaptionFollows |
