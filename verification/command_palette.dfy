/** The command palette: a fixed registry of seven actions, a
    case-insensitive substring filter over their labels, a selection cursor
    moved by the arrow keys, and Enter / click to run the selected action.

    Running an action is a side effect of the host (navigation, theme
    toggle, clipboard, new window); here it is returned as an Effect value,
    and closing the palette is returned as a flag for the shell to apply. */
module CommandPalette {
  import opened Js
  import opened ThemeMode
  import opened Host

  /** A registry entry; `caption` is the source's `label` (a reserved word here). */
  datatype Action = Action(id: string, caption: string, shortcut: Option<string>, perform: Effect)

  const Return: string := "\U{21B5}"

  /** The one label that depends on the mode. */
  function ThemeLabel(mode: Mode): (caption: string) {
    if mode == Dark then "Switch to Light Mode" else "Switch to Dark Mode"
  }

  function Ids(actions: seq<Action>): (ids: seq<string>)
    ensures |ids| == |actions|
    ensures forall i :: 0 <= i < |actions| ==> ids[i] == actions[i].id
  {
    seq(|actions|, i requires 0 <= i < |actions| => actions[i].id)
  }

  predicate DistinctIds(actions: seq<Action>) {
    forall i, j :: 0 <= i < j < |actions| ==> actions[i].id != actions[j].id
  }

  /** The registry, rebuilt from the current mode: navigation first, then the
      utility actions, in a fixed order with distinct ids. */
  function Registry(mode: Mode): (r: seq<Action>)
    ensures |r| == 7
    ensures Ids(r) == ["home", "work", "cv", "theme", "email", "github", "linkedin"]
    ensures DistinctIds(r)
    ensures r[3].caption == ThemeLabel(mode) && r[3].perform == ToggleTheme
    ensures r[0].perform == Navigate("/") && r[1].perform == Navigate("/portfolio")
         && r[2].perform == Navigate("/cv")
  {
    [ Action("home", "Go to Home", None, Navigate("/")),
      Action("work", "View Portfolio", None, Navigate("/portfolio")),
      Action("cv", "Read Resume / CV", None, Navigate("/cv")),
      Action("theme", ThemeLabel(mode), None, ToggleTheme),
      Action("email", "Copy Email Address", None, WriteClipboard("hello@alex.dev")),
      Action("github", "Open GitHub", Some(Return), OpenWindow("https://github.com", "_blank")),
      Action("linkedin", "Open LinkedIn", Some(Return), OpenWindow("https://linkedin.com", "_blank")) ]
  }

  /** Only the theme action's label changes with the mode; every other
      entry, and the theme action's id and effect, are the same. */
  lemma RegistryModeOnlyAffectsThemeLabel(m1: Mode, m2: Mode)
    ensures forall i :: 0 <= i < 7 && i != 3 ==> Registry(m1)[i] == Registry(m2)[i]
    ensures Registry(m1)[3] == Registry(m2)[3].(caption := ThemeLabel(m1))
    ensures m1 != m2 ==> Registry(m1)[3].caption != Registry(m2)[3].caption
  {
  }

  // ----- filtering -----

  /** The test applied to each action: its lower-cased label includes the
      lower-cased query. */
  predicate Matches(a: Action, query: string) {
    LabelMatches(a.caption, query)
  }

  predicate LabelMatches(caption: string, query: string) {
    Contains(Lower(caption), Lower(query))
  }

  /** `filteredActions`. */
  function Results(mode: Mode, query: string): (r: seq<Action>)
    ensures |r| <= 7
    ensures forall a :: a in r ==> a in Registry(mode) && Matches(a, query)
  {
    Filter(Registry(mode), a => Matches(a, query))
  }

  /** The results are exactly the matching actions, in registry order. */
  lemma ResultsAreMatchingSubsequence(mode: Mode, query: string)
    ensures IsSubsequence(Results(mode, query), Registry(mode))
    ensures forall a :: a in Registry(mode) ==> (a in Results(mode, query) <==> Matches(a, query))
    ensures DistinctIds(Results(mode, query))
  {
    var keep := a => Matches(a, query);
    FilterIsSubsequence(Registry(mode), keep);
    FilterMembers(Registry(mode), keep);
    FilterKeepsDistinctIds(Registry(mode), keep);
  }

  /** Filtering a list of actions with distinct ids keeps the ids distinct. */
  lemma FilterKeepsDistinctIds(acts: seq<Action>, keep: Action -> bool)
    requires DistinctIds(acts)
    ensures DistinctIds(Filter(acts, keep))
  {
    var r := Filter(acts, keep);
    FilterIsSubsequence(acts, keep);
    forall i, j | 0 <= i < j < |r|
      ensures r[i].id != r[j].id
    {
      SubsequenceOfDistinct(r, acts, i, j);
    }
  }

  /** Two entries of a subsequence of a registry with distinct ids have
      distinct ids. */
  lemma {:induction false} SubsequenceOfDistinct(ys: seq<Action>, xs: seq<Action>, i: int, j: int)
    requires IsSubsequence(ys, xs) && DistinctIds(xs)
    requires 0 <= i < j < |ys|
    ensures ys[i].id != ys[j].id
    decreases |xs|
  {
    assert xs != [];
    if ys[0] == xs[0] {
      if i == 0 {
        assert ys[j] in ys[1..];
        SubsequenceMembers(ys[1..], xs[1..], ys[j]);
        var k :| 0 <= k < |xs[1..]| && xs[1..][k] == ys[j];
        assert xs[k + 1] == ys[j];
      } else {
        SubsequenceOfDistinct(ys[1..], xs[1..], i - 1, j - 1);
      }
    } else {
      SubsequenceOfDistinct(ys, xs[1..], i, j);
    }
  }

  lemma {:induction false} SubsequenceMembers<T>(ys: seq<T>, xs: seq<T>, y: T)
    requires IsSubsequence(ys, xs) && y in ys
    ensures y in xs
    decreases |xs|
  {
    if ys[0] == xs[0] {
      if y != ys[0] {
        assert y in ys[1..];
        SubsequenceMembers(ys[1..], xs[1..], y);
      }
    } else {
      SubsequenceMembers(ys, xs[1..], y);
    }
  }

  /** The empty query lists the whole registry, unchanged. */
  lemma EmptyQueryListsAll(mode: Mode)
    ensures Results(mode, "") == Registry(mode)
  {
    forall a | a in Registry(mode)
      ensures Matches(a, "")
    {
      EmptyIsContained(Lower(a.caption));
    }
    FilterKeepsAll(Registry(mode), a => Matches(a, ""));
  }

  /** Queries that differ only in letter case give the same results. */
  lemma CaseInsensitive(mode: Mode, q1: string, q2: string)
    requires Lower(q1) == Lower(q2)
    ensures Results(mode, q1) == Results(mode, q2)
  {
    FilterCongruent(Registry(mode), a => Matches(a, q1), a => Matches(a, q2));
  }

  /** The lower-cased captions the filter compares against. */
  lemma LowerCaptions(mode: Mode)
    ensures Lower(Registry(mode)[0].caption) == "go to home"
    ensures Lower(Registry(mode)[1].caption) == "view portfolio"
    ensures Lower(Registry(mode)[2].caption) == "read resume / cv"
    ensures Lower(Registry(mode)[3].caption) ==
      if mode == Dark then "switch to light mode" else "switch to dark mode"
    ensures Lower(Registry(mode)[4].caption) == "copy email address"
    ensures Lower(Registry(mode)[5].caption) == "open github"
    ensures Lower(Registry(mode)[6].caption) == "open linkedin"
  {
    LowerHome();
    LowerPortfolio();
    LowerResume();
    LowerLightMode();
    LowerDarkMode();
    LowerEmail();
    LowerGitHub();
    LowerLinkedIn();
  }

  // One lemma per caption keeps each literal's case mapping a separate proof.
  lemma LowerHome() ensures Lower("Go to Home") == "go to home" {}
  lemma LowerPortfolio() ensures Lower("View Portfolio") == "view portfolio" {}
  lemma LowerResume() ensures Lower("Read Resume / CV") == "read resume / cv" {}
  lemma LowerLightMode() ensures Lower("Switch to Light Mode") == "switch to light mode" {}
  lemma LowerDarkMode() ensures Lower("Switch to Dark Mode") == "switch to dark mode" {}
  lemma LowerEmail() ensures Lower("Copy Email Address") == "copy email address" {}
  lemma LowerGitHub() ensures Lower("Open GitHub") == "open github" {}
  lemma LowerLinkedIn() ensures Lower("Open LinkedIn") == "open linkedin" {}

  /** A letter of the query that the label lacks in either case rules the
      label out. */
  lemma Mismatch(caption: string, query: string, c: char)
    requires 'a' <= c <= 'z' && c in query
    requires c !in caption && ((c as int - 32) as char) !in caption
    ensures !LabelMatches(caption, query)
  {
    LowerAbsence(query, c);
    LowerAbsence(caption, c);
    MissingCharNotContained(Lower(caption), Lower(query), c);
  }

  // What the queries "port" and "dark" make of each label, one label at a time.

  lemma HomeVerdicts()
    ensures !LabelMatches("Go to Home", "port") && !LabelMatches("Go to Home", "dark")
  {
    Mismatch("Go to Home", "port", 'p');
    Mismatch("Go to Home", "dark", 'd');
  }

  lemma PortfolioVerdicts()
    ensures LabelMatches("View Portfolio", "port") && !LabelMatches("View Portfolio", "dark")
  {
    LowerPortfolio();
    LowerPort();
    assert "view portfolio"[5..9] == "port";
    OccurrenceContained("view portfolio", "port", 5);
    Mismatch("View Portfolio", "dark", 'd');
  }

  lemma ResumeVerdicts()
    ensures !LabelMatches("Read Resume / CV", "port") && !LabelMatches("Read Resume / CV", "dark")
  {
    Mismatch("Read Resume / CV", "port", 'p');
    Mismatch("Read Resume / CV", "dark", 'k');
  }

  lemma LightModeVerdicts()
    ensures !LabelMatches("Switch to Light Mode", "port")
    ensures !LabelMatches("Switch to Light Mode", "dark")
  {
    Mismatch("Switch to Light Mode", "port", 'p');
    Mismatch("Switch to Light Mode", "dark", 'k');
  }

  lemma DarkModeVerdicts()
    ensures !LabelMatches("Switch to Dark Mode", "port")
    ensures LabelMatches("Switch to Dark Mode", "dark")
  {
    Mismatch("Switch to Dark Mode", "port", 'p');
    LowerDarkMode();
    LowerDark();
    assert "switch to dark mode"[10..14] == "dark";
    OccurrenceContained("switch to dark mode", "dark", 10);
  }

  lemma EmailVerdicts()
    ensures !LabelMatches("Copy Email Address", "port") && !LabelMatches("Copy Email Address", "dark")
  {
    Mismatch("Copy Email Address", "port", 't');
    Mismatch("Copy Email Address", "dark", 'k');
  }

  lemma GitHubVerdicts()
    ensures !LabelMatches("Open GitHub", "port") && !LabelMatches("Open GitHub", "dark")
  {
    Mismatch("Open GitHub", "port", 'r');
    Mismatch("Open GitHub", "dark", 'd');
  }

  lemma LinkedInVerdicts()
    ensures !LabelMatches("Open LinkedIn", "port") && !LabelMatches("Open LinkedIn", "dark")
  {
    Mismatch("Open LinkedIn", "port", 'r');
    Mismatch("Open LinkedIn", "dark", 'a');
  }

  /** The verdicts for every registry entry: "port" matches the portfolio
      entry alone, "dark" the theme entry alone and only in light mode. */
  lemma RegistryVerdicts(mode: Mode, i: int)
    requires 0 <= i < 7
    ensures Matches(Registry(mode)[i], "port") <==> i == 1
    ensures Matches(Registry(mode)[i], "dark") <==> i == 3 && mode == Light
  {
    if i == 0 {
      HomeVerdicts();
    } else if i == 1 {
      PortfolioVerdicts();
    } else if i == 2 {
      ResumeVerdicts();
    } else if i == 3 {
      if mode == Dark {
        LightModeVerdicts();
      } else {
        DarkModeVerdicts();
      }
    } else if i == 4 {
      EmailVerdicts();
    } else if i == 5 {
      GitHubVerdicts();
    } else {
      LinkedInVerdicts();
    }
  }

  /** A concrete query: "port" selects the portfolio action alone. */
  lemma QueryPortSelectsPortfolio(mode: Mode)
    ensures Results(mode, "port") == [Registry(mode)[1]]
  {
    var acts := Registry(mode);
    var keep := a => Matches(a, "port");
    forall i | 0 <= i < |acts|
      ensures keep(acts[i]) <==> i == 1
    {
      RegistryVerdicts(mode, i);
    }
    FilterSingle(acts, keep, 1);
  }

  lemma LowerPort() ensures Lower("port") == "port" {}
  lemma LowerDark() ensures Lower("dark") == "dark" {}

  /** "dark" matches only the light-mode theme caption, so the same kept
      query lists one result in light mode and none in dark mode. */
  lemma QueryDarkDependsOnMode(mode: Mode)
    ensures mode == Light ==> Results(mode, "dark") == [Registry(mode)[3]]
    ensures mode == Dark ==> Results(mode, "dark") == []
  {
    var acts := Registry(mode);
    var keep := a => Matches(a, "dark");
    forall i | 0 <= i < 7
      ensures keep(acts[i]) <==> i == 3 && mode == Light
    {
      RegistryVerdicts(mode, i);
    }
    if mode == Light {
      FilterSingle(acts, keep, 3);
    } else {
      forall a | a in acts
        ensures !keep(a)
      {
        var i :| 0 <= i < 7 && acts[i] == a;
      }
      FilterNone(acts, keep);
    }
  }

  // ----- the selection cursor -----

  /** `filteredActions[selectedIndex]`: the action under the cursor, if the
      cursor holds an index of the results. */
  function Selected(results: seq<Action>, cursor: Number): (a: Option<Action>)
    ensures a.Some? <==> cursor.Num? && 0 <= cursor.n < |results|
    ensures a.Some? ==> a.value == results[cursor.n]
  {
    if cursor.Num? && 0 <= cursor.n < |results| then Some(results[cursor.n]) else None
  }

  /** ArrowDown as written: `(prev + 1) % filteredActions.length`, which is
      NaN when the list is empty and stays NaN afterwards. */
  function ArrowDownAsWritten(cursor: Number, count: nat): (r: Number)
    ensures count == 0 ==> r == NaN
    ensures cursor == NaN ==> r == NaN
    ensures count > 0 && cursor.Num? && cursor.n >= 0 ==> r == Num((cursor.n + 1) % count)
  {
    match cursor
    case NaN => NaN
    case Num(i) =>
      if count > 0 && i >= 0 then SmallMod(i + 1, count); RemNumber(i + 1, count)
      else RemNumber(i + 1, count)
  }

  /** ArrowUp as written: `(prev - 1 + filteredActions.length) % filteredActions.length`. */
  function ArrowUpAsWritten(cursor: Number, count: nat): (r: Number)
    ensures count == 0 ==> r == NaN
    ensures cursor == NaN ==> r == NaN
    ensures count > 0 && cursor.Num? && cursor.n >= 0 ==> r == Num((cursor.n - 1 + count) % count)
  {
    match cursor
    case NaN => NaN
    case Num(i) =>
      if count > 0 && i >= 0 then SmallMod(i - 1 + count, count); RemNumber(i - 1 + count, count)
      else RemNumber(i - 1 + count, count)
  }

  /** ArrowDown, corrected: with no results the key does nothing. */
  function MoveDown(cursor: Number, count: nat): (r: Number)
    ensures count == 0 ==> r == cursor
    ensures count > 0 && cursor.Num? && cursor.n >= 0 ==> r.Num? && 0 <= r.n < count
    ensures count > 0 && cursor == Num(count - 1) ==> r == Num(0)
    ensures count > 0 && cursor.Num? && 0 <= cursor.n < count - 1 ==> r == Num(cursor.n + 1)
  {
    if count == 0 then cursor
    else if cursor.Num? && 0 <= cursor.n < count then
      SmallMod(cursor.n + 1, count); ArrowDownAsWritten(cursor, count)
    else ArrowDownAsWritten(cursor, count)
  }

  /** ArrowUp, corrected: with no results the key does nothing. */
  function MoveUp(cursor: Number, count: nat): (r: Number)
    ensures count == 0 ==> r == cursor
    ensures count > 0 && cursor.Num? && cursor.n >= 0 ==> r.Num? && 0 <= r.n < count
    ensures count > 0 && cursor == Num(0) ==> r == Num(count - 1)
    ensures count > 0 && cursor.Num? && 0 < cursor.n < count ==> r == Num(cursor.n - 1)
  {
    if count == 0 then cursor
    else if cursor.Num? && 0 <= cursor.n < count then
      SmallMod(cursor.n - 1 + count, count); ArrowUpAsWritten(cursor, count)
    else ArrowUpAsWritten(cursor, count)
  }

  /** Up undoes Down and Down undoes Up on every in-range cursor. */
  lemma MovesAreInverse(i: int, count: nat)
    requires 0 <= i < count
    ensures MoveUp(MoveDown(Num(i), count), count) == Num(i)
    ensures MoveDown(MoveUp(Num(i), count), count) == Num(i)
  {
  }

  // ----- palette state and events -----

  /** The palette's own state. `open` belongs to the shell and is passed in. */
  datatype PaletteState = PaletteState(query: string, cursor: Number)

  const InitialPalette: PaletteState := PaletteState("", Num(0))

  /** What one event does: the new state, the effect performed (if any),
      and whether the palette asks to be closed (`onClose`). */
  datatype Outcome = Outcome(state: PaletteState, performed: Option<Effect>, close: bool)

  /** Which definition of the arrow keys to use (see the findings). */
  datatype Revision = AsWritten | Corrected

  function Down(rev: Revision, cursor: Number, count: nat): Number {
    if rev == AsWritten then ArrowDownAsWritten(cursor, count) else MoveDown(cursor, count)
  }

  function Up(rev: Revision, cursor: Number, count: nat): Number {
    if rev == AsWritten then ArrowUpAsWritten(cursor, count) else MoveUp(cursor, count)
  }

  /** The window keydown handler. */
  function KeyDown(rev: Revision, open: bool, mode: Mode, st: PaletteState, key: string): (o: Outcome)
    ensures !open ==> o == Outcome(st, None, false)
    ensures o.state.query == st.query
    ensures key != "Enter" ==> o.performed == None && !o.close
    ensures key != "ArrowDown" && key != "ArrowUp" ==> o.state == st
    ensures open && key == "ArrowDown" ==>
      o.state == st.(cursor := Down(rev, st.cursor, |Results(mode, st.query)|))
    ensures open && key == "ArrowUp" ==>
      o.state == st.(cursor := Up(rev, st.cursor, |Results(mode, st.query)|))
    ensures o.close <==> o.performed.Some?
    ensures open && key == "Enter" ==>
      (o.close <==> Selected(Results(mode, st.query), st.cursor).Some?)
    ensures o.performed.Some? ==>
      o.performed == Some(Selected(Results(mode, st.query), st.cursor).value.perform)
  {
    var results := Results(mode, st.query);
    if !open then Outcome(st, None, false)
    else if key == "ArrowDown" then
      Outcome(st.(cursor := Down(rev, st.cursor, |results|)), None, false)
    else if key == "ArrowUp" then
      Outcome(st.(cursor := Up(rev, st.cursor, |results|)), None, false)
    else if key == "Enter" then
      match Selected(results, st.cursor)
      case Some(a) => Outcome(st, Some(a.perform), true)
      case None => Outcome(st, None, false)
    else Outcome(st, None, false)
  }

  /** Typing in the search box. The index reset is an effect keyed on the
      query, so it fires only when the query actually changes. */
  function ChangeQuery(st: PaletteState, query: string): (r: PaletteState)
    ensures r.query == query
    ensures query != st.query ==> r.cursor == Num(0)
    ensures query == st.query ==> r == st
  {
    if query == st.query then st else PaletteState(query, Num(0))
  }

  /** Hovering the k-th listed result selects it. */
  function Hover(st: PaletteState, k: nat): (r: PaletteState)
    ensures r.query == st.query && r.cursor == Num(k)
  {
    st.(cursor := Num(k))
  }

  /** Clicking the k-th listed result runs it and closes the palette. */
  function Click(mode: Mode, st: PaletteState, k: nat): (o: Outcome)
    requires k < |Results(mode, st.query)|
    ensures o.state == st && o.close
    ensures o.performed == Some(Results(mode, st.query)[k].perform)
  {
    Outcome(st, Some(Results(mode, st.query)[k].perform), true)
  }

  /** With no results, Enter performs nothing and changes nothing. */
  lemma EnterOnEmptyIsNoOp(rev: Revision, mode: Mode, st: PaletteState)
    requires Results(mode, st.query) == []
    ensures KeyDown(rev, true, mode, st, "Enter") == Outcome(st, None, false)
  {
  }

  /** A cursor holding a non-negative index. Under the corrected arrow keys
      every palette event keeps it so; NaN never appears. */
  predicate CursorIsIndex(st: PaletteState) {
    st.cursor.Num? && st.cursor.n >= 0
  }

  lemma CorrectedKeepsCursorIndex(open: bool, mode: Mode, st: PaletteState, key: string, q: string, k: nat)
    requires CursorIsIndex(st)
    ensures CursorIsIndex(KeyDown(Corrected, open, mode, st, key).state)
    ensures CursorIsIndex(ChangeQuery(st, q))
    ensures CursorIsIndex(Hover(st, k))
  {
  }

  /** After an arrow key over a non-empty list the cursor is on a result,
      even if it was past the end before (the list can shrink when the mode
      changes under a kept query). */
  lemma ArrowLandsOnResult(mode: Mode, st: PaletteState, key: string)
    requires CursorIsIndex(st) && |Results(mode, st.query)| > 0
    requires key == "ArrowDown" || key == "ArrowUp"
    ensures Selected(Results(mode, st.query), KeyDown(Corrected, true, mode, st, key).state.cursor).Some?
  {
  }

  /** Three ArrowDowns over two results visit 1, 0, 1. */
  lemma ThreeDownsOverTwo()
    ensures var c1 := MoveDown(Num(0), 2); var c2 := MoveDown(c1, 2); var c3 := MoveDown(c2, 2);
      c1 == Num(1) && c2 == Num(0) && c3 == Num(1)
  {
  }

  // ----- the empty-list arrow keys, as written and corrected -----

  /** As written, an arrow key over an empty list turns the cursor into NaN. */
  lemma AsWrittenEmptyArrowGivesNaN(mode: Mode, st: PaletteState, key: string)
    requires Results(mode, st.query) == []
    requires key == "ArrowDown" || key == "ArrowUp"
    ensures KeyDown(AsWritten, true, mode, st, key).state.cursor == NaN
  {
  }

  /** As written, a NaN cursor absorbs every later event of the palette but
      a query change: no arrow key repairs it and Enter never runs an action,
      whatever the list holds. */
  lemma AsWrittenNaNIsStuck(mode: Mode, st: PaletteState, key: string)
    requires st.cursor == NaN
    ensures KeyDown(AsWritten, true, mode, st, key).state.cursor == NaN
    ensures KeyDown(AsWritten, true, mode, st, key).performed == None
  {
  }

  /** The stuck state is reachable with a kept query: "dark" lists nothing
      in dark mode, ArrowDown makes the cursor NaN; back in light mode the
      theme action is listed again, yet Enter does nothing and ArrowDown
      stays NaN. The corrected keys leave the cursor at 0 and Enter runs it. */
  lemma KeptQueryTrace()
    ensures var st := PaletteState("dark", Num(0));
      var down := KeyDown(AsWritten, true, Dark, st, "ArrowDown").state;
      down.cursor == NaN
      && |Results(Light, "dark")| == 1
      && KeyDown(AsWritten, true, Light, down, "Enter") == Outcome(down, None, false)
      && KeyDown(AsWritten, true, Light, down, "ArrowDown").state.cursor == NaN
    ensures var st := PaletteState("dark", Num(0));
      var down := KeyDown(Corrected, true, Dark, st, "ArrowDown").state;
      down == st
      && KeyDown(Corrected, true, Light, down, "Enter").performed == Some(ToggleTheme)
  {
    QueryDarkDependsOnMode(Light);
    QueryDarkDependsOnMode(Dark);
  }
}
