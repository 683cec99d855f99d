/** The loading screen shown on a session's first visit: a percentage
    counter advanced by a random step on every interval tick until it
    reaches 100, then a short delay after which the screen leaves and the
    session is marked as visited. Under the percentage a scramble text
    shows "SYSTEM INITIALIZING..." below 100 and "ACCESS GRANTED" from 100.

    The random step `Math.floor(Math.random() * 3) + 1` is an input: the
    draw `r < 3` gives the increment `r + 1`. The session flag is part of
    the state, and the 800 ms delay is the separate event `Timeout`. */
module Preloader {
  import GlitchText

  /** How the two captions are mounted. As written, both branches render a
      scramble text at the same place without a `key`, so the switch keeps
      one instance and only its `text` prop changes; keyed, each caption
      has its own `key` and the switch mounts a fresh instance. */
  datatype Keying = Reused | Keyed

  /** The screen's state: whether it is shown, the counter, whether the
      interval is running, whether the delayed finish is pending, the
      session's visited flag, and the caption's scramble state. */
  datatype Loader = Loader(
    loading: bool,
    counter: nat,
    running: bool,
    pending: bool,
    visited: bool,
    caption: GlitchText.Scramble)

  const Initializing: string := "SYSTEM INITIALIZING..."
  const Granted: string := "ACCESS GRANTED"

  /** The caption prop under the percentage. */
  function Label(counter: nat): (l: string)
    ensures l in {Initializing, Granted}
  {
    if counter < 100 then Initializing else Granted
  }

  /** The state the mount effect leaves: a visited session has its screen
      hidden (after the first paint, so the exit animation still plays) and
      starts no interval; otherwise the interval starts with the counter at
      0. The caption is mounted with the text for 0. */
  function Mount(visited: bool): (s: Loader)
    ensures s.counter == 0 && !s.pending && s.visited == visited
    ensures s.loading <==> !visited
    ensures s.running <==> !visited
    ensures s.caption == GlitchText.Initial(Label(0))
  {
    var caption := GlitchText.Initial(Initializing);
    if visited then Loader(false, 0, false, false, true, caption)
    else Loader(true, 0, true, false, false, caption)
  }

  /** The caption after the counter moved from `before` to `after`: a
      reused instance keeps its state; a keyed one is mounted afresh when
      the caption prop changes. */
  function Recaption(keying: Keying, c: GlitchText.Scramble, before: nat, after: nat): (r: GlitchText.Scramble)
    ensures keying == Reused || Label(before) == Label(after) ==> r == c
    ensures keying == Keyed && Label(before) != Label(after) ==> r == GlitchText.Initial(Label(after))
  {
    if keying == Keyed && Label(before) != Label(after) then GlitchText.Initial(Label(after)) else c
  }

  /** One interval tick with the draw `r`: below 100 the counter grows by
      `r + 1`; at 100 or more it is set to exactly 100, the interval is
      cleared and the delayed finish is scheduled. Without a running
      interval nothing happens. */
  function Tick(keying: Keying, s: Loader, r: nat): (t: Loader)
    requires r < 3
    ensures !s.running ==> t == s
    ensures s.running && s.counter < 100 ==>
      t == s.(counter := t.counter, caption := t.caption) && s.counter < t.counter <= s.counter + 3
    ensures s.running && s.counter >= 100 ==>
      t == s.(counter := 100, running := false, pending := true, caption := t.caption)
    ensures t.caption == Recaption(keying, s.caption, s.counter, t.counter)
  {
    if !s.running then s
    else if s.counter >= 100 then
      s.(counter := 100, running := false, pending := true, caption := Recaption(keying, s.caption, s.counter, 100))
    else
      var c := s.counter + r + 1;
      s.(counter := c, caption := Recaption(keying, s.caption, s.counter, c))
  }

  /** The delayed finish: the screen leaves and the session is marked. */
  function Timeout(s: Loader): (t: Loader)
    ensures s.pending ==> !t.loading && t.visited && !t.pending && t.counter == s.counter
    ensures !s.pending ==> t == s
  {
    if s.pending then s.(loading := false, visited := true, pending := false) else s
  }

  /** The ticks with the draws `ds`, in order. */
  function Run(keying: Keying, s: Loader, ds: seq<nat>): (t: Loader)
    requires forall i :: 0 <= i < |ds| ==> ds[i] < 3
    decreases |ds|
  {
    if ds == [] then s else Tick(keying, Run(keying, s, ds[..|ds| - 1]), ds[|ds| - 1])
  }

  /** The percentage shown: the counter, capped at 100. */
  function Shown(counter: nat): (p: nat)
    ensures p <= 100
    ensures p == 100 <==> counter >= 100
    ensures counter < 100 ==> p == counter
  {
    if counter < 100 then counter else 100
  }

  /** The caption prop switches exactly when the shown percentage reaches
      100. */
  lemma LabelFollowsShown(counter: nat)
    ensures Label(counter) == Granted <==> Shown(counter) == 100
  {
    assert Initializing[0] != Granted[0];
  }

  /** A visited session never shows the counter move, whatever the draws. */
  lemma {:induction false} VisitedSkips(keying: Keying, ds: seq<nat>)
    requires forall i :: 0 <= i < |ds| ==> ds[i] < 3
    ensures Run(keying, Mount(true), ds) == Mount(true)
    decreases |ds|
  {
    if ds != [] {
      VisitedSkips(keying, ds[..|ds| - 1]);
    }
  }

  /** The shown percentage never goes down from tick to tick, although the
      counter itself can (an overshoot to 101 or 102 is set back to 100). */
  lemma ShownMonotone(keying: Keying, s: Loader, r: nat)
    requires r < 3
    ensures Shown(s.counter) <= Shown(Tick(keying, s, r).counter)
  {
  }

  /** From a first visit, after k ticks: while the interval runs the
      counter is at least k, so it runs for at most 100 ticks; once it has
      stopped the counter is exactly 100 and the finish is pending. */
  lemma {:induction false} RunBound(keying: Keying, ds: seq<nat>)
    requires forall i :: 0 <= i < |ds| ==> ds[i] < 3
    ensures var s := Run(keying, Mount(false), ds);
      s.loading && !s.visited
      && (s.running ==> |ds| <= 100 && |ds| <= s.counter <= 102 && !s.pending)
      && (!s.running ==> s.counter == 100 && s.pending)
    decreases |ds|
  {
    if ds != [] {
      RunBound(keying, ds[..|ds| - 1]);
    }
  }

  /** As written, the caption's instance is never remounted and nothing
      feeds it the new prop: it keeps showing "SYSTEM INITIALIZING...",
      whatever the counter reads. */
  lemma {:induction false} ReusedCaptionStays(ds: seq<nat>)
    requires forall i :: 0 <= i < |ds| ==> ds[i] < 3
    ensures Run(Reused, Mount(false), ds).caption == GlitchText.Initial(Initializing)
    decreases |ds|
  {
    if ds != [] {
      ReusedCaptionStays(ds[..|ds| - 1]);
    }
  }

  /** Keyed, the caption on screen is always the prop for the counter. */
  lemma {:induction false} KeyedCaptionFollows(ds: seq<nat>)
    requires forall i :: 0 <= i < |ds| ==> ds[i] < 3
    ensures var s := Run(Keyed, Mount(false), ds);
      s.caption.display == Label(s.counter) && !s.caption.running
    decreases |ds|
  {
    if ds != [] {
      KeyedCaptionFollows(ds[..|ds| - 1]);
    }
  }

  /** Whatever the draws, 101 ticks are enough: by then the counter reads
      100, the caption prop has switched, and the next timeout removes the
      screen and marks the session, so the next mount skips the screen. The
      caption on screen reads "ACCESS GRANTED" only when keyed; as written
      it still reads "SYSTEM INITIALIZING...". */
  lemma FirstVisitFinishes(keying: Keying, ds: seq<nat>)
    requires forall i :: 0 <= i < |ds| ==> ds[i] < 3
    requires |ds| >= 101
    ensures var s := Run(keying, Mount(false), ds);
      !s.running && s.counter == 100 && Label(s.counter) == Granted
      && !Timeout(s).loading && Mount(Timeout(s).visited) == Mount(true)
      && (keying == Keyed ==> s.caption.display == Granted)
      && (keying == Reused ==> s.caption.display == Initializing)
  {
    RunBound(keying, ds);
    if keying == Keyed {
      KeyedCaptionFollows(ds);
    } else {
      ReusedCaptionStays(ds);
    }
  }
}
