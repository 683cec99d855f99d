/** The home page's own logic: the two rotating counters driven by
    intervals (the profile picture and the role line), the contact tiles
    with their click dispatch and toast, and the doubled lists behind the
    two marquees. Each interval tick is one call of a step function. */
module Home {
  import opened Js
  import opened Host

  // ----- rotating counters -----

  /** One interval tick of a counter over `n` entries: `(prev + 1) % n`. */
  function Tick(prev: nat, n: nat): (next: nat)
    requires n > 0
    ensures prev < n - 1 ==> next == prev + 1
    ensures prev == n - 1 ==> next == 0
    ensures next < n
  {
    RemOfNatural(prev + 1, n);
    SmallMod(prev + 1, n);
    Rem(prev + 1, n)
  }

  /** `k` ticks in a row. */
  function Ticks(start: nat, n: nat, k: nat): (r: nat)
    requires n > 0
    decreases k
  {
    if k == 0 then start else Tick(Ticks(start, n, k - 1), n)
  }

  /** `k` ticks advance an in-range counter by `k` places around the cycle. */
  lemma {:induction false} TicksAdvance(start: nat, n: nat, k: nat)
    requires n > 0 && start < n
    ensures Ticks(start, n, k) == (start + k) % n
  {
    if k == 0 {
      SmallMod(start, n);
    } else {
      TicksAdvance(start, n, k - 1);
      var prev := (start + k - 1) % n;
      ModStep(start + k - 1, n);
      assert Tick(prev, n) == (prev + 1) % n by { SmallMod(prev + 1, n); }
    }
  }

  /** Stepping the remainder steps the number. */
  lemma ModStep(a: nat, n: nat)
    requires n > 0
    ensures (a % n + 1) % n == (a + 1) % n
  {
    var q := a / n;
    var r := a % n;
    assert a == q * n + r;
    if r + 1 < n {
      ModUnique(a + 1, n, q, r + 1);
      ModUnique(r + 1, n, 0, r + 1);
    } else {
      assert a + 1 == (q + 1) * n;
      ModUnique(a + 1, n, q + 1, 0);
      ModUnique(r + 1, n, 1, 0);
    }
  }

  /** The profile picture alternates between its two images. */
  const ProfileImages: seq<string> := ["/Pictures/odin_formal.jpg", "/Pictures/odin_informal.jpg"]

  lemma ProfileAlternates(i: nat)
    requires i < |ProfileImages|
    ensures Tick(i, |ProfileImages|) < 2 && Tick(i, |ProfileImages|) != i
    ensures Tick(Tick(i, |ProfileImages|), |ProfileImages|) == i
  {
  }

  /** The role line cycles through these. */
  const Roles: seq<string> := [
    "Associate to the External Vice President - CSSEC",
    "Overall Assistant Head - CS Cluster",
    "Cluster Liaison Head",
    "Cluster Head",
    "Assistant Head - PSITS AdDU CS",
    "Head - Event Tech Productions",
    "Associate External Affairs Director - IT Week 2025"]

  /** The role index is always a valid index into the roles; from the
      initial 0 the k-th tick of the first seven shows role k, and every
      seven ticks the role repeats. */
  lemma RolesCycle(start: nat, k: nat)
    requires start < |Roles|
    ensures Ticks(start, |Roles|, k) < |Roles|
    ensures start == 0 && k < |Roles| ==> Ticks(start, |Roles|, k) == k
    ensures Ticks(start, |Roles|, k + |Roles|) == Ticks(start, |Roles|, k)
  {
    TicksAdvance(start, |Roles|, k);
    TicksAdvance(start, |Roles|, k + |Roles|);
    ModAddSelf(start + k, |Roles|);
    if start == 0 && k < |Roles| {
      SmallMod(k, |Roles|);
    }
  }

  // ----- contact tiles -----

  datatype Contact = Contact(title: string, link: string)

  /** The four contact tiles, in display order. */
  const Contacts: seq<Contact> := [
    Contact("GitHub", "https://github.com/yyaahhzxc/"),
    Contact("Facebook", "https://www.facebook.com/odin.yahyah/"),
    Contact("LinkedIn", "https://www.linkedin.com/in/yahyah-odin-1083b2373/"),
    Contact("Email", "yahyahodin@gmail.com")]

  /** The toast's state after an event, and what was asked of the browser. */
  datatype ClickResult = ClickResult(toastOpen: bool, effect: Effect)

  /** `handleContactClick`: the e-mail tile copies its address and shows the
      toast; any other tile opens its link in a new tab and leaves the
      toast alone. */
  function ContactClick(toastOpen: bool, title: string, link: string): (r: ClickResult)
    ensures title == "Email" <==> r.effect.WriteClipboard?
    ensures title == "Email" ==> r == ClickResult(true, WriteClipboard(link))
    ensures title != "Email" ==> r == ClickResult(toastOpen, OpenWindow(link, "_blank"))
  {
    if title == "Email" then ClickResult(true, WriteClipboard(link))
    else ClickResult(toastOpen, OpenWindow(link, "_blank"))
  }

  /** The snackbar's close handler, called on its auto-hide timeout and on
      a click away. */
  function CloseToast(toastOpen: bool): (r: bool)
    ensures !r
  {
    false
  }

  /** What can happen to the toast: a contact tile is clicked, or the
      snackbar asks to close. */
  datatype ToastEvent = TileClick(title: string, link: string) | ToastClosed

  /** A click on the e-mail tile. */
  predicate EmailClick(e: ToastEvent) {
    e.TileClick? && e.title == "Email"
  }

  /** The toast flag after a sequence of events, from its initial `false`. */
  function ToastAfter(es: seq<ToastEvent>): (open: bool)
    decreases |es|
  {
    if es == [] then false
    else
      var prev := ToastAfter(es[..|es| - 1]);
      match es[|es| - 1]
      case TileClick(t, l) => ContactClick(prev, t, l).toastOpen
      case ToastClosed => CloseToast(prev)
  }

  /** The toast is shown exactly when some e-mail click has not been
      followed by a close request. */
  lemma {:induction false} ToastShowsAfterEmail(es: seq<ToastEvent>)
    ensures ToastAfter(es) <==>
      exists i :: 0 <= i < |es| && EmailClick(es[i])
        && forall j :: i < j < |es| ==> es[j] != ToastClosed
    decreases |es|
  {
    if es != [] {
      var n := |es| - 1;
      var pre := es[..n];
      ToastShowsAfterEmail(pre);
      var e := es[n];
      if e.ToastClosed? {
        assert !ToastAfter(es);
        forall i | 0 <= i < |es| && EmailClick(es[i])
          ensures exists j :: i < j < |es| && es[j] == ToastClosed
        {
          assert i < n;
        }
      } else if e.title == "Email" {
        assert ToastAfter(es);
        assert EmailClick(es[n]);
      } else {
        assert ToastAfter(es) == ToastAfter(pre);
        forall i | 0 <= i < n
          ensures (EmailClick(es[i]) && forall j :: i < j < |es| ==> es[j] != ToastClosed)
              <==> (EmailClick(pre[i]) && forall j :: i < j < |pre| ==> pre[j] != ToastClosed)
        {
          assert pre[i] == es[i];
          assert forall j :: i < j < |pre| ==> pre[j] == es[j];
        }
        if ToastAfter(pre) {
          var i :| 0 <= i < |pre| && EmailClick(pre[i])
            && forall j :: i < j < |pre| ==> pre[j] != ToastClosed;
          assert EmailClick(es[i]) && forall j :: i < j < |es| ==> es[j] != ToastClosed;
        }
      }
    }
  }

  /** Of the four tiles only the last copies; the other three open their
      link in a new tab, and the toast shows only after the e-mail tile. */
  lemma OnlyEmailCopies(toastOpen: bool, i: nat)
    requires i < |Contacts|
    ensures var r := ContactClick(toastOpen, Contacts[i].title, Contacts[i].link);
      (i == 3 <==> r.effect == WriteClipboard("yahyahodin@gmail.com"))
      && (i < 3 ==> r.effect == OpenWindow(Contacts[i].link, "_blank") && r.toastOpen == toastOpen)
      && (i == 3 ==> r.toastOpen)
  {
    assert Contacts[0].title[0] == 'G' && Contacts[1].title[0] == 'F' && Contacts[2].title[0] == 'L';
  }

  // ----- marquees -----

  /** The list a marquee renders: its source list twice over. */
  function Doubled<T>(xs: seq<T>): (r: seq<T>)
    ensures |r| == 2 * |xs|
    ensures r[..|xs|] == xs && r[|xs|..] == xs
  {
    xs + xs
  }

  /** The marquee slides by half its width; shifting the doubled list by
      one copy shows the same sequence, which is what makes the loop
      seamless. */
  lemma DoubledShiftInvariant<T>(xs: seq<T>, i: nat)
    requires i < |xs|
    ensures Doubled(xs)[i + |xs|] == Doubled(xs)[i] == xs[i]
  {
  }

  const TimelineYears: seq<string> := ["2025", "2024", "2023", "2022", "2021"]

  const WorkImages: seq<string> := [
    "/Thumbnails/ACES DOTA 2 Postings_compress-page01.webp",
    "/Thumbnails/BAHAGHARI Vivant - General Assembly Presentation Slides_page1.webp",
    "/Thumbnails/CSSEC Committee Recruitment_compress-page01.webp",
    "/Thumbnails/Gender and Development E-Magazine-page01.webp",
    "/Thumbnails/Payment Tracker - High Fidelity Wireframe_page1.webp",
    "/Thumbnails/TESDA Website Revamped - High Fidelity Wireframe-page01.webp",
    "/Thumbnails/White Teeth Dental Clinic Main Modules - High-Fidelity Wireframe_page2.webp",
    "/Thumbnails/Palaro 2025 Recruitment Boosting PubMats_page1.webp"]

  /** The two marquees render ten timeline entries and sixteen thumbnails,
      each thumbnail twice, eight places apart. */
  lemma MarqueeLengths()
    ensures |Doubled(TimelineYears)| == 10 && |Doubled(WorkImages)| == 16
    ensures forall i :: 0 <= i < 8 ==> Doubled(WorkImages)[i + 8] == WorkImages[i]
  {
    forall i | 0 <= i < 8
      ensures Doubled(WorkImages)[i + 8] == WorkImages[i]
    {
      DoubledShiftInvariant(WorkImages, i);
    }
  }
}
