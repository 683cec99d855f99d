/** The scramble effect on a piece of text: on hover an interval starts;
    each tick shows a frame in which a growing prefix of the text is real
    and the rest are random picks from a fixed character set, until the
    whole text is revealed and the interval stops.

    The reveal counter grows by one third per tick. It is modelled by the
    integer tick count k, with the counter equal to k / 3 in exact
    arithmetic: position j is real exactly when j < k / 3, that is when
    3 * j < k. The source sums 1/3 in floating point, and up to tick 117
    the sum equals k / 3 at ticks 0, 3, 9, 12, 30, 57 and 117, lies just
    above it at ticks 33, 36, ..., 54, so those frames reveal one character
    more than here, and lies just below it at the other multiples of 3, so
    for texts of 2, 5 to 9 or 20 to 38 characters (among them the site's
    20- and 22-character texts) the interval stops one tick later than
    here. */
module GlitchText {

  /** The characters a hidden position is drawn from. */
  const Chars: string := "-_~`!@#$%^&*()+=[]{}|;:,.<>?/0123456789ABCDEFGHIJKLMNOPQRSTUVWXYZ"

  /** A random pick from `Chars`. The draw is an input; reducing it modulo
      the set's size keeps every draw a valid index. */
  function Pick(draw: nat): (c: char)
    ensures c in Chars
  {
    Chars[draw % |Chars|]
  }

  /** Whether position j is already real at tick k. */
  predicate Revealed(j: nat, k: nat) {
    3 * j < k
  }

  /** The frame shown at tick k, with one draw per position. */
  function Frame(text: string, k: nat, draws: nat -> nat): (f: string)
    ensures |f| == |text|
    ensures forall j :: 0 <= j < |f| ==>
      (Revealed(j, k) ==> f[j] == text[j]) && (!Revealed(j, k) ==> f[j] in Chars)
  {
    var f := seq(|text|, j requires 0 <= j < |text| => if Revealed(j, k) then text[j] else Pick(draws(j)));
    assert forall j :: 0 <= j < |f| && !Revealed(j, k) ==> f[j] == Pick(draws(j)) && Pick(draws(j)) in Chars;
    f
  }

  /** A later tick reveals everything an earlier one did: the real prefix
      never shrinks, whatever the draws. */
  lemma RevealGrows(text: string, k1: nat, k2: nat, d1: nat -> nat, d2: nat -> nat, j: nat)
    requires k1 <= k2 && j < |text| && Revealed(j, k1)
    ensures Frame(text, k2, d2)[j] == Frame(text, k1, d1)[j] == text[j]
  {
  }

  /** The positions revealed at tick k form a prefix of length
      min(|text|, ceil(k / 3)), counting in exact arithmetic. */
  lemma RevealedPrefix(text: string, k: nat, draws: nat -> nat)
    ensures var m := if (k + 2) / 3 < |text| then (k + 2) / 3 else |text|;
      Frame(text, k, draws)[..m] == text[..m]
      && forall j :: m <= j < |text| ==> !Revealed(j, k)
  {
    var m := if (k + 2) / 3 < |text| then (k + 2) / 3 else |text|;
    forall j | 0 <= j < m
      ensures Revealed(j, k)
    {
      assert 3 * j + 3 <= 3 * ((k + 2) / 3) <= k + 2;
    }
    forall j | m <= j < |text|
      ensures !Revealed(j, k)
    {
      assert 3 * ((k + 2) / 3) >= k;
    }
  }

  // ----- the interval -----

  /** The component's state: what is displayed, whether an interval is
      running, and how many ticks it has made. */
  datatype Scramble = Scramble(display: string, running: bool, ticks: nat)

  /** Before any hover the text is shown as it is. */
  function Initial(text: string): (s: Scramble)
    ensures s.display == text && !s.running
  {
    Scramble(text, false, 0)
  }

  /** `startScramble`: any running interval is replaced by a fresh one whose
      counter starts at zero; the display is left as it was. */
  function Start(s: Scramble): (r: Scramble)
    ensures r.running && r.ticks == 0 && r.display == s.display
  {
    Scramble(s.display, true, 0)
  }

  /** One tick: show the frame for the current count, stop once the count
      has reached the length, then advance the count. Without a running
      interval nothing happens. */
  function Tick(text: string, s: Scramble, draws: nat -> nat): (r: Scramble)
    ensures !s.running ==> r == s
    ensures s.running ==> r.display == Frame(text, s.ticks, draws) && r.ticks == s.ticks + 1
    ensures s.running ==> (r.running <==> s.ticks < 3 * |text|)
  {
    if !s.running then s
    else
      var stop := s.ticks >= 3 * |text|;
      Scramble(Frame(text, s.ticks, draws), !stop, s.ticks + 1)
  }

  /** m ticks in a row; tick i draws with `draws(i)`. */
  function Run(text: string, s: Scramble, m: nat, draws: nat -> nat -> nat): (r: Scramble)
    decreases m
  {
    if m == 0 then s else Tick(text, Run(text, s, m - 1, draws), draws(m - 1))
  }

  /** After a start, the interval runs for exactly 3 * |text| + 1 ticks in
      exact arithmetic; it stops on the first tick at which the count has
      reached the length, and the frame left on screen is the text itself. */
  lemma {:induction false} RunStopsRevealed(text: string, s: Scramble, m: nat, draws: nat -> nat -> nat)
    ensures var r := Run(text, Start(s), m, draws);
      r.ticks == (if m <= 3 * |text| + 1 then m else 3 * |text| + 1)
      && (r.running <==> m <= 3 * |text|)
      && (m > 3 * |text| ==> r.display == text)
  {
    if m > 0 {
      RunStopsRevealed(text, s, m - 1, draws);
      var prev := Run(text, Start(s), m - 1, draws);
      if prev.running {
        var f := Frame(text, prev.ticks, draws(m - 1));
        if m > 3 * |text| {
          assert forall j :: 0 <= j < |text| ==> Revealed(j, prev.ticks);
          assert f == text;
        }
      }
    }
  }
}
