/** A bento tile's presentation rules, decided from which optional props
    were supplied (with JavaScript truthiness: an empty string counts as
    absent), and the grid's stagger of its children's entrance. */
module BentoGrid {
  import opened Js

  /** The props that decide the tile's look. A supplied icon or click
      handler is only ever present or absent. */
  datatype TileProps = TileProps(
    title: Option<string>,
    subtitle: Option<string>,
    hasIcon: bool,
    link: Option<string>,
    hasOnClick: bool,
    background: Option<string>,
    gradient: Option<bool>,
    alwaysActive: Option<bool>)

  datatype Cursor = Pointer | Default

  /** A pointer over anything that reacts to a click. */
  function CursorOf(p: TileProps): (c: Cursor)
    ensures c == Pointer <==> TruthyString(p.link) || p.hasOnClick
  {
    if TruthyString(p.link) || p.hasOnClick then Pointer else Default
  }

  /** The rotating border's opacity at rest: shown only on always-active tiles. */
  function RestOpacity(p: TileProps): (o: int)
    ensures o == 1 <==> TruthyFlag(p.alwaysActive)
    ensures o == 0 <==> !TruthyFlag(p.alwaysActive)
  {
    if TruthyFlag(p.alwaysActive) then 1 else 0
  }

  /** Under the pointer the border is always shown. */
  const HoverOpacity: int := 1

  /** Hovering never dims a tile, and it changes the border exactly on the
      tiles that are not always active. */
  lemma HoverReveals(p: TileProps)
    ensures RestOpacity(p) <= HoverOpacity
    ensures RestOpacity(p) != HoverOpacity <==> !TruthyFlag(p.alwaysActive)
  {
  }

  /** The gradient line along the top edge. */
  predicate GradientLine(p: TileProps) {
    TruthyFlag(p.gradient) && !TruthyFlag(p.alwaysActive)
  }

  /** The gradient line and the resting border never show together. */
  lemma GradientOnlyWithoutBorder(p: TileProps)
    ensures GradientLine(p) ==> RestOpacity(p) == 0
    ensures TruthyFlag(p.gradient) && RestOpacity(p) == 0 ==> GradientLine(p)
  {
  }

  /** The header block: present when there is a title or an icon. */
  predicate HeaderShown(p: TileProps) {
    TruthyString(p.title) || p.hasIcon
  }

  /** The subtitle lives inside the header block. */
  predicate SubtitleShown(p: TileProps) {
    HeaderShown(p) && TruthyString(p.subtitle)
  }

  /** A subtitle alone, or with an empty title, is not shown. */
  lemma SubtitleNeedsHeader(p: TileProps)
    ensures SubtitleShown(p) ==> HeaderShown(p) && TruthyString(p.subtitle)
    ensures !p.hasIcon && (p.title == None || p.title == Some("")) ==> !SubtitleShown(p)
  {
  }

  /** An absent or empty link leaves the pointer cursor to the click
      handler alone. */
  lemma EmptyLinkIsInert(p: TileProps)
    requires p.link == Some("") || p.link == None
    ensures CursorOf(p) == Pointer <==> p.hasOnClick
  {
  }

  // ----- the grid -----

  /** The stagger step between children, in milliseconds. */
  const StaggerMs: nat := 100

  /** When child i starts its entrance, in milliseconds. */
  function EntranceDelay(i: nat): (ms: nat) {
    StaggerMs * i
  }

  /** Children enter in order, a fixed step apart, never two at once. */
  lemma EntranceOrdered(i: nat, j: nat)
    requires i < j
    ensures EntranceDelay(i) < EntranceDelay(j)
    ensures EntranceDelay(j) - EntranceDelay(i) == StaggerMs * (j - i)
  {
  }
}
