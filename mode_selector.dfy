/** The mode picker (components/ModeSelector.tsx): a fixed list of three cards, one per
    enhancement mode. It keeps no state: the highlighted card is computed from the
    `selectedMode` prop alone, and activating a card emits that card's mode. */
module ModeSelector {
  import opened Wrappers
  import opened EnhanceService

  datatype ModeCard = ModeCard(id: Mode, title: string)

  /** The cards in display order (the `modes` constant). */
  const Modes: seq<ModeCard> := [
    ModeCard(Face, "Face Focus"),
    ModeCard(Landscape, "Vivid Landscape"),
    ModeCard(General, "General Pro")
  ]

  /** A rendered card and whether it is highlighted. */
  datatype CardView = CardView(id: Mode, title: string, highlighted: bool)

  /** Highlight rule: a card is highlighted when the selected mode is its id. */
  predicate Highlighted(selected: Option<Mode>, id: Mode) {
    selected == Some(id)
  }

  /** The cards for a given `selectedMode`: the list in order, each highlighted exactly
      when its id is the selected mode. */
  function Render(selected: Option<Mode>): (cards: seq<CardView>)
    ensures |cards| == |Modes|
    ensures forall i :: 0 <= i < |cards| ==> cards[i].id == Modes[i].id && cards[i].title == Modes[i].title
    ensures forall i :: 0 <= i < |cards| ==> (cards[i].highlighted <==> selected == Some(Modes[i].id))
  {
    seq(|Modes|, i requires 0 <= i < |Modes| =>
      CardView(Modes[i].id, Modes[i].title, Highlighted(selected, Modes[i].id)))
  }

  /** Activating card `i` emits its id (`onSelectMode(mode.id)`). */
  function Activate(i: nat): (m: Mode)
    requires i < |Modes|
    ensures Render(Some(m))[i].highlighted
  {
    Modes[i].id
  }

  /** The ids are face, landscape, general, in that order: three distinct ids that cover
      every mode. */
  lemma ModesCoverEveryMode(m: Mode)
    ensures |Modes| == 3
    ensures Modes[0].id == Face && Modes[1].id == Landscape && Modes[2].id == General
    ensures exists i :: 0 <= i < |Modes| && Modes[i].id == m
    ensures forall i, j :: 0 <= i < j < |Modes| ==> Modes[i].id != Modes[j].id
  {
    match m
    case Face => assert Modes[0].id == m;
    case Landscape => assert Modes[1].id == m;
    case General => assert Modes[2].id == m;
  }

  /** At most one card is highlighted, and none when no mode is selected. */
  lemma AtMostOneHighlighted(selected: Option<Mode>, i: nat, j: nat)
    requires i < |Modes| && j < |Modes|
    requires Render(selected)[i].highlighted && Render(selected)[j].highlighted
    ensures i == j
    ensures selected.Some?
  {
    ModesCoverEveryMode(selected.value);
  }

  /** Activating a card and feeding its id back as `selectedMode` highlights exactly that card. */
  lemma ActivateHighlightsOnlyThatCard(i: nat, j: nat)
    requires i < |Modes| && j < |Modes|
    ensures Render(Some(Activate(i)))[j].highlighted <==> i == j
  {
    ModesCoverEveryMode(Modes[i].id);
  }
}
