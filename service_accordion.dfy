/** The service cards and their toggle buttons. Each card is expanded or
    collapsed, and its toggle button shows a label. Clicking the toggle of a
    card collapses every card, resets every label and, when that card was
    collapsed before the click, expands it again. The cards are numbered in
    document order; the clicked button is the toggle of card `k`. */
module ServiceAccordion {

  /** The label of a collapsed card's toggle. */
  const PlusLabel: string := "+"

  /** The label the handler gives the expanded card's toggle. The script
      holds the UTF-8 bytes of U+2212 (minus sign) decoded once more as
      Windows-1252, so the label is these three characters, not U+2212. */
  const MinusLabel: string := "\U{00E2}\U{02C6}\U{2019}"

  /** No two cards are expanded at once. */
  ghost predicate AtMostOneExpanded(cards: seq<bool>) {
    forall i, j | 0 <= i < |cards| && 0 <= j < |cards| && cards[i] && cards[j] :: i == j
  }

  /** Every toggle label agrees with its card: the minus label on the
      expanded card, `+` on every collapsed one. */
  ghost predicate LabelsAgree(cards: seq<bool>, labels: seq<string>) {
    |labels| == |cards| &&
    forall i | 0 <= i < |cards| :: labels[i] == if cards[i] then MinusLabel else PlusLabel
  }

  /** The card states after toggling card `k`. */
  function Toggled(cards: seq<bool>, k: nat): (r: seq<bool>)
    requires k < |cards|
    ensures |r| == |cards|
  {
    seq(|cards|, i requires 0 <= i < |cards| => i == k && !cards[k])
  }

  /** Whatever the states before, a toggle leaves at most one card
      expanded. */
  lemma ToggledAtMostOne(cards: seq<bool>, k: nat)
    requires k < |cards|
    ensures AtMostOneExpanded(Toggled(cards, k))
  {
  }

  /** Toggling an expanded card collapses every card. */
  lemma ToggleExpandedCollapsesAll(cards: seq<bool>, k: nat)
    requires k < |cards| && cards[k]
    ensures forall i | 0 <= i < |cards| :: !Toggled(cards, k)[i]
  {
  }

  /** Toggling a collapsed card leaves exactly that card expanded. */
  lemma ToggleCollapsedExpandsOnly(cards: seq<bool>, k: nat)
    requires k < |cards| && !cards[k]
    ensures forall i | 0 <= i < |cards| :: Toggled(cards, k)[i] <==> i == k
  {
  }

  /** Toggling the same card twice in a row gives that card back the state
      it had before the first click and leaves every other card collapsed. */
  lemma ToggleTwiceRestoresCard(cards: seq<bool>, k: nat)
    requires k < |cards|
    ensures forall i | 0 <= i < |cards| :: Toggled(Toggled(cards, k), k)[i] <==> i == k && cards[k]
  {
  }

  /** Toggling card `j` after card `k` leaves only card `j` expanded when
      they differ: opening a card closes the one opened before. */
  lemma ToggleOtherMovesExpansion(cards: seq<bool>, k: nat, j: nat)
    requires k < |cards| && j < |cards| && j != k
    ensures forall i | 0 <= i < |cards| :: Toggled(Toggled(cards, k), j)[i] <==> i == j
  {
  }

  /** The cards of the page: `expanded[i]` is whether card `i` carries the
      `expanded` class, `labels[i]` the text of its toggle button. */
  class Cards {
    const expanded: array<bool>
    const labels: array<string>

    ghost predicate Valid()
      reads this
    {
      expanded.Length == labels.Length
    }

    constructor (cards: seq<bool>, toggles: seq<string>)
      requires |cards| == |toggles|
      ensures Valid() && fresh(expanded) && fresh(labels)
      ensures expanded[..] == cards && labels[..] == toggles
    {
      expanded := new bool[|cards|](i requires 0 <= i < |cards| => cards[i]);
      labels := new string[|toggles|](i requires 0 <= i < |toggles| => toggles[i]);
    }

    /** The click handler of card `k`'s toggle button. */
    method Toggle(k: nat)
      requires Valid() && k < expanded.Length
      modifies expanded, labels
      ensures Valid()
      ensures expanded[..] == Toggled(old(expanded[..]), k)
      ensures LabelsAgree(expanded[..], labels[..])
      ensures AtMostOneExpanded(expanded[..])
    {
      var wasExpanded := expanded[k];
      var i := 0;
      while i < expanded.Length
        invariant 0 <= i <= expanded.Length
        invariant forall j | 0 <= j < i :: !expanded[j] && labels[j] == PlusLabel
      {
        expanded[i] := false;
        labels[i] := PlusLabel;
        i := i + 1;
      }
      if !wasExpanded {
        expanded[k] := true;
        labels[k] := MinusLabel;
      }
    }
  }
}
