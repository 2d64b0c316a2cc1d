/** The mobile menu button. Each click either hides the navigation links
    (when their inline `display` is `flex`) or shows them as a full-width
    column under the navigation bar (any other `display`, including the
    empty inline value the page starts with). The click handler is only
    registered when the page has both the button and the links. */
module MobileMenu {

  /** The values the handler has written to the inline style properties
      of the navigation links (as written, not as the browser reads them
      back: `left = '0'` reads back as `0px`; only `display` is ever read). */
  datatype InlineStyle = InlineStyle(
    display: string, position: string, top: string, left: string, right: string,
    flexDirection: string, background: string, padding: string, gap: string)

  /** The dropdown layout the handler applies when it opens the menu. */
  ghost predicate HasOpenLayout(st: InlineStyle) {
    && st.display == "flex" && st.position == "absolute" && st.top == "100%"
    && st.left == "0" && st.right == "0" && st.flexDirection == "column"
    && st.background == "rgba(3, 3, 5, 0.98)" && st.padding == "2rem" && st.gap == "1.5rem"
  }

  /** The style after one click. Closing only hides the links; opening
      writes the whole dropdown layout. */
  function AfterClick(st: InlineStyle): (r: InlineStyle)
    ensures st.display == "flex" ==> r == st.(display := "none")
    ensures st.display != "flex" ==> HasOpenLayout(r)
  {
    if st.display == "flex" then
      st.(display := "none")
    else
      InlineStyle("flex", "absolute", "100%", "0", "0", "column",
                  "rgba(3, 3, 5, 0.98)", "2rem", "1.5rem")
  }

  /** The style after `n` clicks. */
  function AfterClicks(st: InlineStyle, n: nat): (r: InlineStyle)
    decreases n
  {
    if n == 0 then st else AfterClick(AfterClicks(st, n - 1))
  }

  /** After one click or more the menu alternates between shown and hidden:
      the `n`-th click shows it exactly when `n` is odd and the links were
      not shown to begin with, or `n` is even and they were. */
  lemma {:induction false} ClicksAlternate(st: InlineStyle, n: nat)
    requires n >= 1
    ensures AfterClicks(st, n).display ==
      if (n % 2 == 1) == (st.display != "flex") then "flex" else "none"
  {
    if n > 1 {
      ClicksAlternate(st, n - 1);
    }
  }

  /** Two clicks from a shown menu leave it shown, and from then on it has
      the dropdown layout, whatever layout it had before. */
  lemma TwoClicksFromShown(st: InlineStyle)
    requires st.display == "flex"
    ensures HasOpenLayout(AfterClick(AfterClick(st)))
  {
  }

  /** Whenever a click leaves the menu shown, it has the dropdown layout:
      the handler never shows the links without writing it. */
  lemma ShownAfterClicksHasLayout(st: InlineStyle, n: nat)
    requires n >= 1 && AfterClicks(st, n).display == "flex"
    ensures HasOpenLayout(AfterClicks(st, n))
  {
  }

  /** The navigation links element, with the values written to the inline
      style properties the handler sets. */
  class NavLinks {
    var display: string
    var position: string
    var top: string
    var left: string
    var right: string
    var flexDirection: string
    var background: string
    var padding: string
    var gap: string

    /** The values written to the nine style properties, as one value. */
    function Style(): (st: InlineStyle)
      reads this
    {
      InlineStyle(display, position, top, left, right, flexDirection, background, padding, gap)
    }

    /** The links as the page loads them: no inline style set. */
    constructor ()
      ensures Style() == InlineStyle("", "", "", "", "", "", "", "", "")
    {
      display, position, top, left, right := "", "", "", "", "";
      flexDirection, background, padding, gap := "", "", "", "";
    }

    /** The click handler of the mobile menu button. */
    method Click()
      modifies this
      ensures Style() == AfterClick(old(Style()))
    {
      if display == "flex" {
        display := "none";
      } else {
        display := "flex";
        position := "absolute";
        top := "100%";
        left := "0";
        right := "0";
        flexDirection := "column";
        background := "rgba(3, 3, 5, 0.98)";
        padding := "2rem";
        gap := "1.5rem";
      }
    }
  }
}
