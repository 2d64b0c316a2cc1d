/** The navigation bar's scroll effect: on every scroll event the bar gets
    the `scrolled` class when the page is scrolled more than 50 pixels down,
    and loses it otherwise. */
module Navbar {

  /** The scroll offset, in CSS pixels, beyond which the bar is styled as
      scrolled. */
  const ScrollThreshold: real := 50.0

  /** The class the handler adds and removes. */
  const ScrolledClass: string := "scrolled"

  /** The bar's classes after a scroll event at vertical offset `scrollY`. */
  function ClassesAfterScroll(classes: set<string>, scrollY: real): (r: set<string>)
    ensures ScrolledClass in r <==> scrollY > ScrollThreshold
    ensures r - {ScrolledClass} == classes - {ScrolledClass}
  {
    if scrollY > ScrollThreshold then classes + {ScrolledClass} else classes - {ScrolledClass}
  }

  /** Only the latest scroll offset matters: a scroll event erases whatever
      the previous one decided. */
  lemma LatestScrollDecides(classes: set<string>, y1: real, y2: real)
    ensures ClassesAfterScroll(ClassesAfterScroll(classes, y1), y2) == ClassesAfterScroll(classes, y2)
  {
  }

  /** Handling the same offset twice changes nothing more. */
  lemma ScrollIdempotent(classes: set<string>, y: real)
    ensures ClassesAfterScroll(ClassesAfterScroll(classes, y), y) == ClassesAfterScroll(classes, y)
  {
  }

  /** The navigation bar element and its class list. */
  class NavBar {
    var classes: set<string>

    constructor (initial: set<string>)
      ensures classes == initial
    {
      classes := initial;
    }

    /** The scroll handler, given the window's current `scrollY`. */
    method OnScroll(scrollY: real)
      modifies this
      ensures classes == ClassesAfterScroll(old(classes), scrollY)
      ensures ScrolledClass in classes <==> scrollY > ScrollThreshold
    {
      if scrollY > ScrollThreshold {
        classes := classes + {ScrolledClass};
      } else {
        classes := classes - {ScrolledClass};
      }
    }
  }
}
