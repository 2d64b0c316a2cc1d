# Marketing-site script: decision and state logic

The site's single script, `script.js`, adds interactivity to a marketing
page. This project models the parts of it that take a decision or update
state in a way that can be stated precisely. The parts that only drive the
browser are not modelled. There is one Dafny module per modelled section of
the script:

- `ContactForm` (`contact_form.dfy`): the contact form handler. It checks
  that the name, email and message fields are present and non-empty. It
  then checks the email against `^[^\s@]+@[^\s@]+\.[^\s@]+$` and accepts or
  rejects the submission. The regular expression is modelled twice. One
  version, `MatchesEmailPattern`, follows the regular expression's shape
  (run, `@`, run, `.`, run). The other, `IsValidEmail`, checks character by
  character. A lemma proves that they accept the same strings.
- `ServiceAccordion` (`service_accordion.dfy`): `toggleService`, as a class
  holding one array of expanded flags and one array of toggle labels. Its
  `Toggle` method collapses every card and resets every label in a loop. It
  then expands the clicked card only when that card was collapsed before.
- `MobileMenu` (`mobile_menu.dfy`): the mobile menu button, as a class
  holding the nine inline style properties the click handler writes.
- `Navbar` (`navbar.dfy`): the scroll handler that adds or removes the
  `scrolled` class of the navigation bar at the 50-pixel threshold.
- `StatCounter` (`stat_counter.dfy`): the counters' start guard (only a
  counter showing `0` animates) and the text a counter shows when its
  animation ends.

The minus label that `toggleService` gives the expanded card is modelled as
written. The script's bytes hold U+2212 (minus sign) encoded as UTF-8 and
then decoded once more as Windows-1252. Read as UTF-8, that gives the
three characters U+00E2 U+02C6 U+2019.

JavaScript's `\s` class is modelled by `ContactForm.IsWs`. It lists the
ECMAScript WhiteSpace and LineTerminator code points, taking the Unicode
space separators as of Unicode 15. No lemma depends on which code points it
lists.

## Model

| member | source | states |
|---|---|---|
| ContactForm.EmailTestIsPattern | script.js:227-228 | The character-by-character email test accepts a string exactly when `^[^\s@]+@[^\s@]+\.[^\s@]+$` matches it, in both directions. |
| ContactForm.ValidEmailHasOneAt | script.js:227-228 | An address that passes the email test holds exactly one `@`. |
| ContactForm.Validate | script.js:215-231 | The outcome is the missing-fields rejection exactly when name, email or message is absent or empty. It is the invalid-email rejection exactly when all three are filled and the email does not match the regular expression. It is acceptance exactly when all three are filled and the email matches. |
| ContactForm.MissingFieldWins | script.js:216-224 | An absent or empty name, email or message gives the missing-fields rejection, whatever the other fields hold. |
| ContactForm.ProjectIsIgnored | script.js:218-231 | Changing the project field never changes the outcome. |
| ContactForm.EmptyEmailIsMissing | script.js:221-231 | An absent or empty email gives the missing-fields rejection, never the invalid-email one, because the required-field check runs first. |
| ContactForm.AcceptedEmailShape | script.js:221-240 | The email of a submission that reaches the success branch holds exactly one `@`. It splits into a non-empty local part and a domain with a `.` that is neither the domain's first nor its last character. Neither part holds whitespace or `@`. |
| ServiceAccordion.Toggled | script.js:166-179 | The toggle yields one state per card (the lemmas below state which). |
| ServiceAccordion.ToggledAtMostOne | script.js:170-178 | After any toggle, at most one card is expanded, whatever the states were before. |
| ServiceAccordion.ToggleExpandedCollapsesAll | script.js:168-178 | Toggling a card that was expanded leaves every card collapsed. |
| ServiceAccordion.ToggleCollapsedExpandsOnly | script.js:168-178 | Toggling a card that was collapsed leaves exactly that card expanded. |
| ServiceAccordion.ToggleTwiceRestoresCard | script.js:168-178 | Two toggles of the same card give it back its state from before the first toggle. Every other card ends collapsed. |
| ServiceAccordion.ToggleOtherMovesExpansion | script.js:168-178 | Toggling card `j` after a different card `k` leaves only `j` expanded. |
| ServiceAccordion.Cards.Toggle | script.js:166-179 | The in-place update: the new card states are the toggled old states. Every collapsed card's label is `+` and the expanded card's label is the minus label. At most one card is expanded. |
| MobileMenu.AfterClick | script.js:197-211 | A click on a shown menu (`display` is `flex`) sets `display` to `none` and changes nothing else. A click in any other state shows the menu with the full dropdown layout. |
| MobileMenu.ClicksAlternate | script.js:197-211 | After `n >= 1` clicks the menu is shown exactly when `n` is odd and it was not shown at first, or `n` is even and it was. Every click flips it between `flex` and `none`. |
| MobileMenu.TwoClicksFromShown | script.js:198-210 | Two clicks from `flex` return to `flex`, now with the dropdown layout whatever layout there was before. |
| MobileMenu.ShownAfterClicksHasLayout | script.js:198-210 | Whenever one or more clicks leave the menu shown, all nine layout properties hold the dropdown values. |
| MobileMenu.NavLinks.Click | script.js:197-211 | The in-place update of the nine style fields is the one `AfterClick` describes. |
| Navbar.ClassesAfterScroll | script.js:16-22 | After a scroll event the bar has `scrolled` exactly when `scrollY > 50`. Every other class is unchanged. |
| Navbar.LatestScrollDecides | script.js:16-22 | Only the latest scroll offset matters: handling one offset and then another is the same as handling the second alone. |
| Navbar.ScrollIdempotent | script.js:16-22 | Handling the same offset twice is the same as handling it once. |
| Navbar.NavBar.OnScroll | script.js:16-22 | The handler updates the class set as `ClassesAfterScroll` describes, so `scrolled` is present exactly when `scrollY > 50`. |
| StatCounter.DigitsDenote | script.js:154 | The digits written for a natural number are decimal digits, with no leading zero. A number below 10 has exactly one digit, and a number from 1000 up has at least four. Their value is the number. |
| StatCounter.DecimalRoundTrip | script.js:154 | Reading back the decimal text of an integer gives the integer. |
| StatCounter.FinalLabel | script.js:154 | The final text starts with the target's decimal text. It ends with `+`, one character longer, exactly when the target is below 1000. Otherwise it is the decimal text alone. |
| StatCounter.FinalLabelIsNotStart | script.js:141-154 | A finished counter never shows `0`, so the start guard rejects it. |
| StatCounter.RevealOnce | script.js:141-157 | A counter animates at most once. After a first reveal, any later reveal leaves its text unchanged, whatever target it reads. |
| StatCounter.Counter.OnReveal | script.js:140-157 | A counter whose text is `0` gets its final text, which ends in `+` exactly when the target is below 1000. Any other counter is left as it was. |

## Left out

- The preloader (script.js:1-12) and the page-load reveal timers (script.js:243-253) are left out. They only schedule style changes with `setTimeout` and hold no decision.
- The mouse spotlight (script.js:24-36) is left out. It is element geometry from `getBoundingClientRect`, written to CSS custom properties.
- The particle background (script.js:38-131) is left out. It is floating-point physics, with `Math.random`, `Math.sqrt`, `Math.atan2` and trigonometry, drawn on a canvas in an animation-frame loop.
- The `IntersectionObserver` wiring (script.js:134-137, 161-163) and smooth scrolling (script.js:181-190) are left out. They are browser event APIs. The model takes "this section came into view" and "this button was clicked" as calls.
- The counter's intermediate frames (script.js:143-152) are left out. Their fractional increments, `Math.ceil` and `requestAnimationFrame` depend on timing. `StatCounter.Counter.OnReveal` goes straight to the final text that the last frame writes.
- StatCounter.Counter.OnReveal: the target is an integer parameter. The conversion `+counter.getAttribute('data-target')` is not modelled, so a missing, fractional or non-numeric attribute is not modelled either.
- StatCounter.FinalLabel: the target's exact decimal text, which is guaranteed to match JavaScript's text only for integers of magnitude up to 2^53. The target (script.js:143) is a double, and JavaScript prints the shortest digits that read back as the same double, padded with zeros. For example, 2^60 gives `1152921504606847000` in the script but `1152921504606846976` here. JavaScript also writes magnitudes of 10^21 and above in exponent form. Neither form is modelled.
- ContactForm.Validate: the side effects of the handler are left out. The DOM lookups of the four fields (script.js:216-219) run on every path. An `alert` is shown on each of the two rejection paths (script.js:222, 229). Only `Accepted` reaches the `console.log`, the thank-you `alert` and `form.reset()` (script.js:234-240).
- ContactForm.IsWs: JavaScript strings are sequences of UTF-16 code units and can hold unpaired surrogates, which a Dafny `char` cannot. A surrogate pair is one `char` here. Neither its units nor the character are whitespace or `@`, so the match result is the same.
- ServiceAccordion.Cards.Toggle: the clicked button is taken to be card `k`'s own `.service-toggle` element. A page where a card has no toggle element, or the button is outside every card, makes the script throw. That case is not modelled.
- Navbar.NavBar.OnScroll: the class list is modelled as a set. The order of the class tokens is not modelled.
- Navbar.NavBar.OnScroll: the scroll listener (script.js:15-16) is registered without checking that the page has a `#navbar` element. On a page without one, every scroll event throws at script.js:18 or script.js:20. The model always has a navigation bar, so that case is not modelled.
- The registration guard of the mobile menu (script.js:193-196) is left out. It only decides whether the click handler is attached at all.
