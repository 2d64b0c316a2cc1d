/** The statistic counters revealed on scroll. When a reveal section comes
    into view, each counter in it whose text is still `0` animates up to its
    target and then shows the target, followed by `+` when the target is
    below 1000. A counter showing anything else is left alone. The frames of
    the animation are not modelled: a reveal takes the counter straight to
    its final text. */
module StatCounter {

  /** The start guard: a counter animates only while its text is `0`. */
  predicate ShouldAnimate(text: string) {
    text == "0"
  }

  predicate IsDigit(c: char) {
    '0' <= c <= '9'
  }

  function DigitChar(d: nat): (c: char)
    requires d < 10
    ensures IsDigit(c) && c as int - '0' as int == d
  {
    ('0' as int + d) as char
  }

  /** The decimal digits of a natural number, without leading zeros. */
  function Digits(n: nat): (s: string)
    decreases n
  {
    if n < 10 then [DigitChar(n)] else Digits(n / 10) + [DigitChar(n % 10)]
  }

  /** The value of a string of decimal digits. */
  ghost function DigitsValue(s: string): (v: nat)
    decreases |s|
  {
    if s == [] then 0
    else DigitsValue(s[..|s| - 1]) * 10
         + (if IsDigit(s[|s| - 1]) then s[|s| - 1] as int - '0' as int else 0)
  }

  /** The exact decimal text of an integer: a `-` for negative values,
      then the digits. JavaScript's conversion of a number to a string
      gives this text for integers of magnitude up to 2^53. Above that it
      writes the shortest digits that read back as the same double, padded
      with zeros. */
  function Decimal(n: int): (s: string) {
    if n < 0 then "-" + Digits(-n) else Digits(n)
  }

  /** Reading a decimal text back as a number, the inverse of `Decimal`. */
  ghost function ParseDecimal(s: string): (n: int) {
    if |s| > 0 && s[0] == '-' then 0 - DigitsValue(s[1..]) else DigitsValue(s)
  }

  /** The digits are non-empty decimal digits with no leading zero, and they
      denote `n`. */
  lemma {:induction false} DigitsDenote(n: nat)
    ensures |Digits(n)| > 0
    ensures forall k | 0 <= k < |Digits(n)| :: IsDigit(Digits(n)[k])
    ensures n < 10 ==> |Digits(n)| == 1
    ensures |Digits(n)| > 1 ==> Digits(n)[0] != '0'
    ensures n >= 10 ==> |Digits(n)| >= 2
    ensures n >= 100 ==> |Digits(n)| >= 3
    ensures n >= 1000 ==> |Digits(n)| >= 4
    ensures DigitsValue(Digits(n)) == n
  {
    if n >= 10 {
      DigitsDenote(n / 10);
      var s := Digits(n);
      assert s == Digits(n / 10) + [DigitChar(n % 10)];
      assert s[..|s| - 1] == Digits(n / 10);
      assert s[0] == Digits(n / 10)[0];
    }
  }

  /** Decimal text round-trips: reading back what the conversion wrote
      gives the number. */
  lemma DecimalRoundTrip(n: int)
    ensures ParseDecimal(Decimal(n)) == n
  {
    if n < 0 {
      DigitsDenote(-n);
      assert Decimal(n)[1..] == Digits(-n);
    } else {
      DigitsDenote(n);
    }
  }

  /** The counter's text when its animation ends: the target, with `+`
      appended exactly when the target is below 1000. */
  function FinalLabel(target: int): (r: string)
    ensures target < 1000 ==> |r| == |Decimal(target)| + 1
    ensures target >= 1000 ==> |r| == |Decimal(target)|
    ensures |r| > 0 && r[..|Decimal(target)|] == Decimal(target)
    ensures r[|r| - 1] == '+' <==> target < 1000
  {
    DigitsDenote(if target < 0 then -target else target);
    Decimal(target) + (if target < 1000 then "+" else "")
  }

  /** A counter that has finished never shows `0`, so the start guard keeps
      a later reveal from animating it again. */
  lemma FinalLabelIsNotStart(target: int)
    ensures !ShouldAnimate(FinalLabel(target))
  {
    if target >= 1000 {
      DigitsDenote(target);
    }
  }

  /** The counter's text after its section is revealed. */
  function AfterReveal(text: string, target: int): (r: string) {
    if ShouldAnimate(text) then FinalLabel(target) else text
  }

  /** A counter animates at most once: after a first reveal, any later
      reveal, whatever target it reads, leaves the text unchanged. */
  lemma RevealOnce(text: string, target: int, later: int)
    ensures AfterReveal(AfterReveal(text, target), later) == AfterReveal(text, target)
  {
    FinalLabelIsNotStart(target);
  }

  /** A counter element with its current text. */
  class Counter {
    var text: string

    constructor (initial: string)
      ensures text == initial
    {
      text := initial;
    }

    /** What happens to this counter when its section comes into view and
        the target attribute reads `target`. */
    method OnReveal(target: int)
      modifies this
      ensures text == AfterReveal(old(text), target)
      ensures old(text) == "0" ==> |text| > 0 && (text[|text| - 1] == '+' <==> target < 1000)
    {
      if text != "0" {
        return;
      }
      text := FinalLabel(target);
    }
  }
}
