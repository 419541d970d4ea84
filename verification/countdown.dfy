/**
 * The countdown display of the sleep timer: the remaining milliseconds shown as
 * `M:SS`, whole minutes unpadded and seconds padded to two digits, with no hour field.
 * `ParseClock` reads such a display back: it is the exact inverse of the template
 * `Render`, and it determines `Format` up to whole seconds, since `Format` drops the
 * fraction of a second.
 */
module Countdown {
  import opened Options
  import opened Decimal

  /** A non-negative, possibly fractional, number of milliseconds. */
  type Millis = r: real | 0.0 <= r

  /** What a display reads as: whole minutes and the seconds past them. */
  datatype Reading = Reading(minutes: nat, seconds: nat)

  /** `Math.floor(ms / 1000)`: the whole seconds contained in `ms`. */
  function WholeSeconds(ms: Millis): (n: nat)
    ensures (n as real) * 1000.0 <= ms < (n as real + 1.0) * 1000.0
  {
    (ms / 1000.0).Floor
  }

  /** `Math.floor(total / 60)` and `total % 60`: whole minutes and the seconds left over. */
  function Split(total: nat): (r: Reading)
    ensures r.seconds < 60
    ensures r.minutes * 60 + r.seconds == total
  {
    Reading(total / 60, total % 60)
  }

  /**
   * The template `${minutes}:${seconds.toString().padStart(2, "0")}`: the minutes'
   * digits followed by three characters, whatever the seconds below 60 are.
   */
  function Render(minutes: nat, seconds: nat): (text: string)
    requires seconds < 60
    ensures |text| == |Digits(minutes)| + 3
  {
    TwoPlaces(seconds);
    Digits(minutes) + [':'] + PadStart(Digits(seconds), 2, '0')
  }

  /** A rendering is the minutes' digits, a colon, the tens digit and the units digit. */
  lemma RenderSpelled(minutes: nat, seconds: nat)
    requires seconds < 60
    ensures Render(minutes, seconds)
            == Digits(minutes) + [':', DigitChar(seconds / 10), DigitChar(seconds % 10)]
  {
    var tail := PadStart(Digits(seconds), 2, '0');
    TwoPlaces(seconds);
    assert [':'] + tail == [':', DigitChar(seconds / 10), DigitChar(seconds % 10)];
    AppendAssoc(Digits(minutes), [':'], tail);
  }

  lemma AppendAssoc<T>(a: seq<T>, b: seq<T>, c: seq<T>)
    ensures a + b + c == a + (b + c)
  {
  }

  lemma RenderParts(minutes: nat, seconds: nat)
    requires seconds < 60
    ensures var text := Render(minutes, seconds);
            && |text| == |Digits(minutes)| + 3
            && text[..|text| - 3] == Digits(minutes)
            && text[|text| - 3] == ':'
            && text[|text| - 2..] == [DigitChar(seconds / 10), DigitChar(seconds % 10)]
  {
    RenderSpelled(minutes, seconds);
  }

  /**
   * The text the countdown element shows for `ms` remaining milliseconds. It reads back
   * as M minutes and SS seconds with SS below 60 and M * 60 + SS the whole seconds in `ms`.
   */
  function Format(ms: Millis): (text: string)
    ensures ParseClock(text).Some?
    ensures ParseClock(text).value.minutes * 60 + ParseClock(text).value.seconds
            == WholeSeconds(ms)
  {
    var r := Split(WholeSeconds(ms));
    ParseRender(r.minutes, r.seconds);
    Render(r.minutes, r.seconds)
  }

  /**
   * Reads a display: canonical decimal minutes, a colon, then exactly two digits
   * worth less than 60. Anything else is not a countdown display.
   */
  function ParseClock(text: string): (r: Option<Reading>)
    ensures r.Some? ==> r.value.seconds < 60
  {
    if |text| < 4 || text[|text| - 3] != ':' then None
    else
      var m := text[..|text| - 3];
      var s := text[|text| - 2..];
      if IsCanonical(m) && IsDigitString(s) && ValueOf(s) < 60
      then Some(Reading(ValueOf(m), ValueOf(s)))
      else None
  }

  /** Every rendered display reads back as the minutes and seconds it was rendered from. */
  lemma ParseRender(minutes: nat, seconds: nat)
    requires seconds < 60
    ensures ParseClock(Render(minutes, seconds)) == Some(Reading(minutes, seconds))
  {
    var text := Render(minutes, seconds);
    RenderParts(minutes, seconds);
    DigitsCanonical(minutes);
    ValueOfDigits(minutes);
    ValueOfTwo(text[|text| - 2..]);
  }

  /** A text that reads as a display is exactly the rendering of what it reads as. */
  lemma RenderParse(text: string)
    requires ParseClock(text).Some?
    ensures Render(ParseClock(text).value.minutes, ParseClock(text).value.seconds) == text
  {
    var m := text[..|text| - 3];
    var s := text[|text| - 2..];
    ValueOfTwo(s);
    var v := ValueOf(s);
    assert v / 10 == DigitValue(s[0]) && v % 10 == DigitValue(s[1]);
    DigitsOfValue(m);
    DigitCharOfValue(s[0]);
    DigitCharOfValue(s[1]);
    RenderSpelled(ValueOf(m), v);
    assert text == m + [':', s[0], s[1]];
  }

  /** Every display is canonical minutes, a colon, and two digits. */
  lemma FormatShape(ms: Millis)
    ensures var text := Format(ms);
            && |text| >= 4 && text[|text| - 3] == ':'
            && IsCanonical(text[..|text| - 3])
            && IsDigitString(text[|text| - 2..])
  {
    var r := Split(WholeSeconds(ms));
    RenderParts(r.minutes, r.seconds);
    DigitsCanonical(r.minutes);
  }

  /** Two durations show the same text exactly when they hold the same number of whole seconds. */
  lemma FormatSameText(a: Millis, b: Millis)
    ensures Format(a) == Format(b) <==> WholeSeconds(a) == WholeSeconds(b)
  {
  }

  /** `text` is the display for `ms` exactly when it reads as the whole seconds in `ms`. */
  lemma FormatCharacterized(ms: Millis, text: string)
    ensures Format(ms) == text <==>
              (ParseClock(text).Some? &&
               ParseClock(text).value.minutes * 60 + ParseClock(text).value.seconds
               == WholeSeconds(ms))
  {
    if ParseClock(text).Some? {
      var c := ParseClock(text).value;
      RenderParse(text);
      var r := Split(WholeSeconds(ms));
      if c.minutes * 60 + c.seconds == r.minutes * 60 + r.seconds {
        SplitUnique(c.minutes, c.seconds, r.minutes, r.seconds);
      }
    }
  }

  /** Minutes and seconds below 60 are determined by the total they make. */
  lemma SplitUnique(m1: nat, s1: nat, m2: nat, s2: nat)
    requires s1 < 60 && s2 < 60
    requires m1 * 60 + s1 == m2 * 60 + s2
    ensures m1 == m2 && s1 == s2
  {
    assert (m1 - m2) * 60 == s2 - s1;
  }

  lemma FormatExamples()
    ensures Format(125000.0) == "2:05"
    ensures Format(5000.0) == "0:05"
    ensures Format(0.0) == "0:00"
    ensures Format(59999.0) == "0:59"
  {
    FormatExample(125000.0, 2, 5, "2:05");
    FormatExample(5000.0, 0, 5, "0:05");
    FormatExample(0.0, 0, 0, "0:00");
    FormatExample(59999.0, 0, 59, "0:59");
  }

  lemma FormatExample(ms: Millis, minutes: nat, seconds: nat, text: string)
    requires minutes < 10 && seconds < 60
    requires ((minutes * 60 + seconds) * 1000) as real <= ms < ((minutes * 60 + seconds + 1) * 1000) as real
    requires text == [DigitChar(minutes), ':', DigitChar(seconds / 10), DigitChar(seconds % 10)]
    ensures Format(ms) == text
  {
    var n := WholeSeconds(ms);
    assert n == minutes * 60 + seconds;
    var r := Split(n);
    SplitUnique(r.minutes, r.seconds, minutes, seconds);
    ExampleRendering(minutes, seconds, text);
  }

  lemma ExampleRendering(minutes: nat, seconds: nat, text: string)
    requires minutes < 10 && seconds < 60
    requires text == [DigitChar(minutes), ':', DigitChar(seconds / 10), DigitChar(seconds % 10)]
    ensures Render(minutes, seconds) == text
  {
    RenderSpelled(minutes, seconds);
    assert Digits(minutes) == [DigitChar(minutes)];
  }
}
