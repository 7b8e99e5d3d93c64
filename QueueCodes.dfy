/** The display code `generateQueueNumber` synthesises: the letter `Q`, the
    day of the month in two digits, and a random suffix in two digits. */
module QueueCodes {
  import opened Text

  /** `Math.floor(Math.random() * 99) + 1`, with `Math.random()` given as
      `x` in [0, 1): always a number from 1 to 99. */
  function RandomSuffix(x: real): (n: int)
    requires 0.0 <= x < 1.0
    ensures 1 <= n <= 99
  {
    (x * 99.0).Floor + 1
  }

  /** The shape every generated queue number has. */
  predicate IsQueueCode(s: string) {
    && |s| == 5
    && s[0] == 'Q'
    && AllDigits(s[1..])
    && 1 <= DigitsValue(s[1..3]) <= 31
    && 1 <= DigitsValue(s[3..]) <= 99
  }

  /** The code for a day of the month (`getDate()`, 1 to 31) and a suffix
      (1 to 99).  Its day and suffix can be read back from the digits, so
      two different (day, suffix) pairs never give the same code. */
  function QueueCode(day: int, suffix: int): (r: string)
    requires 1 <= day <= 31 && 1 <= suffix <= 99
    ensures IsQueueCode(r)
    ensures DigitsValue(r[1..3]) == day && DigitsValue(r[3..]) == suffix
  {
    var datePrefix := Pad2(day);
    var r := "Q" + datePrefix + Pad2(suffix);
    assert r[1..3] == datePrefix && r[3..] == Pad2(suffix);
    r
  }

  /** Equal codes come from equal (day, suffix) pairs. */
  lemma QueueCodeInjective(d1: int, s1: int, d2: int, s2: int)
    requires 1 <= d1 <= 31 && 1 <= s1 <= 99
    requires 1 <= d2 <= 31 && 1 <= s2 <= 99
    requires QueueCode(d1, s1) == QueueCode(d2, s2)
    ensures d1 == d2 && s1 == s2
  {
  }
}
