/** `dt.strftime("%Y/%m/%d %H:%M:%S")` on an already-parsed date-time. */
module Timestamp {
  import opened Wrappers

  /** The fields of a `datetime` that the format prints. */
  datatype DateTime = DateTime(year: int, month: int, day: int, hour: int, minute: int, second: int) {
    /** The ranges a Python `datetime` guarantees for these fields. */
    predicate Valid() {
      1 <= year <= 9999 && 1 <= month <= 12 && 1 <= day <= 31 &&
      0 <= hour < 24 && 0 <= minute < 60 && 0 <= second < 60
    }
  }

  /** A date-time the parser produced (`datetime.fromisoformat` succeeded). */
  type Stamp = dt: DateTime | dt.Valid() witness DateTime(1, 1, 1, 0, 0, 0)

  function Pow10(n: nat): (r: nat)
    ensures r >= 1
  {
    if n == 0 then 1 else 10 * Pow10(n - 1)
  }

  predicate IsDigit(c: char) {
    '0' <= c <= '9'
  }

  /** The last `width` decimal digits of `n`, zero-padded. */
  function Digits(n: nat, width: nat): (s: string)
    ensures |s| == width
    ensures forall i :: 0 <= i < |s| ==> IsDigit(s[i])
  {
    if width == 0 then "" else Digits(n / 10, width - 1) + [('0' as int + n % 10) as char]
  }

  /** The number a string of decimal digits denotes. */
  function DigitsValue(s: string): nat
    requires forall i :: 0 <= i < |s| ==> IsDigit(s[i])
  {
    if s == "" then 0
    else
      assert IsDigit(s[|s| - 1]);
      10 * DigitsValue(s[..|s| - 1]) + (s[|s| - 1] as int - '0' as int)
  }

  /** Reading back the zero-padded digits of `n` gives `n` whenever it fits the width. */
  lemma {:induction false} DigitsRoundTrip(n: nat, width: nat)
    requires n < Pow10(width)
    ensures DigitsValue(Digits(n, width)) == n
  {
    if width > 0 {
      var s := Digits(n, width);
      assert n / 10 < Pow10(width - 1);
      DigitsRoundTrip(n / 10, width - 1);
      assert s[..|s| - 1] == Digits(n / 10, width - 1);
    }
  }

  /** `%Y/%m/%d %H:%M:%S`. */
  function Format(dt: Stamp): (s: string)
    ensures |s| == 19
    ensures s[4] == '/' && s[7] == '/' && s[10] == ' ' && s[13] == ':' && s[16] == ':'
  {
    Digits(dt.year, 4) + "/" + Digits(dt.month, 2) + "/" + Digits(dt.day, 2) + " " +
    Digits(dt.hour, 2) + ":" + Digits(dt.minute, 2) + ":" + Digits(dt.second, 2)
  }

  /** Reads the field of `s` between `from` and `to`, when it is all digits. */
  function Field(s: string, from: nat, to: nat): Option<nat>
    requires from <= to <= |s|
  {
    if forall i :: from <= i < to ==> IsDigit(s[i]) then Some(DigitsValue(s[from..to])) else None
  }

  /** Reads a timestamp written in the same pattern; the partner of `Format`. */
  function Parse(s: string): Option<DateTime> {
    if |s| != 19 || s[4] != '/' || s[7] != '/' || s[10] != ' ' || s[13] != ':' || s[16] != ':' then None
    else
      match (Field(s, 0, 4), Field(s, 5, 7), Field(s, 8, 10), Field(s, 11, 13), Field(s, 14, 16), Field(s, 17, 19))
      case (Some(y), Some(mo), Some(d), Some(h), Some(mi), Some(se)) => Some(DateTime(y, mo, d, h, mi, se))
      case _ => None
  }

  /** One field of a formatted timestamp reads back as the number it was made from. */
  lemma {:induction false} FieldOfDigits(s: string, from: nat, n: nat, width: nat)
    requires n < Pow10(width) && from + width <= |s| && s[from..from + width] == Digits(n, width)
    ensures Field(s, from, from + width) == Some(n)
  {
    forall i | from <= i < from + width ensures IsDigit(s[i]) {
      assert s[i] == s[from..from + width][i - from];
    }
    DigitsRoundTrip(n, width);
  }

  /** The formatted timestamp determines the date-time: parsing it gives every field back. */
  lemma {:induction false} FormatRoundTrip(dt: Stamp)
    ensures Parse(Format(dt)) == Some(dt)
  {
    var s := Format(dt);
    assert Pow10(2) == 100 && Pow10(4) == 10000;
    assert s[0..4] == Digits(dt.year, 4);
    assert s[5..7] == Digits(dt.month, 2);
    assert s[8..10] == Digits(dt.day, 2);
    assert s[11..13] == Digits(dt.hour, 2);
    assert s[14..16] == Digits(dt.minute, 2);
    assert s[17..19] == Digits(dt.second, 2);
    FieldOfDigits(s, 0, dt.year, 4);
    FieldOfDigits(s, 5, dt.month, 2);
    FieldOfDigits(s, 8, dt.day, 2);
    FieldOfDigits(s, 11, dt.hour, 2);
    FieldOfDigits(s, 14, dt.minute, 2);
    FieldOfDigits(s, 17, dt.second, 2);
  }

  /** Example: 2024-01-05T13:04:05+00:00 is shown as `2024/01/05 13:04:05`. */
  lemma FormatExample()
    ensures Format(DateTime(2024, 1, 5, 13, 4, 5)) == "2024/01/05 13:04:05"
  {
  }
}
