/** The capture time: a reading of `datetime.utcnow()` rendered by
    `datetime.isoformat()` with a trailing "Z". */
module Timestamp {
  import opened Py

  /** The fields of a `datetime` that `isoformat()` prints. */
  datatype DateTime = DateTime(
    year: int, month: int, day: int,
    hour: int, minute: int, second: int, microsecond: int)
  {
    /** The ranges `datetime` enforces (the month-length rule plays no part here). */
    predicate Valid() {
      1 <= year <= 9999 && 1 <= month <= 12 && 1 <= day <= 31 &&
      0 <= hour < 24 && 0 <= minute < 60 && 0 <= second < 60 &&
      0 <= microsecond < 1000000
    }
  }

  function Pow10(w: nat): nat { if w == 0 then 1 else 10 * Pow10(w - 1) }

  /** The last `width` decimal digits of `n`, zero-padded. For `n < Pow10(width)`,
      as in every field of a valid `DateTime`, this is the `%0*d` formatting that
      `isoformat()` uses; larger numbers, which `isoformat()` never meets, are cut. */
  function Pad(n: nat, width: nat): (r: string)
    ensures |r| == width
    ensures forall i :: 0 <= i < width ==> IsDigit(r[i])
  {
    if width == 0 then [] else Pad(n / 10, width - 1) + [DigitChar(n % 10)]
  }

  /** Zero-padding is one-to-one on the numbers that fit the width. */
  lemma {:induction false} PadInjective(n: nat, m: nat, width: nat)
    requires n < Pow10(width) && m < Pow10(width)
    requires Pad(n, width) == Pad(m, width)
    ensures n == m
  {
    if width > 0 {
      var p, q := Pad(n, width), Pad(m, width);
      assert p[..width - 1] == Pad(n / 10, width - 1);
      assert q[..width - 1] == Pad(m / 10, width - 1);
      assert DigitChar(n % 10) == p[width - 1] == q[width - 1] == DigitChar(m % 10);
      PadInjective(n / 10, m / 10, width - 1);
    }
  }

  /** `datetime.isoformat()`: the fractional part is printed only when the
      microsecond is not zero. */
  function IsoFormat(t: DateTime): string
    requires t.Valid()
  {
    Pad(t.year, 4) + "-" + Pad(t.month, 2) + "-" + Pad(t.day, 2) + "T" +
    Pad(t.hour, 2) + ":" + Pad(t.minute, 2) + ":" + Pad(t.second, 2) +
    (if t.microsecond != 0 then "." + Pad(t.microsecond, 6) else "")
  }

  /** The `received_at` field of a capture: `isoformat() + "Z"`. */
  function ReceivedAt(t: DateTime): (r: string)
    requires t.Valid()
    ensures |r| == if t.microsecond == 0 then 20 else 27
    ensures r[|r| - 1] == 'Z'
  {
    IsoFormat(t) + "Z"
  }

  /** Where each field of a capture time sits in `received_at`. */
  lemma ReceivedAtFields(t: DateTime)
    requires t.Valid()
    ensures var r := ReceivedAt(t);
      r[0..4] == Pad(t.year, 4) && r[5..7] == Pad(t.month, 2) && r[8..10] == Pad(t.day, 2) &&
      r[11..13] == Pad(t.hour, 2) && r[14..16] == Pad(t.minute, 2) && r[17..19] == Pad(t.second, 2) &&
      (t.microsecond != 0 ==> r[20..26] == Pad(t.microsecond, 6))
  {
  }
}
