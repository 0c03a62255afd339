/** Canonical periods (sdk/go/time.go). Lengths are int32; `/` and `%` truncate as in Go. */
module Periods {
  newtype Int32 = x: int | -0x8000_0000 <= x < 0x8000_0000

  /** Go's quotient and remainder: rounded toward zero, the remainder with the dividend's sign. */
  function Quotient(a: Int32, b: Int32): (q: Int32)
    requires b > 1
    ensures (a as int) - (b as int) * (q as int) == Remainder(a, b) as int
  {
    if a >= 0 then a / b else (-((-(a as int)) / (b as int))) as Int32
  }

  function Remainder(a: Int32, b: Int32): (r: Int32)
    requires b > 1
    ensures -b < r < b
  {
    if a >= 0 then a % b else (-((-(a as int)) % (b as int))) as Int32
  }

  const DAYS: Int32 := 0
  const WEEKS: Int32 := 1
  const MONTHS: Int32 := 2
  const YEARS: Int32 := 3

  /** Both fields are exported, so any unit number may occur. */
  datatype Period = Period(length: Int32, unit: Int32) {

    function Key(): Period {
      if length == 0 then Period(0, DAYS)
      else if unit == DAYS && Remainder(length, 7) == 0 then Period(Quotient(length, 7), WEEKS)
      else if unit == MONTHS && Remainder(length, 12) == 0 then Period(Quotient(length, 12), YEARS)
      else this
    }

    predicate Equal(other: Period) {
      Key() == other.Key()
    }
  }

  /** The span of time a period denotes, in unbounded arithmetic. */
  datatype Span = Nothing | InDays(days: int) | InMonths(months: int) | Unknown(length: int, unit: Int32)

  function Denotes(p: Period): Span {
    if p.length == 0 then Nothing
    else if p.unit == DAYS then InDays(p.length as int)
    else if p.unit == WEEKS then InDays(7 * (p.length as int))
    else if p.unit == MONTHS then InMonths(p.length as int)
    else if p.unit == YEARS then InMonths(12 * (p.length as int))
    else Unknown(p.length as int, p.unit)
  }

  lemma RemainderOfMultiple(k: Int32, b: Int32, a: Int32)
    requires b > 1 && (a as int) == (b as int) * (k as int)
    ensures Remainder(a, b) == 0 && Quotient(a, b) == k
  {
    var q, r := Quotient(a, b) as int, Remainder(a, b) as int;
    var m := b as int;
    assert m * ((k as int) - q) == r;
    MultiplesApart(m, (k as int) - q);
  }

  lemma MultiplesApart(m: int, d: int)
    requires m > 0
    ensures d >= 1 ==> m * d >= m
    ensures d <= -1 ==> m * d <= -m
  {
  }

  /** Taking the key keeps the span and is idempotent, negative lengths included. */
  lemma KeyIsCanonical(p: Period)
    ensures Denotes(p.Key()) == Denotes(p)
    ensures p.Key().Key() == p.Key()
  {
  }

  /** Periods with one span have one key. */
  lemma SpanDeterminesKey(p: Period, q: Period)
    requires Denotes(p) == Denotes(q)
    ensures p.Key() == q.Key()
  {
    if p.length != 0 {
      if p.unit == DAYS && q.unit == WEEKS {
        RemainderOfMultiple(q.length, 7, p.length);
      } else if p.unit == WEEKS && q.unit == DAYS {
        RemainderOfMultiple(p.length, 7, q.length);
      } else if p.unit == MONTHS && q.unit == YEARS {
        RemainderOfMultiple(q.length, 12, p.length);
      } else if p.unit == YEARS && q.unit == MONTHS {
        RemainderOfMultiple(p.length, 12, q.length);
      }
    }
  }

  /** Two periods are equal exactly when they denote the same span; so Equal is an equivalence. */
  lemma EqualMeansSameSpan(p: Period, q: Period, r: Period)
    ensures p.Equal(q) <==> Denotes(p) == Denotes(q)
    ensures p.Equal(p)
    ensures p.Equal(q) <==> q.Equal(p)
    ensures p.Equal(q) && q.Equal(r) ==> p.Equal(r)
  {
    KeyIsCanonical(p);
    KeyIsCanonical(q);
    if Denotes(p) == Denotes(q) {
      SpanDeterminesKey(p, q);
    }
  }
}
