/** Months as the community statistics write and order them, and the twelve of the growth chart. */
module CommunityMonths {
  import opened Prelude
  import opened IfMatch
  import opened PythonOrder

  datatype YearMonth = YearMonth(year: int, month: int)

  type Month = m: YearMonth | 0 <= m.year <= 9999 && 1 <= m.month <= 12 witness YearMonth(1, 1)

  const WINDOW: nat := 12

  function Pow10(width: nat): nat { if width == 0 then 1 else 10 * Pow10(width - 1) }

  /** A number in so many digits, zeros in front. */
  function Padded(n: nat, width: nat): (text: string)
    ensures |text| == width
  {
    if width == 0 then "" else Padded(n / 10, width - 1) + [DigitChar(n % 10)]
  }

  /** The year in four digits, a hyphen, the month in two. */
  function Label(m: Month): string { Padded(m.year, 4) + ("-" + Padded(m.month, 2)) }

  /** Months since year 0. */
  function Ordinal(m: Month): nat { m.year * 12 + m.month - 1 }

  function MonthAt(ordinal: nat): Month
    requires ordinal < 120_000
  {
    YearMonth(ordinal / 12, ordinal % 12 + 1)
  }

  /** The months of the chart, oldest first, the last the one that `now` is in. */
  function Months(now: Month, count: nat): seq<Month>
    requires count <= Ordinal(now) + 1
  {
    seq<Month>(count, i requires 0 <= i < count => MonthAt(Ordinal(now) + 1 - count + i))
  }

  lemma OrdinalIs(m: Month)
    ensures Ordinal(m) == m.year * 12 + m.month - 1 < 120_000 && MonthAt(Ordinal(m)) == m
  {
  }

  /** Stepping back month by month, then reversed. */
  method LastMonths(now: Month, count: nat) returns (labels: seq<string>)
    requires count <= Ordinal(now) + 1
    ensures |labels| == count
    ensures forall i | 0 <= i < count :: labels[i] == Label(Months(now, count)[i])
  {
    hide Label, MonthAt, Ordinal;
    assert Ordinal(now) == now.year * 12 + now.month - 1 by { OrdinalIs(now); }
    labels := [];
    var year, month := now.year, now.month;
    ghost var back := Ordinal(now);
    for i := 0 to count
      invariant |labels| == i
      invariant year * 12 + month - 1 == Ordinal(now) - i && 1 <= month <= 12 && year <= 9999
      invariant forall k | 0 <= k < i :: labels[k] == Label(MonthAt(Ordinal(now) - k))
    {
      OrdinalIs(YearMonth(year, month));
      labels := labels + [Label(YearMonth(year, month))];
      month := month - 1;
      if month == 0 {
        year, month := year - 1, 12;
      }
    }
    labels := Reversed(labels);
  }

  function Reversed<T>(s: seq<T>): (r: seq<T>)
    ensures |r| == |s| && forall i | 0 <= i < |s| :: r[i] == s[|s| - 1 - i]
  {
    if s == [] then [] else Reversed(s[1..]) + [s[0]]
  }

  lemma {:induction false} PaddedOrder(a: nat, b: nat, width: nat, s: string, t: string)
    requires a < Pow10(width) && b < Pow10(width)
    ensures CompareText(Padded(a, width) + s, Padded(b, width) + t) == if a == b then CompareText(s, t) else CompareInt(a, b)
  {
    if width == 0 {
      assert Padded(a, width) + s == s && Padded(b, width) + t == t;
    } else {
      var x, y := [DigitChar(a % 10)] + s, [DigitChar(b % 10)] + t;
      assert Padded(a, width) + s == Padded(a / 10, width - 1) + x;
      assert Padded(b, width) + t == Padded(b / 10, width - 1) + y;
      PaddedOrder(a / 10, b / 10, width - 1, x, y);
      assert x[1..] == s && y[1..] == t;
    }
  }

  /** Written months compare as text the way they follow each other in time. */
  lemma LabelOrder(m: Month, n: Month)
    ensures CompareText(Label(m), Label(n)) == CompareInt(Ordinal(m), Ordinal(n))
    ensures Label(m) == Label(n) <==> m == n
  {
    hide Padded;
    var s, t := "-" + Padded(m.month, 2), "-" + Padded(n.month, 2);
    assert Pow10(4) == 10_000 && Pow10(2) == 100;
    PaddedOrder(m.year, n.year, 4, s, t);
    PaddedOrder(m.month, n.month, 2, "", "");
    assert Padded(m.month, 2) + "" == Padded(m.month, 2) == s[1..];
    assert Padded(n.month, 2) + "" == Padded(n.month, 2) == t[1..];
    TextOrder(Label(m), Label(n));
  }

  lemma {:induction false} PaddedReads(n: nat, width: nat)
    requires n < Pow10(width)
    ensures AllDigits(Padded(n, width)) && ParseDecimal(Padded(n, width)) == n
  {
    if width > 0 {
      PaddedReads(n / 10, width - 1);
      var text := Padded(n, width);
      assert text[..|text| - 1] == Padded(n / 10, width - 1);
    }
  }

  /** A written month reads back: four digits of the year, a hyphen, two of the month. */
  lemma {:induction false} LabelReadsBack(m: Month)
    ensures var text := Label(m);
      && |text| == 7 && text[4] == '-' && AllDigits(text[..4]) && AllDigits(text[5..])
      && ParseDecimal(text[..4]) == m.year && ParseDecimal(text[5..]) == m.month
  {
    hide Padded, ParseDecimal;
    assert Pow10(4) == 10_000 && Pow10(2) == 100;
    PaddedReads(m.year, 4);
    PaddedReads(m.month, 2);
    assert Label(m)[..4] == Padded(m.year, 4) && Label(m)[5..] == Padded(m.month, 2);
  }

  /** Consecutive and distinct, ending now: a month is in the chart exactly when it is not before the first nor after the last. */
  lemma MonthsAreConsecutive(now: Month, count: nat)
    requires 0 < count <= Ordinal(now) + 1
    ensures var months := Months(now, count);
      && months[count - 1] == now
      && (forall i | 0 <= i < count :: Ordinal(months[i]) == Ordinal(months[0]) + i)
      && (forall m: Month :: m in months <==> Ordinal(months[0]) <= Ordinal(m) <= Ordinal(now))
  {
    var months := Months(now, count);
    forall i | 0 <= i < count ensures Ordinal(months[i]) == Ordinal(now) + 1 - count + i {
      assert months[i] == MonthAt(Ordinal(now) + 1 - count + i);
    }
    forall m: Month | Ordinal(months[0]) <= Ordinal(m) <= Ordinal(now) ensures m in months {
      assert months[Ordinal(m) - Ordinal(months[0])] == m;
    }
  }
}
