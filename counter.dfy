/** The counter label `updateCounter` writes after every render. */
module Counter {
  import opened Text

  /** "Showing <count> of <total> recipes". */
  function CounterText(count: nat, total: nat): string
  {
    "Showing " + Decimal(count) + " of " + Decimal(total) + " recipes"
  }

  /** The label determines both numbers: two labels are equal only when
      they report the same count and the same total. */
  lemma CounterTextDetermines(count: nat, total: nat, count': nat, total': nat)
    requires CounterText(count, total) == CounterText(count', total')
    ensures count == count' && total == total'
  {
    var tail := "of " + (Decimal(total) + " " + "recipes");
    var tail' := "of " + (Decimal(total') + " " + "recipes");
    Split(count, total);
    Split(count', total');
    CancelPrefix("Showing ", Decimal(count) + " " + tail, Decimal(count') + " " + tail');
    NumberThenSpace(count, tail, count', tail');
    CancelPrefix("of ", Decimal(total) + " " + "recipes", Decimal(total') + " " + "recipes");
    NumberThenSpace(total, "recipes", total', "recipes");
  }

  lemma Split(count: nat, total: nat)
    ensures CounterText(count, total) ==
            "Showing " + (Decimal(count) + " " + ("of " + (Decimal(total) + " " + "recipes")))
  {
  }

  lemma CancelPrefix(p: string, x: string, y: string)
    requires p + x == p + y
    ensures x == y
  {
    assert x == (p + x)[|p|..] && y == (p + y)[|p|..];
  }

  lemma NumberThenSpace(n: nat, y: string, m: nat, v: string)
    requires Decimal(n) + " " + y == Decimal(m) + " " + v
    ensures n == m && y == v
  {
    DigitsThenSpace(Decimal(n), y, Decimal(m), v);
    DecimalRoundTrip(n);
    DecimalRoundTrip(m);
  }
}
