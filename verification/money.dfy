/** Exact money: which decimals are accepted, what their four-decimal text means, and net totals. */
module Money {

  /** Python's Decimal: plus or minus coefficient times ten to the exponent, or a non-number. */
  datatype Decimal = Finite(negative: bool, coefficient: nat, exponent: int) | Special

  datatype Kind = Expense | Refund | Adjustment

  /** Three capitals; the pattern's end anchor also lets one final line feed through. */
  predicate CurrencyMatches(s: string) {
    && (|s| == 3 || (|s| == 4 && s[3] == '\n'))
    && forall i | 0 <= i < 3 :: 'A' <= s[i] <= 'Z'
  }

  /** Exactly the codes of three capitals match, with or without a line feed after them. */
  lemma CurrencyPattern(s: string)
    ensures CurrencyMatches(s) <==> exists code :: |code| == 3 && (forall i | 0 <= i < 3 :: 'A' <= code[i] <= 'Z') && (s == code || s == code + "\n")
    ensures CurrencyMatches("USD\n")
  {
    if CurrencyMatches(s) {
      assert |s| == 4 ==> s == s[..3] + "\n";
      assert |s| == 3 ==> s == s[..3];
      assert |s[..3]| == 3 && forall i | 0 <= i < 3 :: 'A' <= s[..3][i] <= 'Z';
    }
  }

  // ---- Powers and digits ----------------------------------------------------------------------------

  function Pow10(n: nat): (r: nat)
    ensures r > 0
  {
    if n == 0 then 1 else 10 * Pow10(n - 1)
  }

  /** Number of decimal digits, one for zero. */
  function DigitCount(c: nat): (n: nat)
    ensures n >= 1
  {
    if c < 10 then 1 else 1 + DigitCount(c / 10)
  }

  /** The digit count measures the magnitude, both ways. */
  lemma {:induction false} DigitCountBounds(c: nat, n: nat)
    requires n >= 1
    ensures DigitCount(c) <= n <==> c < Pow10(n)
    decreases n
  {
    if n == 1 {
      assert Pow10(1) == 10 * Pow10(0);
    } else if c >= 10 {
      DigitCountBounds(c / 10, n - 1);
    } else {
      PowAtLeastTen(n);
    }
  }

  lemma {:induction false} PowAtLeastTen(n: nat)
    requires n >= 1
    ensures Pow10(n) >= 10
  {
    if n > 1 {
      PowAtLeastTen(n - 1);
    }
  }

  lemma {:induction false} PowAdd(a: nat, b: nat)
    ensures Pow10(a + b) == Pow10(a) * Pow10(b)
  {
    if a > 0 {
      PowAdd(a - 1, b);
    }
  }

  lemma MulLess(a: nat, b: nat, k: nat)
    requires k > 0
    ensures a < b <==> a * k < b * k
  {
  }

  // ---- Acceptance -----------------------------------------------------------------------------------

  predicate Integral(d: Decimal)
    requires d.Finite?
  {
    d.exponent >= 0 || d.coefficient % Pow10(-d.exponent) == 0
  }

  function IntegerDigits(d: Decimal): int
    requires d.Finite?
  {
    if Integral(d) then DigitCount(d.coefficient) else DigitCount(d.coefficient) + d.exponent
  }

  /** The amount checks, in their order. */
  predicate AmountAccepted(d: Decimal) {
    && d.Finite?
    && !(-d.exponent > 4 || d.exponent > 0)
    && !(IntegerDigits(d) > 16)
    && !d.negative && d.coefficient > 0
  }

  predicate MoneyAccepted(d: Decimal, currency: string) {
    CurrencyMatches(currency) && AmountAccepted(d)
  }

  /** The amount in ten-thousandths, the unit of a numeric(20,4) column. */
  function Units(d: Decimal): (u: nat)
    requires d.Finite? && -4 <= d.exponent <= 0
  {
    d.coefficient * Pow10(4 + d.exponent)
  }

  const LIMIT := 100_000_000_000_000_000_000

  lemma PowValues()
    ensures Pow10(4) == 10_000 && Pow10(16) == 10_000_000_000_000_000 && Pow10(20) == LIMIT
  {
    assert Pow10(4) == 10_000;
    PowAdd(4, 4);
    PowAdd(8, 8);
    PowAdd(16, 4);
  }

  /** Digits before the point bound the value, whatever the exponent. */
  lemma WidthBoundsUnits(d: Decimal)
    requires d.Finite? && -4 <= d.exponent <= 0
    ensures DigitCount(d.coefficient) + d.exponent <= 16 <==> Units(d) < LIMIT
  {
    hide Pow10, DigitCount;
    var e := 4 + d.exponent;
    DigitCountBounds(d.coefficient, 16 - d.exponent);
    PowAdd(16 - d.exponent, e);
    PowValues();
    MulLess(d.coefficient, Pow10(16 - d.exponent), Pow10(e));
    assert Pow10(16 - d.exponent) * Pow10(e) == LIMIT;
  }

  /** An amount is accepted exactly when it is written with at most four decimals and no positive
      exponent, and is a positive number of ten-thousandths that fits the column; except for whole amounts written with more than sixteen digits in all. */
  lemma AcceptedExactly(d: Decimal)
    ensures AmountAccepted(d) <==>
            && d.Finite? && -4 <= d.exponent <= 0
            && !d.negative && 0 < Units(d) < LIMIT && (Integral(d) ==> DigitCount(d.coefficient) <= 16)
  {
    hide Pow10, DigitCount;
    if d.Finite? && -4 <= d.exponent <= 0 {
      WidthBoundsUnits(d);
      assert d.coefficient > 0 <==> Units(d) > 0 by {
        MulLess(0, d.coefficient, Pow10(4 + d.exponent));
      }
    }
  }

  /** Such a whole amount is refused although the same amount, written shorter, is accepted. */
  lemma WidthRefusesTrailingZeros()
    ensures var long, short := Finite(false, 12345678901234000, -3), Finite(false, 12345678901234, 0);
            Units(long) == Units(short) && !AmountAccepted(long) && AmountAccepted(short)
  {
    var long, short := Finite(false, 12345678901234000, -3), Finite(false, 12345678901234, 0);
    assert Pow10(3) == 1000 && Pow10(4) == 10000 && Pow10(1) == 10 && Pow10(0) == 1;
    assert Units(long) == 12345678901234000 * 10;
    PowValues();
    DigitCountBounds(12345678901234000, 16);
    DigitCountBounds(12345678901234, 16);
    assert Integral(long) && Integral(short);
  }

  /** The shortest way to write an amount. */
  function Shortest(u: nat): Decimal {
    if u % 10_000 == 0 then Finite(false, u / 10_000, 0) else Finite(false, u, -4)
  }

  /** The accepted values are exactly the positive ones the column can hold. */
  lemma AcceptedValues(u: nat)
    ensures 0 < u < LIMIT <==> exists d :: AmountAccepted(d) && Units(d) == u
  {
    hide DigitCount;
    if d :| AmountAccepted(d) && Units(d) == u {
      AcceptedExactly(d);
    }
    if 0 < u < LIMIT {
      var d := Shortest(u);
      PowValues();
      assert Pow10(0) == 1;
      if u % 10_000 == 0 {
        DigitCountBounds(u / 10_000, 16);
      }
      assert Units(d) == u;
      AcceptedExactly(d);
      assert AmountAccepted(d);
    }
  }

  // ---- The four-decimal text ------------------------------------------------------------------------

  function DigitChar(n: nat): char
    requires n < 10
  {
    ('0' as int + n) as char
  }

  /** Decimal digits, at least `width` of them. */
  function Digits(c: nat, width: nat): (s: string)
    ensures |s| >= width && |s| >= 1
    ensures forall i | 0 <= i < |s| :: '0' <= s[i] <= '9'
    decreases c, width
  {
    if c < 10 && width <= 1 then [DigitChar(c)]
    else Digits(c / 10, if width == 0 then 0 else width - 1) + [DigitChar(c % 10)]
  }

  function Value(s: string): nat
    requires forall i | 0 <= i < |s| :: '0' <= s[i] <= '9'
  {
    if s == [] then 0 else 10 * Value(s[..|s| - 1]) + (s[|s| - 1] as int - '0' as int)
  }

  lemma ValueAppend(s: string, d: nat)
    requires d < 10 && forall i | 0 <= i < |s| :: '0' <= s[i] <= '9'
    ensures Value(s + [DigitChar(d)]) == 10 * Value(s) + d
  {
    assert (s + [DigitChar(d)])[..|s|] == s;
  }

  lemma {:induction false} DigitsRoundTrip(c: nat, width: nat)
    ensures Value(Digits(c, width)) == c
    decreases c, width
  {
    if c < 10 && width <= 1 {
      ValueAppend("", c);
    } else {
      var rest := Digits(c / 10, if width == 0 then 0 else width - 1);
      DigitsRoundTrip(c / 10, if width == 0 then 0 else width - 1);
      ValueAppend(rest, c % 10);
    }
  }

  /** The amount with four decimals: its digits with a point before the last four. */
  function Format4(d: Decimal): (s: string)
    requires d.Finite? && -4 <= d.exponent <= 0 && !d.negative
    ensures |s| >= 6 && s[|s| - 5] == '.'
    ensures forall i | 0 <= i < |s| && i != |s| - 5 :: '0' <= s[i] <= '9'
  {
    var t := Digits(Units(d), 5);
    t[..|t| - 4] + "." + t[|t| - 4..]
  }

  /** Reads digits with one point before the last four. */
  function Parse4(s: string): Decimal
    requires |s| >= 6 && s[|s| - 5] == '.'
    requires forall i | 0 <= i < |s| && i != |s| - 5 :: '0' <= s[i] <= '9'
  {
    var t := s[..|s| - 5] + s[|s| - 4..];
    assert forall i | 0 <= i < |t| :: t[i] == s[if i < |s| - 5 then i else i + 1];
    Finite(false, Value(t), -4)
  }

  /** Four-decimal formatting loses nothing: the text reads back as the same amount. */
  lemma FormatIsExact(d: Decimal)
    requires d.Finite? && -4 <= d.exponent <= 0 && !d.negative
    ensures Parse4(Format4(d)) == Finite(false, Units(d), -4)
    ensures Units(Parse4(Format4(d))) == Units(d)
  {
    hide Digits, Value;
    var s, t := Format4(d), Digits(Units(d), 5);
    assert s[..|s| - 5] == t[..|t| - 4] && s[|s| - 4..] == t[|t| - 4..];
    assert s[..|s| - 5] + s[|s| - 4..] == t;
    DigitsRoundTrip(Units(d), 5);
    assert Pow10(0) == 1;
  }

  /** Sent back as an amount, the printed text of an accepted amount is accepted again exactly when
      the amount is not whole or is below a million millions. */
  lemma PrintedAmountAcceptedAgain(d: Decimal)
    requires AmountAccepted(d)
    ensures AmountAccepted(Parse4(Format4(d))) <==> Units(d) % 10_000 != 0 || Units(d) < 10_000_000_000_000_000
  {
    hide DigitCount, Format4, Parse4;
    AcceptedExactly(d);
    FormatIsExact(d);
    var p := Finite(false, Units(d), -4);
    AcceptedExactly(p);
    PowValues();
    DigitCountBounds(Units(d), 16);
  }

  // ---- Net totals -----------------------------------------------------------------------------------

  datatype Entry = Entry(amount: int, currency: string, kind: Kind)

  function Signed(e: Entry): int {
    if e.kind.Expense? then e.amount else -e.amount
  }

  /** The net of one currency. */
  function Net(entries: seq<Entry>, currency: string): int {
    if entries == [] then 0
    else Net(entries[..|entries| - 1], currency)
         + var e := entries[|entries| - 1]; if e.currency == currency then Signed(e) else 0
  }

  /** The sum of the amounts of one currency, of the expenses or of all other entries. */
  function Sum(entries: seq<Entry>, currency: string, expenses: bool): int {
    if entries == [] then 0
    else (if entries[0].currency == currency && (entries[0].kind == Expense) == expenses then entries[0].amount else 0)
         + Sum(entries[1..], currency, expenses)
  }

  /** The net is what was spent less what came back. */
  lemma {:induction false} NetIsSpentLessReturned(entries: seq<Entry>, currency: string)
    ensures Net(entries, currency) == Sum(entries, currency, true) - Sum(entries, currency, false)
  {
    if entries != [] {
      var first, rest := entries[..1], entries[1..];
      NetIsSpentLessReturned(rest, currency);
      NetSplits(first, rest, currency);
      assert entries == first + rest;
      assert first[..0] == [];
    }
  }

  function Currencies(entries: seq<Entry>): set<string> {
    set e | e in entries :: e.currency
  }

  /** One exact total per currency that occurs; no currency touches another. */
  method AggregateNetByCurrency(entries: seq<Entry>) returns (totals: map<string, int>)
    ensures totals.Keys == Currencies(entries)
    ensures forall c | c in totals :: totals[c] == Net(entries, c) == Sum(entries, c, true) - Sum(entries, c, false)
  {
    hide Net, Currencies;
    totals := map[];
    NothingNet();
    for i := 0 to |entries|
      invariant totals.Keys == Currencies(entries[..i])
      invariant forall c | c in totals :: totals[c] == Net(entries[..i], c)
    {
      var e := entries[i];
      CurrenciesExtend(entries, i);
      forall c ensures Net(entries[..i + 1], c) == Net(entries[..i], c) + if e.currency == c then Signed(e) else 0 {
        NetExtend(entries, i, c);
      }
      NetOfStranger(entries[..i], e.currency);
      var total := if e.currency in totals then totals[e.currency] else 0;
      totals := totals[e.currency := total + Signed(e)];
    }
    assert entries[..|entries|] == entries;
    forall c ensures Net(entries, c) == Sum(entries, c, true) - Sum(entries, c, false) {
      NetIsSpentLessReturned(entries, c);
    }
  }

  lemma NothingNet()
    ensures Currencies([]) == {}
  {
  }

  lemma CurrenciesExtend(entries: seq<Entry>, i: nat)
    requires i < |entries|
    ensures Currencies(entries[..i + 1]) == Currencies(entries[..i]) + {entries[i].currency}
  {
    assert entries[..i + 1] == entries[..i] + [entries[i]];
    assert entries[i] in entries[..i + 1];
    assert forall e | e in entries[..i] :: e in entries[..i + 1];
  }

  lemma NetExtend(entries: seq<Entry>, i: nat, currency: string)
    requires i < |entries|
    ensures Net(entries[..i + 1], currency) == Net(entries[..i], currency) + if entries[i].currency == currency then Signed(entries[i]) else 0
  {
    assert entries[..i + 1][..i] == entries[..i];
  }

  lemma {:induction false} NetOfStranger(entries: seq<Entry>, currency: string)
    ensures currency !in Currencies(entries) ==> Net(entries, currency) == 0
  {
    if entries != [] {
      var rest := entries[..|entries| - 1];
      NetOfStranger(rest, currency);
      assert entries == rest + [entries[|entries| - 1]];
      assert forall e | e in rest :: e in entries;
    }
  }

  lemma {:induction false} NetSplits(a: seq<Entry>, b: seq<Entry>, currency: string)
    ensures Net(a + b, currency) == Net(a, currency) + Net(b, currency)
    decreases |b|
  {
    if b == [] {
      assert a + b == a;
    } else {
      var rest := b[..|b| - 1];
      NetSplits(a, rest, currency);
      assert (a + b)[..|a + b| - 1] == a + rest;
    }
  }

  lemma WithoutOne(a: seq<Entry>, k: nat)
    requires k < |a|
    ensures multiset(a[..k] + a[k + 1..]) == multiset(a) - multiset{a[k]}
  {
    assert a == a[..k] + ([a[k]] + a[k + 1..]);
  }

  lemma NetWithoutOne(a: seq<Entry>, k: nat, currency: string)
    requires k < |a|
    ensures Net(a, currency) == Net(a[..k] + a[k + 1..], currency) + if a[k].currency == currency then Signed(a[k]) else 0
  {
    var left, right := a[..k + 1], a[k + 1..];
    assert a == left + right;
    NetSplits(left, right, currency);
    NetSplits(a[..k], right, currency);
    NetExtend(a, k, currency);
  }

  lemma WithoutFirst(a: seq<Entry>)
    requires a != []
    ensures a[0] in multiset(a) && multiset(a[1..]) == multiset(a) - multiset{a[0]}
  {
    assert a == [a[0]] + a[1..];
  }

  lemma Position(b: seq<Entry>, e: Entry) returns (k: nat)
    requires e in multiset(b)
    ensures k < |b| && b[k] == e
  {
    assert e in b;
    k :| 0 <= k < |b| && b[k] == e;
  }

  /** The first entry of one list, taken out of the other. */
  lemma MatchingEntry(a: seq<Entry>, b: seq<Entry>) returns (k: nat)
    requires multiset(a) == multiset(b) && a != []
    ensures k < |b| && b[k] == a[0] && multiset(a[1..]) == multiset(b[..k] + b[k + 1..])
  {
    WithoutFirst(a);
    k := Position(b, a[0]);
    WithoutOne(b, k);
  }

  /** Totals depend on the entries, not on their order. */
  lemma {:induction false} NetIgnoresOrder(a: seq<Entry>, b: seq<Entry>, currency: string)
    requires multiset(a) == multiset(b)
    ensures Net(a, currency) == Net(b, currency)
    decreases |a|
  {
    hide Net;
    if a == [] {
      assert |b| == |multiset(b)| == 0;
    } else {
      var k := MatchingEntry(a, b);
      NetIgnoresOrder(a[1..], b[..k] + b[k + 1..], currency);
      NetWithoutOne(a, 0, currency);
      NetWithoutOne(b, k, currency);
      assert a[..0] + a[1..] == a[1..];
    }
  }
}
