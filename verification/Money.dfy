/** Money amounts: exact decimals, here exact reals. */
module Money {

  /** Every supported currency has two decimal places. `instance` tells apart currency objects of the same code:
      `equals` compares objects, everything else codes. */
  datatype Currency = Currency(code: string, instance: nat)

  /** Minor units in one major unit. */
  const MINOR_UNITS := 100.0

  const MINOR_UNIT := 0.01

  datatype Money = Money(amount: real, currency: Currency)

  datatype Result<+T> = Success(value: T) | CurrencyMismatch

  predicate SameCurrency(a: Money, b: Money) {
    a.currency.code == b.currency.code
  }

  function Add(a: Money, b: Money): Result<Money> {
    if SameCurrency(a, b) then Success(Money(a.amount + b.amount, a.currency)) else CurrencyMismatch
  }

  predicate Equals(a: Money, b: Money) {
    a.currency == b.currency && a.amount == b.amount
  }

  function GreaterThan(a: Money, b: Money): Result<bool> {
    if SameCurrency(a, b) then Success(a.amount > b.amount) else CurrencyMismatch
  }

  function LessThan(a: Money, b: Money): Result<bool> {
    if SameCurrency(a, b) then Success(a.amount < b.amount) else CurrencyMismatch
  }

  /** Amounts compare and add up exactly if their currencies have one code. */
  lemma MismatchIff(a: Money, b: Money)
    ensures Add(a, b) == CurrencyMismatch <==> a.currency.code != b.currency.code
    ensures LessThan(a, b) == CurrencyMismatch <==> a.currency.code != b.currency.code
    ensures GreaterThan(a, b) == CurrencyMismatch <==> a.currency.code != b.currency.code
  {
  }

  /** Adding makes an amount greater, less or neither exactly as what is added is positive, negative or zero. */
  lemma AddingMovesUp(a: Money, b: Money)
    requires a.currency.code == b.currency.code
    ensures var sum := Add(a, b);
            && sum.Success? && sum.value.currency == a.currency
            && LessThan(a, sum.value) == GreaterThan(sum.value, a) == Success(b.amount > 0.0)
            && GreaterThan(a, sum.value) == LessThan(sum.value, a) == Success(b.amount < 0.0)
            && (sum.value == a <==> b.amount == 0.0)
  {
  }

  /** The order of two amounts stays when the same is added to both; the order of adding does not matter. */
  lemma AddingKeepsOrder(a: Money, b: Money, c: Money)
    requires a.currency.code == b.currency.code == c.currency.code
    ensures LessThan(Add(a, c).value, Add(b, c).value) == LessThan(a, b)
    ensures GreaterThan(Add(a, c).value, Add(b, c).value) == GreaterThan(a, b)
    ensures Add(a, b).value.amount == Add(b, a).value.amount
    ensures Add(Add(a, b).value, c) == Add(a, Add(b, c).value)
  {
  }

  /** The whole part, toward zero. */
  function Truncate(x: real): int {
    if x >= 0.0 then x.Floor else -(-x).Floor
  }

  /** big.js `round(2, 0)`. */
  function RoundToCurrencyScale(m: Money): Money {
    m.(amount := Truncate(m.amount * MINOR_UNITS) as real / MINOR_UNITS)
  }

  /** Rounding moves toward zero, by less than one minor unit, to a whole number of minor units, and keeps the
      currency. */
  lemma RoundingTruncates(m: Money)
    ensures var r := RoundToCurrencyScale(m);
            && r.currency == m.currency
            && r.amount * MINOR_UNITS == (r.amount * MINOR_UNITS).Floor as real
            && (m.amount >= 0.0 ==> 0.0 <= r.amount <= m.amount < r.amount + MINOR_UNIT)
            && (m.amount <= 0.0 ==> r.amount - MINOR_UNIT < m.amount <= r.amount <= 0.0)
  {
    var minor := Truncate(m.amount * MINOR_UNITS);
    assert RoundToCurrencyScale(m).amount * MINOR_UNITS == minor as real;
    assert (minor as real).Floor == minor;
  }

  lemma RoundingIsIdempotent(m: Money)
    ensures RoundToCurrencyScale(RoundToCurrencyScale(m)) == RoundToCurrencyScale(m)
  {
    var minor := Truncate(m.amount * MINOR_UNITS);
    assert RoundToCurrencyScale(m).amount * MINOR_UNITS == minor as real;
    assert Truncate(minor as real) == minor;
  }

  lemma RoundingIsMonotone(a: Money, b: Money)
    requires a.amount <= b.amount
    ensures RoundToCurrencyScale(a).amount <= RoundToCurrencyScale(b).amount
  {
    assert Truncate(a.amount * MINOR_UNITS) <= Truncate(b.amount * MINOR_UNITS);
  }

  // Rounding a sum and summing rounded amounts.

  predicate Payable(ms: seq<Money>, currency: Currency) {
    forall m :: m in ms ==> m.currency == currency && m.amount >= 0.0
  }

  /** The amounts added up with `add`, from left to right. */
  function SumOf(ms: seq<Money>, currency: Currency): (sum: Money)
    requires ms != [] && Payable(ms, currency)
    ensures sum.currency == currency && sum.amount >= 0.0
    decreases |ms|
  {
    if |ms| == 1 then assert ms[0] in ms; ms[0]
    else
      var n := |ms| - 1;
      assert ms[n] in ms;
      Add(SumOf(ms[..n], currency), ms[n]).value
  }

  function Rounded(ms: seq<Money>): seq<Money> {
    seq(|ms|, i requires 0 <= i < |ms| => RoundToCurrencyScale(ms[i]))
  }

  lemma RoundedIsPayable(ms: seq<Money>, currency: Currency)
    requires Payable(ms, currency)
    ensures Payable(Rounded(ms), currency)
  {
    forall m | m in Rounded(ms) ensures m.currency == currency && m.amount >= 0.0 {
      var i :| 0 <= i < |ms| && Rounded(ms)[i] == m;
      assert ms[i] in ms;
      RoundingTruncates(ms[i]);
    }
  }

  /** Rounding the sum of n amounts instead of summing the rounded amounts gains between nothing and n - 1 minor
      units. */
  lemma {:induction false} RoundingTheSumGainsLittle(ms: seq<Money>, currency: Currency)
    requires ms != [] && Payable(ms, currency)
    ensures Payable(Rounded(ms), currency)
    ensures var total := SumOf(Rounded(ms), currency);
            && RoundToCurrencyScale(total) == total
            && 0.0 <= RoundToCurrencyScale(SumOf(ms, currency)).amount - total.amount <= (|ms| - 1) as real * MINOR_UNIT
    decreases |ms|
  {
    RoundedIsPayable(ms, currency);
    if |ms| == 1 {
      assert Rounded(ms)[0] == RoundToCurrencyScale(ms[0]);
      RoundingIsIdempotent(ms[0]);
    } else {
      var n := |ms| - 1;
      assert ms[n] in ms;
      assert Rounded(ms)[..n] == Rounded(ms[..n]);
      RoundingTheSumGainsLittle(ms[..n], currency);
      RoundingTruncates(ms[n]);
      RoundingIsIdempotent(ms[n]);
      AddedRoundings(SumOf(ms[..n], currency), ms[n]);
      WholeAmountsAdd(SumOf(Rounded(ms[..n]), currency), RoundToCurrencyScale(ms[n]));
    }
  }

  lemma AddedRoundings(a: Money, b: Money)
    requires a.amount >= 0.0 && b.amount >= 0.0 && SameCurrency(a, b)
    ensures var gain := RoundToCurrencyScale(Add(a, b).value).amount
                        - RoundToCurrencyScale(a).amount - RoundToCurrencyScale(b).amount;
            0.0 <= gain <= MINOR_UNIT
  {
    var x, y := a.amount * MINOR_UNITS, b.amount * MINOR_UNITS;
    FloorOfSum(x, y);
    assert (a.amount + b.amount) * MINOR_UNITS == x + y;
    var gained := Truncate(x + y) - Truncate(x) - Truncate(y);
    assert 0 <= gained <= 1;
  }

  lemma FloorOfSum(x: real, y: real)
    ensures 0 <= (x + y).Floor - x.Floor - y.Floor <= 1
  {
    var m, n := x.Floor, y.Floor;
    assert (m + n) as real <= x + y < (m + n + 2) as real;
  }

  /** Amounts that rounding leaves alone add up to such an amount. */
  lemma WholeAmountsAdd(a: Money, b: Money)
    requires a.amount >= 0.0 && b.amount >= 0.0 && SameCurrency(a, b)
    requires RoundToCurrencyScale(a) == a && RoundToCurrencyScale(b) == b
    ensures RoundToCurrencyScale(Add(a, b).value) == Add(a, b).value
  {
    var m, n := Truncate(a.amount * MINOR_UNITS), Truncate(b.amount * MINOR_UNITS);
    assert (a.amount + b.amount) * MINOR_UNITS == (m + n) as real;
    assert Truncate((m + n) as real) == m + n;
  }

  // Equality and order.

  /** `Currency.of`: the one object of each code in the table of supported currencies. */
  function CurrencyOf(code: string): Currency {
    Currency(code, 0)
  }

  /** Exactly one of less, equal and greater. */
  predicate Trichotomous(a: Money, b: Money)
    requires SameCurrency(a, b)
  {
    var less, equal, greater := LessThan(a, b).value, Equals(a, b), GreaterThan(a, b).value;
    (less && !equal && !greater) || (!less && equal && !greater) || (!less && !equal && greater)
  }

  /** Amounts in two currency objects of one code are trichotomous, all of them, exactly if it is one object.
      Amounts whose currencies come from the table always are; only a currency object made by hand fails. */
  lemma TrichotomyIff(c: Currency, d: Currency)
    requires c.code == d.code
    ensures (forall x: real, y: real :: Trichotomous(Money(x, c), Money(y, d))) <==> c == d
    ensures c == CurrencyOf(c.code) ==>
              (d == CurrencyOf(d.code) <==> forall x: real, y: real :: Trichotomous(Money(x, c), Money(y, d)))
  {
    if c != d {
      assert !Trichotomous(Money(0.0, c), Money(0.0, d));
    }
  }
}
