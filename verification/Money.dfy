/** internal/order/money.go: exact decimal amounts held in an int64 and an int32. */
module MoneyModel {
  import opened GoInts
  import opened Results

  const NANOS_PER_UNIT: int := 1_000_000_000

  const MAX_UNITS: int := (MAX_INT64 - (NANOS_PER_UNIT - 1)) / NANOS_PER_UNIT

  /** The largest size a Money may have, in nanos. */
  const MAX_TOTAL: int := MAX_UNITS * NANOS_PER_UNIT + (NANOS_PER_UNIT - 1)

  datatype MoneyError = CurrencyMismatch | Overflow | InvalidCurrencyCode | InvalidMoney

  datatype Money = Money(currency: string, units: int, nanos: int)
  {
    /** The fields hold values of Go's types. */
    predicate Typed() {
      IsInt64(units) && IsInt32(nanos)
    }

    /** The amount meant, in nanos, over the unbounded integers. */
    function Value(): int {
      units * NANOS_PER_UNIT + nanos
    }

    predicate Valid() {
      Validate(this) == None
    }

    predicate IsNegative() {
      units < 0 || nanos < 0
    }
  }

  predicate Representable(v: int) {
    -MAX_TOTAL <= v <= MAX_TOTAL
  }

  predicate ValidCurrencyCode(s: string) {
    |s| == 3 && forall i :: 0 <= i < |s| ==> 'A' <= s[i] <= 'Z'
  }

  function UpperChar(c: char): char {
    if 'a' <= c <= 'z' then c - ('a' - 'A') else c
  }

  function ToUpper(s: string): string {
    seq(|s|, i requires 0 <= i < |s| => UpperChar(s[i]))
  }

  function Zero(currency: string): Money {
    Money(ToUpper(currency), 0, 0)
  }

  function Validate(m: Money): Option<MoneyError> {
    if !ValidCurrencyCode(m.currency) then Some(InvalidCurrencyCode)
    else if m.nanos <= -NANOS_PER_UNIT || m.nanos >= NANOS_PER_UNIT then Some(InvalidMoney)
    else if (m.units > 0 && m.nanos < 0) || (m.units < 0 && m.nanos > 0) then Some(InvalidMoney)
    else if m.units > MAX_UNITS || m.units < -MAX_UNITS then Some(Overflow)
    else None
  }

  function TotalNanos(m: Money): Result<int, MoneyError> {
    if m.units > MAX_UNITS || m.units < -MAX_UNITS then Err(Overflow)
    else Ok(Wrap64(Wrap64(m.units * NANOS_PER_UNIT) + m.nanos))
  }

  function FromTotalNanos(currency: string, total: int): Result<Money, MoneyError> {
    var m := Money(currency, Quo(total, NANOS_PER_UNIT), Rem(total, NANOS_PER_UNIT));
    if m.units > MAX_UNITS || m.units < -MAX_UNITS then Err(Overflow) else Ok(m)
  }

  function Combine(m: Money, o: Money, negate: bool): Result<Money, MoneyError> {
    if m.currency != o.currency then Err(CurrencyMismatch)
    else
      match (TotalNanos(m), TotalNanos(o))
      case (Err(e), _) => Err(e)
      case (_, Err(e)) => Err(e)
      case (Ok(a), Ok(b0)) =>
        var b := if negate then Wrap64(-b0) else b0;
        var sum := Wrap64(a + b);
        if (b > 0 && sum < a) || (b < 0 && sum > a) then Err(Overflow)
        else FromTotalNanos(m.currency, sum)
  }

  function Add(m: Money, o: Money): Result<Money, MoneyError> {
    Combine(m, o, false)
  }

  function Sub(m: Money, o: Money): Result<Money, MoneyError> {
    Combine(m, o, true)
  }

  function Mul(m: Money, n: int): Result<Money, MoneyError> {
    match TotalNanos(m)
    case Err(e) => Err(e)
    case Ok(total) =>
      if n != 0 then
        var product := Wrap64(total * n);
        if Wrap64(Quo(product, n)) != total then Err(Overflow)
        else FromTotalNanos(m.currency, product)
      else Ok(Zero(m.currency))
  }

  function Compare(m: Money, o: Money): Result<int, MoneyError> {
    if m.currency != o.currency then Err(CurrencyMismatch)
    else
      match (TotalNanos(m), TotalNanos(o))
      case (Err(e), _) => Err(e)
      case (_, Err(e)) => Err(e)
      case (Ok(a), Ok(b)) => Ok(if a < b then -1 else if a > b then 1 else 0)
  }

  /** The value `Normalize` computes. */
  function Normalized(m: Money): Money {
    var units := Wrap64(m.units + Quo(m.nanos, NANOS_PER_UNIT));
    var nanos := Rem(m.nanos, NANOS_PER_UNIT);
    if units > 0 && nanos < 0 then
      Money(ToUpper(m.currency), units - 1, nanos + NANOS_PER_UNIT)
    else if units < 0 && nanos > 0 then
      Money(ToUpper(m.currency), units + 1, nanos - NANOS_PER_UNIT)
    else
      Money(ToUpper(m.currency), units, nanos)
  }

  method Normalize(m: Money) returns (r: Money)
    requires m.Typed()
    ensures r == Normalized(m) && r.Typed()
  {
    r := m.(currency := ToUpper(m.currency));
    r := r.(units := Wrap64(r.units + Quo(r.nanos, NANOS_PER_UNIT)));
    r := r.(nanos := Rem(r.nanos, NANOS_PER_UNIT));
    RemIsSmall(m.nanos, NANOS_PER_UNIT);
    if r.units > 0 && r.nanos < 0 {
      r := r.(units := r.units - 1);
      r := r.(nanos := r.nanos + NANOS_PER_UNIT);
    } else if r.units < 0 && r.nanos > 0 {
      r := r.(units := r.units + 1);
      r := r.(nanos := r.nanos - NANOS_PER_UNIT);
    }
  }

  function NewMoney(currency: string, units: int, nanos: int): Result<Money, MoneyError> {
    var m := Normalized(Money(currency, units, nanos));
    match Validate(m)
    case Some(e) => Err(e)
    case None => Ok(m)
  }

  // ---------- the amounts a valid Money can hold ----------

  /** A valid Money holds an amount in range, and reading it back does not wrap. */
  lemma ValidIsRepresentable(m: Money)
    requires m.Valid()
    ensures Representable(m.Value())
    ensures TotalNanos(m) == Ok(m.Value())
  {
  }

  /** MAX_UNITS is the largest bound under which no well-formed amount wraps in TotalNanos:
      one unit more and units * NANOS_PER_UNIT + nanos leaves int64. */
  lemma MaxUnitsIsTheTightBound(bound: int)
    requires bound >= 0
    ensures (forall units: int, nanos: int ::
               -bound <= units <= bound && -NANOS_PER_UNIT < nanos < NANOS_PER_UNIT ==>
               FitsInt64(units, nanos))
            <==> bound <= MAX_UNITS
  {
    if bound > MAX_UNITS {
      assert !FitsInt64(bound, NANOS_PER_UNIT - 1);
    }
  }

  predicate FitsInt64(units: int, nanos: int) {
    IsInt64(units * NANOS_PER_UNIT + nanos)
  }

  /** One currency and one amount have one valid representation. */
  lemma ValueDeterminesMoney(m: Money, o: Money)
    requires m.Valid() && o.Valid() && m.currency == o.currency && m.Value() == o.Value()
    ensures m == o
  {
  }

  // ---------- arithmetic is exact ----------

  /** What it means for an operation on valid amounts to have the exact result `v`. */
  predicate IsExactly(r: Result<Money, MoneyError>, currency: string, v: int) {
    if Representable(v) then
      r.Ok? && r.value.Valid() && r.value.currency == currency && r.value.Value() == v
    else
      r == Err(Overflow)
  }

  /** FromTotalNanos inverts Value, and refuses exactly what Validate would refuse. */
  lemma FromTotalNanosIsExact(currency: string, total: int)
    requires ValidCurrencyCode(currency)
    ensures IsExactly(FromTotalNanos(currency, total), currency, total)
  {
    RemIsSmall(total, NANOS_PER_UNIT);
  }

  lemma AddSubAreExact(m: Money, o: Money)
    requires m.Valid() && o.Valid()
    ensures m.currency != o.currency ==>
              Add(m, o) == Err(CurrencyMismatch) && Sub(m, o) == Err(CurrencyMismatch)
    ensures m.currency == o.currency ==>
              && IsExactly(Add(m, o), m.currency, m.Value() + o.Value())
              && IsExactly(Sub(m, o), m.currency, m.Value() - o.Value())
  {
    ValidIsRepresentable(m);
    ValidIsRepresentable(o);
    if m.currency == o.currency {
      CombineIsExact(m, o, false, m.Value(), o.Value());
      CombineIsExact(m, o, true, m.Value(), o.Value());
    }
  }

  lemma CombineIsExact(m: Money, o: Money, negate: bool, a: int, b: int)
    requires m.currency == o.currency && ValidCurrencyCode(m.currency)
    requires TotalNanos(m) == Ok(a) && Representable(a)
    requires TotalNanos(o) == Ok(b) && Representable(b)
    ensures IsExactly(Combine(m, o, negate), m.currency, if negate then a - b else a + b)
  {
    var c := if negate then -b else b;
    CombineUnfolds(m, o, negate, a, b);
    FromTotalNanosIsExact(m.currency, a + c);
  }

  lemma CombineUnfolds(m: Money, o: Money, negate: bool, a: int, b: int)
    requires m.currency == o.currency && TotalNanos(m) == Ok(a) && TotalNanos(o) == Ok(b)
    requires Representable(a) && Representable(b)
    ensures var sum := if negate then a - b else a + b;
            Combine(m, o, negate) ==
            if IsInt64(sum) then FromTotalNanos(m.currency, sum) else Err(Overflow)
  {
    SignRevealsWrap(a, if negate then -b else b);
  }

  /** Comparing the sum with an operand catches exactly the additions that wrapped. */
  lemma SignRevealsWrap(a: int, b: int)
    requires IsInt64(a) && IsInt64(b)
    ensures var sum := Wrap64(a + b);
            (b > 0 && sum < a) || (b < 0 && sum > a) <==> !IsInt64(a + b)
  {
    if a + b > MAX_INT64 {
      assert Wrap64(a + b) == a + b - TWO_TO_64;
    } else if a + b < MIN_INT64 {
      assert Wrap64(a + b) == a + b + TWO_TO_64;
    }
  }

  /** The check `product/n != total` catches every product that wrapped, and no other. */
  lemma DivisionDetectsWrap(total: int, n: int)
    requires IsInt64(total) && IsInt64(n) && n != 0 && total != MIN_INT64
    ensures Wrap64(Quo(Wrap64(total * n), n)) == total <==> IsInt64(total * n)
  {
    if IsInt64(total * n) {
      QuoUndoesMul(total, n);
    } else {
      var p := Wrap64(total * n);
      WrappedQuotientDiffers(total * n, p, total, n);
      if !IsInt64(Quo(p, n)) {
        QuoLeavesInt64(p, n);
      }
    }
  }

  lemma WrappedQuotientDiffers(exact: int, p: int, total: int, n: int)
    requires exact == total * n && p == Wrap64(exact) && p != exact
    requires IsInt64(n) && n != 0
    ensures Quo(p, n) != total
  {
    RemIsSmall(p, n);
    assert (p - exact) % TWO_TO_64 == 0;
    assert Abs(p - exact) >= TWO_TO_64 > Abs(p - n * Quo(p, n));
  }

  lemma QuoLeavesInt64(p: int, n: int)
    requires IsInt64(p) && IsInt64(n) && n != 0 && !IsInt64(Quo(p, n))
    ensures p == MIN_INT64 && n == -1
  {
    var a, b := Abs(p), Abs(n);
    assert a / b <= a;
    if b > 1 {
      assert a / b <= a / 2 by { HalvesAtLeast(a, b); }
    }
  }

  lemma HalvesAtLeast(a: nat, b: nat)
    requires b >= 2
    ensures a / b <= a / 2
  {
    var q := a / b;
    QuotientBounds(a, b, q);
    NonNegativeProduct(b - 2, q);
    assert (b - 2) * q == q * b - q * 2;
    QuotientBounds(a, 2, q);
  }

  lemma MulIsExact(m: Money, n: int)
    requires m.Valid() && IsInt64(n)
    ensures IsExactly(Mul(m, n), m.currency, m.Value() * n)
  {
    ValidIsRepresentable(m);
    if n == 0 {
      assert ToUpper(m.currency) == m.currency;
    } else {
      DivisionDetectsWrap(m.Value(), n);
      FromTotalNanosIsExact(m.currency, m.Value() * n);
    }
  }

  /** Amounts with more units than Validate allows are not computed with. */
  lemma OversizeIsRefused(m: Money, o: Money, n: int)
    requires m.units > MAX_UNITS || m.units < -MAX_UNITS
    ensures m.currency == o.currency ==>
              Add(m, o) == Err(Overflow) && Sub(m, o) == Err(Overflow) && Compare(m, o) == Err(Overflow)
    ensures m.currency == o.currency && o.Valid() ==>
              Add(o, m) == Err(Overflow) && Sub(o, m) == Err(Overflow) && Compare(o, m) == Err(Overflow)
    ensures Mul(m, n) == Err(Overflow)
  {
  }

  lemma CompareIsTheOrder(m: Money, o: Money)
    requires m.Valid() && o.Valid()
    ensures m.currency != o.currency ==> Compare(m, o) == Err(CurrencyMismatch)
    ensures m.currency == o.currency ==>
              && Compare(m, o).Ok?
              && (Compare(m, o).value == -1 <==> m.Value() < o.Value())
              && (Compare(m, o).value == 0 <==> m == o)
              && (Compare(m, o).value == 1 <==> m.Value() > o.Value())
  {
    ValidIsRepresentable(m);
    ValidIsRepresentable(o);
    if m.currency == o.currency && m.Value() == o.Value() {
      ValueDeterminesMoney(m, o);
    }
  }

  /** Three ASCII letters, of either case. */
  predicate IsCode(s: string) {
    |s| == 3 && forall i :: 0 <= i < 3 ==> 'a' <= s[i] <= 'z' || 'A' <= s[i] <= 'Z'
  }

  /** The same text with every small letter moved up, thirty-two codes lower. */
  predicate IsUpperOf(u: string, s: string) {
    |u| == |s| && forall i :: 0 <= i < |s| ==>
                    u[i] as int == if 'a' <= s[i] <= 'z' then s[i] as int - 32 else s[i] as int
  }

  /** What Validate accepts, in the fields: a code in upper case, fewer than a thousand million
      nanos, no mixed signs, and no more units than leave room for them. */
  lemma ValidMeans(m: Money)
    ensures m.Valid() <==>
              && IsCode(m.currency) && IsUpperOf(m.currency, m.currency)
              && -999_999_999 <= m.nanos <= 999_999_999
              && !(m.units > 0 && m.nanos < 0) && !(m.units < 0 && m.nanos > 0)
              && -9_223_372_035 <= m.units <= 9_223_372_035
  {
  }

  lemma UpperIsUpper(s: string)
    ensures IsUpperOf(ToUpper(s), s) && (ValidCurrencyCode(ToUpper(s)) <==> IsCode(s))
  {
    if ValidCurrencyCode(ToUpper(s)) {
      forall i | 0 <= i < 3 ensures 'a' <= s[i] <= 'z' || 'A' <= s[i] <= 'Z' {
        assert 'A' <= ToUpper(s)[i] <= 'Z';
      }
    }
  }

  /** The constructor accepts exactly the int64, int32 pairs whose combined amount is in
      range, with a code of three letters of either case, and keeps that amount and the code
      in upper case; the pairs on which `Units += ...` wraps are among those it refuses. */
  lemma NewMoneyIsExact(currency: string, units: int, nanos: int)
    requires IsInt64(units) && IsInt32(nanos)
    ensures var v := units * 1_000_000_000 + nanos;
            var r := NewMoney(currency, units, nanos);
            if !IsCode(currency) then
              r == Err(InvalidCurrencyCode)
            else if Representable(v) then
              r.Ok? && r.value.Valid() && r.value.Value() == v && IsUpperOf(r.value.currency, currency)
            else
              r == Err(Overflow)
  {
    NormalizedIsExact(Money(currency, units, nanos));
    UpperIsUpper(currency);
  }

  lemma NormalizedIsExact(m: Money)
    requires m.Typed()
    ensures var r := Normalized(m);
            if Abs(m.units) <= MAX_UNITS + 10 then
              && r.Value() == m.Value()
              && -NANOS_PER_UNIT < r.nanos < NANOS_PER_UNIT
              && !(r.units > 0 && r.nanos < 0) && !(r.units < 0 && r.nanos > 0)
            else
              && !Representable(m.Value())
              && -NANOS_PER_UNIT < r.nanos < NANOS_PER_UNIT
              && !(r.units > 0 && r.nanos < 0) && !(r.units < 0 && r.nanos > 0)
              && Abs(r.units) > MAX_UNITS
  {
    var carry := Quo(m.nanos, NANOS_PER_UNIT);
    RemIsSmall(m.nanos, NANOS_PER_UNIT);
    assert m.nanos == NANOS_PER_UNIT * carry + Rem(m.nanos, NANOS_PER_UNIT);
    assert -2 <= carry <= 2;
    CarryWraps(m.units, carry);
  }

  /** Adding the carry either stays exact or lands at the far end of int64. */
  lemma CarryWraps(units: int, carry: int)
    requires IsInt64(units) && -2 <= carry <= 2
    ensures Wrap64(units + carry) == units + carry || Abs(Wrap64(units + carry)) > MAX_INT64 - 3
    ensures Abs(units) <= MAX_UNITS + 10 ==> Wrap64(units + carry) == units + carry
  {
    if units + carry > MAX_INT64 {
      assert Wrap64(units + carry) == units + carry - TWO_TO_64;
    } else if units + carry < MIN_INT64 {
      assert Wrap64(units + carry) == units + carry + TWO_TO_64;
    }
  }

  lemma SameCode(a: string, b: string)
    requires IsUpperOf(a, b) && IsUpperOf(b, b)
    ensures a == b
  {
  }

  /** Constructing a valid amount from its own parts gives it back (the Postgres read path). */
  lemma NewMoneyRoundTrip(m: Money)
    requires m.Valid()
    ensures NewMoney(m.currency, m.units, m.nanos) == Ok(m)
  {
    assert ToUpper(m.currency) == m.currency;
    ValidMeans(m);
    NewMoneyIsExact(m.currency, m.units, m.nanos);
    ValidIsRepresentable(m);
    SameCode(NewMoney(m.currency, m.units, m.nanos).value.currency, m.currency);
    ValueDeterminesMoney(NewMoney(m.currency, m.units, m.nanos).value, m);
  }
}
