/** internal/order/order.go: items, the aggregate, and its total. */
module Orders {
  import opened GoInts
  import opened Results
  import opened MoneyModel

  datatype OrderError =
    | MissingTenant | NoItems | InvalidItem | InvalidTransition | NotFound | Duplicate
    | InvalidPageToken | NoId | TotalMismatch | UnknownStatus | UnreadableUuid | BadMoney(cause: MoneyError)

  datatype Status = Unspecified | Pending | Confirmed | Shipped | Cancelled
  {
    predicate Real() {
      this != Unspecified
    }

    /** allowedTransitions, read as a relation. */
    predicate CanTransitionTo(next: Status) {
      match this
      case Pending => next == Confirmed || next == Cancelled
      case Confirmed => next == Shipped || next == Cancelled
      case _ => false
    }
  }

  datatype Item = Item(sku: string, quantity: int, unitPrice: Money)
  {
    predicate Valid() {
      && 0 < |sku| <= 64
      && 0 < quantity && IsInt32(quantity)
      && unitPrice.Valid() && !unitPrice.IsNegative()
    }

    /** The exact value of the line, in nanos. */
    function LineValue(): int {
      unitPrice.Value() * quantity
    }
  }

  datatype Order = Order(id: string, tenant: string, customer: string, status: Status,
                         items: seq<Item>, total: Money, createdAt: int, updatedAt: int)

  function LineTotal(i: Item): Result<Money, MoneyError> {
    Mul(i.unitPrice, i.quantity)
  }

  /** An order moves on from Pending to Confirmed to Shipped, or is cancelled before it ships, and
      comes to an end: exactly these four moves are allowed. */
  lemma WhichTransitionsAreAllowed(s: Status, t: Status)
    ensures s.CanTransitionTo(t) <==>
              (s, t) in {(Pending, Confirmed), (Pending, Cancelled), (Confirmed, Shipped), (Confirmed, Cancelled)}
    ensures s.CanTransitionTo(t) ==> t.Real() && Stage(s) < Stage(t)
    ensures s.Real() <==> s != Unspecified
  {
  }

  function Stage(s: Status): nat {
    match s
    case Unspecified => 0
    case Pending => 1
    case Confirmed => 2
    case _ => 3
  }

  // ---------- ComputeTotal ----------

  /** What the loop computes from `total` on: add the lines in order, stop at the first error. */
  function AddLines(total: Money, items: seq<Item>): Result<Money, OrderError>
    decreases items
  {
    if items == [] then Ok(total)
    else
      match LineTotal(items[0])
      case Err(e) => Err(BadMoney(e))
      case Ok(line) =>
        match Add(total, line)
        case Err(e) => Err(BadMoney(e))
        case Ok(next) => AddLines(next, items[1..])
  }

  function TotalOf(items: seq<Item>): Result<Money, OrderError> {
    if items == [] then Err(NoItems) else AddLines(Zero(items[0].unitPrice.currency), items)
  }

  method ComputeTotal(items: seq<Item>) returns (r: Result<Money, OrderError>)
    ensures r == TotalOf(items)
  {
    if |items| == 0 {
      return Err(NoItems);
    }
    var total := Zero(items[0].unitPrice.currency);
    for idx := 0 to |items|
      invariant AddLines(total, items[idx..]) == TotalOf(items)
    {
      var line := LineTotal(items[idx]);
      if line.Err? {
        return Err(BadMoney(line.error));
      }
      var sum := Add(total, line.value);
      if sum.Err? {
        return Err(BadMoney(sum.error));
      }
      assert items[idx..][1..] == items[idx + 1..];
      total := sum.value;
    }
    return Ok(total);
  }

  /** The exact sum of the lines, in nanos. */
  function SumValue(items: seq<Item>): int {
    if items == [] then 0 else items[0].LineValue() + SumValue(items[1..])
  }

  predicate AllValid(items: seq<Item>) {
    forall i :: 0 <= i < |items| ==> items[i].Valid()
  }

  predicate SameCurrency(items: seq<Item>, currency: string) {
    forall i :: 0 <= i < |items| ==> items[i].unitPrice.currency == currency
  }

  lemma LineIsExact(i: Item)
    requires i.Valid()
    ensures i.LineValue() >= 0
    ensures IsExactly(LineTotal(i), i.unitPrice.currency, i.LineValue())
  {
    MulIsExact(i.unitPrice, i.quantity);
    NonNegativeProduct(i.unitPrice.Value(), i.quantity);
  }

  lemma {:induction false} SumIsNonNegative(items: seq<Item>)
    requires AllValid(items)
    ensures SumValue(items) >= 0
  {
    if items != [] {
      LineIsExact(items[0]);
      SumIsNonNegative(items[1..]);
    }
  }

  /** One turn of the loop, on a running total that is not negative. */
  lemma AddLineIsExact(total: Money, item: Item)
    requires total.Valid() && !total.IsNegative() && item.Valid()
    ensures var sum := total.Value() + item.LineValue();
            if item.unitPrice.currency == total.currency && Representable(sum) then
              && LineTotal(item).Ok?
              && IsTotal(Add(total, LineTotal(item).value), total.currency, sum)
            else
              LineTotal(item).Ok? ==> Add(total, LineTotal(item).value).Err?
  {
    LineIsExact(item);
    var line := LineTotal(item);
    if line.Ok? {
      AddSubAreExact(total, line.value);
    }
  }

  predicate IsTotal<E>(r: Result<Money, E>, currency: string, v: int) {
    r.Ok? && r.value.Valid() && !r.value.IsNegative() && r.value.currency == currency && r.value.Value() == v
  }

  lemma {:induction false} AddLinesIsExact(total: Money, items: seq<Item>, v: int)
    requires IsTotal<OrderError>(Ok(total), total.currency, v) && AllValid(items)
    ensures if SameCurrency(items, total.currency) && Representable(v + SumValue(items)) then
              IsTotal(AddLines(total, items), total.currency, v + SumValue(items))
            else
              AddLines(total, items).Err?
    decreases items
  {
    if items != [] {
      var item, rest := items[0], items[1..];
      assert item.Valid();
      SumIsNonNegative(rest);
      LineIsExact(item);
      AddLineIsExact(total, item);
      SameCurrencySplits(items, total.currency);
      var v' := v + item.LineValue();
      assert SumValue(items) == item.LineValue() + SumValue(rest);
      if item.unitPrice.currency == total.currency && Representable(v') {
        AddLinesIsExact(Add(total, LineTotal(item).value).value, rest, v');
      }
    }
  }

  lemma SameCurrencySplits(items: seq<Item>, currency: string)
    requires items != []
    ensures SameCurrency(items, currency)
            <==> items[0].unitPrice.currency == currency && SameCurrency(items[1..], currency)
  {
    assert forall i :: 0 < i < |items| ==> items[i] == items[1..][i - 1];
  }

  /** For items that each pass Item.Validate, ComputeTotal succeeds exactly when they share a
      currency and the exact sum is representable, and then it is that sum. */
  lemma TotalIsExact(items: seq<Item>)
    requires items != [] && AllValid(items)
    ensures var currency := items[0].unitPrice.currency;
            if SameCurrency(items, currency) && Representable(SumValue(items)) then
              var r := TotalOf(items);
              r.Ok? && r.value.Valid() && r.value.currency == currency
              && r.value.Value() == SumValue(items)
            else
              TotalOf(items).Err?
  {
    var zero := Zero(items[0].unitPrice.currency);
    assert items[0].Valid();
    assert ToUpper(items[0].unitPrice.currency) == items[0].unitPrice.currency;
    AddLinesIsExact(zero, items, 0);
  }

  // ---------- the total does not depend on the order of the lines ----------

  lemma {:induction false} SumOfConcat(a: seq<Item>, b: seq<Item>)
    ensures SumValue(a + b) == SumValue(a) + SumValue(b)
    decreases a
  {
    if a == [] {
      assert a + b == b;
    } else {
      SumOfConcat(a[1..], b);
      assert (a + b)[1..] == a[1..] + b;
    }
  }

  lemma SumWithout(items: seq<Item>, k: int)
    requires 0 <= k < |items|
    ensures SumValue(items) == items[k].LineValue() + SumValue(items[..k] + items[k + 1..])
  {
    var front, back := items[..k], items[k + 1..];
    assert items == front + ([items[k]] + back);
    SumOfConcat(front, [items[k]] + back);
    SumOfConcat(front, back);
    assert ([items[k]] + back)[1..] == back;
  }

  lemma RemoveFromBoth<T>(a: seq<T>, b: seq<T>, k: int)
    requires multiset(a) == multiset(b) && 0 <= k < |b| && a != [] && a[0] == b[k]
    ensures multiset(a[1..]) == multiset(b[..k] + b[k + 1..])
  {
    assert b == b[..k] + [b[k]] + b[k + 1..];
    assert multiset(b[..k] + b[k + 1..]) == multiset(b) - multiset{b[k]};
    assert a == [a[0]] + a[1..];
    assert multiset(a[1..]) == multiset(a) - multiset{a[0]};
  }

  lemma {:induction false} SumOfPermutation(a: seq<Item>, b: seq<Item>)
    requires multiset(a) == multiset(b)
    ensures SumValue(a) == SumValue(b)
    decreases a
  {
    if a == [] {
      assert |b| == |multiset(b)| == 0;
    } else {
      assert a[0] in multiset(b);
      var k :| 0 <= k < |b| && b[k] == a[0];
      var rest := b[..k] + b[k + 1..];
      RemoveFromBoth(a, b, k);
      SumOfPermutation(a[1..], rest);
      SumWithout(b, k);
    }
  }

  /** Reordering valid lines changes neither whether there is a total nor what it is. */
  lemma TotalIgnoresItemOrder(a: seq<Item>, b: seq<Item>)
    requires multiset(a) == multiset(b) && AllValid(a)
    ensures TotalOf(a).Ok? <==> TotalOf(b).Ok?
    ensures TotalOf(a).Ok? ==> TotalOf(a) == TotalOf(b)
  {
    assert forall i :: 0 <= i < |b| ==> b[i] in multiset(b);
    assert forall i :: 0 <= i < |a| ==> a[i] in multiset(a);
    assert AllValid(b) by {
      forall i | 0 <= i < |b| ensures b[i].Valid() {
        assert b[i] in multiset(a);
      }
    }
    if a != [] {
      assert |b| == |multiset(b)| == |a|;
      assert a[0] in multiset(b) && b[0] in multiset(a);
      SumOfPermutation(a, b);
      SameLinesSameCurrency(a, b, b[0].unitPrice.currency);
      SameLinesSameCurrency(b, a, a[0].unitPrice.currency);
      TotalIsExact(a);
      TotalIsExact(b);
      if TotalOf(a).Ok? {
        ValueDeterminesMoney(TotalOf(a).value, TotalOf(b).value);
      }
    } else {
      assert |b| == |multiset(b)| == 0;
    }
  }

  lemma SameLinesSameCurrency(a: seq<Item>, b: seq<Item>, currency: string)
    requires multiset(a) == multiset(b)
    ensures SameCurrency(b, currency) ==> SameCurrency(a, currency)
  {
    forall i | 0 <= i < |a| && SameCurrency(b, currency) ensures a[i].unitPrice.currency == currency {
      assert a[i] in multiset(b);
    }
  }

  /** Without the item checks the order of the lines matters: Service.Create sums before it
      validates, and a negative line decides between a total and an overflow. */
  lemma UnvalidatedOrderMatters()
    ensures var big := Item("a", 1, Money("USD", MAX_UNITS, 999_999_999));
            var less := Item("b", 1, Money("USD", 0, -1));
            var more := Item("c", 1, Money("USD", 0, 1));
            && TotalOf([big, less, more]) == Ok(Money("USD", MAX_UNITS, 999_999_999))
            && TotalOf([big, more, less]) == Err(BadMoney(Overflow))
  {
    var usd := "USD";
    var bigM, lessM, moreM := Money(usd, MAX_UNITS, 999_999_999), Money(usd, 0, -1), Money(usd, 0, 1);
    var big, less, more := Item("a", 1, bigM), Item("b", 1, lessM), Item("c", 1, moreM);
    assert ToUpper(usd) == usd;
    SingleLine(big);
    SingleLine(less);
    SingleLine(more);
    ExactSum(Zero(usd), bigM, bigM);
    assert [big, less, more][1..] == [less, more];
    assert [big, more, less][1..] == [more, less];
    LargestLessMore(bigM, less, more);
  }

  lemma LargestLessMore(m: Money, less: Item, more: Item)
    requires m == Money("USD", MAX_UNITS, 999_999_999)
    requires LineTotal(less) == Ok(Money("USD", 0, -1)) && LineTotal(more) == Ok(Money("USD", 0, 1))
    ensures AddLines(m, [less, more]) == Ok(m)
    ensures AddLines(m, [more, less]) == Err(BadMoney(Overflow))
  {
    var lower := Money("USD", MAX_UNITS, 999_999_998);
    ExactSum(m, LineTotal(less).value, lower);
    ExactSum(lower, LineTotal(more).value, m);
    AddSubAreExact(m, LineTotal(more).value);
    TwoLines(m, less, more, LineTotal(less).value, LineTotal(more).value);
    TwoLines(m, more, less, LineTotal(more).value, LineTotal(less).value);
  }

  lemma TwoLines(total: Money, a: Item, b: Item, la: Money, lb: Money)
    requires LineTotal(a) == Ok(la) && LineTotal(b) == Ok(lb)
    ensures Add(total, la).Err? ==> AddLines(total, [a, b]) == Err(BadMoney(Add(total, la).error))
    ensures Add(total, la).Ok? && Add(Add(total, la).value, lb).Ok? ==>
              AddLines(total, [a, b]) == Ok(Add(Add(total, la).value, lb).value)
  {
    assert [a, b][1..] == [b];
    assert [b][1..] == [];
    if Add(total, la).Ok? {
      var mid := Add(total, la).value;
      assert Add(mid, lb).Ok? ==> AddLines(mid, [b]) == Ok(Add(mid, lb).value);
    }
  }

  lemma SingleLine(i: Item)
    requires i.unitPrice.Valid() && i.quantity == 1
    ensures LineTotal(i) == Ok(i.unitPrice)
  {
    MulIsExact(i.unitPrice, 1);
    ValidIsRepresentable(i.unitPrice);
    ValueDeterminesMoney(LineTotal(i).value, i.unitPrice);
  }

  lemma ExactSum(m: Money, o: Money, sum: Money)
    requires m.Valid() && o.Valid() && sum.Valid() && m.currency == o.currency == sum.currency
    requires m.Value() + o.Value() == sum.Value()
    ensures Add(m, o) == Ok(sum)
  {
    AddSubAreExact(m, o);
    ValidIsRepresentable(sum);
    ValueDeterminesMoney(Add(m, o).value, sum);
  }

  // ---------- the aggregate ----------

  function Validate(o: Order): Option<OrderError> {
    if o.tenant == "" then Some(MissingTenant)
    else if o.customer == "" then Some(InvalidItem)
    else if o.items == [] then Some(NoItems)
    else if !AllValid(o.items) then Some(InvalidItem)
    else if !o.status.Real() then Some(InvalidTransition)
    else
      match TotalOf(o.items)
      case Err(e) => Some(e)
      case Ok(want) => if want != o.total then Some(TotalMismatch) else None
  }

  /** What Order.Cancel makes of an order, or why it refuses. */
  function CancelOrder(o: Order, at: int): Result<Order, OrderError> {
    if !o.status.CanTransitionTo(Cancelled) then Err(InvalidTransition)
    else Ok(o.(status := Cancelled, updatedAt := at))
  }

  /** A cancellation succeeds exactly from Pending and Confirmed. It moves the status and the
      update time, and nothing else. */
  predicate Cancels(o: Order, at: int, r: Result<Order, OrderError>) {
    if o.status == Pending || o.status == Confirmed then
      && r.Ok? && r.value.status == Cancelled && r.value.updatedAt == at
      && r.value.id == o.id && r.value.tenant == o.tenant && r.value.customer == o.customer
      && r.value.items == o.items && r.value.total == o.total && r.value.createdAt == o.createdAt
    else r == Err(InvalidTransition)
  }

  lemma CancelOrderCancels(o: Order, at: int)
    ensures Cancels(o, at, CancelOrder(o, at))
  {
  }

  /** A variable holding an order, as a caller of Order.Cancel has one. */
  class OrderVar {
    var value: Order

    constructor (value: Order)
      ensures this.value == value
    {
      this.value := value;
    }

    method Cancel(at: int) returns (err: Option<OrderError>)
      modifies this
      ensures match CancelOrder(old(value), at)
              case Ok(o) => err == None && value == o
              case Err(e) => err == Some(e) && value == old(value)
      ensures Cancels(old(value), at, if err.None? then Ok(value) else Err(err.value))
    {
      CancelOrderCancels(value, at);
      if !value.status.CanTransitionTo(Cancelled) {
        return Some(InvalidTransition);
      }
      value := value.(status := Cancelled);
      value := value.(updatedAt := at);
      return None;
    }
  }

  /** A legal cancellation keeps a valid order valid, happens at most once, and touches
      nothing but the status and the update time. */
  lemma CancelKeepsValid(o: Order, at: int, again: int)
    requires Validate(o) == None && CancelOrder(o, at).Ok?
    ensures var c := CancelOrder(o, at).value;
            && Validate(c) == None
            && CancelOrder(c, again) == Err(InvalidTransition)
            && Cancels(o, at, Ok(c))
  {
  }
}
