/** When the order of the lines decides whether an order has a total. Service.Create sums the
    items before it validates them (internal/order/service.go), so quantities may have any
    sign when ComputeTotal of internal/order/order.go runs. */
module LineOrder {
  import opened GoInts
  import opened Results
  import opened MoneyModel
  import opened Orders
  import opened OrderStore

  /** Valid prices in one currency, and lines that each fit; quantities of either sign. */
  predicate Summable(items: seq<Item>, currency: string) {
    forall i :: 0 <= i < |items| ==> LineFits(items[i], currency)
  }

  predicate LineFits(i: Item, currency: string) {
    && i.unitPrice.Valid() && i.unitPrice.currency == currency
    && IsInt32(i.quantity) && Representable(i.LineValue())
  }

  /** The lines that add, and the lines that take away. */
  function Adding(items: seq<Item>): seq<Item> {
    if items == [] then []
    else (if items[0].LineValue() > 0 then [items[0]] else []) + Adding(items[1..])
  }

  function Taking(items: seq<Item>): seq<Item> {
    if items == [] then []
    else (if items[0].LineValue() > 0 then [] else [items[0]]) + Taking(items[1..])
  }

  function Gains(items: seq<Item>): int {
    SumValue(Adding(items))
  }

  function Losses(items: seq<Item>): int {
    SumValue(Taking(items))
  }

  /** The running total, starting from v, never leaves the range. */
  predicate Fits(v: int, items: seq<Item>)
    decreases items
  {
    Representable(v) && (items != [] ==> Fits(v + items[0].LineValue(), items[1..]))
  }

  // ---------- the loop succeeds exactly if the running total fits ----------

  predicate Amounts(m: Money, currency: string, v: int) {
    m.Valid() && m.currency == currency && m.Value() == v
  }

  lemma OneLine(total: Money, item: Item, currency: string, v: int)
    requires Amounts(total, currency, v) && LineFits(item, currency)
    ensures LineTotal(item).Ok?
    ensures var next := Add(total, LineTotal(item).value);
            if Representable(v + item.LineValue()) then next.Ok? && Amounts(next.value, currency, v + item.LineValue())
            else next.Err?
  {
    MulIsExact(item.unitPrice, item.quantity);
    AddSubAreExact(total, LineTotal(item).value);
  }

  lemma {:induction false} SucceedsIfItFits(total: Money, items: seq<Item>, currency: string, v: int)
    requires Amounts(total, currency, v) && Summable(items, currency)
    ensures if Fits(v, items) then
              AddLines(total, items).Ok? && Amounts(AddLines(total, items).value, currency, v + SumValue(items))
            else AddLines(total, items).Err?
    decreases items
  {
    ValidIsRepresentable(total);
    if items != [] {
      var v' := v + items[0].LineValue();
      assert Fits(v, items) <==> Fits(v', items[1..]);
      var next := OneTurn(total, items, currency, v);
      if Representable(v') {
        TailIsSummable(items, currency);
        SucceedsIfItFits(next, items[1..], currency, v');
      }
    }
  }

  lemma OneTurn(total: Money, items: seq<Item>, currency: string, v: int) returns (next: Money)
    requires Amounts(total, currency, v) && items != [] && Summable(items, currency)
    ensures var v' := v + items[0].LineValue();
            if Representable(v') then
              Amounts(next, currency, v') && AddLines(total, items) == AddLines(next, items[1..])
            else AddLines(total, items).Err?
  {
    assert LineFits(items[0], currency);
    OneLine(total, items[0], currency, v);
    LoopUnfolds(total, items);
    var sum := Add(total, LineTotal(items[0]).value);
    next := if sum.Ok? then sum.value else total;
  }

  lemma TailIsSummable(items: seq<Item>, currency: string)
    requires items != [] && Summable(items, currency)
    ensures Summable(items[1..], currency)
  {
    forall i | 0 <= i < |items[1..]| ensures LineFits(items[1..][i], currency) {
      assert items[1..][i] == items[i + 1];
    }
  }

  lemma LoopUnfolds(total: Money, items: seq<Item>)
    requires items != [] && LineTotal(items[0]).Ok?
    ensures var next := Add(total, LineTotal(items[0]).value);
            if next.Ok? then AddLines(total, items) == AddLines(next.value, items[1..]) else AddLines(total, items).Err?
  {
  }

  lemma TotalFits(items: seq<Item>, currency: string)
    requires items != [] && Summable(items, currency)
    ensures if Fits(0, items) then
              TotalOf(items).Ok? && Amounts(TotalOf(items).value, currency, SumValue(items))
            else TotalOf(items).Err?
  {
    assert LineFits(items[0], currency);
    assert ToUpper(currency) == currency;
    SucceedsIfItFits(Zero(currency), items, currency, 0);
  }

  // ---------- what reordering leaves unchanged ----------

  lemma {:induction false} CountOfAdding(items: seq<Item>, x: Item)
    ensures multiset(Adding(items))[x] == if x.LineValue() > 0 then multiset(items)[x] else 0
    ensures multiset(Taking(items))[x] == if x.LineValue() > 0 then 0 else multiset(items)[x]
  {
    if items != [] {
      CountOfAdding(items[1..], x);
      assert items == [items[0]] + items[1..];
    }
  }

  lemma SameGains(a: seq<Item>, b: seq<Item>)
    requires multiset(a) == multiset(b)
    ensures Gains(a) == Gains(b) && Losses(a) == Losses(b) && SumValue(a) == SumValue(b)
  {
    forall x
      ensures multiset(Adding(a))[x] == multiset(Adding(b))[x] && multiset(Taking(a))[x] == multiset(Taking(b))[x]
    {
      CountOfAdding(a, x);
      CountOfAdding(b, x);
    }
    SumOfPermutation(Adding(a), Adding(b));
    SumOfPermutation(Taking(a), Taking(b));
    SumOfPermutation(a, b);
  }

  lemma SameSummable(a: seq<Item>, b: seq<Item>, currency: string)
    requires multiset(a) == multiset(b) && Summable(a, currency)
    ensures Summable(b, currency) && |a| == |b|
  {
    assert |a| == |multiset(a)| && |b| == |multiset(b)|;
    forall i | 0 <= i < |b| ensures LineFits(b[i], currency) {
      assert b[i] in multiset(a);
    }
  }

  lemma {:induction false} GainsAndLosses(items: seq<Item>)
    ensures Losses(items) <= 0 <= Gains(items)
  {
    if items != [] {
      GainsAndLosses(items[1..]);
      FirstLine(items);
    }
  }

  lemma FirstLine(items: seq<Item>)
    requires items != []
    ensures var line := items[0].LineValue();
            && Gains(items) == Gains(items[1..]) + (if line > 0 then line else 0)
            && Losses(items) == Losses(items[1..]) + (if line > 0 then 0 else line)
  {
    var rest := items[1..];
    assert [items[0]] + Adding(rest) != [] && ([items[0]] + Adding(rest))[1..] == Adding(rest);
    assert [items[0]] + Taking(rest) != [] && ([items[0]] + Taking(rest))[1..] == Taking(rest);
    assert [] + Adding(rest) == Adding(rest) && [] + Taking(rest) == Taking(rest);
  }

  lemma AddingThenTaking(items: seq<Item>)
    ensures multiset(Adding(items) + Taking(items)) == multiset(items)
    ensures multiset(Taking(items) + Adding(items)) == multiset(items)
  {
    forall x ensures multiset(Adding(items))[x] + multiset(Taking(items))[x] == multiset(items)[x] {
      CountOfAdding(items, x);
    }
  }

  // ---------- every order has a total ----------

  /** All gains and all losses in range: no running total can leave it. */
  lemma {:induction false} BoundedFits(v: int, items: seq<Item>)
    requires Representable(v + Gains(items)) && Representable(v + Losses(items))
    ensures Fits(v, items)
    decreases items
  {
    GainsAndLosses(items);
    if items != [] {
      FirstLine(items);
      GainsAndLosses(items[1..]);
      BoundedFits(v + items[0].LineValue(), items[1..]);
    }
  }

  lemma {:induction false} FitsPrefix(v: int, a: seq<Item>, b: seq<Item>)
    requires Fits(v, a + b)
    ensures Representable(v + SumValue(a))
    decreases a
  {
    if a != [] {
      assert (a + b)[1..] == a[1..] + b;
      FitsPrefix(v + a[0].LineValue(), a[1..], b);
    }
  }

  /** Every order of the lines has a total exactly if the gains alone and the losses alone are
      representable. */
  lemma EveryOrderSucceeds(items: seq<Item>, currency: string)
    requires items != [] && Summable(items, currency)
    ensures (forall p :: multiset(p) == multiset(items) ==> TotalOf(p).Ok?)
            <==> Representable(Gains(items)) && Representable(Losses(items))
  {
    if Representable(Gains(items)) && Representable(Losses(items)) {
      forall p | multiset(p) == multiset(items) ensures TotalOf(p).Ok? {
        SameSummable(items, p, currency);
        SameGains(items, p);
        BoundedFits(0, p);
        TotalFits(p, currency);
      }
    } else {
      var p := FailingOrder(items, currency);
    }
  }

  /** All gains first, or all losses first. */
  lemma FailingOrder(items: seq<Item>, currency: string) returns (p: seq<Item>)
    requires items != [] && Summable(items, currency)
    requires !(Representable(Gains(items)) && Representable(Losses(items)))
    ensures multiset(p) == multiset(items) && TotalOf(p).Err?
  {
    AddingThenTaking(items);
    if !Representable(Gains(items)) {
      p := Adding(items) + Taking(items);
      FailsInThisOrder(items, currency, Adding(items), Taking(items));
    } else {
      p := Taking(items) + Adding(items);
      FailsInThisOrder(items, currency, Taking(items), Adding(items));
    }
  }

  lemma FailsInThisOrder(items: seq<Item>, currency: string, a: seq<Item>, b: seq<Item>)
    requires items != [] && Summable(items, currency) && multiset(a + b) == multiset(items)
    ensures !Representable(SumValue(a)) ==> TotalOf(a + b).Err?
  {
    SameSummable(items, a + b, currency);
    TotalFits(a + b, currency);
    if Fits(0, a + b) {
      FitsPrefix(0, a, b);
    }
  }

  // ---------- some order has a total ----------

  /** Pay what is owed while there is something in hand: a total in range has an order whose
      running totals are all in range. */
  lemma GoodOrder(v: int, items: seq<Item>, currency: string) returns (p: seq<Item>)
    requires Summable(items, currency) && Representable(v) && Representable(v + SumValue(items))
    ensures multiset(p) == multiset(items) && Fits(v, p)
    decreases |items|
  {
    if items == [] {
      return [];
    }
    var k := NextLine(v, items);
    var rest, v' := items[..k] + items[k + 1..], v + items[k].LineValue();
    SumWithout(items, k);
    NextStaysInRange(v, items, k, currency);
    var tail := GoodOrder(v', rest, currency);
    p := [items[k]] + tail;
    SameLines(items, k, tail);
    assert p[1..] == tail;
  }

  lemma SameLines(items: seq<Item>, k: int, tail: seq<Item>)
    requires 0 <= k < |items| && multiset(tail) == multiset(items[..k] + items[k + 1..])
    ensures multiset([items[k]] + tail) == multiset(items)
  {
    assert items == items[..k] + [items[k]] + items[k + 1..];
  }

  predicate Helps(v: int, line: int) {
    if v >= 0 then line <= 0 else line >= 0
  }

  /** A line that brings the running total back, if there is one. */
  lemma NextLine(v: int, items: seq<Item>) returns (k: int)
    requires items != []
    ensures 0 <= k < |items|
    ensures Helps(v, items[k].LineValue()) || forall j :: 0 <= j < |items| ==> !Helps(v, items[j].LineValue())
  {
    if j :| 0 <= j < |items| && Helps(v, items[j].LineValue()) {
      k := j;
    } else {
      k := 0;
    }
  }

  lemma NextStaysInRange(v: int, items: seq<Item>, k: int, currency: string)
    requires Summable(items, currency) && 0 <= k < |items| && Representable(v) && Representable(v + SumValue(items))
    requires Helps(v, items[k].LineValue()) || forall j :: 0 <= j < |items| ==> !Helps(v, items[j].LineValue())
    ensures Representable(v + items[k].LineValue()) && Summable(items[..k] + items[k + 1..], currency)
  {
    assert LineFits(items[k], currency);
    if !Helps(v, items[k].LineValue()) {
      SumWithout(items, k);
      OneSided(items[..k] + items[k + 1..], v);
    }
  }

  lemma {:induction false} OneSided(items: seq<Item>, v: int)
    requires forall j :: 0 <= j < |items| ==> !Helps(v, items[j].LineValue())
    ensures if v >= 0 then SumValue(items) >= 0 else SumValue(items) <= 0
    decreases items
  {
    if items != [] {
      OneSided(items[1..], v);
      assert !Helps(v, items[0].LineValue());
    }
  }

  /** Some order of the lines has a total exactly if their exact sum is representable, and
      every total there is is that sum. */
  lemma SomeOrderSucceeds(items: seq<Item>, currency: string)
    requires items != [] && Summable(items, currency)
    ensures (exists p :: multiset(p) == multiset(items) && TotalOf(p).Ok?) <==> Representable(SumValue(items))
    ensures forall p :: multiset(p) == multiset(items) && TotalOf(p).Ok? ==>
              Amounts(TotalOf(p).value, currency, SumValue(items))
  {
    forall p | multiset(p) == multiset(items) && TotalOf(p).Ok?
      ensures Amounts(TotalOf(p).value, currency, SumValue(items)) && Representable(SumValue(items))
    {
      SameSummable(items, p, currency);
      SameGains(items, p);
      TotalFits(p, currency);
      ValidIsRepresentable(TotalOf(p).value);
    }
    if Representable(SumValue(items)) {
      var p := GoodOrder(0, items, currency);
      SameSummable(items, p, currency);
      TotalFits(p, currency);
    }
  }

  /** Exactly when the order decides between a total and an overflow: the sum of all lines is
      representable, but that of the gains alone or of the losses alone is not. */
  lemma WhenOrderDecides(items: seq<Item>, currency: string)
    requires items != [] && Summable(items, currency)
    ensures (exists p, q :: multiset(p) == multiset(items) == multiset(q) && TotalOf(p).Ok? && TotalOf(q).Err?)
            <==> Representable(SumValue(items)) && !(Representable(Gains(items)) && Representable(Losses(items)))
  {
    EveryOrderSucceeds(items, currency);
    SomeOrderSucceeds(items, currency);
  }

  /** The three lines of UnvalidatedOrderMatters are such a case. */
  lemma TheThreeLinesDecide(items: seq<Item>)
    requires items == [Item("a", 1, Money("USD", MAX_UNITS, 999_999_999)),
                       Item("b", 1, Money("USD", 0, -1)),
                       Item("c", 1, Money("USD", 0, 1))]
    ensures Summable(items, "USD") && Representable(SumValue(items)) && !Representable(Gains(items))
  {
    var rest := items[1..];
    assert rest == [items[1], items[2]] && rest[1..] == [items[2]] && rest[1..][1..] == [];
    FirstLine(items);
    FirstLine(rest);
    FirstLine(rest[1..]);
    assert Gains([]) == 0;
    assert SumValue(rest[1..][1..]) == 0;
    assert SumValue(rest[1..]) == items[2].LineValue();
    assert SumValue(rest) == items[1].LineValue() + items[2].LineValue();
  }

  // ---------- what that means for Service.Create ----------

  /** The order of the lines never decides whether Create accepts an order, whatever the items:
      it sums first, but what it accepts has passed validation. */
  lemma CreateIgnoresItemOrder(tenant: string, customer: string, a: seq<Item>, b: seq<Item>, at: int,
                               id: Option<string>)
    requires multiset(a) == multiset(b)
    ensures WorkFor(Create(tenant, customer, a, at, id)).Ok? <==> WorkFor(Create(tenant, customer, b, at, id)).Ok?
    ensures WorkFor(Create(tenant, customer, a, at, id)).Ok? ==>
              var work := WorkFor(Create(tenant, customer, a, at, id)).value;
              work.Insert? && WorkFor(Create(tenant, customer, b, at, id)) == Ok(work.(o := work.o.(items := b)))
  {
    if WorkFor(Create(tenant, customer, a, at, id)).Ok? {
      AcceptedAlike(tenant, customer, a, b, at, id);
    }
    if WorkFor(Create(tenant, customer, b, at, id)).Ok? {
      AcceptedAlike(tenant, customer, b, a, at, id);
    }
  }

  lemma AcceptedAlike(tenant: string, customer: string, a: seq<Item>, b: seq<Item>, at: int, id: Option<string>)
    requires multiset(a) == multiset(b) && WorkFor(Create(tenant, customer, a, at, id)).Ok?
    ensures var work := WorkFor(Create(tenant, customer, a, at, id)).value;
            work.Insert? && WorkFor(Create(tenant, customer, b, at, id)) == Ok(work.(o := work.o.(items := b)))
  {
    AcceptedIsValid(tenant, customer, a, at, id);
    var o := WorkFor(Create(tenant, customer, a, at, id)).value.o;
    assert |a| == |multiset(a)| && |b| == |multiset(b)|;
    SameValid(a, b);
    TotalIgnoresItemOrder(a, b);
    assert Orders.Validate(o.(items := b)) == None;
  }

  lemma AcceptedIsValid(tenant: string, customer: string, items: seq<Item>, at: int, id: Option<string>)
    requires WorkFor(Create(tenant, customer, items, at, id)).Ok?
    ensures WorkFor(Create(tenant, customer, items, at, id)).value.Insert?
    ensures var o := WorkFor(Create(tenant, customer, items, at, id)).value.o;
            Orders.Validate(o) == None && AllValid(items) && TotalOf(items) == Ok(o.total) && o.items == items
  {
  }

  lemma SameValid(a: seq<Item>, b: seq<Item>)
    requires multiset(a) == multiset(b) && AllValid(a)
    ensures AllValid(b)
  {
    forall i | 0 <= i < |b| ensures b[i].Valid() {
      assert b[i] in multiset(a);
    }
  }

  /** It decides only which error is reported: of the three lines above, one order is refused
      for its total and the other for the line that takes away. */
  lemma OrderDecidesTheError(tenant: string, customer: string, at: int, id: string)
    requires tenant != "" && customer != ""
    ensures var big := Item("a", 1, Money("USD", MAX_UNITS, 999_999_999));
            var less, more := Item("b", 1, Money("USD", 0, -1)), Item("c", 1, Money("USD", 0, 1));
            && WorkFor(Create(tenant, customer, [big, less, more], at, Some(id))) == Err(InvalidItem)
            && WorkFor(Create(tenant, customer, [big, more, less], at, Some(id))) == Err(BadMoney(Overflow))
  {
    UnvalidatedOrderMatters();
    var less := Item("b", 1, Money("USD", 0, -1));
    var items := [Item("a", 1, Money("USD", MAX_UNITS, 999_999_999)), less, Item("c", 1, Money("USD", 0, 1))];
    assert items[1] == less && !less.Valid();
  }
}
