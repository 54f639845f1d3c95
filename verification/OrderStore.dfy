/** The transactional store and the service over it: internal/order/ordermem/ordermem.go
    (Create, Get, Update, Publish, clone, InTx) and internal/order/service.go (Create,
    Cancel). Time and new ids are parameters. */
module OrderStore {
  import opened Results
  import opened MoneyModel
  import opened Orders

  datatype EventType = OrderCreated | OrderCancelled

  datatype Event = Event(eventType: EventType, aggregate: string, tenant: string, occurredAt: int, order: Order)

  /** What a store holds, as a value. */
  datatype Data = Data(orders: map<string, Order>, events: seq<Event>)

  const Empty: Data := Data(map[], [])

  function Key(tenant: string, id: string): string {
    tenant + "\0" + id
  }

  function KeyOf(o: Order): string {
    Key(o.tenant, o.id)
  }

  // ---------- what the operations mean ----------

  function CreateIn(d: Data, o: Order): Result<Data, OrderError> {
    if o.tenant == "" then Err(MissingTenant)
    else if KeyOf(o) in d.orders then Err(Duplicate)
    else Ok(d.(orders := d.orders[KeyOf(o) := o]))
  }

  function GetIn(d: Data, tenant: string, id: string): Result<Order, OrderError> {
    if tenant == "" then Err(MissingTenant)
    else if Key(tenant, id) !in d.orders then Err(NotFound)
    else Ok(d.orders[Key(tenant, id)])
  }

  function UpdateIn(d: Data, o: Order): Result<Data, OrderError> {
    if o.tenant == "" then Err(MissingTenant)
    else if KeyOf(o) !in d.orders then Err(NotFound)
    else Ok(d.(orders := d.orders[KeyOf(o) := o]))
  }

  function PublishIn(d: Data, e: Event): Data {
    d.(events := d.events + [e])
  }

  /** The callbacks the service passes to InTx, and any other, as what it makes of its private
      copy, finished or not, and what it returns. */
  datatype Work =
    | Insert(o: Order, at: int)
    | CancelById(tenant: string, id: string, at: int)
    | Other(callback: Data -> (Data, Result<Order, OrderError>))

  function WorkIn(d: Data, w: Work): Result<(Order, Data), OrderError> {
    match w
    case Insert(o, at) =>
      (match CreateIn(d, o)
       case Err(e) => Err(e)
       case Ok(d1) => Ok((o, PublishIn(d1, Event(OrderCreated, o.id, o.tenant, at, o)))))
    case CancelById(tenant, id, at) =>
      (match GetIn(d, tenant, id)
       case Err(e) => Err(e)
       case Ok(o) =>
         match CancelOrder(o, at)
         case Err(e) => Err(e)
         case Ok(o1) =>
           match UpdateIn(d, o1)
           case Err(e) => Err(e)
           case Ok(d1) => Ok((o1, PublishIn(d1, Event(OrderCancelled, o1.id, o1.tenant, at, o1)))))
    case Other(callback) =>
      match callback(d).1
      case Err(e) => Err(e)
      case Ok(o) => Ok((o, callback(d).0))
  }

  /** One call of the service. */
  datatype Command =
    | Create(tenant: string, customer: string, items: seq<Item>, at: int, newId: Option<string>)
    | Cancel(tenant: string, id: string, at: int)

  /** What a command asks InTx for, if it gets that far. */
  function WorkFor(cmd: Command): Result<Work, OrderError> {
    match cmd
    case Create(tenant, customer, items, at, newId) =>
      if tenant == "" then Err(MissingTenant)
      else if items == [] then Err(NoItems)
      else if TotalOf(items).Err? then Err(TotalOf(items).error)
      else if newId.None? then Err(NoId)
      else
        var o := Order(newId.value, tenant, customer, Pending, items, TotalOf(items).value, at, at);
        if Orders.Validate(o).Some? then Err(Orders.Validate(o).value) else Ok(Insert(o, at))
    case Cancel(tenant, id, at) =>
      if tenant == "" then Err(MissingTenant) else Ok(CancelById(tenant, id, at))
  }

  function Perform(d: Data, cmd: Command): (Result<Order, OrderError>, Data) {
    match WorkFor(cmd)
    case Err(e) => (Err(e), d)
    case Ok(w) =>
      match WorkIn(d, w)
      case Err(e) => (Err(e), d)
      case Ok((o, d1)) => (Ok(o), d1)
  }

  // ---------- what Create and Cancel do, in the request's own fields ----------

  /** A line that can be ordered: a sku of 1 to 64 characters, a positive 32-bit quantity, and a
      valid price that is not negative. */
  predicate IsLine(i: Item) {
    && 1 <= |i.sku| <= 64 && 1 <= i.quantity <= 2_147_483_647
    && IsCode(i.unitPrice.currency) && IsUpperOf(i.unitPrice.currency, i.unitPrice.currency)
    && 0 <= i.unitPrice.units <= 9_223_372_035 && 0 <= i.unitPrice.nanos <= 999_999_999
  }

  /** What a request must be for Create to go as far as the store. */
  predicate IsAcceptable(tenant: string, customer: string, items: seq<Item>, newId: Option<string>) {
    && tenant != "" && customer != "" && items != [] && newId.Some?
    && (forall i :: 0 <= i < |items| ==>
          IsLine(items[i]) && items[i].unitPrice.currency == items[0].unitPrice.currency)
    && SumValue(items) <= 9_223_372_035_999_999_999
  }

  /** The outcome of Create: for an acceptable request whose id is not taken, exactly the order
      asked for, pending, with the exact sum of its lines for a total, is stored and reported,
      and its OrderCreated is the one event added. Otherwise nothing happens. */
  ghost predicate Creates(d: Data, d': Data, r: Result<Order, OrderError>, tenant: string, customer: string,
                          items: seq<Item>, at: int, newId: Option<string>) {
    && (r.Ok? <==> IsAcceptable(tenant, customer, items, newId) && Key(tenant, newId.value) !in d.orders)
    && (r.Ok? ==>
          var o := r.value;
          && o.id == newId.value && o.tenant == tenant && o.customer == customer && o.status == Pending
          && o.items == items && o.createdAt == at && o.updatedAt == at
          && o.total.Valid() && o.total.currency == items[0].unitPrice.currency && o.total.Value() == SumValue(items)
          && d'.orders == d.orders[Key(tenant, newId.value) := o]
          && GetIn(d', tenant, newId.value) == Ok(o)
          && |d'.events| == |d.events| + 1 && d'.events[..|d.events|] == d.events
          && IsEvent(d'.events[|d.events|], OrderCreated, o, at))
    && (r.Err? ==> d' == d)
    && (tenant == "" ==> r == Err(MissingTenant))
    && (tenant != "" && items == [] ==> r == Err(NoItems))
    && (IsAcceptable(tenant, customer, items, newId) && r.Err? ==> r == Err(Duplicate))
    && (customer == "" && IsAcceptable(tenant, "c", items, newId) ==> r == Err(InvalidItem))
    && (newId == None && IsAcceptable(tenant, "c", items, Some("")) ==> r == Err(NoId))
  }

  predicate IsEvent(e: Event, t: EventType, o: Order, at: int) {
    e.eventType == t && e.aggregate == o.id && e.tenant == o.tenant && e.occurredAt == at && e.order == o
  }

  /** Orders are stored under their own keys, for named tenants. */
  predicate WellKept(d: Data) {
    forall k :: k in d.orders ==> KeyOf(d.orders[k]) == k && d.orders[k].tenant != ""
  }

  /** The outcome of Cancel: the order found under that tenant and id, if it is pending or
      confirmed, is stored and reported as cancelled now, with nothing else about it changed,
      and its OrderCancelled is the one event added. Otherwise nothing happens. */
  ghost predicate CancelsOne(d: Data, d': Data, r: Result<Order, OrderError>, tenant: string, id: string, at: int) {
    var k := Key(tenant, id);
    && (tenant == "" ==> r == Err(MissingTenant))
    && (tenant != "" && k !in d.orders ==> r == Err(NotFound))
    && (tenant != "" && k in d.orders ==> Cancels(d.orders[k], at, r))
    && (r.Ok? ==>
          && d'.orders == d.orders[k := r.value]
          && |d'.events| == |d.events| + 1 && d'.events[..|d.events|] == d.events
          && IsEvent(d'.events[|d.events|], OrderCancelled, r.value, at))
    && (r.Err? ==> d' == d)
  }

  lemma LinesAreValid(i: Item)
    ensures IsLine(i) <==> i.Valid()
  {
    ValidMeans(i.unitPrice);
  }

  lemma AcceptableIsValid(tenant: string, customer: string, items: seq<Item>, at: int, id: string)
    requires tenant != "" && items != []
    ensures IsAcceptable(tenant, customer, items, Some(id)) <==>
              && customer != "" && AllValid(items) && TotalOf(items).Ok?
    ensures AllValid(items) && TotalOf(items).Ok? ==>
              && TotalOf(items).value.Valid() && TotalOf(items).value.Value() == SumValue(items)
              && TotalOf(items).value.currency == items[0].unitPrice.currency
  {
    AllLinesAreValid(items);
    if AllValid(items) {
      TotalInRange(items);
    }
  }

  lemma AllLinesAreValid(items: seq<Item>)
    ensures (forall i :: 0 <= i < |items| ==> IsLine(items[i])) <==> AllValid(items)
  {
    forall i | 0 <= i < |items| ensures IsLine(items[i]) <==> items[i].Valid() {
      LinesAreValid(items[i]);
    }
  }

  lemma TotalInRange(items: seq<Item>)
    requires items != [] && AllValid(items)
    ensures TotalOf(items).Ok? <==>
              SameCurrency(items, items[0].unitPrice.currency) && SumValue(items) <= 9_223_372_035_999_999_999
    ensures TotalOf(items).Ok? ==>
              && TotalOf(items).value.Valid() && TotalOf(items).value.Value() == SumValue(items)
              && TotalOf(items).value.currency == items[0].unitPrice.currency
  {
    SumIsNonNegative(items);
    TotalIsExact(items);
  }

  lemma PerformCreates(d: Data, tenant: string, customer: string, items: seq<Item>, at: int, newId: Option<string>)
    ensures var (r, d') := Perform(d, Create(tenant, customer, items, at, newId));
            Creates(d, d', r, tenant, customer, items, at, newId)
  {
    if tenant != "" && items != [] {
      var id := if newId.Some? then newId.value else "";
      AcceptableIsValid(tenant, customer, items, at, id);
      AcceptableIsValid(tenant, "c", items, at, id);
    }
  }

  lemma PerformCancels(d: Data, tenant: string, id: string, at: int)
    requires WellKept(d)
    ensures var (r, d') := Perform(d, Cancel(tenant, id, at)); CancelsOne(d, d', r, tenant, id, at)
  {
    if tenant != "" && Key(tenant, id) in d.orders {
      CancelOrderCancels(d.orders[Key(tenant, id)], at);
    }
  }

  // ---------- the code ----------

  class State {
    var orders: map<string, Order>
    var events: seq<Event>

    constructor ()
      ensures View() == Empty
    {
      orders, events := map[], [];
    }

    function View(): Data
      reads this
    {
      Data(orders, events)
    }

    method Clone() returns (copy: State)
      ensures fresh(copy) && copy.View() == View()
    {
      copy := new State();
      copy.events := events;
      var rest := orders.Keys;
      while rest != {}
        invariant rest <= orders.Keys && copy.events == events
        invariant copy.orders == map k | k in orders && k !in rest :: orders[k]
        decreases rest
      {
        var k :| k in rest;
        copy.orders := copy.orders[k := orders[k]];
        rest := rest - {k};
      }
      assert copy.orders == orders;
    }

    method Create(o: Order) returns (err: Option<OrderError>)
      modifies this
      ensures match CreateIn(old(View()), o)
              case Ok(d) => err == None && View() == d
              case Err(e) => err == Some(e) && View() == old(View())
      ensures var k := Key(o.tenant, o.id);
              && err == (if o.tenant == "" then Some(MissingTenant)
                         else if k in old(orders) then Some(Duplicate) else None)
              && orders == (if err.None? then old(orders)[k := o] else old(orders)) && events == old(events)
    {
      if o.tenant == "" {
        return Some(MissingTenant);
      }
      var k := Key(o.tenant, o.id);
      if k in orders {
        return Some(Duplicate);
      }
      orders := orders[k := o];
      return None;
    }

    method Get(tenant: string, id: string) returns (r: Result<Order, OrderError>)
      ensures r == GetIn(View(), tenant, id)
      ensures r == if tenant == "" then Err(MissingTenant)
                   else if Key(tenant, id) in orders then Ok(orders[Key(tenant, id)]) else Err(NotFound)
    {
      if tenant == "" {
        return Err(MissingTenant);
      }
      if Key(tenant, id) !in orders {
        return Err(NotFound);
      }
      return Ok(orders[Key(tenant, id)]);
    }

    method Update(o: Order) returns (err: Option<OrderError>)
      modifies this
      ensures match UpdateIn(old(View()), o)
              case Ok(d) => err == None && View() == d
              case Err(e) => err == Some(e) && View() == old(View())
      ensures var k := Key(o.tenant, o.id);
              && err == (if o.tenant == "" then Some(MissingTenant)
                         else if k in old(orders) then None else Some(NotFound))
              && orders == (if err.None? then old(orders)[k := o] else old(orders)) && events == old(events)
    {
      if o.tenant == "" {
        return Some(MissingTenant);
      }
      var k := Key(o.tenant, o.id);
      if k !in orders {
        return Some(NotFound);
      }
      orders := orders[k := o];
      return None;
    }

    method Publish(e: Event)
      modifies this
      ensures View() == PublishIn(old(View()), e)
      ensures orders == old(orders) && events == old(events) + [e]
    {
      events := events + [e];
    }
  }

  class Store {
    var data: State

    constructor ()
      ensures fresh(data) && data.View() == Empty
    {
      data := new State();
    }

    /** Runs the callback on a private copy and swaps it in only on success: on an error the
        store keeps its very state object, untouched. */
    method InTx(w: Work) returns (r: Result<Order, OrderError>)
      modifies this
      ensures match WorkIn(old(data.View()), w)
              case Ok((o, d)) => r == Ok(o) && fresh(data) && data.View() == d
              case Err(e) => r == Err(e) && data == old(data)
      ensures old(data).View() == old(data.View())
      ensures w.Other? ==>
                var (d, wanted) := w.callback(old(data.View()));
                r == wanted && (r.Ok? ==> fresh(data) && data.View() == d) && (r.Err? ==> data == old(data))
    {
      var staged := data.Clone();
      match w {
        case Insert(o, at) =>
          var err := staged.Create(o);
          if err.Some? {
            return Err(err.value);
          }
          staged.Publish(Event(OrderCreated, o.id, o.tenant, at, o));
          r := Ok(o);
        case CancelById(tenant, id, at) =>
          var found := staged.Get(tenant, id);
          if found.Err? {
            return found;
          }
          var loaded := new OrderVar(found.value);
          var err := loaded.Cancel(at);
          if err.Some? {
            return Err(err.value);
          }
          err := staged.Update(loaded.value);
          if err.Some? {
            return Err(err.value);
          }
          var o := loaded.value;
          staged.Publish(Event(OrderCancelled, o.id, o.tenant, at, o));
          r := Ok(o);
        case Other(callback) =>
          var done := callback(staged.View());
          staged.orders, staged.events := done.0.orders, done.0.events;
          r := done.1;
          if r.Err? {
            return r;
          }
      }
      data := staged;
    }

    /** Service.Create. */
    method CreateOrder(tenant: string, customer: string, items: seq<Item>, at: int, newId: Option<string>)
      returns (r: Result<Order, OrderError>)
      modifies this
      ensures (r, data.View()) == Perform(old(data.View()), Create(tenant, customer, items, at, newId))
      ensures Creates(old(data.View()), data.View(), r, tenant, customer, items, at, newId)
      ensures r.Err? ==> data == old(data)
    {
      PerformCreates(data.View(), tenant, customer, items, at, newId);
      if tenant == "" {
        return Err(MissingTenant);
      }
      if |items| == 0 {
        return Err(NoItems);
      }
      var total := ComputeTotal(items);
      if total.Err? {
        return Err(total.error);
      }
      if newId.None? {
        return Err(NoId);
      }
      var o := Order(newId.value, tenant, customer, Pending, items, total.value, at, at);
      var invalid := Orders.Validate(o);
      if invalid.Some? {
        return Err(invalid.value);
      }
      r := InTx(Insert(o, at));
    }

    /** Service.Cancel. */
    method CancelOrderById(tenant: string, id: string, at: int) returns (r: Result<Order, OrderError>)
      modifies this
      ensures (r, data.View()) == Perform(old(data.View()), Cancel(tenant, id, at))
      ensures WellKept(old(data.View())) ==> CancelsOne(old(data.View()), data.View(), r, tenant, id, at)
      ensures r.Err? ==> data == old(data)
    {
      if WellKept(data.View()) {
        PerformCancels(data.View(), tenant, id, at);
      }
      if tenant == "" {
        return Err(MissingTenant);
      }
      r := InTx(CancelById(tenant, id, at));
    }
  }

  // ---------- the event log as a journal ----------

  function Replay(events: seq<Event>): map<string, Order> {
    if events == [] then map[]
    else
      var e := events[|events| - 1];
      Replay(events[..|events| - 1])[KeyOf(e.order) := e.order]
  }

  /** How many events of one type there are for one key. */
  function Count(events: seq<Event>, t: EventType, key: string): nat {
    if events == [] then 0
    else
      var e := events[|events| - 1];
      Count(events[..|events| - 1], t, key) + if e.eventType == t && KeyOf(e.order) == key then 1 else 0
  }

  predicate OrderOk(d: Data, k: string)
    requires k in d.orders
  {
    && KeyOf(d.orders[k]) == k && Orders.Validate(d.orders[k]) == None
    && (d.orders[k].status == Pending || d.orders[k].status == Cancelled)
  }

  predicate EventOk(e: Event) {
    && e.aggregate == e.order.id && e.tenant == e.order.tenant
    && e.occurredAt == e.order.updatedAt
    && e.order.status == match e.eventType { case OrderCreated => Pending case OrderCancelled => Cancelled }
  }

  /** The log rebuilds the table; every order is valid; each has one OrderCreated, and one
      OrderCancelled exactly if it is cancelled; nothing else has any. */
  ghost predicate JournalOk(d: Data) {
    && Replay(d.events) == d.orders
    && (forall k :: k in d.orders ==> OrderOk(d, k))
    && (forall i :: 0 <= i < |d.events| ==> EventOk(d.events[i]))
    && (forall k :: Count(d.events, OrderCreated, k) == if k in d.orders then 1 else 0)
    && (forall k :: Count(d.events, OrderCancelled, k) ==
                    if k in d.orders && d.orders[k].status == Cancelled then 1 else 0)
  }

  /** What a successful call does: one write and the event that says so. */
  predicate Logged(d: Data, d': Data, e: Event) {
    && d'.events == d.events + [e]
    && d'.orders == d.orders[KeyOf(e.order) := e.order]
    && EventOk(e) && Orders.Validate(e.order) == None
    && match e.eventType
       case OrderCreated => KeyOf(e.order) !in d.orders
       case OrderCancelled => KeyOf(e.order) in d.orders && d.orders[KeyOf(e.order)].status == Pending
                              && d.orders[KeyOf(e.order)].tenant == e.order.tenant
  }

  lemma PerformLogs(d: Data, cmd: Command)
    requires forall k :: k in d.orders ==> OrderOk(d, k)
    ensures var d' := Perform(d, cmd).1;
            d' != d ==> |d'.events| > 0 && Logged(d, d', d'.events[|d'.events| - 1])
  {
    if cmd.Cancel? && Perform(d, cmd).1 != d {
      assert OrderOk(d, Key(cmd.tenant, cmd.id));
      CancelKeepsValid(d.orders[Key(cmd.tenant, cmd.id)], cmd.at, cmd.at);
    }
  }

  lemma CountAfter(events: seq<Event>, e: Event, t: EventType, k: string)
    ensures Count(events + [e], t, k) == Count(events, t, k) + if e.eventType == t && KeyOf(e.order) == k then 1 else 0
  {
    assert (events + [e])[..|events|] == events;
  }

  lemma LoggedKeepsJournal(d: Data, d': Data, e: Event)
    requires JournalOk(d) && Logged(d, d', e)
    ensures JournalOk(d')
  {
    assert Replay(d'.events) == d'.orders by {
      assert d'.events[..|d.events|] == d.events;
    }
    forall t, k
      ensures Count(d'.events, t, k) == Count(d.events, t, k) + if e.eventType == t && KeyOf(e.order) == k then 1 else 0
    {
      CountAfter(d.events, e, t, k);
    }
    forall k | k in d'.orders ensures OrderOk(d', k) {
      if k != KeyOf(e.order) {
        assert OrderOk(d, k);
      }
    }
  }

  function RunAll(d: Data, cmds: seq<Command>): Data
    decreases cmds
  {
    if cmds == [] then d else RunAll(Perform(d, cmds[0]).1, cmds[1..])
  }

  lemma {:induction false} RunKeepsJournal(d: Data, cmds: seq<Command>)
    requires JournalOk(d)
    ensures JournalOk(RunAll(d, cmds))
    decreases cmds
  {
    if cmds != [] {
      var d' := Perform(d, cmds[0]).1;
      PerformLogs(d, cmds[0]);
      if d' != d {
        LoggedKeepsJournal(d, d', d'.events[|d'.events| - 1]);
      }
      RunKeepsJournal(Perform(d, cmds[0]).1, cmds[1..]);
    }
  }

  /** After any calls of Create and Cancel on an empty store, with any outcomes, the event
      log is a faithful journal of the store. */
  lemma LogIsAJournal(cmds: seq<Command>)
    ensures JournalOk(RunAll(Empty, cmds))
  {
    RunKeepsJournal(Empty, cmds);
  }

  // ---------- tenants are kept apart ----------

  predicate NulFree(s: string) {
    '\0' !in s
  }

  /** Ids without NUL, such as uuids, are enough for a key to name one tenant and id. */
  lemma KeyIsInjective(t1: string, i1: string, t2: string, i2: string)
    requires NulFree(i1) && NulFree(i2)
    ensures Key(t1, i1) == Key(t2, i2) <==> t1 == t2 && i1 == i2
  {
    var k1, k2 := Key(t1, i1), Key(t2, i2);
    if k1 == k2 {
      assert k1[|t1|] == '\0' && k2[|t2|] == '\0';
      assert forall n :: |t1| < n < |k1| ==> k1[n] == i1[n - |t1| - 1];
      assert forall n :: |t2| < n < |k2| ==> k2[n] == i2[n - |t2| - 1];
      assert |t1| == |t2|;
      assert k1[..|t1|] == t1 && k2[..|t2|] == t2;
      assert k1[|t1| + 1..] == i1 && k2[|t2| + 1..] == i2;
    }
  }

  /** Exactly which keys name one tenant and id among all strings: those of a NUL-free tenant
      and a NUL-free id. */
  lemma KeyNamesOne(tenant: string, id: string)
    ensures (forall t, i :: Key(t, i) == Key(tenant, id) ==> t == tenant && i == id)
            <==> NulFree(tenant) && NulFree(id)
  {
    if NulFree(tenant) && NulFree(id) {
      forall t, i | Key(t, i) == Key(tenant, id) ensures t == tenant && i == id {
        FirstNulSplits(t, i, tenant, id);
      }
    } else if !NulFree(tenant) {
      var n :| 0 <= n < |tenant| && tenant[n] == '\0';
      var t, i := tenant[..n], tenant[n + 1..] + "\0" + id;
      assert tenant == t + "\0" + tenant[n + 1..];
      assert Key(t, i) == Key(tenant, id) && t != tenant;
    } else {
      var n :| 0 <= n < |id| && id[n] == '\0';
      var t, i := tenant + "\0" + id[..n], id[n + 1..];
      assert id == id[..n] + "\0" + i;
      assert Key(t, i) == Key(tenant, id) && t != tenant;
    }
  }

  lemma FirstNulSplits(t1: string, i1: string, t2: string, i2: string)
    requires Key(t1, i1) == Key(t2, i2) && NulFree(t2) && NulFree(i2)
    ensures t1 == t2 && i1 == i2
  {
    var k := Key(t2, i2);
    assert k[|t1|] == '\0';
    assert forall n :: 0 <= n < |t2| ==> k[n] == t2[n];
    assert forall n :: |t2| < n < |k| ==> k[n] == i2[n - |t2| - 1];
    assert |t1| == |t2|;
    assert Key(t1, i1)[..|t1|] == t1 && k[..|t2|] == t2;
    assert Key(t1, i1)[|t1| + 1..] == i1 && k[|t2| + 1..] == i2;
  }

  /** The ids of every stored order are NUL-free when those the generator hands out are. */
  predicate IdsNulFree(cmds: seq<Command>) {
    forall k :: 0 <= k < |cmds| && cmds[k].Create? && cmds[k].newId.Some? ==> NulFree(cmds[k].newId.value)
  }

  predicate OrdersNulFree(d: Data) {
    forall k :: k in d.orders ==> NulFree(d.orders[k].id)
  }

  lemma {:induction false} RunKeepsNulFree(d: Data, cmds: seq<Command>)
    requires OrdersNulFree(d) && IdsNulFree(cmds)
    ensures OrdersNulFree(RunAll(d, cmds))
    decreases cmds
  {
    if cmds != [] {
      RunKeepsNulFree(Perform(d, cmds[0]).1, cmds[1..]);
    }
  }

  /** With uuid-like ids no lookup, and so no cancellation, ever reaches another tenant's
      order, whatever the tenants are called. */
  lemma LookupsStayInTheTenant(cmds: seq<Command>, tenant: string, id: string)
    requires IdsNulFree(cmds) && NulFree(id)
    ensures var r := GetIn(RunAll(Empty, cmds), tenant, id);
            r.Ok? ==> r.value.tenant == tenant && r.value.id == id
  {
    LogIsAJournal(cmds);
    RunKeepsNulFree(Empty, cmds);
    var d := RunAll(Empty, cmds);
    if GetIn(d, tenant, id).Ok? {
      var o := d.orders[Key(tenant, id)];
      assert OrderOk(d, Key(tenant, id));
      KeyIsInjective(o.tenant, o.id, tenant, id);
    }
  }

  // ---------- one OrderCreated per order ----------

  function OrdersOfTenant(d: Data, tenant: string): set<string> {
    set k | k in d.orders && d.orders[k].tenant == tenant
  }

  function CreatedFor(events: seq<Event>, tenant: string): nat {
    if events == [] then 0
    else
      var e := events[|events| - 1];
      CreatedFor(events[..|events| - 1], tenant) + if e.eventType == OrderCreated && e.tenant == tenant then 1 else 0
  }

  /** The events a tenant's read model counts are exactly as many as the tenant's orders. */
  lemma {:induction false} CreatedEventsCountOrders(cmds: seq<Command>, tenant: string)
    ensures var d := RunAll(Empty, cmds);
            CreatedFor(d.events, tenant) == |OrdersOfTenant(d, tenant)|
    decreases cmds
  {
    if cmds != [] {
      var n := |cmds| - 1;
      var d := RunAll(Empty, cmds[..n]);
      CreatedEventsCountOrders(cmds[..n], tenant);
      RunAllSplits(Empty, cmds);
      LogIsAJournal(cmds[..n]);
      var d' := Perform(d, cmds[n]).1;
      PerformLogs(d, cmds[n]);
      if d' != d {
        OneMoreCreated(d, d', d'.events[|d'.events| - 1], tenant);
      }
    }
  }

  lemma {:induction false} RunAllSplits(d: Data, cmds: seq<Command>)
    requires cmds != []
    ensures RunAll(d, cmds) == Perform(RunAll(d, cmds[..|cmds| - 1]), cmds[|cmds| - 1]).1
    decreases cmds
  {
    if |cmds| > 1 {
      RunAllSplits(Perform(d, cmds[0]).1, cmds[1..]);
      assert cmds[..|cmds| - 1][1..] == cmds[1..][..|cmds| - 2];
    }
  }

  lemma OneMoreCreated(d: Data, d': Data, e: Event, tenant: string)
    requires Logged(d, d', e) && CreatedFor(d.events, tenant) == |OrdersOfTenant(d, tenant)|
    ensures CreatedFor(d'.events, tenant) == |OrdersOfTenant(d', tenant)|
  {
    assert d'.events[..|d'.events| - 1] == d.events;
    OneMoreOrder(d, d', KeyOf(e.order), e.order, tenant);
  }

  lemma OneMoreOrder(d: Data, d': Data, k: string, o: Order, tenant: string)
    requires d'.orders == d.orders[k := o] && (k in d.orders ==> d.orders[k].tenant == o.tenant)
    ensures |OrdersOfTenant(d', tenant)| ==
            |OrdersOfTenant(d, tenant)| + if k !in d.orders && o.tenant == tenant then 1 else 0
  {
    if k !in d.orders && o.tenant == tenant {
      assert OrdersOfTenant(d', tenant) == OrdersOfTenant(d, tenant) + {k};
    } else {
      assert OrdersOfTenant(d', tenant) == OrdersOfTenant(d, tenant);
    }
  }
}
