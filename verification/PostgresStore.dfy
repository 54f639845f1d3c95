/** The Postgres listing: internal/order/orderpg/orderpg.go (List) and model.go (toRow,
    toDomain), and for exactly which tokens it answers as the in-memory store does. */
module PostgresStore {
  import opened GoInts
  import opened Results
  import opened MoneyModel
  import opened Orders
  import opened OrderStore
  import opened Sets
  import opened Sorting
  import opened Paging
  import opened Uuids

  // ---------- rows ----------

  datatype ItemRow = ItemRow(lineNo: int, sku: string, quantity: int, currency: string, units: int, nanos: int)

  datatype OrderRow = OrderRow(id: seq<int>, tenant: string, customer: string, status: string,
                               currency: string, units: int, nanos: int,
                               createdAt: int, updatedAt: int, items: set<ItemRow>)

  function LineNo(r: ItemRow): Pos {
    Pos(r.lineNo, [])
  }

  function RowPos(r: OrderRow): Pos {
    Pos(r.createdAt, r.id)
  }

  /** The column types and the primary keys. */
  predicate RowsOk(rows: set<OrderRow>) {
    && (forall r :: r in rows ==> IsNibbles(r.id) && Distinct(r.items, LineNo))
    && (forall a, b :: a in rows && b in rows && a.id == b.id ==> a == b)
  }

  function StatusName(s: Status): string {
    match s
    case Pending => "PENDING"
    case Confirmed => "CONFIRMED"
    case Shipped => "SHIPPED"
    case Cancelled => "CANCELLED"
    case Unspecified => "UNSPECIFIED"
  }

  function ParseStatus(s: string): Option<Status> {
    if s == "PENDING" then Some(Pending)
    else if s == "CONFIRMED" then Some(Confirmed)
    else if s == "SHIPPED" then Some(Shipped)
    else if s == "CANCELLED" then Some(Cancelled)
    else if s == "UNSPECIFIED" || s == "" then Some(Unspecified)
    else None
  }

  lemma StatusRoundTrip(s: Status, t: Status)
    ensures ParseStatus(StatusName(s)) == Some(s)
    ensures StatusName(s) == StatusName(t) <==> s == t
    ensures ParseStatus("PENDING") == Some(Pending) && ParseStatus("CONFIRMED") == Some(Confirmed)
    ensures ParseStatus("SHIPPED") == Some(Shipped) && ParseStatus("CANCELLED") == Some(Cancelled)
    ensures forall text :: ParseStatus(text) == Some(s) <==> text == StatusName(s) || (text == "" && s == Unspecified)
  {
  }

  function ItemRows(items: seq<Item>): seq<ItemRow> {
    seq(|items|, i requires 0 <= i < |items| =>
      var price := items[i].unitPrice;
      ItemRow(i, items[i].sku, items[i].quantity, price.currency, price.units, price.nanos))
  }

  function ToRow(o: Order): OrderRow {
    OrderRow(NibblesOf(o.id), o.tenant, o.customer, StatusName(o.status),
             o.total.currency, o.total.units, o.total.nanos, o.createdAt, o.updatedAt, Elements(ItemRows(o.items)))
  }

  function Followed<T>(front: seq<T>, rest: Result<seq<T>, OrderError>): Result<seq<T>, OrderError> {
    match rest
    case Err(e) => Err(e)
    case Ok(back) => Ok(front + back)
  }

  lemma FollowedByOne<T>(front: seq<T>, t: T, rest: Result<seq<T>, OrderError>)
    ensures Followed(front, Followed([t], rest)) == Followed(front + [t], rest)
    ensures Followed([], rest) == rest
  {
    if rest.Ok? {
      assert front + ([t] + rest.value) == (front + [t]) + rest.value;
      assert [] + rest.value == rest.value;
    }
  }

  /** What toDomain's loop makes of the item rows from some row on. */
  function ItemsOf(rows: seq<ItemRow>): Result<seq<Item>, OrderError> {
    if rows == [] then Ok([])
    else
      match NewMoney(rows[0].currency, rows[0].units, rows[0].nanos)
      case Err(e) => Err(BadMoney(e))
      case Ok(price) => Followed([Item(rows[0].sku, rows[0].quantity, price)], ItemsOf(rows[1..]))
  }

  method ReadItems(rows: seq<ItemRow>) returns (r: Result<seq<Item>, OrderError>)
    ensures r == ItemsOf(rows)
  {
    var items: seq<Item> := [];
    assert rows[0..] == rows;
    FollowedByOne(items, Item("", 0, Zero("")), ItemsOf(rows));
    for i := 0 to |rows|
      invariant Followed(items, ItemsOf(rows[i..])) == ItemsOf(rows)
    {
      assert rows[i..][1..] == rows[i + 1..];
      var price := NewMoney(rows[i].currency, rows[i].units, rows[i].nanos);
      if price.Err? {
        return Err(BadMoney(price.error));
      }
      var item := Item(rows[i].sku, rows[i].quantity, price.value);
      FollowedByOne(items, item, ItemsOf(rows[i + 1..]));
      items := items + [item];
    }
    assert items + [] == items;
    return Ok(items);
  }

  function ToDomain(row: OrderRow): Result<Order, OrderError>
    requires IsNibbles(row.id) && Distinct(row.items, LineNo)
  {
    match ParseStatus(row.status)
    case None => Err(UnknownStatus)
    case Some(status) =>
      match NewMoney(row.currency, row.units, row.nanos)
      case Err(e) => Err(BadMoney(e))
      case Ok(total) =>
        match ItemsOf(Sorted(row.items, LineNo))
        case Err(e) => Err(e)
        case Ok(items) =>
          Ok(Order(Digits(row.id, 0), row.tenant, row.customer, status, items, total, row.createdAt, row.updatedAt))
  }

  method ReadOrder(row: OrderRow) returns (r: Result<Order, OrderError>)
    requires IsNibbles(row.id) && Distinct(row.items, LineNo)
    ensures r == ToDomain(row)
  {
    var status := ParseStatus(row.status);
    if status.None? {
      return Err(UnknownStatus);
    }
    var total := NewMoney(row.currency, row.units, row.nanos);
    if total.Err? {
      return Err(BadMoney(total.error));
    }
    var items := ReadItems(Sorted(row.items, LineNo));
    if items.Err? {
      return Err(items.error);
    }
    return Ok(Order(Digits(row.id, 0), row.tenant, row.customer, status.value, items.value, total.value,
                    row.createdAt, row.updatedAt));
  }

  // ---------- what any row reads as ----------

  /** A code of three letters and an amount in range. */
  predicate IsAmount(currency: string, units: int, nanos: int) {
    && IsCode(currency)
    && -9_223_372_035_999_999_999 <= units * 1_000_000_000 + nanos <= 9_223_372_035_999_999_999
  }

  /** The same amount, under the same code in upper case. */
  predicate IsSameAmount(m: Money, currency: string, units: int, nanos: int) {
    m.Valid() && m.Value() == units * 1_000_000_000 + nanos && IsUpperOf(m.currency, currency)
  }

  /** The columns hold values of their types. */
  predicate IsTyped(row: OrderRow) {
    && IsInt64(row.units) && IsInt32(row.nanos)
    && forall i :: i in row.items ==> IsInt64(i.units) && IsInt32(i.nanos)
  }

  predicate ReadsAs(o: Order, row: OrderRow, lines: seq<ItemRow>) {
    && NibblesOf(o.id) == row.id && (|row.id| == 32 ==> Canonical(o.id))
    && o.tenant == row.tenant && o.customer == row.customer
    && o.createdAt == row.createdAt && o.updatedAt == row.updatedAt
    && (StatusName(o.status) == row.status || (o.status == Unspecified && row.status == ""))
    && IsSameAmount(o.total, row.currency, row.units, row.nanos)
    && |o.items| == |lines|
    && forall i :: 0 <= i < |lines| ==>
         && o.items[i].sku == lines[i].sku && o.items[i].quantity == lines[i].quantity
         && IsSameAmount(o.items[i].unitPrice, lines[i].currency, lines[i].units, lines[i].nanos)
  }

  /** What toDomain makes of any row of the right column types: its own columns and its lines in
      the order of their numbers, exactly if the status is a known name and every amount is one;
      an unknown status is an error of its own. */
  lemma WhatRowsReadAs(row: OrderRow, lines: seq<ItemRow>)
    requires IsNibbles(row.id) && Distinct(row.items, LineNo) && IsTyped(row)
    requires Elements(lines) == row.items && forall i, j :: 0 <= i < j < |lines| ==> lines[i].lineNo < lines[j].lineNo
    ensures var r := ToDomain(row);
            && (r == Err(UnknownStatus) <==> !IsStatusName(row.status))
            && (r.Ok? <==> && IsStatusName(row.status) && IsAmount(row.currency, row.units, row.nanos)
                           && forall i :: 0 <= i < |lines| ==>
                                IsAmount(lines[i].currency, lines[i].units, lines[i].nanos))
            && (r.Ok? ==> ReadsAs(r.value, row, lines))
  {
    SortedIsUnique(Sorted(row.items, LineNo), lines, LineNo);
    DigitsRoundTrip(row.id, 0);
    NamesAreRead(row.status);
    AmountIsRead(row.currency, row.units, row.nanos);
    forall i | 0 <= i < |lines| ensures IsInt64(lines[i].units) && IsInt32(lines[i].nanos) {
      assert lines[i] in Elements(lines);
    }
    LinesAreRead(lines);
    DomainOf(row, lines);
  }

  /** The four parts that toDomain puts together. */
  lemma DomainOf(row: OrderRow, lines: seq<ItemRow>)
    requires IsNibbles(row.id) && Distinct(row.items, LineNo) && Sorted(row.items, LineNo) == lines
    ensures var status, total, items := ParseStatus(row.status), NewMoney(row.currency, row.units, row.nanos),
                                        ItemsOf(lines);
            && (status.None? ==> ToDomain(row) == Err(UnknownStatus))
            && (status.Some? && total.Err? ==> ToDomain(row) == Err(BadMoney(total.error)))
            && (status.Some? && total.Ok? && items.Err? ==> ToDomain(row) == Err(items.error))
            && (status.Some? && total.Ok? && items.Ok? ==>
                  ToDomain(row) == Ok(Order(Digits(row.id, 0), row.tenant, row.customer, status.value, items.value,
                                            total.value, row.createdAt, row.updatedAt)))
  {
  }

  predicate IsStatusName(text: string) {
    text in {"PENDING", "CONFIRMED", "SHIPPED", "CANCELLED", "UNSPECIFIED", ""}
  }

  lemma NamesAreRead(text: string)
    ensures ParseStatus(text).Some? <==> IsStatusName(text)
    ensures forall s :: ParseStatus(text) == Some(s) ==> StatusName(s) == text || (s == Unspecified && text == "")
  {
  }

  lemma AmountIsRead(currency: string, units: int, nanos: int)
    requires IsInt64(units) && IsInt32(nanos)
    ensures NewMoney(currency, units, nanos).Ok? <==> IsAmount(currency, units, nanos)
    ensures IsAmount(currency, units, nanos) ==>
              IsSameAmount(NewMoney(currency, units, nanos).value, currency, units, nanos)
  {
    NewMoneyIsExact(currency, units, nanos);
  }

  lemma {:induction false} LinesAreRead(lines: seq<ItemRow>)
    requires forall i :: 0 <= i < |lines| ==> IsInt64(lines[i].units) && IsInt32(lines[i].nanos)
    ensures var r := ItemsOf(lines);
            && (r.Ok? <==> forall i :: 0 <= i < |lines| ==> IsAmount(lines[i].currency, lines[i].units, lines[i].nanos))
            && (r.Err? ==> r.error.BadMoney?)
            && (r.Ok? ==> && |r.value| == |lines|
                          && forall i :: 0 <= i < |lines| ==>
                               && r.value[i].sku == lines[i].sku && r.value[i].quantity == lines[i].quantity
                               && IsSameAmount(r.value[i].unitPrice, lines[i].currency, lines[i].units, lines[i].nanos))
    decreases lines
  {
    if lines != [] {
      var rest := lines[1..];
      LinesAreRead(rest);
      AmountIsRead(lines[0].currency, lines[0].units, lines[0].nanos);
      assert forall i :: 0 < i < |lines| ==> lines[i] == rest[i - 1];
      assert forall i :: 0 <= i < |rest| ==> rest[i] == lines[i + 1];
    }
  }

  // ---------- a stored order comes back as it was ----------

  predicate Storable(o: Order) {
    Orders.Validate(o) == None && Canonical(o.id)
  }

  lemma ItemRowsAreDistinct(items: seq<Item>)
    ensures Distinct(Elements(ItemRows(items)), LineNo) && IsSorted(ItemRows(items), LineNo)
    ensures Sorted(Elements(ItemRows(items)), LineNo) == ItemRows(items)
  {
    var rows := ItemRows(items);
    assert IsSorted(rows, LineNo);
    assert Distinct(Elements(rows), LineNo);
    SortedIsUnique(Sorted(Elements(rows), LineNo), rows, LineNo);
  }

  lemma {:induction false} ItemsRoundTrip(items: seq<Item>, k: int)
    requires 0 <= k <= |items| && AllValid(items)
    ensures ItemsOf(ItemRows(items)[k..]) == Ok(items[k..])
    decreases |items| - k
  {
    if k < |items| {
      ItemsRoundTrip(items, k + 1);
      var rows := ItemRows(items);
      assert rows[k..][1..] == rows[k + 1..];
      assert items[k].Valid();
      NewMoneyRoundTrip(items[k].unitPrice);
      assert ItemsOf(rows[k..]) == Followed([items[k]], ItemsOf(rows[k + 1..]));
      assert items[k..] == [items[k]] + items[k + 1..];
    } else {
      assert ItemRows(items)[k..] == [] && items[k..] == [];
    }
  }

  /** toDomain undoes toRow on every valid order with a canonical id. */
  lemma RowRoundTrip(o: Order)
    requires Storable(o)
    ensures Distinct(ToRow(o).items, LineNo) && ToDomain(ToRow(o)) == Ok(o)
  {
    ItemRowsAreDistinct(o.items);
    assert ItemsOf(Sorted(ToRow(o).items, LineNo)) == Ok(o.items) by {
      ItemsRoundTrip(o.items, 0);
      assert ItemRows(o.items)[0..] == ItemRows(o.items) && o.items[0..] == o.items;
    }
    TotalIsValid(o);
    NewMoneyRoundTrip(o.total);
    StatusRoundTrip(o.status, o.status);
  }

  lemma TotalIsValid(o: Order)
    requires Orders.Validate(o) == None
    ensures o.total.Valid()
  {
    TotalIsExact(o.items);
  }

  // ---------- List ----------

  /** The two parameters of the row-value comparison: Postgres refuses a text it cannot read. */
  function Seek(cursor: Option<Cursor>): (r: Result<Option<Pos>, OrderError>) {
    match cursor
    case None => Ok(None)
    case Some(c) =>
      match ReadUuid(c.id)
      case None => Err(UnreadableUuid)
      case Some(id) => Ok(Some(Pos(c.createdAt, id)))
  }

  /** The WHERE clause, with the row-value comparison (created_at, id) > (after, afterID). */
  function Select(rows: set<OrderRow>, tenant: string, f: Filter, after: Option<Pos>): set<OrderRow> {
    set r | r in rows
      && r.tenant == tenant
      && (f.status == Unspecified || r.status == StatusName(f.status))
      && (f.customer == "" || r.customer == f.customer)
      && IsAfter(after, RowPos(r))
  }

  lemma SelectIsDistinct(rows: set<OrderRow>, tenant: string, f: Filter, after: Option<Pos>)
    requires RowsOk(rows)
    ensures Distinct(Select(rows, tenant, f, after), RowPos)
  {
  }

  function Limit<T>(xs: seq<T>, n: nat): seq<T> {
    if |xs| > n then xs[..n] else xs
  }

  predicate Readable(rows: seq<OrderRow>) {
    forall i :: 0 <= i < |rows| ==> IsNibbles(rows[i].id) && Distinct(rows[i].items, LineNo)
  }

  /** What the loop over the rows makes of them. */
  function ToDomainAll(rows: seq<OrderRow>): (r: Result<seq<Order>, OrderError>)
    requires Readable(rows)
    ensures r.Ok? ==> |r.value| == |rows|
  {
    if rows == [] then Ok([])
    else
      match ToDomain(rows[0])
      case Err(e) => Err(e)
      case Ok(o) => Followed([o], ToDomainAll(rows[1..]))
  }

  method ReadOrders(rows: seq<OrderRow>) returns (r: Result<seq<Order>, OrderError>)
    requires Readable(rows)
    ensures r == ToDomainAll(rows)
  {
    var page: seq<Order> := [];
    assert rows[0..] == rows;
    assert Followed(page, ToDomainAll(rows)) == ToDomainAll(rows) by {
      if ToDomainAll(rows).Ok? {
        assert page + ToDomainAll(rows).value == ToDomainAll(rows).value;
      }
    }
    for i := 0 to |rows|
      invariant Followed(page, ToDomainAll(rows[i..])) == ToDomainAll(rows)
    {
      assert rows[i..][1..] == rows[i + 1..];
      var o := ReadOrder(rows[i]);
      if o.Err? {
        return Err(o.error);
      }
      FollowedByOne(page, o.value, ToDomainAll(rows[i + 1..]));
      page := page + [o.value];
    }
    assert page + [] == page;
    return Ok(page);
  }

  method ListRows(x: Codec, rows: set<OrderRow>, tenant: string, f: Filter) returns (r: Result<Page, OrderError>)
    requires RowsOk(rows)
    ensures r == PageOfRows(x, rows, tenant, f)
    ensures IsPageOfRows(x, rows, tenant, f, r)
  {
    WhatPageOfRowsIs(x, rows, tenant, f);
    if tenant == "" {
      return Err(MissingTenant);
    }
    var cursor := DecodePageToken(x, tenant, f);
    if cursor.Err? {
      return Err(cursor.error);
    }
    r := QueryPage(x, rows, tenant, f, cursor.value);
  }

  /** The query and what is made of its rows. */
  method QueryPage(x: Codec, rows: set<OrderRow>, tenant: string, f: Filter, cursor: Option<Cursor>)
    returns (r: Result<Page, OrderError>)
    requires RowsOk(rows) && tenant != "" && DecodePageToken(x, tenant, f) == Ok(cursor)
    ensures r == PageOfRows(x, rows, tenant, f)
  {
    var size := ClampPageSize(f.pageSize);
    var after := Seek(cursor);
    if after.Err? {
      return Err(after.error);
    }
    SelectedAreReadable(rows, tenant, f, after.value);
    var fetched := Limit(Sorted(Select(rows, tenant, f, after.value), RowPos), size + 1);
    var hasMore := |fetched| > size;
    if hasMore {
      fetched := fetched[..size];
    }
    assert fetched == Limit(Limit(Sorted(Select(rows, tenant, f, after.value), RowPos), size + 1), size);
    var page := ReadOrders(fetched);
    if page.Err? {
      return Err(page.error);
    }
    if hasMore && |page.value| > 0 {
      return Ok(Page(page.value, EncodePageToken(x, tenant, f, page.value[|page.value| - 1])));
    }
    return Ok(Page(page.value, NoToken));
  }

  lemma SelectedAreReadable(rows: set<OrderRow>, tenant: string, f: Filter, after: Option<Pos>)
    requires RowsOk(rows)
    ensures Distinct(Select(rows, tenant, f, after), RowPos)
    ensures Readable(Sorted(Select(rows, tenant, f, after), RowPos))
  {
    SelectIsDistinct(rows, tenant, f, after);
    var xs := Sorted(Select(rows, tenant, f, after), RowPos);
    forall i | 0 <= i < |xs| ensures xs[i] in rows {
      assert xs[i] in Elements(xs);
    }
  }

  /** The page cut from the selected rows, fetched with LIMIT size + 1. */
  function PageFrom(x: Codec, tenant: string, f: Filter, selected: seq<OrderRow>): Result<Page, OrderError>
    requires Readable(selected)
  {
    var size := ClampPageSize(f.pageSize);
    var fetched := Limit(selected, size + 1);
    match ToDomainAll(Limit(fetched, size))
    case Err(e) => Err(e)
    case Ok(orders) =>
      Ok(Page(orders, if |fetched| > size then EncodePageToken(x, tenant, f, orders[size - 1]) else NoToken))
  }

  function PageOfRows(x: Codec, rows: set<OrderRow>, tenant: string, f: Filter): Result<Page, OrderError>
    requires RowsOk(rows)
  {
    if tenant == "" then Err(MissingTenant)
    else
      match DecodePageToken(x, tenant, f)
      case Err(e) => Err(e)
      case Ok(cursor) =>
        match Seek(cursor)
        case Err(e) => Err(e)
        case Ok(after) =>
          SelectedAreReadable(rows, tenant, f, after);
          PageFrom(x, tenant, f, Sorted(Select(rows, tenant, f, after), RowPos))
  }

  // ---------- two stores, one answer ----------

  /** The two stores hold the same storable orders, with ids distinct across tenants. */
  predicate SameOrders(orders: map<string, Order>, rows: set<OrderRow>) {
    && TableOk(orders)
    && (forall k :: k in orders ==> Storable(orders[k]))
    && (forall k, l :: k in orders && l in orders && orders[k].id == orders[l].id ==> k == l)
    && rows == set k | k in orders :: ToRow(orders[k])
  }

  lemma SameOrdersAreRows(orders: map<string, Order>, rows: set<OrderRow>)
    requires SameOrders(orders, rows)
    ensures RowsOk(rows)
  {
    forall k | k in orders ensures Distinct(ToRow(orders[k]).items, LineNo) {
      RowRoundTrip(orders[k]);
    }
    forall a, b | a in rows && b in rows && a.id == b.id ensures a == b {
      var k :| k in orders && a == ToRow(orders[k]);
      var l :| l in orders && b == ToRow(orders[l]);
      assert Storable(orders[k]) && Storable(orders[l]);
      assert orders[k].id == Digits(a.id, 0) == orders[l].id;
    }
  }

  lemma SamePosition(a: Pos, b: Pos, id: string, other: string)
    requires Canonical(id) && Canonical(other)
    requires a.code == Codes(id) && b.code == Codes(other)
    ensures Before(a, b) <==> Before(Pos(a.createdAt, NibblesOf(id)), Pos(b.createdAt, NibblesOf(other)))
  {
    TextOrderIsValueOrder(NibblesOf(id), NibblesOf(other), 0);
  }

  /** A cursor whose id compares with every canonical id in both stores alike. */
  ghost predicate SeeksAlike(cursor: Option<Cursor>) {
    cursor.Some? ==> SortsAlike(cursor.value.id)
  }

  function SeekPos(cursor: Option<Cursor>): Option<Pos> {
    if Seek(cursor).Ok? then Seek(cursor).value else None
  }

  function RowsOf(xs: seq<Order>): seq<OrderRow> {
    seq(|xs|, i requires 0 <= i < |xs| => ToRow(xs[i]))
  }

  /** The same rows are selected, in the same order. */
  lemma SameSelection(orders: map<string, Order>, rows: set<OrderRow>, tenant: string, f: Filter,
                      cursor: Option<Cursor>)
    requires SameOrders(orders, rows) && SeeksAlike(cursor)
    ensures Distinct(Select(rows, tenant, f, SeekPos(cursor)), RowPos)
    ensures Sorted(Select(rows, tenant, f, SeekPos(cursor)), RowPos)
            == RowsOf(Remaining(orders, tenant, f, CursorPos(cursor)))
  {
    var xs := Remaining(orders, tenant, f, CursorPos(cursor));
    var selected := Select(rows, tenant, f, SeekPos(cursor));
    SameOrdersAreRows(orders, rows);
    SelectIsDistinct(rows, tenant, f, SeekPos(cursor));
    ElementsAreSelected(orders, rows, tenant, f, cursor);
    forall i, j | 0 <= i < j < |xs| ensures Before(RowPos(RowsOf(xs)[i]), RowPos(RowsOf(xs)[j])) {
      assert xs[i] in Elements(xs) && xs[j] in Elements(xs);
      SamePosition(PosOf(xs[i]), PosOf(xs[j]), xs[i].id, xs[j].id);
    }
    SortedIsUnique(Sorted(selected, RowPos), RowsOf(xs), RowPos);
  }

  lemma SelectedAlike(orders: map<string, Order>, rows: set<OrderRow>, tenant: string, f: Filter,
                      cursor: Option<Cursor>, k: string)
    requires SameOrders(orders, rows) && k in orders && SeeksAlike(cursor)
    ensures orders[k] in Beyond(Matching(orders, tenant, f), CursorPos(cursor))
            <==> ToRow(orders[k]) in Select(rows, tenant, f, SeekPos(cursor))
  {
    var o := orders[k];
    assert Storable(o) && o in orders.Values;
    StatusRoundTrip(o.status, f.status);
    if cursor.Some? {
      assert Lex(Codes(cursor.value.id), Codes(o.id)) <==> Lex(ReadUuid(cursor.value.id).value, NibblesOf(o.id));
    }
  }

  lemma ElementsAreSelected(orders: map<string, Order>, rows: set<OrderRow>, tenant: string, f: Filter,
                            cursor: Option<Cursor>)
    requires SameOrders(orders, rows) && SeeksAlike(cursor)
    ensures Elements(RowsOf(Remaining(orders, tenant, f, CursorPos(cursor))))
            == Select(rows, tenant, f, SeekPos(cursor))
  {
    var xs := Remaining(orders, tenant, f, CursorPos(cursor));
    forall k | k in orders
      ensures orders[k] in Elements(xs) <==> ToRow(orders[k]) in Select(rows, tenant, f, SeekPos(cursor))
    {
      SelectedAlike(orders, rows, tenant, f, cursor, k);
    }
    ImageOfElements(orders, rows, xs, Select(rows, tenant, f, SeekPos(cursor)));
  }

  lemma ImageOfElements(orders: map<string, Order>, rows: set<OrderRow>, xs: seq<Order>, selected: set<OrderRow>)
    requires rows == set k | k in orders :: ToRow(orders[k])
    requires Elements(xs) <= orders.Values && selected <= rows
    requires forall k :: k in orders ==> (orders[k] in Elements(xs) <==> ToRow(orders[k]) in selected)
    ensures Elements(RowsOf(xs)) == selected
  {
    forall r | r in RowsOf(xs) ensures r in selected {
      var i :| 0 <= i < |xs| && r == ToRow(xs[i]);
      assert xs[i] in Elements(xs) && xs[i] in orders.Values;
    }
    forall r | r in selected ensures r in RowsOf(xs) {
      var k :| k in orders && r == ToRow(orders[k]);
      assert orders[k] in Elements(xs);
      var i :| 0 <= i < |xs| && xs[i] == orders[k];
      assert RowsOf(xs)[i] == r;
    }
  }

  predicate AllStorable(xs: seq<Order>) {
    forall i :: 0 <= i < |xs| ==> Storable(xs[i])
  }

  lemma RowsAreReadable(xs: seq<Order>)
    requires AllStorable(xs)
    ensures Readable(RowsOf(xs))
  {
    forall i | 0 <= i < |xs| ensures Distinct(RowsOf(xs)[i].items, LineNo) {
      RowRoundTrip(xs[i]);
    }
  }

  lemma ReadOneMore(o: Order, rows: seq<OrderRow>, rest: seq<Order>)
    requires Storable(o) && Readable(rows) && ToDomainAll(rows) == Ok(rest)
    ensures Readable([ToRow(o)] + rows) && ToDomainAll([ToRow(o)] + rows) == Ok([o] + rest)
  {
    RowRoundTrip(o);
    assert ([ToRow(o)] + rows)[1..] == rows;
  }

  lemma {:induction false} ReadBack(xs: seq<Order>)
    requires AllStorable(xs)
    ensures Readable(RowsOf(xs)) && ToDomainAll(RowsOf(xs)) == Ok(xs)
    decreases xs
  {
    if xs == [] {
      assert RowsOf(xs) == [];
    } else {
      RowsOfHeadAndTail(xs);
      TailIsStorable(xs);
      ReadBack(xs[1..]);
      ReadOneMore(xs[0], RowsOf(xs[1..]), xs[1..]);
    }
  }

  lemma RowsOfHeadAndTail(xs: seq<Order>)
    requires xs != []
    ensures RowsOf(xs) == [ToRow(xs[0])] + RowsOf(xs[1..]) && xs == [xs[0]] + xs[1..]
  {
  }

  lemma TailIsStorable(xs: seq<Order>)
    requires xs != [] && AllStorable(xs)
    ensures Storable(xs[0]) && AllStorable(xs[1..])
  {
    forall i | 0 <= i < |xs[1..]| ensures Storable(xs[1..][i]) {
      assert xs[1..][i] == xs[i + 1];
    }
  }

  /** For every set of storable orders, filter and page token with a canonical id, the
      row-value seek with limit size + 1 and the sort, linear skip and cut give the same
      page, the same next token, and the same errors. */
  lemma TwoStoresOneAnswer(x: Codec, orders: map<string, Order>, rows: set<OrderRow>, tenant: string, f: Filter)
    requires SameOrders(orders, rows) && (f.token.Token? ==> Canonical(f.token.id))
    ensures RowsOk(rows) && PageOfRows(x, rows, tenant, f) == ListIn(x, orders, tenant, f)
  {
    if f.token.Token? {
      CanonicalIsForm(f.token.id);
      WhichFormsSortAlike(f.token.id);
    }
    SameAnswer(x, orders, rows, tenant, f);
  }

  /** What List owes over rows: the page of the orders they hold, for a token with a canonical id;
      for any other the same refusals, and no more orders than the limit. */
  ghost predicate IsPageOfRows(x: Codec, rows: set<OrderRow>, tenant: string, f: Filter, r: Result<Page, OrderError>) {
    && (forall orders :: SameOrders(orders, rows) && (f.token.Token? ==> Canonical(f.token.id)) ==>
          IsPageOf(x, orders, tenant, f, r))
    && (tenant == "" ==> r == Err(MissingTenant))
    && (tenant != "" && IsRefused(x, tenant, f) ==> r == Err(InvalidPageToken))
    && (r.Ok? ==> IsFull(f, r.value))
  }

  /** No more orders than the limit, and just as many if there is a token. */
  ghost predicate IsFull(f: Filter, page: Page) {
    forall size :: IsLimit(f.pageSize, size) ==>
      |page.orders| <= size && (page.next != NoToken ==> |page.orders| == size)
  }

  lemma RowsPageIsFull(x: Codec, rows: set<OrderRow>, tenant: string, f: Filter)
    requires RowsOk(rows)
    ensures PageOfRows(x, rows, tenant, f).Ok? ==> IsFull(f, PageOfRows(x, rows, tenant, f).value)
  {
  }

  lemma WhatPageOfRowsIs(x: Codec, rows: set<OrderRow>, tenant: string, f: Filter)
    requires RowsOk(rows)
    ensures IsPageOfRows(x, rows, tenant, f, PageOfRows(x, rows, tenant, f))
  {
    RowsPageIsFull(x, rows, tenant, f);
    forall orders | SameOrders(orders, rows) && (f.token.Token? ==> Canonical(f.token.id))
      ensures IsPageOf(x, orders, tenant, f, PageOfRows(x, rows, tenant, f))
    {
      TwoStoresOneAnswer(x, orders, rows, tenant, f);
      WhatListInIs(x, orders, tenant, f);
    }
  }

  lemma SameAnswer(x: Codec, orders: map<string, Order>, rows: set<OrderRow>, tenant: string, f: Filter)
    requires SameOrders(orders, rows) && (f.token.Token? ==> SortsAlike(f.token.id))
    ensures RowsOk(rows) && PageOfRows(x, rows, tenant, f) == ListIn(x, orders, tenant, f)
  {
    SameOrdersAreRows(orders, rows);
    if tenant != "" && DecodePageToken(x, tenant, f).Ok? {
      var cursor := DecodePageToken(x, tenant, f).value;
      SameSelection(orders, rows, tenant, f, cursor);
      RemainingAreStorable(orders, tenant, f, CursorPos(cursor));
      SameCut(x, tenant, f, Remaining(orders, tenant, f, CursorPos(cursor)));
    }
  }

  lemma SameCut(x: Codec, tenant: string, f: Filter, xs: seq<Order>)
    requires AllStorable(xs)
    ensures Readable(RowsOf(xs)) && PageFrom(x, tenant, f, RowsOf(xs)) == Ok(Cut(x, tenant, f, xs))
  {
    var size := ClampPageSize(f.pageSize);
    assert Limit(xs, size) == Cut(x, tenant, f, xs).orders;
    RowsAreReadable(xs);
    LimitOfRows(xs, size);
    LimitTwice(RowsOf(xs), size);
    ReadBack(Limit(xs, size));
  }

  lemma LimitOfRows(xs: seq<Order>, n: nat)
    ensures Limit(RowsOf(xs), n) == RowsOf(Limit(xs, n))
  {
  }

  /** One row more than the page is enough to tell whether there are more. */
  lemma LimitTwice<T>(xs: seq<T>, n: nat)
    ensures Limit(Limit(xs, n + 1), n) == Limit(xs, n)
    ensures |Limit(xs, n + 1)| > n <==> |xs| > n
  {
  }

  lemma RemainingAreStorable(orders: map<string, Order>, tenant: string, f: Filter, after: Option<Pos>)
    requires TableOk(orders) && forall k :: k in orders ==> Storable(orders[k])
    ensures AllStorable(Remaining(orders, tenant, f, after))
  {
    var xs := Remaining(orders, tenant, f, after);
    forall i | 0 <= i < |xs| ensures Storable(xs[i]) {
      assert xs[i] in Elements(xs);
    }
  }

  // ---------- which tokens the two stores read alike ----------

  /** The two stores answer alike on every table that both can hold. */
  ghost predicate AgreeOnAllTables(x: Codec, tenant: string, f: Filter) {
    forall orders, rows :: SameOrders(orders, rows) ==>
      RowsOk(rows) && PageOfRows(x, rows, tenant, f) == ListIn(x, orders, tenant, f)
  }

  /** Exactly which accepted tokens the two stores read alike, whichever of the four forms their
      id takes: ReadAlike looks at the text alone. (A missing or refused token is always read
      alike.) */
  lemma WhichTokensReadAlike(x: Codec, tenant: string, f: Filter)
    requires tenant != "" && f.token.Token? && DecodePageToken(x, tenant, f).Ok? && IsUuid(f.token.id)
    ensures AgreeOnAllTables(x, tenant, f) <==> ReadAlike(f.token.id)
  {
    WhichFormsSortAlike(f.token.id);
    if SortsAlike(f.token.id) {
      forall orders, rows | SameOrders(orders, rows)
        ensures RowsOk(rows) && PageOfRows(x, rows, tenant, f) == ListIn(x, orders, tenant, f)
      {
        SameAnswer(x, orders, rows, tenant, f);
      }
    } else {
      var orders, rows := WhereTheyDiffer(x, tenant, f);
    }
  }

  lemma WhereTheyDiffer(x: Codec, tenant: string, f: Filter) returns (orders: map<string, Order>, rows: set<OrderRow>)
    requires tenant != "" && f.token.Token? && DecodePageToken(x, tenant, f).Ok? && !SortsAlike(f.token.id)
    ensures SameOrders(orders, rows) && RowsOk(rows)
    ensures PageOfRows(x, rows, tenant, f) != ListIn(x, orders, tenant, f)
  {
    if ReadUuid(f.token.id).None? {
      orders, rows := map[], {};
      UrnIsRefused(x, tenant, f);
    } else {
      var id := ReadOtherwise(f.token.id);
      var o := OrderFor(id, tenant, f);
      orders, rows := map[KeyOf(o) := o], {ToRow(o)};
      OneOrder(x, o, f);
    }
  }

  lemma ReadOtherwise(s: string) returns (id: string)
    requires ReadUuid(s).Some? && !SortsAlike(s)
    ensures Canonical(id) && Lex(Codes(s), Codes(id)) != Lex(ReadUuid(s).value, NibblesOf(id))
  {
    id :| Canonical(id) && !(Lex(Codes(s), Codes(id)) <==> Lex(ReadUuid(s).value, NibblesOf(id)));
  }

  /** Postgres refuses a urn that the in-memory store takes, even over no orders at all. */
  lemma UrnIsRefused(x: Codec, tenant: string, f: Filter)
    requires tenant != "" && f.token.Token? && DecodePageToken(x, tenant, f).Ok? && ReadUuid(f.token.id).None?
    ensures SameOrders(map[], {}) && RowsOk({})
    ensures PageOfRows(x, {}, tenant, f) == Err(UnreadableUuid) && ListIn(x, map[], tenant, f).Ok?
  {
  }

  /** On a table that holds one order, created when the token says: each store returns it if it
      finds it beyond the token's id. */
  lemma OneOrder(x: Codec, o: Order, f: Filter)
    requires Storable(o) && Matches(o, o.tenant, f)
    requires f.token.Token? && f.token.createdAt == o.createdAt && DecodePageToken(x, o.tenant, f).Ok?
    requires ReadUuid(f.token.id).Some?
    ensures var orders, rows := map[KeyOf(o) := o], {ToRow(o)};
            && SameOrders(orders, rows) && RowsOk(rows)
            && PageOfRows(x, rows, o.tenant, f)
               == Ok(Page(if Lex(ReadUuid(f.token.id).value, NibblesOf(o.id)) then [o] else [], NoToken))
            && ListIn(x, orders, o.tenant, f)
               == Ok(Page(if Lex(Codes(f.token.id), Codes(o.id)) then [o] else [], NoToken))
  {
    var orders, rows, cursor := map[KeyOf(o) := o], {ToRow(o)}, Cursor(f.token.createdAt, f.token.id);
    assert SameOrders(orders, rows) by {
      assert ToRow(orders[KeyOf(o)]) == ToRow(o);
    }
    SameOrdersAreRows(orders, rows);
    SelectsTheOne(x, rows, o, f, cursor);
    ListsTheOne(x, orders, o, f, cursor);
  }

  lemma ListsTheOne(x: Codec, orders: map<string, Order>, o: Order, f: Filter, cursor: Cursor)
    requires orders == map[KeyOf(o) := o] && Matches(o, o.tenant, f) && o.tenant != ""
    requires DecodePageToken(x, o.tenant, f) == Ok(Some(cursor))
    ensures ListIn(x, orders, o.tenant, f)
            == Ok(Page(if IsAfter(CursorPos(Some(cursor)), PosOf(o)) then [o] else [], NoToken))
  {
    var after := CursorPos(Some(cursor));
    var xs := if IsAfter(after, PosOf(o)) then [o] else [];
    assert orders[KeyOf(o)] in orders.Values;
    assert Beyond(Matching(orders, o.tenant, f), after) == Elements(xs);
    SortedIsUnique(Remaining(orders, o.tenant, f, after), xs, PosOf);
  }

  lemma SelectsTheOne(x: Codec, rows: set<OrderRow>, o: Order, f: Filter, cursor: Cursor)
    requires rows == {ToRow(o)} && RowsOk(rows) && Storable(o) && Matches(o, o.tenant, f) && o.tenant != ""
    requires DecodePageToken(x, o.tenant, f) == Ok(Some(cursor)) && Seek(Some(cursor)).Ok?
    ensures PageOfRows(x, rows, o.tenant, f)
            == Ok(Page(if IsAfter(SeekPos(Some(cursor)), RowPos(ToRow(o))) then [o] else [], NoToken))
  {
    var after := SeekPos(Some(cursor));
    var xs := if IsAfter(after, RowPos(ToRow(o))) then [o] else [];
    SelectionOfOne(rows, o, f, after);
    assert RowsOf(xs) == if IsAfter(after, RowPos(ToRow(o))) then [ToRow(o)] else [];
    PageOfSelected(x, rows, o.tenant, f, cursor, xs);
  }

  lemma SelectionOfOne(rows: set<OrderRow>, o: Order, f: Filter, after: Option<Pos>)
    requires rows == {ToRow(o)} && Matches(o, o.tenant, f)
    ensures Select(rows, o.tenant, f, after) == if IsAfter(after, RowPos(ToRow(o))) then {ToRow(o)} else {}
  {
  }

  lemma PageOfSelected(x: Codec, rows: set<OrderRow>, tenant: string, f: Filter, cursor: Cursor, xs: seq<Order>)
    requires RowsOk(rows) && tenant != "" && DecodePageToken(x, tenant, f) == Ok(Some(cursor)) && Seek(Some(cursor)).Ok?
    requires Select(rows, tenant, f, SeekPos(Some(cursor))) == Elements(RowsOf(xs))
    requires IsSorted(RowsOf(xs), RowPos) && AllStorable(xs)
    ensures PageOfRows(x, rows, tenant, f) == Ok(Cut(x, tenant, f, xs))
  {
    var after := SeekPos(Some(cursor));
    SelectIsDistinct(rows, tenant, f, after);
    SortedIsUnique(Sorted(Select(rows, tenant, f, after), RowPos), RowsOf(xs), RowPos);
    SameCut(x, tenant, f, xs);
  }

  /** In particular a token with some spelling of the order's own id, in the plain form: Postgres
      returns nothing more, and the in-memory store the order once more exactly if the spelling
      is not the canonical one. */
  lemma RespelledTokenSplitsTheStores(x: Codec, o: Order, f: Filter)
    requires Storable(o) && Matches(o, o.tenant, f)
    requires f.token.Token? && f.token.createdAt == o.createdAt && DecodePageToken(x, o.tenant, f).Ok?
    requires UuidForm(f.token.id) && ToLower(f.token.id) == o.id
    ensures var orders, rows := map[KeyOf(o) := o], {ToRow(o)};
            && SameOrders(orders, rows) && RowsOk(rows)
            && PageOfRows(x, rows, o.tenant, f) == Ok(Page([], NoToken))
            && ListIn(x, orders, o.tenant, f) == Ok(Page(if Canonical(f.token.id) then [] else [o], NoToken))
  {
    OneOrder(x, o, f);
    FormIsCanonicalInLowerCase(f.token.id);
    LexTotal(NibblesOf(o.id), NibblesOf(o.id));
    LexTotal(Codes(o.id), Codes(o.id));
    if f.token.id != o.id {
      UpperCaseIsBefore(f.token.id);
    }
  }

  /** Some order that can be stored and that the filter lets through. */
  lemma OrderFor(id: string, tenant: string, f: Filter) returns (o: Order)
    requires Canonical(id) && tenant != "" && f.token.Token?
    ensures Storable(o) && Matches(o, tenant, f) && o.id == id && o.tenant == tenant && o.createdAt == f.token.createdAt
  {
    var items, total := SomeItems();
    var customer := if f.customer == "" then "c" else f.customer;
    var status := if f.status == Unspecified then Pending else f.status;
    o := Order(id, tenant, customer, status, items, total, f.token.createdAt, f.token.createdAt);
  }

  lemma SomeItems() returns (items: seq<Item>, total: Money)
    ensures items != [] && AllValid(items) && TotalOf(items) == Ok(total)
  {
    total := Money("USD", 0, 1);
    items := [Item("s", 1, total)];
    TotalOfOne(items, total);
  }

  lemma TotalOfOne(items: seq<Item>, price: Money)
    requires price.Valid() && |items| == 1 && items[0].unitPrice == price && items[0].quantity == 1
    ensures TotalOf(items) == Ok(price)
  {
    assert ToUpper(price.currency) == price.currency;
    SingleLine(items[0]);
    ExactSum(Zero(price.currency), price, price);
    assert items[1..] == [];
    assert AddLines(price, items[1..]) == Ok(price);
  }
}
