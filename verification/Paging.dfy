/** Keyset pagination: internal/order/cursor.go, the List of ordermem.go, and the walk a
    client makes by following next-page tokens.

    A page token is a datatype: that JSON and base64url round-trip is assumed. The filter
    hash and uuid.Validate are parameters, so nothing is assumed of them; in particular two
    filters may hash alike. */
module Paging {
  import opened GoInts
  import opened Results
  import opened Orders
  import opened OrderStore
  import opened Sets
  import opened Sorting

  datatype Token = NoToken | Garbled | Token(createdAt: int, id: string, filterHash: int)

  datatype Filter = Filter(status: Status, customer: string, pageSize: int, token: Token)

  datatype Codec = Codec(hash: (string, Status, string) -> int, isUuid: string -> bool)

  datatype Page = Page(orders: seq<Order>, next: Token)

  const DEFAULT_PAGE_SIZE: int := 50
  const MAX_PAGE_SIZE: int := 1000

  function ClampPageSize(n: int): int {
    if n <= 0 then DEFAULT_PAGE_SIZE else if n > MAX_PAGE_SIZE then MAX_PAGE_SIZE else n
  }

  // ---------- the sort key ----------

  function Codes(s: string): seq<int> {
    seq(|s|, i requires 0 <= i < |s| => s[i] as int)
  }

  function PosOf(o: Order): Pos {
    Pos(o.createdAt, Codes(o.id))
  }

  lemma CodesAreInjective(a: string, b: string)
    requires Codes(a) == Codes(b)
    ensures a == b
  {
    assert |a| == |Codes(a)| == |b|;
    forall i | 0 <= i < |a| ensures a[i] == b[i] {
      assert Codes(a)[i] == Codes(b)[i];
    }
  }

  // ---------- tokens ----------

  function EncodePageToken(x: Codec, tenant: string, f: Filter, last: Order): Token {
    Token(last.createdAt, last.id, x.hash(tenant, f.status, f.customer))
  }

  datatype Cursor = Cursor(createdAt: int, id: string)

  /** The sort key to resume after, if any. */
  function DecodePageToken(x: Codec, tenant: string, f: Filter): Result<Option<Cursor>, OrderError> {
    match f.token
    case NoToken => Ok(None)
    case Garbled => Err(InvalidPageToken)
    case Token(createdAt, id, filterHash) =>
      if filterHash != x.hash(tenant, f.status, f.customer) then Err(InvalidPageToken)
      else if !x.isUuid(id) then Err(InvalidPageToken)
      else Ok(Some(Cursor(createdAt, id)))
  }

  function CursorPos(cursor: Option<Cursor>): Option<Pos> {
    match cursor
    case None => None
    case Some(c) => Some(Pos(c.createdAt, Codes(c.id)))
  }

  predicate ResumesAfter(x: Codec, tenant: string, f: Filter, after: Option<Pos>) {
    DecodePageToken(x, tenant, f).Ok? && CursorPos(DecodePageToken(x, tenant, f).value) == after
  }

  // ---------- what a page is ----------

  predicate Matches(o: Order, tenant: string, f: Filter) {
    && o.tenant == tenant
    && (f.status == Unspecified || o.status == f.status)
    && (f.customer == "" || o.customer == f.customer)
  }

  function Matching(orders: map<string, Order>, tenant: string, f: Filter): set<Order> {
    set o | o in orders.Values && Matches(o, tenant, f)
  }

  predicate IsAfter(after: Option<Pos>, p: Pos) {
    after.None? || Before(after.value, p)
  }

  function Beyond(s: set<Order>, after: Option<Pos>): set<Order> {
    set o | o in s && IsAfter(after, PosOf(o))
  }

  /** Orders are stored under their own keys. */
  predicate TableOk(orders: map<string, Order>) {
    forall k :: k in orders ==> KeyOf(orders[k]) == k
  }

  lemma MatchingIsDistinct(orders: map<string, Order>, tenant: string, f: Filter)
    requires TableOk(orders)
    ensures Distinct(Matching(orders, tenant, f), PosOf)
  {
    forall a, b | a in Matching(orders, tenant, f) && b in Matching(orders, tenant, f) && PosOf(a) == PosOf(b)
      ensures a == b
    {
      CodesAreInjective(a.id, b.id);
      var k :| k in orders && orders[k] == a;
      var l :| l in orders && orders[l] == b;
      assert k == KeyOf(a) == KeyOf(b) == l;
    }
  }

  /** The matching orders beyond the cursor, in order. */
  function Remaining(orders: map<string, Order>, tenant: string, f: Filter, after: Option<Pos>): (xs: seq<Order>)
    requires TableOk(orders)
    ensures IsSorted(xs, PosOf) && Elements(xs) == Beyond(Matching(orders, tenant, f), after)
  {
    MatchingIsDistinct(orders, tenant, f);
    Sorted(Beyond(Matching(orders, tenant, f), after), PosOf)
  }

  function Cut(x: Codec, tenant: string, f: Filter, xs: seq<Order>): Page {
    var size := ClampPageSize(f.pageSize);
    if |xs| > size then Page(xs[..size], EncodePageToken(x, tenant, f, xs[size - 1])) else Page(xs, NoToken)
  }

  /** The page both stores owe the caller. */
  function ListIn(x: Codec, orders: map<string, Order>, tenant: string, f: Filter): Result<Page, OrderError>
    requires TableOk(orders)
  {
    if tenant == "" then Err(MissingTenant)
    else
      match DecodePageToken(x, tenant, f)
      case Err(e) => Err(e)
      case Ok(cursor) => Ok(Cut(x, tenant, f, Remaining(orders, tenant, f, CursorPos(cursor))))
  }

  // ---------- a page, order by order ----------

  /** Go's order of strings: a proper prefix first, else by the first character that differs. */
  ghost predicate TextBefore(a: string, b: string) {
    exists n: nat :: DifferAt(a, b, n)
  }

  /** Created later than that, or then and with a greater id. */
  ghost predicate Later(o: Order, createdAt: int, id: string) {
    o.createdAt > createdAt || (o.createdAt == createdAt && TextBefore(id, o.id))
  }

  /** The tenant's orders that the filter asks for, beyond the token if it has one. */
  ghost predicate Wanted(o: Order, tenant: string, f: Filter) {
    && o.tenant == tenant
    && (f.status != Unspecified ==> o.status == f.status)
    && (f.customer != "" ==> o.customer == f.customer)
    && (f.token.Token? ==> Later(o, f.token.createdAt, f.token.id))
  }

  ghost function AllWanted(orders: map<string, Order>, tenant: string, f: Filter): set<Order> {
    set o | o in orders.Values && Wanted(o, tenant, f)
  }

  /** The size asked for, or 50 if none is, and at most 1000. */
  predicate IsLimit(asked: int, size: int) {
    || (asked <= 0 && size == 50)
    || (1 <= asked <= 1000 && size == asked)
    || (asked > 1000 && size == 1000)
  }

  /** The token of another filter, or with an id that is no uuid, or no token at all. */
  predicate IsRefused(x: Codec, tenant: string, f: Filter) {
    || f.token.Garbled?
    || (f.token.Token? && (f.token.filterHash != x.hash(tenant, f.status, f.customer) || !x.isUuid(f.token.id)))
  }

  /** What List owes: the first of the wanted orders by creation and id, as many as the limit
      allows, and the token of the last one exactly if there are more. */
  ghost predicate IsPageOf(x: Codec, orders: map<string, Order>, tenant: string, f: Filter,
                           r: Result<Page, OrderError>) {
    if tenant == "" then r == Err(MissingTenant)
    else if IsRefused(x, tenant, f) then r == Err(InvalidPageToken)
    else r.Ok? && IsFirstOf(x, AllWanted(orders, tenant, f), tenant, f, r.value)
  }

  ghost predicate IsFirstOf(x: Codec, wanted: set<Order>, tenant: string, f: Filter, page: Page) {
    && (forall i, j :: 0 <= i < j < |page.orders| ==>
          Later(page.orders[j], page.orders[i].createdAt, page.orders[i].id))
    && (forall o :: o in page.orders ==> o in wanted)
    && (forall o, p :: o in wanted && o !in page.orders && p in page.orders ==> Later(o, p.createdAt, p.id))
    && (forall size :: IsLimit(f.pageSize, size) ==>
          if |wanted| <= size then
            |page.orders| == |wanted| && page.next == NoToken
          else
            && |page.orders| == size
            && var last := page.orders[size - 1];
               page.next == Token(last.createdAt, last.id, x.hash(tenant, f.status, f.customer)))
  }

  predicate DifferAt(a: string, b: string, n: nat) {
    n <= |a| && n < |b| && a[..n] == b[..n] && (n == |a| || a[n] < b[n])
  }

  lemma DifferFurther(a: string, b: string, n: nat)
    requires a != [] && b != [] && a[0] == b[0]
    ensures DifferAt(a, b, n + 1) <==> DifferAt(a[1..], b[1..], n)
  {
    if n + 1 <= |a| && n + 1 < |b| {
      assert a[..n + 1] == [a[0]] + a[1..][..n] && b[..n + 1] == [b[0]] + b[1..][..n];
    }
  }

  lemma {:induction false} TextBeforeIsLex(a: string, b: string)
    ensures TextBefore(a, b) <==> Lex(Codes(a), Codes(b))
    decreases a
  {
    if a != [] && b != [] {
      assert Codes(a)[1..] == Codes(a[1..]) && Codes(b)[1..] == Codes(b[1..]);
      TextBeforeIsLex(a[1..], b[1..]);
      assert DifferAt(a, b, 0) <==> a[0] < b[0];
      assert forall n: nat :: n > 0 && DifferAt(a, b, n) ==> a[..n][0] == b[..n][0];
      if a[0] == b[0] {
        forall n: nat | true ensures DifferAt(a, b, n + 1) <==> DifferAt(a[1..], b[1..], n) {
          DifferFurther(a, b, n);
        }
        assert forall n: nat :: DifferAt(a, b, n) ==> n > 0 && DifferAt(a[1..], b[1..], n - 1);
        assert forall n: nat :: DifferAt(a[1..], b[1..], n) ==> DifferAt(a, b, n + 1);
      }
    } else if b != [] {
      assert DifferAt(a, b, 0);
    }
  }

  lemma LaterIsBefore(o: Order, p: Order)
    ensures Later(o, p.createdAt, p.id) <==> Before(PosOf(p), PosOf(o))
  {
    TextBeforeIsLex(p.id, o.id);
  }

  lemma WantedAreBeyond(x: Codec, orders: map<string, Order>, tenant: string, f: Filter)
    requires DecodePageToken(x, tenant, f).Ok?
    ensures AllWanted(orders, tenant, f)
            == Beyond(Matching(orders, tenant, f), CursorPos(DecodePageToken(x, tenant, f).value))
  {
    forall o | o in orders.Values
      ensures Wanted(o, tenant, f)
              <==> Matches(o, tenant, f) && IsAfter(CursorPos(DecodePageToken(x, tenant, f).value), PosOf(o))
    {
      if f.token.Token? {
        TextBeforeIsLex(f.token.id, o.id);
      }
    }
  }

  lemma CutIsFirst(x: Codec, wanted: set<Order>, tenant: string, f: Filter, xs: seq<Order>)
    requires IsSorted(xs, PosOf) && Elements(xs) == wanted
    ensures IsFirstOf(x, wanted, tenant, f, Cut(x, tenant, f, xs))
  {
    var page := Cut(x, tenant, f, xs);
    SortedHasNoRepeats(xs, PosOf);
    assert page.orders == xs[..|page.orders|];
    forall i, j | 0 <= i < j < |xs| ensures Later(xs[j], xs[i].createdAt, xs[i].id) {
      LaterIsBefore(xs[j], xs[i]);
    }
    forall o | o in page.orders ensures o in wanted {
      assert o in Elements(xs);
    }
    forall k | 0 <= k < |page.orders| ensures xs[k] in page.orders {
      assert page.orders[k] == xs[k];
    }
    forall o, p | o in wanted && o !in page.orders && p in page.orders ensures Later(o, p.createdAt, p.id) {
      assert o in Elements(xs);
      var i :| 0 <= i < |page.orders| && xs[i] == p;
      var j :| 0 <= j < |xs| && xs[j] == o;
    }
  }

  /** The page both stores owe is that page. */
  lemma WhatListInIs(x: Codec, orders: map<string, Order>, tenant: string, f: Filter)
    requires TableOk(orders)
    ensures IsPageOf(x, orders, tenant, f, ListIn(x, orders, tenant, f))
  {
    if tenant != "" && DecodePageToken(x, tenant, f).Ok? {
      WantedAreBeyond(x, orders, tenant, f);
      var after := CursorPos(DecodePageToken(x, tenant, f).value);
      CutIsFirst(x, Beyond(Matching(orders, tenant, f), after), tenant, f, Remaining(orders, tenant, f, after));
    }
  }

  // ---------- the in-memory store ----------

  /** view.List: collect the matches in map order, sort, skip linearly to the first order
      beyond the cursor, cut. (Distinct keys make sort.Slice's result unique.) */
  method List(x: Codec, orders: map<string, Order>, tenant: string, f: Filter) returns (r: Result<Page, OrderError>)
    requires TableOk(orders)
    ensures r == ListIn(x, orders, tenant, f)
    ensures IsPageOf(x, orders, tenant, f, r)
  {
    WhatListInIs(x, orders, tenant, f);
    if tenant == "" {
      return Err(MissingTenant);
    }
    var cursor := DecodePageToken(x, tenant, f);
    if cursor.Err? {
      return Err(cursor.error);
    }
    var after := CursorPos(cursor.value);
    var matched := Collect(orders, tenant, f);
    MatchingIsDistinct(orders, tenant, f);
    matched := Sorted(Elements(matched), PosOf);
    if after.Some? {
      matched := Skip(matched, after.value);
    }
    SortedIsUnique(matched, Remaining(orders, tenant, f, after), PosOf);
    var size := ClampPageSize(f.pageSize);
    if |matched| > size {
      var page := matched[..size];
      return Ok(Page(page, EncodePageToken(x, tenant, f, page[size - 1])));
    }
    return Ok(Page(matched, NoToken));
  }

  /** The orders that match, in whatever order the map gives them. */
  method Collect(orders: map<string, Order>, tenant: string, f: Filter) returns (matched: seq<Order>)
    ensures Elements(matched) == Matching(orders, tenant, f)
  {
    matched := [];
    var rest := orders.Keys;
    while rest != {}
      invariant rest <= orders.Keys
      invariant Elements(matched) == set k | k in orders && k !in rest && Matches(orders[k], tenant, f) :: orders[k]
      decreases rest
    {
      var k :| k in rest;
      if orders[k].tenant == tenant
         && !(f.status != Unspecified && orders[k].status != f.status)
         && !(f.customer != "" && orders[k].customer != f.customer)
      {
        assert Elements(matched + [orders[k]]) == Elements(matched) + {orders[k]};
        matched := matched + [orders[k]];
      }
      rest := rest - {k};
    }
    assert Elements(matched) == Matching(orders, tenant, f);
  }

  /** The linear skip to the first order beyond the cursor. */
  method Skip(matched: seq<Order>, after: Pos) returns (rest: seq<Order>)
    requires IsSorted(matched, PosOf)
    ensures IsSorted(rest, PosOf) && Elements(rest) == Beyond(Elements(matched), Some(after))
  {
    var idx := 0;
    while idx < |matched|
      invariant 0 <= idx <= |matched|
      invariant forall j :: 0 <= j < idx ==> !Before(after, PosOf(matched[j]))
    {
      if Before(after, PosOf(matched[idx])) {
        break;
      }
      idx := idx + 1;
    }
    SkipLeavesTheRest(matched, after, idx);
    return matched[idx..];
  }

  lemma SkipLeavesTheRest(xs: seq<Order>, after: Pos, idx: int)
    requires IsSorted(xs, PosOf) && 0 <= idx <= |xs|
    requires forall j :: 0 <= j < idx ==> !Before(after, PosOf(xs[j]))
    requires idx < |xs| ==> Before(after, PosOf(xs[idx]))
    ensures IsSorted(xs[idx..], PosOf) && Elements(xs[idx..]) == Beyond(Elements(xs), Some(after))
  {
    forall j | idx <= j < |xs| ensures Before(after, PosOf(xs[j])) {
      if j > idx {
        BeforeIsTransitive(after, PosOf(xs[idx]), PosOf(xs[j]));
      }
    }
    forall o | o in Beyond(Elements(xs), Some(after)) ensures o in xs[idx..] {
      var j :| 0 <= j < |xs| && xs[j] == o;
      assert xs[idx..][j - idx] == o;
    }
    forall o | o in xs[idx..] ensures o in Beyond(Elements(xs), Some(after)) {
      var j :| 0 <= j < |xs[idx..]| && xs[idx..][j] == o;
      assert xs[idx + j] == o;
    }
  }

  // ---------- the walk ----------

  /** A client follows the tokens to the end; the table may be another one at each call. */
  predicate IsWalk(x: Codec, tables: seq<map<string, Order>>, tenant: string, f: Filter, pages: seq<Page>)
    requires forall i :: 0 <= i < |tables| ==> TableOk(tables[i])
    decreases pages
  {
    && |tables| == |pages| > 0
    && ListIn(x, tables[0], tenant, f) == Ok(pages[0])
    && if |pages| == 1 then pages[0].next == NoToken
       else pages[0].next != NoToken && IsWalk(x, tables[1..], tenant, f.(token := pages[0].next), pages[1..])
  }

  function Concat(pages: seq<Page>): seq<Order> {
    if pages == [] then [] else pages[0].orders + Concat(pages[1..])
  }

  predicate IdsAreUuids(x: Codec, orders: map<string, Order>) {
    forall k :: k in orders ==> x.isUuid(orders[k].id)
  }

  /** One call's page: in order, beyond the cursor, and complete up to its last order, which
      is where its token resumes. */
  lemma PageFacts(x: Codec, orders: map<string, Order>, tenant: string, f: Filter, page: Page, after: Option<Pos>)
    requires TableOk(orders) && IdsAreUuids(x, orders)
    requires ListIn(x, orders, tenant, f) == Ok(page) && ResumesAfter(x, tenant, f, after)
    ensures IsSorted(page.orders, PosOf)
    ensures PageMembers(page.orders, Matching(orders, tenant, f), after)
    ensures page.next == NoToken ==> Elements(page.orders) == Beyond(Matching(orders, tenant, f), after)
    ensures page.next != NoToken ==>
              && |page.orders| == ClampPageSize(f.pageSize)
              && var last := PosOf(page.orders[|page.orders| - 1]);
                 && ResumesAfter(x, tenant, f.(token := page.next), Some(last))
                 && Beyond(Matching(orders, tenant, f), after) ==
                    Elements(page.orders) + Beyond(Matching(orders, tenant, f), Some(last))
  {
    var xs := Remaining(orders, tenant, f, after);
    var size := ClampPageSize(f.pageSize);
    assert xs[..|xs|] == xs;
    assert page.orders == xs[..|page.orders|];
    PrefixMembers(xs, |page.orders|, after, Matching(orders, tenant, f));
    if |xs| > size {
      assert xs[size - 1] in Elements(xs);
      TokenResumes(x, orders, tenant, f, xs[size - 1]);
      SplitAt(xs, size, after, Matching(orders, tenant, f));
    }
  }

  predicate PageMembers(page: seq<Order>, all: set<Order>, after: Option<Pos>) {
    forall o :: o in page ==> o in all && IsAfter(after, PosOf(o))
  }

  lemma PrefixMembers(xs: seq<Order>, n: int, after: Option<Pos>, all: set<Order>)
    requires 0 <= n <= |xs| && Elements(xs) == Beyond(all, after)
    ensures PageMembers(xs[..n], all, after)
  {
    forall o | o in xs[..n] ensures o in all && IsAfter(after, PosOf(o)) {
      assert o in Elements(xs);
    }
  }

  /** The token of a stored order with a uuid is accepted for the same filter, and resumes
      after that order. */
  lemma TokenResumes(x: Codec, orders: map<string, Order>, tenant: string, f: Filter, last: Order)
    requires IdsAreUuids(x, orders) && last in Matching(orders, tenant, f)
    ensures ResumesAfter(x, tenant, f.(token := EncodePageToken(x, tenant, f, last)), Some(PosOf(last)))
  {
  }

  lemma SplitAt(xs: seq<Order>, size: int, after: Option<Pos>, all: set<Order>)
    requires IsSorted(xs, PosOf) && 0 < size <= |xs| && Elements(xs) == Beyond(all, after)
    ensures Elements(xs) == Elements(xs[..size]) + Beyond(all, Some(PosOf(xs[size - 1])))
  {
    var last := PosOf(xs[size - 1]);
    assert xs[size - 1] in Elements(xs);
    forall o | o in Beyond(all, Some(last)) ensures o in Elements(xs) {
      if after.Some? {
        BeforeIsTransitive(after.value, last, PosOf(o));
      }
    }
    forall o | o in Elements(xs) ensures o in Elements(xs[..size]) || o in Beyond(all, Some(last)) {
      var j :| 0 <= j < |xs| && xs[j] == o;
      if j < size {
        assert xs[..size][j] == o;
      }
    }
    forall o | o in xs[..size] ensures o in xs {
    }
  }

  lemma AppendSorted(xs: seq<Order>, ys: seq<Order>)
    requires IsSorted(xs, PosOf) && IsSorted(ys, PosOf)
    requires xs != [] ==> forall o :: o in ys ==> Before(PosOf(xs[|xs| - 1]), PosOf(o))
    ensures IsSorted(xs + ys, PosOf)
  {
    forall i, j | 0 <= i < |xs| && 0 <= j < |ys| ensures Before(PosOf(xs[i]), PosOf(ys[j])) {
      if i < |xs| - 1 {
        BeforeIsTransitive(PosOf(xs[i]), PosOf(xs[|xs| - 1]), PosOf(ys[j]));
      }
    }
  }

  predicate Present(orders: map<string, Order>, tenant: string, f: Filter, p: Pos) {
    exists o :: o in Matching(orders, tenant, f) && PosOf(o) == p
  }

  /** Every order returned lies beyond the cursor and matched in one of the tables. */
  ghost predicate WalkMembers(tables: seq<map<string, Order>>, tenant: string, f: Filter, all: seq<Order>,
                              after: Option<Pos>) {
    forall o :: o in all ==> IsAfter(after, PosOf(o)) && Seen(tables, tenant, f, o)
  }

  predicate Seen(tables: seq<map<string, Order>>, tenant: string, f: Filter, o: Order) {
    exists i :: 0 <= i < |tables| && o in Matching(tables[i], tenant, f)
  }

  /** Every position beyond the cursor that matched in all the tables is returned. */
  ghost predicate WalkMissesNone(tables: seq<map<string, Order>>, tenant: string, f: Filter, all: seq<Order>,
                                 after: Option<Pos>) {
    forall p :: IsAfter(after, p) && PresentThroughout(tables, tenant, f, p) ==> At(all, p)
  }

  predicate PresentThroughout(tables: seq<map<string, Order>>, tenant: string, f: Filter, p: Pos) {
    forall i :: 0 <= i < |tables| ==> Present(tables[i], tenant, f, p)
  }

  predicate At(all: seq<Order>, p: Pos) {
    exists o :: o in all && PosOf(o) == p
  }

  predicate AllOk(x: Codec, tables: seq<map<string, Order>>) {
    forall i :: 0 <= i < |tables| ==> TableOk(tables[i]) && IdsAreUuids(x, tables[i])
  }

  /** From a cursor on: the walk returns ascending orders beyond it, each of them from one of
      the tables, and misses none that matched at every call. */
  lemma {:induction false} WalkFacts(x: Codec, tables: seq<map<string, Order>>, tenant: string, f: Filter,
                                     pages: seq<Page>,
                                     after: Option<Pos>)
    requires AllOk(x, tables)
    requires IsWalk(x, tables, tenant, f, pages) && ResumesAfter(x, tenant, f, after)
    ensures IsSorted(Concat(pages), PosOf)
    ensures WalkMembers(tables, tenant, f, Concat(pages), after)
    ensures WalkMissesNone(tables, tenant, f, Concat(pages), after)
    decreases pages
  {
    var page := pages[0];
    if |pages| == 1 {
      PageFacts(x, tables[0], tenant, f, page, after);
      assert Concat(pages) == page.orders;
      LastPage(tables, tenant, f, page.orders, after);
    } else {
      NextCursor(x, tables[0], tenant, f, page, after);
      var last := PosOf(page.orders[|page.orders| - 1]);
      var f' := f.(token := page.next);
      var tail := Concat(pages[1..]);
      WalkFacts(x, tables[1..], tenant, f', pages[1..], Some(last));
      FirstPageThenRest(x, tables, tenant, f, page, tail, after);
      assert Concat(pages) == page.orders + tail;
    }
  }

  lemma FirstPageThenRest(x: Codec, tables: seq<map<string, Order>>, tenant: string, f: Filter, page: Page,
                          tail: seq<Order>,
                          after: Option<Pos>)
    requires |tables| > 1 && TableOk(tables[0]) && IdsAreUuids(x, tables[0])
    requires page.next != NoToken && page.orders != []
    requires ListIn(x, tables[0], tenant, f) == Ok(page) && ResumesAfter(x, tenant, f, after)
    requires var last, f' := PosOf(page.orders[|page.orders| - 1]), f.(token := page.next);
             && IsSorted(tail, PosOf) && WalkMembers(tables[1..], tenant, f', tail, Some(last))
             && WalkMissesNone(tables[1..], tenant, f', tail, Some(last))
    ensures IsSorted(page.orders + tail, PosOf)
    ensures WalkMembers(tables, tenant, f, page.orders + tail, after)
    ensures WalkMissesNone(tables, tenant, f, page.orders + tail, after)
  {
    var last := PosOf(page.orders[|page.orders| - 1]);
    PageFacts(x, tables[0], tenant, f, page, after);
    FilterIgnoresToken(tables[1..], tenant, f, f.(token := page.next), tail, last);
    AppendSorted(page.orders, tail);
    FirstPageMembers(tables, tenant, f, page.orders, tail, after, last);
    FirstPageMissesNone(tables, tenant, f, page.orders, tail, after, last);
  }

  lemma FilterIgnoresToken(tables: seq<map<string, Order>>, tenant: string, f: Filter, f': Filter, all: seq<Order>,
                           last: Pos)
    requires f' == f.(token := f'.token)
    requires WalkMembers(tables, tenant, f', all, Some(last)) && WalkMissesNone(tables, tenant, f', all, Some(last))
    ensures WalkMembers(tables, tenant, f, all, Some(last)) && WalkMissesNone(tables, tenant, f, all, Some(last))
  {
    forall i | 0 <= i < |tables| ensures Matching(tables[i], tenant, f) == Matching(tables[i], tenant, f') {
    }
    forall o | Seen(tables, tenant, f', o) ensures Seen(tables, tenant, f, o) {
    }
    forall p | PresentThroughout(tables, tenant, f, p) ensures PresentThroughout(tables, tenant, f', p) {
      forall i | 0 <= i < |tables| ensures Present(tables[i], tenant, f', p) {
        assert Present(tables[i], tenant, f, p);
      }
    }
  }

  lemma LastPage(tables: seq<map<string, Order>>, tenant: string, f: Filter, page: seq<Order>, after: Option<Pos>)
    requires |tables| == 1 && Elements(page) == Beyond(Matching(tables[0], tenant, f), after)
    ensures WalkMembers(tables, tenant, f, page, after) && WalkMissesNone(tables, tenant, f, page, after)
  {
    forall o | o in page ensures IsAfter(after, PosOf(o)) && Seen(tables, tenant, f, o) {
      assert o in Elements(page);
    }
    forall p | IsAfter(after, p) && PresentThroughout(tables, tenant, f, p) ensures At(page, p) {
      assert Present(tables[0], tenant, f, p);
      var o :| o in Matching(tables[0], tenant, f) && PosOf(o) == p;
      assert o in Elements(page);
    }
  }

  lemma FirstPageMembers(tables: seq<map<string, Order>>, tenant: string, f: Filter, page: seq<Order>, tail: seq<Order>,
                         after: Option<Pos>, last: Pos)
    requires |tables| > 1 && page != [] && last == PosOf(page[|page| - 1])
    requires PageMembers(page, Matching(tables[0], tenant, f), after)
    requires WalkMembers(tables[1..], tenant, f, tail, Some(last))
    ensures WalkMembers(tables, tenant, f, page + tail, after)
  {
    assert page[|page| - 1] in page;
    forall o | o in page + tail ensures IsAfter(after, PosOf(o)) && Seen(tables, tenant, f, o) {
      if o in page {
        assert o in Matching(tables[0], tenant, f);
      } else {
        assert Seen(tables[1..], tenant, f, o);
        var i :| 0 <= i < |tables[1..]| && o in Matching(tables[1..][i], tenant, f);
        assert o in Matching(tables[i + 1], tenant, f);
        if after.Some? {
          BeforeIsTransitive(after.value, last, PosOf(o));
        }
      }
    }
  }

  lemma FirstPageMissesNone(tables: seq<map<string, Order>>, tenant: string, f: Filter, page: seq<Order>,
                            tail: seq<Order>,
                            after: Option<Pos>, last: Pos)
    requires |tables| > 1
    requires Beyond(Matching(tables[0], tenant, f), after) ==
             Elements(page) + Beyond(Matching(tables[0], tenant, f), Some(last))
    requires WalkMissesNone(tables[1..], tenant, f, tail, Some(last))
    ensures WalkMissesNone(tables, tenant, f, page + tail, after)
  {
    forall p | IsAfter(after, p) && PresentThroughout(tables, tenant, f, p) ensures At(page + tail, p) {
      assert Present(tables[0], tenant, f, p);
      var o :| o in Matching(tables[0], tenant, f) && PosOf(o) == p;
      assert o in Beyond(Matching(tables[0], tenant, f), after);
      if o in Elements(page) {
        assert o in page + tail;
      } else {
        forall i | 0 <= i < |tables[1..]| ensures Present(tables[1..][i], tenant, f, p) {
          assert Present(tables[i + 1], tenant, f, p);
        }
        assert At(tail, p);
        var o' :| o' in tail && PosOf(o') == p;
        assert o' in page + tail;
      }
    }
  }

  /** Between calls, creates and updates that keep CreatedAt. */
  predicate CreatedAtKept(tables: seq<map<string, Order>>) {
    forall i, j, k :: 0 <= i < |tables| && 0 <= j < |tables| && k in tables[i] && k in tables[j] ==>
      tables[i][k].createdAt == tables[j][k].createdAt
  }

  predicate MatchedThroughout(tables: seq<map<string, Order>>, tenant: string, f: Filter, k: string) {
    forall i :: 0 <= i < |tables| ==> k in tables[i] && Matches(tables[i][k], tenant, f)
  }

  /** Paging over a changing table: nothing repeats, and every order that matched at every
      call is returned. */
  lemma WalkOverChanges(x: Codec, tables: seq<map<string, Order>>, tenant: string, f: Filter, pages: seq<Page>)
    requires AllOk(x, tables)
    requires f.token == NoToken && IsWalk(x, tables, tenant, f, pages) && CreatedAtKept(tables)
    ensures var all := Concat(pages);
            && (forall a, b :: 0 <= a < b < |all| ==> all[a].id != all[b].id)
            && (forall k :: k in tables[0] && MatchedThroughout(tables, tenant, f, k) ==>
                  exists o :: o in all && KeyOf(o) == k)
  {
    WalkFacts(x, tables, tenant, f, pages, None);
    var all := Concat(pages);
    forall a, b | 0 <= a < b < |all| ensures all[a].id != all[b].id {
      assert all[a] in all && all[b] in all;
      NoRepeat(tables, tenant, f, all[a], all[b]);
      assert Before(PosOf(all[a]), PosOf(all[b]));
    }
    forall k | k in tables[0] && MatchedThroughout(tables, tenant, f, k)
      ensures exists o :: o in all && KeyOf(o) == k
    {
      StaysPresent(tables, tenant, f, k);
      assert At(all, PosOf(tables[0][k]));
      var o :| o in all && PosOf(o) == PosOf(tables[0][k]);
      CodesAreInjective(o.id, tables[0][k].id);
    }
  }

  lemma NoRepeat(tables: seq<map<string, Order>>, tenant: string, f: Filter, a: Order, b: Order)
    requires forall i :: 0 <= i < |tables| ==> TableOk(tables[i])
    requires CreatedAtKept(tables)
    requires Seen(tables, tenant, f, a) && Seen(tables, tenant, f, b)
    requires Before(PosOf(a), PosOf(b))
    ensures a.id != b.id
  {
    var i :| 0 <= i < |tables| && a in Matching(tables[i], tenant, f);
    var j :| 0 <= j < |tables| && b in Matching(tables[j], tenant, f);
    var k :| k in tables[i] && tables[i][k] == a;
    var l :| l in tables[j] && tables[j][l] == b;
    assert KeyOf(a) == k && KeyOf(b) == l;
    BeforeIsStrict(PosOf(a), PosOf(b));
    BeforeIsStrict(PosOf(a), PosOf(a));
  }

  lemma StaysPresent(tables: seq<map<string, Order>>, tenant: string, f: Filter, k: string)
    requires |tables| > 0 && CreatedAtKept(tables) && forall i :: 0 <= i < |tables| ==> TableOk(tables[i])
    requires MatchedThroughout(tables, tenant, f, k)
    ensures PresentThroughout(tables, tenant, f, PosOf(tables[0][k]))
  {
    forall i | 0 <= i < |tables| ensures Present(tables[i], tenant, f, PosOf(tables[0][k])) {
      assert tables[i][k] in Matching(tables[i], tenant, f);
      assert KeyOf(tables[i][k]) == k == KeyOf(tables[0][k]);
      assert tables[i][k].tenant == tenant == tables[0][k].tenant;
      assert Key(tenant, tables[i][k].id)[|tenant| + 1..] == tables[i][k].id;
      assert Key(tenant, tables[0][k].id)[|tenant| + 1..] == tables[0][k].id;
    }
  }

  // ---------- the walk over an unchanged table ----------

  function Calls(n: int, size: int): int
    requires size > 0
    decreases if n < 0 then 0 else n
  {
    if n <= size then 1 else 1 + Calls(n - size, size)
  }

  lemma {:induction false} CallsIsCeiling(n: int, size: int)
    requires n >= 0 && size > 0
    ensures Calls(n, size) == CallsNeeded(n, size)
    decreases n
  {
    if n > size {
      CallsIsCeiling(n - size, size);
      AddMultiple(n + size - 1, -1, size);
      assert size * -1 + (n + size - 1) == (n - size) + size - 1;
    } else if n > 0 {
      QuotientIsUnique(n + size - 1, size, 1, n - 1);
    }
  }

  predicate AllSame(tables: seq<map<string, Order>>, orders: map<string, Order>) {
    forall i :: 0 <= i < |tables| ==> tables[i] == orders
  }

  lemma {:induction false} StaticWalk(x: Codec, orders: map<string, Order>, tables: seq<map<string, Order>>,
                                      tenant: string,
                                      f: Filter, pages: seq<Page>, after: Option<Pos>)
    requires TableOk(orders) && IdsAreUuids(x, orders) && AllSame(tables, orders)
    requires IsWalk(x, tables, tenant, f, pages) && ResumesAfter(x, tenant, f, after)
    ensures Elements(Concat(pages)) == Beyond(Matching(orders, tenant, f), after)
    ensures |pages| == Calls(|Concat(pages)|, ClampPageSize(f.pageSize))
    decreases pages
  {
    var page := pages[0];
    if |pages| == 1 {
      StaticEnd(x, orders, tenant, f, after, page);
      assert Concat(pages) == page.orders;
    } else {
      NextCursor(x, orders, tenant, f, page, after);
      var last := PosOf(page.orders[|page.orders| - 1]);
      var f', tail := f.(token := page.next), Concat(pages[1..]);
      StaticWalk(x, orders, tables[1..], tenant, f', pages[1..], Some(last));
      assert Matching(orders, tenant, f') == Matching(orders, tenant, f);
      StaticStep(x, orders, tenant, f, after, page, tail);
      assert Concat(pages) == page.orders + tail;
    }
  }

  lemma NextCursor(x: Codec, orders: map<string, Order>, tenant: string, f: Filter, page: Page, after: Option<Pos>)
    requires TableOk(orders) && IdsAreUuids(x, orders) && page.next != NoToken
    requires ListIn(x, orders, tenant, f) == Ok(page) && ResumesAfter(x, tenant, f, after)
    ensures page.orders != []
    ensures ResumesAfter(x, tenant, f.(token := page.next), Some(PosOf(page.orders[|page.orders| - 1])))
  {
    PageFacts(x, orders, tenant, f, page, after);
  }

  lemma StaticEnd(x: Codec, orders: map<string, Order>, tenant: string, f: Filter, after: Option<Pos>, page: Page)
    requires TableOk(orders) && IdsAreUuids(x, orders) && page.next == NoToken
    requires ListIn(x, orders, tenant, f) == Ok(page) && ResumesAfter(x, tenant, f, after)
    ensures Elements(page.orders) == Beyond(Matching(orders, tenant, f), after)
    ensures Calls(|page.orders|, ClampPageSize(f.pageSize)) == 1
  {
    PageFacts(x, orders, tenant, f, page, after);
    LastPageIsSmall(x, orders, tenant, f, page);
  }

  lemma StaticStep(x: Codec, orders: map<string, Order>, tenant: string, f: Filter, after: Option<Pos>, page: Page,
                   tail: seq<Order>)
    requires TableOk(orders) && IdsAreUuids(x, orders) && page.next != NoToken && page.orders != []
    requires ListIn(x, orders, tenant, f) == Ok(page) && ResumesAfter(x, tenant, f, after)
    requires Elements(tail) == Beyond(Matching(orders, tenant, f), Some(PosOf(page.orders[|page.orders| - 1])))
    ensures var size := ClampPageSize(f.pageSize);
            Calls(|page.orders + tail|, size) == 1 + Calls(|tail|, size)
    ensures Elements(page.orders + tail) == Beyond(Matching(orders, tenant, f), after)
  {
    PageFacts(x, orders, tenant, f, page, after);
    MoreRemains(x, orders, tenant, f, after, page, tail);
    OnePageMore(page.orders, tail, ClampPageSize(f.pageSize));
  }

  lemma LastPageIsSmall(x: Codec, orders: map<string, Order>, tenant: string, f: Filter, page: Page)
    requires TableOk(orders) && ListIn(x, orders, tenant, f) == Ok(page) && page.next == NoToken
    ensures |page.orders| <= ClampPageSize(f.pageSize)
  {
  }

  lemma OnePageMore(page: seq<Order>, tail: seq<Order>, size: int)
    requires |page| == size > 0 && tail != []
    ensures Elements(page + tail) == Elements(page) + Elements(tail)
    ensures Calls(|page + tail|, size) == 1 + Calls(|tail|, size)
  {
  }

  /** A page with a token is followed by at least one more order. */
  lemma MoreRemains(x: Codec, orders: map<string, Order>, tenant: string, f: Filter, after: Option<Pos>, page: Page,
                    tail: seq<Order>)
    requires TableOk(orders) && IdsAreUuids(x, orders) && page.next != NoToken && page.orders != []
    requires ListIn(x, orders, tenant, f) == Ok(page) && ResumesAfter(x, tenant, f, after)
    requires Elements(tail) == Beyond(Matching(orders, tenant, f), Some(PosOf(page.orders[|page.orders| - 1])))
    ensures tail != []
  {
    var xs, size := Remaining(orders, tenant, f, after), ClampPageSize(f.pageSize);
    assert xs[size] in Elements(xs);
    assert Before(PosOf(xs[size - 1]), PosOf(xs[size]));
    assert xs[size] in Elements(tail);
  }

  /** Following the tokens over an unchanged table returns exactly the tenant's matching
      orders, sorted by (CreatedAt, ID), each once, in max(1, ceil(n / size)) calls. */
  lemma WalkIsTheListing(x: Codec, orders: map<string, Order>, tables: seq<map<string, Order>>, tenant: string,
                         f: Filter,
                         pages: seq<Page>)
    requires TableOk(orders) && IdsAreUuids(x, orders) && AllSame(tables, orders)
    requires f.token == NoToken && IsWalk(x, tables, tenant, f, pages)
    ensures ListsOnce(Concat(pages), Matching(orders, tenant, f))
    ensures forall size :: IsLimit(f.pageSize, size) ==>
              |pages| == CallsNeeded(|Matching(orders, tenant, f)|, size)
  {
    WholeWalk(x, orders, tables, tenant, f, pages);
    WalkIsSorted(x, orders, tables, tenant, f, pages);
    ListingSize(Concat(pages), ClampPageSize(f.pageSize));
  }

  predicate ListsOnce(all: seq<Order>, matching: set<Order>) {
    && IsSorted(all, PosOf) && Elements(all) == matching
    && forall a, b :: 0 <= a < b < |all| ==> all[a] != all[b]
  }

  function CallsNeeded(n: int, size: int): int
    requires size > 0
  {
    if n == 0 then 1 else CeilDiv(n, size)
  }

  lemma ListingSize(all: seq<Order>, size: int)
    requires IsSorted(all, PosOf) && size > 0
    ensures ListsOnce(all, Elements(all))
    ensures Calls(|all|, size) == CallsNeeded(|Elements(all)|, size)
  {
    SortedHasNoRepeats(all, PosOf);
    CallsIsCeiling(|all|, size);
  }

  lemma WholeWalk(x: Codec, orders: map<string, Order>, tables: seq<map<string, Order>>, tenant: string, f: Filter,
                  pages: seq<Page>)
    requires TableOk(orders) && IdsAreUuids(x, orders) && AllSame(tables, orders)
    requires f.token == NoToken && IsWalk(x, tables, tenant, f, pages)
    ensures Elements(Concat(pages)) == Matching(orders, tenant, f)
    ensures |pages| == Calls(|Concat(pages)|, ClampPageSize(f.pageSize))
  {
    StaticWalk(x, orders, tables, tenant, f, pages, None);
    assert Beyond(Matching(orders, tenant, f), None) == Matching(orders, tenant, f);
  }

  lemma WalkIsSorted(x: Codec, orders: map<string, Order>, tables: seq<map<string, Order>>, tenant: string, f: Filter,
                     pages: seq<Page>)
    requires TableOk(orders) && IdsAreUuids(x, orders) && AllSame(tables, orders)
    requires f.token == NoToken && IsWalk(x, tables, tenant, f, pages)
    ensures IsSorted(Concat(pages), PosOf)
  {
    WalkFacts(x, tables, tenant, f, pages, None);
  }

  /** There is such a walk: the tokens run out. */
  lemma {:induction false} WalkEnds(x: Codec, orders: map<string, Order>, tenant: string, f: Filter, after: Option<Pos>)
    returns (tables: seq<map<string, Order>>, pages: seq<Page>)
    requires TableOk(orders) && IdsAreUuids(x, orders)
    requires tenant != "" && ResumesAfter(x, tenant, f, after)
    ensures AllSame(tables, orders) && IsWalk(x, tables, tenant, f, pages)
    decreases |Beyond(Matching(orders, tenant, f), after)|
  {
    var page := ListIn(x, orders, tenant, f).value;
    if page.next == NoToken {
      return [orders], [page];
    }
    NextCursor(x, orders, tenant, f, page, after);
    WalkShrinks(x, orders, tenant, f, page, after);
    var last, f' := PosOf(page.orders[|page.orders| - 1]), f.(token := page.next);
    assert Matching(orders, tenant, f') == Matching(orders, tenant, f);
    var tables', pages' := WalkEnds(x, orders, tenant, f', Some(last));
    tables, pages := [orders] + tables', [page] + pages';
    assert tables[1..] == tables' && pages[1..] == pages';
  }

  lemma WalkShrinks(x: Codec, orders: map<string, Order>, tenant: string, f: Filter, page: Page, after: Option<Pos>)
    requires TableOk(orders) && IdsAreUuids(x, orders) && page.next != NoToken && page.orders != []
    requires ListIn(x, orders, tenant, f) == Ok(page) && ResumesAfter(x, tenant, f, after)
    ensures |Beyond(Matching(orders, tenant, f), Some(PosOf(page.orders[|page.orders| - 1])))|
            < |Beyond(Matching(orders, tenant, f), after)|
  {
    PageFacts(x, orders, tenant, f, page, after);
    FewerRemain(Matching(orders, tenant, f), page.orders, after);
  }

  lemma FewerRemain(all: set<Order>, page: seq<Order>, after: Option<Pos>)
    requires page != []
    requires Beyond(all, after) == Elements(page) + Beyond(all, Some(PosOf(page[|page| - 1])))
    ensures |Beyond(all, Some(PosOf(page[|page| - 1])))| < |Beyond(all, after)|
  {
    var end := page[|page| - 1];
    BeforeIsStrict(PosOf(end), PosOf(end));
    assert end in Elements(page) && end !in Beyond(all, Some(PosOf(end)));
    SubsetSize(Beyond(all, Some(PosOf(end))), Beyond(all, after));
  }
}
