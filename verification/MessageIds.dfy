/** The identifiers the broker deduplicates on: msgID in publisher.go, the "dlq-" form of
    consumer.deadLetter, and the fallback of eventFrom. */
module MessageIds {
  function Digit(d: int): char
    requires 0 <= d < 10
  {
    ['0', '1', '2', '3', '4', '5', '6', '7', '8', '9'][d]
  }

  function Decimal(n: nat): string {
    if n < 10 then [Digit(n)] else Decimal(n / 10) + [Digit(n % 10)]
  }

  /** strconv.FormatInt(n, 10). */
  function FormatInt(n: int): string {
    if n < 0 then "-" + Decimal(-n) else Decimal(n)
  }

  function MsgId(service: string, id: int): string {
    service + "-" + FormatInt(id)
  }

  function DlqId(eventId: string): string {
    "dlq-" + eventId
  }

  function FallbackId(stream: string, sequence: nat): string {
    stream + "-seq-" + Decimal(sequence)
  }

  /** eventFrom: the id a handler deduplicates on. */
  function EventId(header: string, stream: string, sequence: nat): string {
    if header == "" then FallbackId(stream, sequence) else header
  }

  // ---------- decimals ----------

  lemma {:induction false} DecimalHasNoDash(n: nat)
    ensures |Decimal(n)| > 0
    ensures forall i :: 0 <= i < |Decimal(n)| ==> Decimal(n)[i] != '-'
  {
    if n >= 10 {
      DecimalHasNoDash(n / 10);
    }
  }

  lemma {:induction false} DecimalIsInjective(a: nat, b: nat)
    requires Decimal(a) == Decimal(b)
    ensures a == b
  {
    var da, db := Decimal(a), Decimal(b);
    assert da[|da| - 1] == Digit(a % 10) && db[|db| - 1] == Digit(b % 10);
    DecimalHasNoDash(a / 10);
    DecimalHasNoDash(b / 10);
    if a >= 10 && b >= 10 {
      assert Decimal(a / 10) == da[..|da| - 1] == db[..|db| - 1] == Decimal(b / 10);
      DecimalIsInjective(a / 10, b / 10);
    }
  }

  /** What decimal digits mean. */
  function ValueOf(digits: string): int {
    if digits == "" then 0
    else 10 * ValueOf(digits[..|digits| - 1]) + (digits[|digits| - 1] as int - '0' as int)
  }

  /** Decimal notation: digits only, meaning the number, and no leading zero. */
  lemma {:induction false} DecimalIsNotation(n: nat)
    ensures ValueOf(Decimal(n)) == n && |Decimal(n)| > 0
    ensures forall i :: 0 <= i < |Decimal(n)| ==> '0' <= Decimal(n)[i] <= '9'
    ensures Decimal(n)[0] == '0' ==> n == 0
  {
    var d := Decimal(n);
    if n >= 10 {
      DecimalIsNotation(n / 10);
      assert d[..|d| - 1] == Decimal(n / 10);
    } else {
      assert d[..|d| - 1] == "";
    }
  }

  /** A sign exactly for the negative numbers, and then the size in decimal notation. */
  lemma FormatIsNotation(n: int)
    ensures var text := FormatInt(n);
            if n < 0 then text != "" && text[0] == '-' && ValueOf(text[1..]) == -n && text[1] != '0'
            else ValueOf(text) == n && text[0] != '-' && (text[0] == '0' ==> n == 0)
  {
    DecimalIsNotation(if n < 0 then -n else n);
    if n < 0 {
      assert FormatInt(n)[1..] == Decimal(-n);
    }
  }

  /** The text after the last dash, and the text before it, are determined by the whole. */
  lemma LastDashSplits(a: string, x: string, b: string, y: string)
    requires a + "-" + x == b + "-" + y
    requires forall i :: 0 <= i < |x| ==> x[i] != '-'
    requires forall i :: 0 <= i < |y| ==> y[i] != '-'
    ensures a == b && x == y
  {
    var s, t := a + "-" + x, b + "-" + y;
    assert s[|a|] == '-' && t[|b|] == '-';
    assert forall i :: |a| < i < |s| ==> s[i] == x[i - |a| - 1];
    assert forall i :: |b| < i < |t| ==> t[i] == y[i - |b| - 1];
    assert |a| == |b|;
    assert a == s[..|a|] && b == t[..|b|];
    assert x == s[|a| + 1..] && y == t[|b| + 1..];
  }

  // ---------- the ids keep live messages and dead letters apart ----------

  /** With bigserial (positive) row ids, one id names one row of one service. */
  lemma MsgIdIsInjective(s1: string, n1: int, s2: string, n2: int)
    requires n1 > 0 && n2 > 0
    ensures MsgId(s1, n1) == MsgId(s2, n2) <==> s1 == s2 && n1 == n2
  {
    if MsgId(s1, n1) == MsgId(s2, n2) {
      DecimalHasNoDash(n1);
      DecimalHasNoDash(n2);
      LastDashSplits(s1, Decimal(n1), s2, Decimal(n2));
      DecimalIsInjective(n1, n2);
    }
  }

  /** A negative id would let two services share one. */
  lemma NegativeIdsCollide()
    ensures MsgId("a", -5) == MsgId("a-", 5)
  {
    assert Decimal(5) == "5";
  }

  /** A live message and a dead letter share an id exactly when the live one's service is
      named "dlq-" followed by the dead one's, and they have the same row id. */
  lemma DeadLetterCollision(live: string, n: int, dead: string, m: int)
    requires n > 0 && m > 0
    ensures MsgId(live, n) == DlqId(MsgId(dead, m)) <==> live == "dlq-" + dead && n == m
  {
    assert DlqId(MsgId(dead, m)) == MsgId("dlq-" + dead, m);
    MsgIdIsInjective(live, n, "dlq-" + dead, m);
  }

  /** Services not named "dlq-..." publish nothing that dedup could confuse with a dead
      letter of any service. */
  lemma OrdinaryServicesAreDisjoint(live: string, n: int, dead: string, m: int)
    requires n > 0 && m > 0 && !("dlq-" <= live)
    ensures MsgId(live, n) != DlqId(MsgId(dead, m))
  {
    DeadLetterCollision(live, n, dead, m);
  }

  /** A relayed event is known by its own id, and a message published without one is taken
      for a relayed event only of a service named after the stream. */
  lemma FallbackCollision(service: string, n: int, stream: string, sequence: nat)
    requires n > 0
    ensures EventId(MsgId(service, n), stream, sequence) == MsgId(service, n)
    ensures EventId("", stream, sequence) == MsgId(service, n) <==> service == stream + "-seq" && n == sequence
  {
    assert FallbackId(stream, sequence) == (stream + "-seq") + "-" + Decimal(sequence);
    if MsgId(service, n) == FallbackId(stream, sequence) {
      DecimalHasNoDash(n);
      DecimalHasNoDash(sequence);
      LastDashSplits(service, Decimal(n), stream + "-seq", Decimal(sequence));
      DecimalIsInjective(n, sequence);
    }
  }

  /** The ids one service puts on the stream: its rows' own, their dead letters', and, should
      those come back to the consumer, the dead letters of dead letters. */
  datatype Id = Live(row: int) | Dead(of: Id)
  {
    function Row(): int {
      match this
      case Live(row) => row
      case Dead(of) => of.Row()
    }
  }

  function Render(service: string, id: Id): string {
    match id
    case Live(row) => MsgId(service, row)
    case Dead(of) => DlqId(Render(service, of))
  }

  /** Every id of a service is the live id of a service named "dlq-" some number of times and
      then its name. */
  function Prefixes(service: string, id: Id): string {
    match id
    case Live(_) => service
    case Dead(of) => "dlq-" + Prefixes(service, of)
  }

  lemma {:induction false} RenderIsMsgId(service: string, id: Id)
    ensures Render(service, id) == MsgId(Prefixes(service, id), id.Row())
  {
    if id.Dead? {
      RenderIsMsgId(service, id.of);
      assert DlqId(Render(service, id.of)) == MsgId("dlq-" + Prefixes(service, id.of), id.Row());
    }
  }

  lemma {:induction false} PrefixesAreInjective(service: string, a: Id, b: Id)
    requires Prefixes(service, a) == Prefixes(service, b) && a.Row() == b.Row()
    ensures a == b
  {
    PrefixesGrow(service, a);
    PrefixesGrow(service, b);
    if a.Dead? && b.Dead? {
      assert Prefixes(service, a)[4..] == Prefixes(service, a.of);
      assert Prefixes(service, b)[4..] == Prefixes(service, b.of);
      PrefixesAreInjective(service, a.of, b.of);
    }
  }

  lemma {:induction false} PrefixesGrow(service: string, id: Id)
    ensures |Prefixes(service, id)| >= |service| + if id.Dead? then 4 else 0
  {
    if id.Dead? {
      PrefixesGrow(service, id.of);
    }
  }

  /** For any one service, whatever its name, the strings tell the ids apart. */
  lemma RenderIsInjective(service: string, a: Id, b: Id)
    requires a.Row() > 0 && b.Row() > 0
    ensures Render(service, a) == Render(service, b) <==> a == b
  {
    RenderIsMsgId(service, a);
    RenderIsMsgId(service, b);
    MsgIdIsInjective(Prefixes(service, a), a.Row(), Prefixes(service, b), b.Row());
    if Render(service, a) == Render(service, b) {
      PrefixesAreInjective(service, a, b);
    }
  }
}
