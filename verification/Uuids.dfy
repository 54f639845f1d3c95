/** Uuids as texts and as values: the forms that uuid.Validate accepts, what Postgres reads in
    them, and how either compares them.

    A uuid column holds the value and not the text, so it is modelled as its thirty-two
    nibbles, most significant first, which is also the order Postgres compares uuids in. */
module Uuids {
  import opened Results
  import opened Sorting
  import opened Paging

  // ---------- the canonical text ----------

  predicate IsNibbles(n: seq<int>) {
    forall i :: 0 <= i < |n| ==> 0 <= n[i] < 16
  }

  function HexDigit(v: int): char
    requires 0 <= v < 16
  {
    if v < 10 then '0' + v as char else 'a' + (v - 10) as char
  }

  function HexValue(c: char): (v: int)
    ensures 0 <= v < 16
  {
    if '0' <= c <= '9' then (c - '0') as int
    else if 'a' <= c <= 'f' then (c - 'a') as int + 10
    else if 'A' <= c <= 'F' then (c - 'A') as int + 10
    else 0
  }

  predicate HyphenBefore(i: int) {
    i == 8 || i == 12 || i == 16 || i == 20
  }

  /** The canonical text of the nibbles from the i-th on. */
  function Digits(n: seq<int>, i: nat): string
    requires IsNibbles(n)
    decreases n
  {
    if n == [] then ""
    else (if HyphenBefore(i) then "-" else "") + [HexDigit(n[0])] + Digits(n[1..], i + 1)
  }

  function NibblesOf(s: string): (n: seq<int>)
    ensures IsNibbles(n)
  {
    if s == [] then []
    else if s[0] == '-' then NibblesOf(s[1..])
    else [HexValue(s[0])] + NibblesOf(s[1..])
  }

  /** Lower-case hexadecimal in groups of 8-4-4-4-12. */
  predicate Canonical(id: string) {
    |NibblesOf(id)| == 32 && id == Digits(NibblesOf(id), 0)
  }

  lemma {:induction false} DigitsRoundTrip(n: seq<int>, i: nat)
    requires IsNibbles(n)
    ensures NibblesOf(Digits(n, i)) == n
    decreases n
  {
    if n != [] {
      var rest := Digits(n[1..], i + 1);
      DigitsRoundTrip(n[1..], i + 1);
      ValueIsRead(n[0], rest);
      HyphenIsRead([HexDigit(n[0])] + rest);
      assert Digits(n, i) == (if HyphenBefore(i) then "-" else "") + ([HexDigit(n[0])] + rest);
      assert "" + ([HexDigit(n[0])] + rest) == [HexDigit(n[0])] + rest;
    }
  }

  lemma ValueIsRead(v: int, rest: string)
    requires 0 <= v < 16
    ensures NibblesOf([HexDigit(v)] + rest) == [v] + NibblesOf(rest)
  {
    assert ([HexDigit(v)] + rest)[1..] == rest;
  }

  lemma HyphenIsRead(tail: string)
    ensures NibblesOf("-" + tail) == NibblesOf(tail)
  {
    assert ("-" + tail)[1..] == tail;
  }

  lemma CodesOfConcat(a: string, b: string)
    ensures Codes(a + b) == Codes(a) + Codes(b)
  {
  }

  lemma HexDigitsAscend(v: int, w: int)
    requires 0 <= v < 16 && 0 <= w < 16
    ensures HexDigit(v) as int < HexDigit(w) as int <==> v < w
    ensures HexDigit(v) == HexDigit(w) <==> v == w
  {
  }

  /** Canonical texts compare as the values do. */
  lemma {:induction false} TextOrderIsValueOrder(a: seq<int>, b: seq<int>, i: nat)
    requires IsNibbles(a) && IsNibbles(b) && |a| == |b|
    ensures Lex(Codes(Digits(a, i)), Codes(Digits(b, i))) <==> Lex(a, b)
    decreases a
  {
    if a == [] {
      assert Codes("") == [];
    } else {
      var sep := if HyphenBefore(i) then "-" else "";
      var x, y := Digits(a[1..], i + 1), Digits(b[1..], i + 1);
      var p, q := sep + [HexDigit(a[0])], sep + [HexDigit(b[0])];
      TextOrderIsValueOrder(a[1..], b[1..], i + 1);
      CodesOfConcat(p, x);
      CodesOfConcat(q, y);
      LexOfConcat(Codes(p), Codes(q), Codes(x), Codes(y));
      CodesOfConcat(sep, [HexDigit(a[0])]);
      CodesOfConcat(sep, [HexDigit(b[0])]);
      LexTotal(Codes(sep), Codes(sep));
      LexOfConcat(Codes(sep), Codes(sep), Codes([HexDigit(a[0])]), Codes([HexDigit(b[0])]));
      HexDigitsAscend(a[0], b[0]);
      OneDigit(HexDigit(a[0]), HexDigit(b[0]));
      if p == q {
        assert p[|sep|] == q[|sep|];
      }
    }
  }

  lemma OneDigit(c: char, d: char)
    ensures Lex(Codes([c]), Codes([d])) <==> c as int < d as int
    ensures Codes([c]) == [c as int] && Codes([d]) == [d as int]
  {
    assert Codes([c])[1..] == [] && Codes([d])[1..] == [];
  }

  // ---------- the forms that uuid.Validate accepts ----------

  predicate IsHex(c: char) {
    '0' <= c <= '9' || 'a' <= c <= 'f' || 'A' <= c <= 'F'
  }

  predicate IsHyphenAt(k: int) {
    k == 8 || k == 13 || k == 18 || k == 23
  }

  /** Hexadecimal of either case in groups of 8-4-4-4-12. */
  predicate UuidForm(s: string) {
    |s| == 36 && forall k :: 0 <= k < 36 ==> if IsHyphenAt(k) then s[k] == '-' else IsHex(s[k])
  }

  function LowerChar(c: char): char {
    if 'A' <= c <= 'Z' then c + ('a' - 'A') else c
  }

  function ToLower(s: string): string {
    seq(|s|, i requires 0 <= i < |s| => LowerChar(s[i]))
  }

  predicate AllHex(s: string) {
    forall k :: 0 <= k < |s| ==> IsHex(s[k])
  }

  /** The digits without hyphens. */
  predicate BareForm(s: string) {
    |s| == 32 && AllHex(s)
  }

  predicate BracedForm(s: string) {
    |s| == 38 && s[0] == '{' && s[37] == '}' && UuidForm(s[1..37])
  }

  predicate UrnForm(s: string) {
    |s| == 45 && ToLower(s[..9]) == "urn:uuid:" && UuidForm(s[9..])
  }

  /** What uuid.Validate accepts. */
  predicate IsUuid(s: string) {
    UuidForm(s) || BareForm(s) || BracedForm(s) || UrnForm(s)
  }

  /** What Postgres makes of such a text: it reads all forms but the urn. */
  function ReadUuid(s: string): (n: Option<seq<int>>)
    ensures n.Some? ==> IsNibbles(n.value)
  {
    if UuidForm(s) || BareForm(s) then Some(NibblesOf(s))
    else if BracedForm(s) then Some(NibblesOf(s[1..37]))
    else None
  }

  lemma HexDigitOfValue(c: char)
    requires IsHex(c)
    ensures c != '-' && HexDigit(HexValue(c)) == LowerChar(c) && HexValue(LowerChar(c)) == HexValue(c)
  {
  }

  /** Where the text of the i-th nibble begins, hyphen included. */
  function TextStart(i: int): int {
    i + (if i > 8 then 1 else 0) + (if i > 12 then 1 else 0) + (if i > 16 then 1 else 0) + (if i > 20 then 1 else 0)
  }

  /** Where the i-th nibble itself stands. */
  function DigitAt(i: int): int {
    if HyphenBefore(i) then TextStart(i) + 1 else TextStart(i)
  }

  lemma NextDigit(s: string, i: nat)
    requires UuidForm(s) && i < 32
    ensures 0 <= TextStart(i) <= DigitAt(i) < 36 && DigitAt(i) + 1 == TextStart(i + 1) <= 36 && IsHex(s[DigitAt(i)])
    ensures s[DigitAt(i)..] == [s[DigitAt(i)]] + s[TextStart(i + 1)..]
    ensures s[TextStart(i)..] == if HyphenBefore(i) then "-" + s[DigitAt(i)..] else s[DigitAt(i)..]
  {
    assert !IsHyphenAt(DigitAt(i));
    if HyphenBefore(i) {
      assert IsHyphenAt(TextStart(i)) && s[TextStart(i)..] == [s[TextStart(i)]] + s[DigitAt(i)..];
    }
  }

  lemma {:induction false} FormIsRead(s: string, i: nat)
    requires UuidForm(s) && i <= 32
    ensures var rest := s[TextStart(i)..];
            |NibblesOf(rest)| == 32 - i && Digits(NibblesOf(rest), i) == ToLower(rest)
    decreases 32 - i
  {
    if i == 32 {
      assert s[36..] == "" && ToLower("") == "";
    } else {
      NextDigit(s, i);
      FormIsRead(s, i + 1);
      var here := s[DigitAt(i)..];
      DigitIsRead(s[DigitAt(i)], s[TextStart(i + 1)..], i);
      HyphenIsRead(here);
      HyphenStaysInLower(here);
      assert "" + ToLower(here) == ToLower(here);
    }
  }

  lemma HyphenStaysInLower(tail: string)
    ensures ToLower("-" + tail) == "-" + ToLower(tail)
  {
  }

  lemma DigitIsRead(c: char, tail: string, i: nat)
    requires IsHex(c)
    ensures NibblesOf([c] + tail) == [HexValue(c)] + NibblesOf(tail)
    ensures Digits(NibblesOf([c] + tail), i) ==
            (if HyphenBefore(i) then "-" else "") + ([LowerChar(c)] + Digits(NibblesOf(tail), i + 1))
    ensures ToLower([c] + tail) == [LowerChar(c)] + ToLower(tail)
  {
    HexDigitOfValue(c);
    assert ([c] + tail)[1..] == tail;
    DigitsOfNext(HexValue(c), NibblesOf(tail), i);
  }

  lemma DigitsOfNext(v: int, rest: seq<int>, i: nat)
    requires 0 <= v < 16 && IsNibbles(rest)
    ensures Digits([v] + rest, i) == (if HyphenBefore(i) then "-" else "") + ([HexDigit(v)] + Digits(rest, i + 1))
  {
    assert ([v] + rest)[1..] == rest;
  }

  /** A text in uuid form is canonical exactly when it has no upper-case letter. */
  lemma FormIsCanonicalInLowerCase(s: string)
    requires UuidForm(s)
    ensures Canonical(ToLower(s)) && NibblesOf(ToLower(s)) == NibblesOf(s)
    ensures Canonical(s) <==> s == ToLower(s)
  {
    FormIsRead(s, 0);
    assert s[0..] == s;
    DigitsRoundTrip(NibblesOf(s), 0);
  }

  lemma {:induction false} UpperCaseIsBefore(s: string)
    requires s != ToLower(s)
    ensures Lex(Codes(s), Codes(ToLower(s)))
  {
    assert Codes(s)[1..] == Codes(s[1..]) && Codes(ToLower(s))[1..] == Codes(ToLower(s[1..]));
    if LowerChar(s[0]) == s[0] {
      assert s == [s[0]] + s[1..] && ToLower(s) == [s[0]] + ToLower(s[1..]);
      UpperCaseIsBefore(s[1..]);
    }
  }

  // ---------- the canonical text has that form ----------

  /** The text from position `start` on is in lower case and in its form. */
  predicate FormFrom(text: string, start: int) {
    forall k :: 0 <= k < |text| ==>
      if IsHyphenAt(start + k) then text[k] == '-' else IsHex(text[k]) && LowerChar(text[k]) == text[k]
  }

  lemma FormGrows(c: char, text: string, start: int)
    requires FormFrom(text, start + 1)
    requires if IsHyphenAt(start) then c == '-' else IsHex(c) && LowerChar(c) == c
    ensures FormFrom([c] + text, start)
  {
    forall k | 0 < k < |[c] + text| ensures ([c] + text)[k] == text[k - 1] && start + k == start + 1 + (k - 1) {
    }
  }

  lemma {:induction false} DigitsHaveForm(n: seq<int>, i: nat)
    requires IsNibbles(n) && i <= 32 && |n| == 32 - i
    ensures |Digits(n, i)| == 36 - TextStart(i) && FormFrom(Digits(n, i), TextStart(i))
    decreases n
  {
    if n != [] {
      DigitsHaveForm(n[1..], i + 1);
      var c, rest := HexDigit(n[0]), Digits(n[1..], i + 1);
      FormGrows(c, rest, DigitAt(i));
      DigitsOfNext(n[0], n[1..], i);
      assert n == [n[0]] + n[1..];
      if HyphenBefore(i) {
        FormGrows('-', [c] + rest, TextStart(i));
      } else {
        assert "" + ([c] + rest) == [c] + rest;
      }
    }
  }

  lemma CanonicalIsForm(t: string)
    requires Canonical(t)
    ensures UuidForm(t) && t == ToLower(t) && ReadUuid(t) == Some(NibblesOf(t))
  {
    DigitsHaveForm(NibblesOf(t), 0);
  }

  // ---------- how a text and its value compare with canonical ids ----------

  /** Against every canonical id, the text compares as the value that Postgres reads in it. */
  ghost predicate SortsAlike(s: string) {
    && ReadUuid(s).Some?
    && forall t :: Canonical(t) ==> (Lex(Codes(s), Codes(t)) <==> Lex(ReadUuid(s).value, NibblesOf(t)))
  }

  predicate AllF(s: string) {
    forall k :: 0 <= k < |s| ==> s[k] == '-' || LowerChar(s[k]) == 'f'
  }

  /** Which texts do: the canonical ones; without hyphens those whose first group is in lower
      case and whose other digits are all f; in braces the greatest value only. */
  predicate ReadAlike(s: string) {
    if UuidForm(s) then s == ToLower(s)
    else if BareForm(s) then s[..8] == ToLower(s[..8]) && AllF(s[8..])
    else BracedForm(s) && AllF(s[1..37])
  }

  lemma WhichFormsSortAlike(s: string)
    requires IsUuid(s)
    ensures SortsAlike(s) <==> ReadAlike(s)
  {
    if UuidForm(s) {
      PlainSortsAlike(s);
    } else if BareForm(s) {
      BareSortsAlike(s);
    } else if BracedForm(s) {
      BracedSortsAlike(s);
    }
  }

  lemma PlainSortsAlike(s: string)
    requires UuidForm(s)
    ensures SortsAlike(s) <==> s == ToLower(s)
  {
    var v, t := NibblesOf(s), ToLower(s);
    FormIsCanonicalInLowerCase(s);
    if s == t {
      forall t | Canonical(t) ensures Lex(Codes(s), Codes(t)) <==> Lex(v, NibblesOf(t)) {
        TextOrderIsValueOrder(v, NibblesOf(t), 0);
      }
    } else {
      UpperCaseIsBefore(s);
      LexTotal(v, v);
      assert Canonical(t);
    }
  }

  // ---------- the greatest value ----------

  function Top(n: nat): seq<int> {
    seq(n, _ => 15)
  }

  lemma {:induction false} TopIsLast(v: seq<int>)
    requires IsNibbles(v)
    ensures !Lex(Top(|v|), v) && (Lex(v, Top(|v|)) <==> v != Top(|v|))
    decreases v
  {
    if v != [] {
      TopIsLast(v[1..]);
      assert Top(|v|)[1..] == Top(|v[1..]|);
      assert v == [v[0]] + v[1..] && Top(|v|) == [15] + Top(|v[1..]|);
    }
  }

  lemma {:induction false} AllFIsTop(s: string)
    requires forall k :: 0 <= k < |s| ==> s[k] == '-' || IsHex(s[k])
    ensures AllF(s) <==> NibblesOf(s) == Top(|NibblesOf(s)|)
    decreases s
  {
    if s != [] {
      var n := NibblesOf(s[1..]);
      AllFIsTop(s[1..]);
      assert s == [s[0]] + s[1..];
      assert AllF(s) <==> (s[0] == '-' || LowerChar(s[0]) == 'f') && AllF(s[1..]) by {
        assert forall k :: 1 <= k < |s| ==> s[k] == s[1..][k - 1];
        assert forall k :: 0 <= k < |s[1..]| ==> s[1..][k] == s[k + 1];
      }
      assert Top(|n| + 1) == [15] + Top(|n|);
      assert s[0] != '-' ==> NibblesOf(s)[0] == HexValue(s[0]) && NibblesOf(s)[1..] == n;
    }
  }

  lemma BracedSortsAlike(s: string)
    requires BracedForm(s)
    ensures SortsAlike(s) <==> AllF(s[1..37])
  {
    var inner := s[1..37];
    var v := NibblesOf(inner);
    FormIsRead(inner, 0);
    assert inner[0..] == inner;
    AllFIsTop(inner);
    TopIsLast(v);
    forall t | Canonical(t) ensures !Lex(Codes(s), Codes(t)) {
      CanonicalIsForm(t);
      assert !IsHyphenAt(0) && IsHex(t[0]);
    }
    if AllF(inner) {
      forall t | Canonical(t) ensures !Lex(v, NibblesOf(t)) {
        TopIsLast(NibblesOf(t));
      }
    } else {
      DigitsRoundTrip(Top(32), 0);
      assert Canonical(Digits(Top(32), 0));
    }
  }

  // ---------- without hyphens ----------

  lemma OneIsRead(c: char, tail: string)
    ensures NibblesOf([c] + tail) == (if c == '-' then [] else [HexValue(c)]) + NibblesOf(tail)
  {
    assert ([c] + tail)[1..] == tail;
    assert [] + NibblesOf(tail) == NibblesOf(tail);
  }

  lemma {:induction false} ConcatIsRead(a: string, b: string)
    ensures NibblesOf(a + b) == NibblesOf(a) + NibblesOf(b)
    decreases a
  {
    if a == [] {
      assert a + b == b;
    } else {
      ConcatIsRead(a[1..], b);
      OneMoreIsRead(a[0], a[1..], b, a[1..] + b);
      assert a == [a[0]] + a[1..] && a + b == [a[0]] + (a[1..] + b);
    }
  }

  lemma OneMoreIsRead(c: char, tail: string, b: string, both: string)
    requires NibblesOf(both) == NibblesOf(tail) + NibblesOf(b)
    ensures NibblesOf([c] + both) == NibblesOf([c] + tail) + NibblesOf(b)
  {
    OneIsRead(c, tail);
    OneIsRead(c, both);
    Reassociate(if c == '-' then [] else [HexValue(c)], NibblesOf(tail), NibblesOf(b));
  }

  lemma Reassociate(a: seq<int>, b: seq<int>, c: seq<int>)
    ensures a + (b + c) == (a + b) + c
  {
  }

  /** A group of digits within the first eight. */
  lemma {:induction false} GroupIsRead(s: string, i: nat)
    requires AllHex(s) && i + |s| <= 8
    ensures |NibblesOf(s)| == |s| && Digits(NibblesOf(s), i) == ToLower(s)
    decreases s
  {
    if s != [] {
      assert s == [s[0]] + s[1..];
      GroupIsRead(s[1..], i + 1);
      DigitIsRead(s[0], s[1..], i);
      assert ToLower([s[0]] + s[1..]) == "" + ([LowerChar(s[0])] + ToLower(s[1..]));
    }
  }

  lemma {:induction false} BareIsRead(s: string)
    requires AllHex(s)
    ensures |NibblesOf(s)| == |s|
    decreases s
  {
    if s != [] {
      assert IsHex(s[0]);
      BareIsRead(s[1..]);
    }
  }

  /** Only the first groups matter to the text order, as a hyphen is less than any digit. */
  lemma BareAgainst(s: string, t: string)
    requires BareForm(s) && UuidForm(t) && t == ToLower(t)
    ensures AllHex(s[..8]) && |NibblesOf(s[..8])| == 8 == |NibblesOf(t[..8])|
    ensures NibblesOf(s) == NibblesOf(s[..8]) + NibblesOf(s[8..])
    ensures NibblesOf(t) == NibblesOf(t[..8]) + NibblesOf(t[8..])
    ensures t[..8] == Digits(NibblesOf(t[..8]), 0)
    ensures Lex(Codes(s), Codes(t)) <==> Lex(Codes(s[..8]), Codes(t[..8]))
  {
    assert s == s[..8] + s[8..] && t == t[..8] + t[8..];
    ConcatIsRead(s[..8], s[8..]);
    ConcatIsRead(t[..8], t[8..]);
    assert forall k :: 0 <= k < 8 ==> !IsHyphenAt(k) && IsHex(t[k]);
    GroupIsRead(s[..8], 0);
    GroupIsRead(t[..8], 0);
    assert ToLower(t[..8]) == ToLower(t)[..8];
    CodesOfConcat(s[..8], s[8..]);
    CodesOfConcat(t[..8], t[8..]);
    LexOfConcat(Codes(s[..8]), Codes(t[..8]), Codes(s[8..]), Codes(t[8..]));
    assert s[8..][0] == s[8] && IsHex(s[8]) && t[8..][0] == '-';
  }

  lemma BareSortsAlike(s: string)
    requires BareForm(s)
    ensures SortsAlike(s) <==> s[..8] == ToLower(s[..8]) && AllF(s[8..])
  {
    var first, rest := s[..8], s[8..];
    var v := NibblesOf(s);
    BareIsRead(s);
    BareIsRead(rest);
    AllFIsTop(rest);
    if first != ToLower(first) {
      UpperCaseSplits(s);
    } else if !AllF(rest) {
      SmallRestSplits(s);
    } else {
      forall t | Canonical(t) ensures Lex(Codes(s), Codes(t)) <==> Lex(v, NibblesOf(t)) {
        GreatRestSortsAlike(s, t);
      }
    }
  }

  lemma UpperCaseSplits(s: string)
    requires BareForm(s) && s[..8] != ToLower(s[..8])
    ensures !SortsAlike(s)
  {
    var v := NibblesOf(s);
    BareIsRead(s);
    DigitsRoundTrip(v, 0);
    var t := Digits(v, 0);
    assert Canonical(t);
    CanonicalIsForm(t);
    BareAgainst(s, t);
    GroupIsRead(s[..8], 0);
    assert NibblesOf(t[..8]) == v[..8] == NibblesOf(s[..8]);
    UpperCaseIsBefore(s[..8]);
    LexTotal(v, v);
  }

  lemma SmallRestSplits(s: string)
    requires BareForm(s) && s[..8] == ToLower(s[..8]) && !AllF(s[8..])
    ensures !SortsAlike(s)
  {
    var head, tail := NibblesOf(s[..8]), NibblesOf(s[8..]);
    BareIsRead(s[8..]);
    GroupIsRead(s[..8], 0);
    var w := head + Top(24);
    DigitsRoundTrip(w, 0);
    var t := Digits(w, 0);
    assert Canonical(t);
    CanonicalIsForm(t);
    BareAgainst(s, t);
    assert NibblesOf(t[..8]) == w[..8] == head;
    LexTotal(Codes(s[..8]), Codes(s[..8]));
    AllFIsTop(s[8..]);
    TopIsLast(tail);
    LexOfConcat(head, head, tail, Top(24));
  }

  lemma GreatRestSortsAlike(s: string, t: string)
    requires BareForm(s) && s[..8] == ToLower(s[..8]) && AllF(s[8..]) && Canonical(t)
    ensures Lex(Codes(s), Codes(t)) <==> Lex(NibblesOf(s), NibblesOf(t))
  {
    CanonicalIsForm(t);
    BareAgainst(s, t);
    GroupIsRead(s[..8], 0);
    TextOrderIsValueOrder(NibblesOf(s[..8]), NibblesOf(t[..8]), 0);
    BareIsRead(s[8..]);
    AllFIsTop(s[8..]);
    TopIsLast(NibblesOf(t[8..]));
    LexOfConcat(NibblesOf(s[..8]), NibblesOf(t[..8]), NibblesOf(s[8..]), NibblesOf(t[8..]));
  }

  // ---------- the forms, as spellings of canonical ids ----------

  /** A canonical text without its hyphens. */
  function Compact(t: string): string
    requires |t| == 36
  {
    t[..8] + t[9..13] + t[14..18] + t[19..23] + t[24..]
  }

  /** The text is, in either case, a spelling of that canonical id. */
  predicate Spells(s: string, t: string)
    requires |t| == 36
  {
    ToLower(s) == t || ToLower(s) == Compact(t) || ToLower(s) == "{" + t + "}" || ToLower(s) == "urn:uuid:" + t
  }

  lemma LowerFormIsForm(s: string)
    ensures Canonical(ToLower(s)) <==> UuidForm(s)
  {
    if Canonical(ToLower(s)) {
      CanonicalIsForm(ToLower(s));
      forall k | 0 <= k < 36 ensures if IsHyphenAt(k) then s[k] == '-' else IsHex(s[k]) {
        assert ToLower(s)[k] == LowerChar(s[k]);
      }
    } else if UuidForm(s) {
      FormIsCanonicalInLowerCase(s);
    }
  }

  lemma CompactIsRead(t: string)
    requires UuidForm(t)
    ensures BareForm(Compact(t)) && NibblesOf(Compact(t)) == NibblesOf(t)
  {
    var a, b, c, d, e := t[..8], t[9..13], t[14..18], t[19..23], t[24..];
    CompactIsBare(t);
    Groups(t, a, b, c, d, e);
    var c', b' := c + ("-" + (d + ("-" + e))), b + ("-" + (c + ("-" + (d + ("-" + e)))));
    GroupThen(d, e, e);
    GroupThen(c, d + e, d + ("-" + e));
    GroupThen(b, c + (d + e), c');
    GroupThen(a, b + (c + (d + e)), b');
  }

  lemma CompactIsBare(t: string)
    requires UuidForm(t)
    ensures BareForm(Compact(t))
  {
    assert forall k :: 0 <= k < 36 && !IsHyphenAt(k) ==> IsHex(t[k]);
  }

  lemma Groups(t: string, a: string, b: string, c: string, d: string, e: string)
    requires UuidForm(t) && a == t[..8] && b == t[9..13] && c == t[14..18] && d == t[19..23] && e == t[24..]
    ensures t == a + ("-" + (b + ("-" + (c + ("-" + (d + ("-" + e)))))))
    ensures Compact(t) == a + (b + (c + (d + e)))
  {
    assert t[8] == '-' && t[13] == '-' && t[18] == '-' && t[23] == '-' by {
      assert IsHyphenAt(8) && IsHyphenAt(13) && IsHyphenAt(18) && IsHyphenAt(23);
    }
    assert t[23..] == "-" + e && t[19..] == d + ("-" + e);
    assert t[18..] == "-" + t[19..] && t[14..] == c + t[18..];
    assert t[13..] == "-" + t[14..] && t[9..] == b + t[13..];
    assert t[8..] == "-" + t[9..] && t == a + t[8..];
  }

  /** A group reads the same whether or not a hyphen follows it. */
  lemma GroupThen(group: string, rest: string, spaced: string)
    requires NibblesOf(rest) == NibblesOf(spaced)
    ensures NibblesOf(group + rest) == NibblesOf(group + ("-" + spaced))
  {
    ConcatIsRead(group, rest);
    ConcatIsRead(group, "-" + spaced);
    HyphenIsRead(spaced);
  }

  lemma {:induction false} SameDigits(a: string, b: string)
    requires AllHex(a) && AllHex(b) && |a| == |b| && NibblesOf(a) == NibblesOf(b)
    ensures ToLower(a) == ToLower(b)
    decreases a
  {
    if a != [] {
      assert IsHex(a[0]) && IsHex(b[0]);
      HexDigitOfValue(a[0]);
      HexDigitOfValue(b[0]);
      assert NibblesOf(a) == [HexValue(a[0])] + NibblesOf(a[1..]);
      assert NibblesOf(b) == [HexValue(b[0])] + NibblesOf(b[1..]);
      assert NibblesOf(a[1..]) == NibblesOf(a)[1..] && NibblesOf(b[1..]) == NibblesOf(b)[1..];
      SameDigits(a[1..], b[1..]);
      assert ToLower(a) == [LowerChar(a[0])] + ToLower(a[1..]) && ToLower(b) == [LowerChar(b[0])] + ToLower(b[1..]);
    }
  }

  /** What is accepted are the spellings of canonical ids, and what is read in them is the id's
      value, except in a urn, where nothing is. */
  lemma FormsAreSpellings(s: string)
    ensures IsUuid(s) <==> exists t :: Canonical(t) && |t| == 36 && Spells(s, t)
    ensures forall t :: Canonical(t) && |t| == 36 && Spells(s, t) ==>
              ReadUuid(s) == if ToLower(s) == "urn:uuid:" + t then None else Some(NibblesOf(t))
  {
    if IsUuid(s) {
      var t := SpelledBy(s);
    }
    forall t | Canonical(t) && |t| == 36 && Spells(s, t)
      ensures IsUuid(s) && ReadUuid(s) == if ToLower(s) == "urn:uuid:" + t then None else Some(NibblesOf(t))
    {
      SpellingIsRead(s, t);
    }
  }

  lemma SpelledBy(s: string) returns (t: string)
    requires IsUuid(s)
    ensures Canonical(t) && |t| == 36 && Spells(s, t)
  {
    if UuidForm(s) {
      t := ToLower(s);
      LowerFormIsForm(s);
    } else if BareForm(s) {
      BareIsRead(s);
      var n := NibblesOf(s);
      t := Digits(n, 0);
      DigitsRoundTrip(n, 0);
      CanonicalIsForm(t);
      CompactIsRead(t);
      SameDigits(s, Compact(t));
      LowerCompact(t);
    } else if BracedForm(s) {
      t := ToLower(s[1..37]);
      LowerFormIsForm(s[1..37]);
      assert ToLower(s) == "{" + t + "}";
    } else {
      t := ToLower(s[9..]);
      LowerFormIsForm(s[9..]);
      assert ToLower(s) == ToLower(s[..9]) + t;
    }
  }

  lemma LowerCompact(t: string)
    requires UuidForm(t) && t == ToLower(t)
    ensures ToLower(Compact(t)) == Compact(t)
  {
    assert forall k :: 0 <= k < 36 ==> LowerChar(t[k]) == t[k];
  }

  lemma SpellingIsRead(s: string, t: string)
    requires Canonical(t) && |t| == 36 && Spells(s, t)
    ensures IsUuid(s) && ReadUuid(s) == if ToLower(s) == "urn:uuid:" + t then None else Some(NibblesOf(t))
  {
    CanonicalIsForm(t);
    if ToLower(s) == t {
      LowerFormIsForm(s);
      FormIsCanonicalInLowerCase(s);
    } else if ToLower(s) == Compact(t) {
      CompactIsRead(t);
      LowerHexIsHex(s);
      LowerIsRead(s);
    } else if ToLower(s) == "{" + t + "}" {
      BracedIsRead(s, t);
    } else {
      UrnIsNotRead(s, t);
    }
  }

  lemma LowerSlice(s: string, i: int, j: int)
    requires 0 <= i <= j <= |s|
    ensures ToLower(s[i..j]) == ToLower(s)[i..j]
  {
  }

  lemma BracedIsRead(s: string, t: string)
    requires Canonical(t) && |t| == 36 && ToLower(s) == "{" + t + "}"
    ensures BracedForm(s) && ReadUuid(s) == Some(NibblesOf(t))
  {
    assert |s| == |ToLower(s)| == 38;
    LowerSlice(s, 1, 37);
    assert ToLower(s)[1..37] == t;
    LowerFormIsForm(s[1..37]);
    FormIsCanonicalInLowerCase(s[1..37]);
    assert ToLower(s)[0] == '{' && ToLower(s)[37] == '}';
  }

  lemma UrnIsNotRead(s: string, t: string)
    requires Canonical(t) && |t| == 36 && ToLower(s) == "urn:uuid:" + t
    ensures UrnForm(s) && ReadUuid(s) == None
  {
    assert |s| == |ToLower(s)| == 45;
    LowerSlice(s, 0, 9);
    LowerSlice(s, 9, 45);
    assert s[..9] == s[0..9] && s[9..] == s[9..45];
    assert ToLower(s)[0..9] == "urn:uuid:" && ToLower(s)[9..45] == t;
    LowerFormIsForm(s[9..]);
  }

  lemma LowerHexIsHex(s: string)
    requires AllHex(ToLower(s))
    ensures AllHex(s)
  {
    forall k | 0 <= k < |s| ensures IsHex(s[k]) {
      assert IsHex(ToLower(s)[k]);
    }
  }

  lemma {:induction false} LowerIsRead(s: string)
    requires AllHex(s)
    ensures NibblesOf(ToLower(s)) == NibblesOf(s)
    decreases s
  {
    if s != [] {
      assert IsHex(s[0]);
      HexDigitOfValue(s[0]);
      LowerIsRead(s[1..]);
      assert ToLower(s)[1..] == ToLower(s[1..]);
    }
  }

  /** One such id that is not read alike. */
  lemma OneUpperCaseLetter(id: string)
    requires id == "A0000000-0000-7000-8000-000000000000"
    ensures UuidForm(id) && !Canonical(id)
  {
    ItsForm(id);
    FormIsCanonicalInLowerCase(id);
    assert ToLower(id)[0] == 'a';
  }

  lemma ItsForm(id: string)
    requires id == "A0000000-0000-7000-8000-000000000000"
    ensures UuidForm(id) && id[0] == 'A'
  {
    assert id[8] == '-' && id[13] == '-' && id[18] == '-' && id[23] == '-';
    assert forall k :: 0 <= k < 36 && !IsHyphenAt(k) ==> id[k] == '0' || id[k] == 'A' || id[k] == '7' || id[k] == '8';
  }
}
