/** The sort key of a listing, (created_at, id), and the one sorted sequence of a set of
    rows with distinct keys. */
module Sorting {
  import opened Sets

  /** `code` is the id as numbers: the bytes of a string, or the nibbles of a uuid. */
  datatype Pos = Pos(createdAt: int, code: seq<int>)

  predicate Lex(a: seq<int>, b: seq<int>) {
    b != [] && (a == [] || a[0] < b[0] || (a[0] == b[0] && Lex(a[1..], b[1..])))
  }

  predicate Before(a: Pos, b: Pos) {
    a.createdAt < b.createdAt || (a.createdAt == b.createdAt && Lex(a.code, b.code))
  }

  // ---------- the order is total ----------

  lemma {:induction false} LexTotal(a: seq<int>, b: seq<int>)
    ensures !(Lex(a, b) && Lex(b, a)) && !Lex(a, a)
    ensures a != b ==> Lex(a, b) || Lex(b, a)
    decreases a
  {
    if a != [] {
      LexTotal(a[1..], a[1..]);
      if b != [] {
        LexTotal(a[1..], b[1..]);
        assert a == [a[0]] + a[1..] && b == [b[0]] + b[1..];
      }
    }
  }

  lemma {:induction false} LexTransitive(a: seq<int>, b: seq<int>, c: seq<int>)
    requires Lex(a, b) && Lex(b, c)
    ensures Lex(a, c)
    decreases a
  {
    if a != [] && a[0] == b[0] && b[0] == c[0] {
      LexTransitive(a[1..], b[1..], c[1..]);
    }
  }

  lemma BeforeIsStrict(a: Pos, b: Pos)
    ensures !(Before(a, b) && Before(b, a)) && !Before(a, a)
    ensures a != b ==> Before(a, b) || Before(b, a)
  {
    LexTotal(a.code, b.code);
    LexTotal(a.code, a.code);
  }

  lemma BeforeIsTransitive(a: Pos, b: Pos, c: Pos)
    requires Before(a, b) && Before(b, c)
    ensures Before(a, c)
  {
    if a.createdAt == b.createdAt == c.createdAt {
      LexTransitive(a.code, b.code, c.code);
    }
  }

  /** Comparing two concatenations whose first parts are equally long. */
  lemma {:induction false} LexOfConcat(a: seq<int>, b: seq<int>, x: seq<int>, y: seq<int>)
    requires |a| == |b|
    ensures Lex(a + x, b + y) <==> Lex(a, b) || (a == b && Lex(x, y))
    decreases a
  {
    if a == [] {
      assert a + x == x && b + y == y;
    } else {
      LexOfConcat(a[1..], b[1..], x, y);
      assert (a + x)[1..] == a[1..] + x && (b + y)[1..] == b[1..] + y;
      assert a == [a[0]] + a[1..] && b == [b[0]] + b[1..];
      LexTotal(a, b);
    }
  }

  // ---------- sorting a set ----------

  predicate Distinct<T(!new)>(s: set<T>, pos: T -> Pos) {
    forall a, b :: a in s && b in s && pos(a) == pos(b) ==> a == b
  }

  predicate IsSorted<T>(xs: seq<T>, pos: T -> Pos) {
    forall i, j :: 0 <= i < j < |xs| ==> Before(pos(xs[i]), pos(xs[j]))
  }

  lemma FirstOf<T(!new)>(s: set<T>, pos: T -> Pos) returns (m: T)
    requires s != {} && Distinct(s, pos)
    ensures m in s && forall x :: x in s && x != m ==> Before(pos(m), pos(x))
  {
    var first :| first in s;
    var rest := s - {first};
    assert s == rest + {first};
    m := first;
    if rest != {} {
      var other := FirstOf(rest, pos);
      BeforeIsStrict(pos(first), pos(other));
      if Before(pos(other), pos(first)) {
        m := other;
      } else {
        forall x | x in rest && x != other ensures Before(pos(first), pos(x)) {
          BeforeIsTransitive(pos(first), pos(other), pos(x));
        }
      }
    }
  }

  predicate IsFirst<T>(s: set<T>, pos: T -> Pos, m: T) {
    m in s && forall x :: x in s && x != m ==> Before(pos(m), pos(x))
  }

  lemma FirstExists<T(!new)>(s: set<T>, pos: T -> Pos)
    requires s != {} && Distinct(s, pos)
    ensures exists m :: m in s && IsFirst(s, pos, m)
    ensures forall m, n :: IsFirst(s, pos, m) && IsFirst(s, pos, n) ==> m == n
  {
    var m := FirstOf(s, pos);
    assert IsFirst(s, pos, m);
    forall m, n | IsFirst(s, pos, m) && IsFirst(s, pos, n) ensures m == n {
      BeforeIsStrict(pos(m), pos(n));
    }
  }

  function First<T(!new)>(s: set<T>, pos: T -> Pos): (m: T)
    requires s != {} && Distinct(s, pos)
    ensures IsFirst(s, pos, m)
  {
    FirstExists(s, pos);
    var m :| m in s && IsFirst(s, pos, m);
    m
  }

  /** The rows in ascending order: what sort.Slice leaves, and what ORDER BY returns. */
  function Sorted<T(!new)>(s: set<T>, pos: T -> Pos): (xs: seq<T>)
    requires Distinct(s, pos)
    ensures IsSorted(xs, pos) && Elements(xs) == s
    decreases |s|
  {
    if s == {} then []
    else
      var m := First(s, pos);
      var tail := Sorted(s - {m}, pos);
      FirstThenRest(s, pos, m, tail);
      [m] + tail
  }

  lemma FirstThenRest<T(!new)>(s: set<T>, pos: T -> Pos, m: T, tail: seq<T>)
    requires IsFirst(s, pos, m) && IsSorted(tail, pos) && Elements(tail) == s - {m}
    ensures IsSorted([m] + tail, pos) && Elements([m] + tail) == s
  {
    var xs := [m] + tail;
    forall j | 0 < j < |xs| ensures Before(pos(m), pos(xs[j])) {
      assert xs[j] == tail[j - 1] && tail[j - 1] in Elements(tail);
    }
    assert Elements(xs) == {m} + Elements(tail);
  }

  /** There is only one. */
  lemma {:induction false} SortedIsUnique<T(!new)>(xs: seq<T>, ys: seq<T>, pos: T -> Pos)
    requires IsSorted(xs, pos) && IsSorted(ys, pos) && Elements(xs) == Elements(ys)
    ensures xs == ys
    decreases xs
  {
    assert forall y :: y in ys <==> y in Elements(ys);
    assert forall x :: x in xs <==> x in Elements(xs);
    assert ys != [] ==> ys[0] in xs;
    if xs != [] {
      assert xs[0] in ys;
      assert ys[0] in xs;
      var i :| 0 <= i < |ys| && ys[i] == xs[0];
      var j :| 0 <= j < |xs| && xs[j] == ys[0];
      if i > 0 && j > 0 {
        BeforeIsStrict(pos(xs[0]), pos(ys[0]));
        assert false;
      }
      assert xs[0] == ys[0];
      TailElements(xs, pos);
      TailElements(ys, pos);
      SortedIsUnique(xs[1..], ys[1..], pos);
      assert xs == [xs[0]] + xs[1..] && ys == [ys[0]] + ys[1..];
    }
  }

  lemma TailElements<T(!new)>(xs: seq<T>, pos: T -> Pos)
    requires xs != [] && IsSorted(xs, pos)
    ensures Elements(xs[1..]) == Elements(xs) - {xs[0]}
    ensures IsSorted(xs[1..], pos)
  {
    forall x | x in xs[1..] ensures x != xs[0] {
      var k :| 0 <= k < |xs[1..]| && xs[1..][k] == x;
      BeforeIsStrict(pos(xs[0]), pos(xs[k + 1]));
    }
    assert forall x :: x in xs && x != xs[0] ==> x in xs[1..];
  }

  lemma SortedHasNoRepeats<T(!new)>(xs: seq<T>, pos: T -> Pos)
    requires IsSorted(xs, pos)
    ensures forall i, j :: 0 <= i < j < |xs| ==> xs[i] != xs[j]
    ensures |Elements(xs)| == |xs|
    decreases xs
  {
    forall i, j | 0 <= i < j < |xs| ensures xs[i] != xs[j] {
      BeforeIsStrict(pos(xs[i]), pos(xs[j]));
    }
    if xs != [] {
      TailElements(xs, pos);
      SortedHasNoRepeats(xs[1..], pos);
      assert xs[0] in Elements(xs);
    }
  }
}
