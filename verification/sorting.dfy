/**
 Python's `sorted(xs, key=rank, reverse=descending)`: a stable sort. Equal keys keep
 their input order in both directions, because CPython implements `reverse=True` by
 reversing, sorting stably and reversing back.

 The sort is an insertion sort; what it promises is stated independently of that:
 the result is a permutation of the input (`multiset`), is `Ordered` by the key, and
 is stable (`Tied`: for every key, the records carrying it appear in input order).
 `OrderedStableUnique` shows those three facts pin the result down completely.
 */
module Sorting {
  import Text

  /** A sort key: an `int` (compared numerically) or a `str` (compared by code point). */
  datatype Key = Num(n: int) | Str(s: string)

  /** Python's `<` on keys. Every rank function of the model maps all records to the
      same constructor, so the mixed case (a `TypeError` in Python) never arises; it is
      given a fixed answer only to make `KeyLess` a total order. */
  predicate KeyLess(a: Key, b: Key) {
    match a
    case Num(x) => (match b case Num(y) => x < y case Str(_) => true)
    case Str(x) => (match b case Num(_) => false case Str(y) => Text.Less(x, y))
  }

  lemma KeyLessIrreflexive(a: Key)
    ensures !KeyLess(a, a)
  {
    if a.Str? {
      Text.LessIrreflexive(a.s);
    }
  }

  lemma KeyLessTransitive(a: Key, b: Key, c: Key)
    requires KeyLess(a, b) && KeyLess(b, c)
    ensures KeyLess(a, c)
  {
    if a.Str? && b.Str? && c.Str? {
      Text.LessTransitive(a.s, b.s, c.s);
    }
  }

  lemma KeyLessTotal(a: Key, b: Key)
    ensures a == b || KeyLess(a, b) || KeyLess(b, a)
  {
    if a.Str? && b.Str? {
      Text.LessTotal(a.s, b.s);
    }
  }

  /** `x` must come strictly before `y` in a list sorted by `rank`. */
  predicate Precedes<T>(rank: T -> Key, descending: bool, x: T, y: T) {
    if descending then KeyLess(rank(y), rank(x)) else KeyLess(rank(x), rank(y))
  }

  lemma PrecedesAsymmetric<T>(rank: T -> Key, descending: bool, x: T, y: T)
    requires Precedes(rank, descending, x, y)
    ensures !Precedes(rank, descending, y, x) && rank(x) != rank(y)
  {
    KeyLessIrreflexive(rank(x));
    KeyLessIrreflexive(rank(y));
    if KeyLess(rank(x), rank(y)) && KeyLess(rank(y), rank(x)) {
      KeyLessTransitive(rank(x), rank(y), rank(x));
    }
  }

  /** If `x` precedes `z`, any `y` precedes `z` or is preceded by `x`. */
  lemma PrecedesSplit<T>(rank: T -> Key, descending: bool, x: T, y: T, z: T)
    requires Precedes(rank, descending, x, z)
    ensures Precedes(rank, descending, x, y) || Precedes(rank, descending, y, z)
  {
    KeyLessTotal(rank(x), rank(y));
    KeyLessTotal(rank(y), rank(z));
    KeyLessIrreflexive(rank(x));
    KeyLessIrreflexive(rank(z));
    if !Precedes(rank, descending, x, y) && !Precedes(rank, descending, y, z) {
      if descending {
        if KeyLess(rank(x), rank(y)) && KeyLess(rank(y), rank(z)) {
          KeyLessTransitive(rank(x), rank(y), rank(z));
          PrecedesAsymmetric(rank, descending, x, z);
        } else if KeyLess(rank(x), rank(y)) {
          PrecedesAsymmetric(rank, descending, x, z);
        } else if KeyLess(rank(y), rank(z)) {
          PrecedesAsymmetric(rank, descending, x, z);
        }
      } else {
        if KeyLess(rank(y), rank(x)) && KeyLess(rank(z), rank(y)) {
          KeyLessTransitive(rank(z), rank(y), rank(x));
          PrecedesAsymmetric(rank, descending, x, z);
        } else if KeyLess(rank(y), rank(x)) {
          PrecedesAsymmetric(rank, descending, x, z);
        } else if KeyLess(rank(z), rank(y)) {
          PrecedesAsymmetric(rank, descending, x, z);
        }
      }
    }
  }

  /** Not going before is transitive. */
  lemma NotPrecedesChain<T>(rank: T -> Key, descending: bool, x: T, y: T, z: T)
    requires !Precedes(rank, descending, x, y) && !Precedes(rank, descending, y, z)
    ensures !Precedes(rank, descending, x, z)
  {
    if Precedes(rank, descending, x, z) {
      PrecedesSplit(rank, descending, x, y, z);
    }
  }

  /** No element is strictly out of order: the key never decreases (never increases,
      when `descending`) along the sequence. */
  ghost predicate Ordered<T>(s: seq<T>, rank: T -> Key, descending: bool) {
    forall i, j :: 0 <= i < j < |s| ==> !Precedes(rank, descending, s[j], s[i])
  }

  /** The elements of `s` whose key is `k`, in their order in `s`. */
  function Tied<T>(s: seq<T>, rank: T -> Key, k: Key): seq<T>
    decreases |s|
  {
    if |s| == 0 then [] else (if rank(s[0]) == k then [s[0]] else []) + Tied(s[1..], rank, k)
  }

  lemma TiedCons<T>(x: T, s: seq<T>, rank: T -> Key)
    ensures forall k :: Tied([x] + s, rank, k) == (if rank(x) == k then [x] else []) + Tied(s, rank, k)
  {
    assert ([x] + s)[1..] == s;
  }

  lemma {:induction false} TiedMembership<T>(s: seq<T>, rank: T -> Key, k: Key, x: T)
    ensures x in Tied(s, rank, k) <==> x in s && rank(x) == k
    decreases |s|
  {
    if |s| > 0 {
      TiedMembership(s[1..], rank, k, x);
      assert s == [s[0]] + s[1..];
    }
  }

  /** Stable insertion of `x` in front of every element it does not follow. */
  function Insert<T>(x: T, s: seq<T>, rank: T -> Key, descending: bool): seq<T>
    decreases |s|
  {
    if |s| == 0 then [x]
    else if Precedes(rank, descending, s[0], x) then [s[0]] + Insert(x, s[1..], rank, descending)
    else [x] + s
  }

  lemma {:induction false} InsertPermutes<T>(x: T, s: seq<T>, rank: T -> Key, descending: bool)
    ensures multiset(Insert(x, s, rank, descending)) == multiset([x] + s)
    decreases |s|
  {
    if |s| > 0 && Precedes(rank, descending, s[0], x) {
      InsertPermutes(x, s[1..], rank, descending);
      assert s == [s[0]] + s[1..];
    }
  }

  /** Insertion adds `x` and nothing else. */
  lemma {:induction false} InsertMember<T>(x: T, s: seq<T>, rank: T -> Key, descending: bool, y: T)
    ensures y in Insert(x, s, rank, descending) <==> y == x || y in s
    decreases |s|
  {
    if |s| > 0 && Precedes(rank, descending, s[0], x) {
      InsertMember(x, s[1..], rank, descending, y);
      assert s == [s[0]] + s[1..];
    }
  }

  /** In an ordered sequence nothing after the head goes before it. */
  lemma OrderedHead<T>(s: seq<T>, rank: T -> Key, descending: bool, y: T)
    requires Ordered(s, rank, descending) && |s| > 0 && y in s[1..]
    ensures !Precedes(rank, descending, y, s[0])
  {
    var m :| 0 <= m < |s[1..]| && s[1..][m] == y;
    assert s[m + 1] == y;
  }

  /** An ordered tail behind a head that nothing in it goes before is ordered. */
  lemma OrderedCons<T>(h: T, rest: seq<T>, rank: T -> Key, descending: bool)
    requires Ordered(rest, rank, descending)
    requires forall y :: y in rest ==> !Precedes(rank, descending, y, h)
    ensures Ordered([h] + rest, rank, descending)
  {
    var r := [h] + rest;
    forall i, j | 0 <= i < j < |r|
      ensures !Precedes(rank, descending, r[j], r[i])
    {
      assert r[j] == rest[j - 1];
      if i > 0 {
        assert r[i] == rest[i - 1];
      }
    }
  }

  lemma {:induction false} InsertOrdered<T>(x: T, s: seq<T>, rank: T -> Key, descending: bool)
    requires Ordered(s, rank, descending)
    ensures Ordered(Insert(x, s, rank, descending), rank, descending)
    decreases |s|
  {
    if |s| == 0 {
    } else if Precedes(rank, descending, s[0], x) {
      var rest := Insert(x, s[1..], rank, descending);
      InsertOrdered(x, s[1..], rank, descending);
      PrecedesAsymmetric(rank, descending, s[0], x);
      forall y | y in rest
        ensures !Precedes(rank, descending, y, s[0])
      {
        InsertMember(x, s[1..], rank, descending, y);
        if y != x {
          OrderedHead(s, rank, descending, y);
        }
      }
      OrderedCons(s[0], rest, rank, descending);
    } else {
      forall y | y in s
        ensures !Precedes(rank, descending, y, x)
      {
        assert s == [s[0]] + s[1..];
        if y != s[0] {
          OrderedHead(s, rank, descending, y);
        } else {
          KeyLessIrreflexive(rank(y));
        }
        NotPrecedesChain(rank, descending, y, s[0], x);
      }
      OrderedCons(x, s, rank, descending);
    }
  }

  /** Tied elements of a sequence with a known head. */
  lemma TiedHead<T>(h: T, rest: seq<T>, rank: T -> Key, k: Key)
    ensures Tied([h] + rest, rank, k) == (if rank(h) == k then [h] else []) + Tied(rest, rank, k)
  {
    assert ([h] + rest)[1..] == rest;
  }

  lemma {:induction false} InsertStableAt<T>(x: T, s: seq<T>, rank: T -> Key, descending: bool, k: Key)
    ensures Tied(Insert(x, s, rank, descending), rank, k) == Tied([x] + s, rank, k)
    decreases |s|
  {
    if |s| > 0 && Precedes(rank, descending, s[0], x) {
      var rest := Insert(x, s[1..], rank, descending);
      InsertStableAt(x, s[1..], rank, descending, k);
      PrecedesAsymmetric(rank, descending, s[0], x);
      TiedHead(s[0], rest, rank, k);
      TiedHead(x, s[1..], rank, k);
      TiedHead(x, s, rank, k);
      TiedHead(s[0], s[1..], rank, k);
      assert s == [s[0]] + s[1..];
    }
  }

  lemma InsertStable<T>(x: T, s: seq<T>, rank: T -> Key, descending: bool)
    ensures forall k :: Tied(Insert(x, s, rank, descending), rank, k) == Tied([x] + s, rank, k)
  {
    forall k
      ensures Tied(Insert(x, s, rank, descending), rank, k) == Tied([x] + s, rank, k)
    {
      InsertStableAt(x, s, rank, descending, k);
    }
  }

  /** `sorted(s, key=rank, reverse=descending)`. */
  function SortBy<T>(s: seq<T>, rank: T -> Key, descending: bool): (r: seq<T>)
    ensures multiset(r) == multiset(s) && |r| == |s|
    ensures Ordered(r, rank, descending)
    ensures forall k :: Tied(r, rank, k) == Tied(s, rank, k)
    decreases |s|
  {
    if |s| == 0 then []
    else
      var t := SortBy(s[1..], rank, descending);
      InsertPermutes(s[0], t, rank, descending);
      InsertOrdered(s[0], t, rank, descending);
      InsertStable(s[0], t, rank, descending);
      TiedCons(s[0], t, rank);
      TiedCons(s[0], s[1..], rank);
      assert s == [s[0]] + s[1..];
      var r := Insert(s[0], t, rank, descending);
      assert |multiset(r)| == |multiset(s)|;
      r
  }

  /** Permutation, order and stability determine the arrangement: two ordered sequences
      with the same elements under every key, in the same relative order, are equal. */
  lemma {:induction false} OrderedStableUnique<T>(a: seq<T>, b: seq<T>, rank: T -> Key, descending: bool)
    requires Ordered(a, rank, descending) && Ordered(b, rank, descending)
    requires forall k :: Tied(a, rank, k) == Tied(b, rank, k)
    ensures a == b
    decreases |a|
  {
    if |a| == 0 || |b| == 0 {
      if |a| > 0 {
        TiedMembership(a, rank, rank(a[0]), a[0]);
        TiedMembership(b, rank, rank(a[0]), a[0]);
      } else if |b| > 0 {
        TiedMembership(a, rank, rank(b[0]), b[0]);
        TiedMembership(b, rank, rank(b[0]), b[0]);
      }
    } else {
      var x, y := a[0], b[0];
      if rank(x) != rank(y) {
        KeyLessTotal(rank(x), rank(y));
        assert Precedes(rank, descending, x, y) || Precedes(rank, descending, y, x);
        if Precedes(rank, descending, x, y) {
          TiedMembership(a, rank, rank(x), x);
          TiedMembership(b, rank, rank(x), x);
        } else {
          TiedMembership(a, rank, rank(y), y);
          TiedMembership(b, rank, rank(y), y);
        }
      }
      TiedCons(x, a[1..], rank);
      TiedCons(y, b[1..], rank);
      assert a == [x] + a[1..] && b == [y] + b[1..];
      assert Tied(a, rank, rank(x))[0] == x && Tied(b, rank, rank(x))[0] == y;
      assert x == y;
      forall k
        ensures Tied(a[1..], rank, k) == Tied(b[1..], rank, k)
      {
        var p := if rank(x) == k then [x] else [];
        assert Tied(a, rank, k) == p + Tied(a[1..], rank, k);
        assert Tied(b, rank, k) == p + Tied(b[1..], rank, k);
        assert Tied(a[1..], rank, k) == Tied(a, rank, k)[|p|..];
        assert Tied(b[1..], rank, k) == Tied(b, rank, k)[|p|..];
      }
      OrderedStableUnique(a[1..], b[1..], rank, descending);
    }
  }

  /** The sort is the only ordered, stable rearrangement of its input. */
  lemma SortCharacterised<T>(s: seq<T>, r: seq<T>, rank: T -> Key, descending: bool)
    requires Ordered(r, rank, descending)
    requires forall k :: Tied(r, rank, k) == Tied(s, rank, k)
    ensures r == SortBy(s, rank, descending)
  {
    OrderedStableUnique(r, SortBy(s, rank, descending), rank, descending);
  }

  /** Sorting an already ordered sequence leaves it unchanged. */
  lemma SortOfOrdered<T>(s: seq<T>, rank: T -> Key, descending: bool)
    requires Ordered(s, rank, descending)
    ensures SortBy(s, rank, descending) == s
  {
    SortCharacterised(s, s, rank, descending);
  }

  /** Re-sorting with the same key and direction changes nothing. */
  lemma SortIdempotent<T>(s: seq<T>, rank: T -> Key, descending: bool)
    ensures SortBy(SortBy(s, rank, descending), rank, descending) == SortBy(s, rank, descending)
  {
    SortOfOrdered(SortBy(s, rank, descending), rank, descending);
  }

  /** Any two equal-key elements of `r` are in `before` order. */
  ghost predicate TiesIn<T>(r: seq<T>, rank: T -> Key, before: (T, T) -> bool) {
    forall i, j :: 0 <= i < j < |r| && rank(r[i]) == rank(r[j]) ==> before(r[i], r[j])
  }

  /** Ties keep input order: if the input lists its elements in `before` order, then
      any two equal-key elements of the result are in `before` order too. */
  lemma {:induction false} SortKeepsTieOrder<T>(s: seq<T>, rank: T -> Key, descending: bool, before: (T, T) -> bool)
    requires forall i, j :: 0 <= i < j < |s| ==> before(s[i], s[j])
    ensures TiesIn(SortBy(s, rank, descending), rank, before)
    decreases |s|
  {
    if |s| > 0 {
      var t := SortBy(s[1..], rank, descending);
      SortKeepsTieOrder(s[1..], rank, descending, before);
      forall y | y in t
        ensures before(s[0], y)
      {
        assert y in multiset(s[1..]);
        var m :| 0 <= m < |s[1..]| && s[1..][m] == y;
        assert s[m + 1] == y;
      }
      InsertKeepsTieOrder(s[0], t, rank, descending, before);
      assert SortBy(s, rank, descending) == Insert(s[0], t, rank, descending);
    }
  }

  lemma {:induction false} InsertKeepsTieOrder<T>(x: T, s: seq<T>, rank: T -> Key, descending: bool, before: (T, T) -> bool)
    requires Ordered(s, rank, descending)
    requires forall y :: y in s ==> before(x, y)
    requires TiesIn(s, rank, before)
    ensures TiesIn(Insert(x, s, rank, descending), rank, before)
    decreases |s|
  {
    if |s| > 0 && Precedes(rank, descending, s[0], x) {
      var rest := Insert(x, s[1..], rank, descending);
      InsertKeepsTieOrder(x, s[1..], rank, descending, before);
      PrecedesAsymmetric(rank, descending, s[0], x);
      forall y | y in rest && rank(y) == rank(s[0])
        ensures before(s[0], y)
      {
        InsertMember(x, s[1..], rank, descending, y);
        assert y != x;
        assert y in s[1..];
        var m :| 0 <= m < |s[1..]| && s[1..][m] == y;
        assert s[m + 1] == y;
      }
      TiesCons(s[0], rest, rank, before);
    }
  }

  /** A tail whose ties are in order, behind a head that goes `before` every element
      tied with it, has its ties in order. */
  lemma TiesCons<T>(h: T, rest: seq<T>, rank: T -> Key, before: (T, T) -> bool)
    requires TiesIn(rest, rank, before)
    requires forall y :: y in rest && rank(y) == rank(h) ==> before(h, y)
    ensures TiesIn([h] + rest, rank, before)
  {
    var r := [h] + rest;
    forall i, j | 0 <= i < j < |r| && rank(r[i]) == rank(r[j])
      ensures before(r[i], r[j])
    {
      assert r[j] == rest[j - 1];
      if i > 0 {
        assert r[i] == rest[i - 1];
      }
    }
  }
}
