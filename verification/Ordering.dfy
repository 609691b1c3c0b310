/**
Sorted key lists. Go ranges over a map in an arbitrary order and the program
sorts the collected keys wherever the order would show; this module gives the
sorted list of a finite set and shows that it is the only one.
*/
module Ordering {
  import opened Basics

  ghost predicate StrictTotal<T(!new)>(lt: (T, T) -> bool) {
    && (forall a :: !lt(a, a))
    && (forall a, b, c :: lt(a, b) && lt(b, c) ==> lt(a, c))
    && (forall a, b :: a == b || lt(a, b) || lt(b, a))
  }

  /** Byte-wise comparison of Go strings, over any ordered alphabet. */
  predicate LexLess<T(==)>(lt: (T, T) -> bool, a: seq<T>, b: seq<T>) {
    if b == [] then false
    else if a == [] then true
    else if a[0] == b[0] then LexLess(lt, a[1..], b[1..])
    else lt(a[0], b[0])
  }

  /** Strictly ascending, hence without duplicates. */
  ghost predicate Sorted<T>(lt: (T, T) -> bool, s: seq<T>) {
    forall i, j :: 0 <= i < j < |s| ==> lt(s[i], s[j])
  }

  lemma {:induction false} LexIrreflexive<T>(lt: (T, T) -> bool, a: seq<T>)
    ensures !LexLess(lt, a, a)
  {
    if a != [] {
      LexIrreflexive(lt, a[1..]);
    }
  }

  lemma {:induction false} LexTransitive<T(!new)>(lt: (T, T) -> bool, a: seq<T>, b: seq<T>, c: seq<T>)
    requires StrictTotal(lt)
    requires LexLess(lt, a, b) && LexLess(lt, b, c)
    ensures LexLess(lt, a, c)
  {
    if a != [] && a[0] == b[0] == c[0] {
      LexTransitive(lt, a[1..], b[1..], c[1..]);
    }
  }

  lemma {:induction false} LexTotal<T(!new)>(lt: (T, T) -> bool, a: seq<T>, b: seq<T>)
    requires StrictTotal(lt)
    ensures a == b || LexLess(lt, a, b) || LexLess(lt, b, a)
  {
    if a != [] && b != [] && a[0] == b[0] {
      LexTotal(lt, a[1..], b[1..]);
      assert a == [a[0]] + a[1..] && b == [b[0]] + b[1..];
    }
  }

  lemma ElemsEmpty<T>(s: seq<T>)
    ensures Elems(s) == {} <==> s == []
  {
    if s != [] {
      assert s[0] in Elems(s);
    }
  }

  /** The strings agree up to index i, where the first one ends or has the lesser element. */
  predicate LessAt<T(==)>(lt: (T, T) -> bool, a: seq<T>, b: seq<T>, i: int) {
    0 <= i < |b| && i <= |a| && a[..i] == b[..i] && (i == |a| || (a[i] != b[i] && lt(a[i], b[i])))
  }

  /** What the comparison means: the first difference decides, and a proper prefix comes first. */
  lemma {:induction false} LexMeans<T>(lt: (T, T) -> bool, a: seq<T>, b: seq<T>)
    ensures LexLess(lt, a, b) <==> exists i :: LessAt(lt, a, b, i)
  {
    if b != [] && a == [] {
      assert LessAt(lt, a, b, 0);
    } else if b != [] && a[0] != b[0] {
      if lt(a[0], b[0]) {
        assert LessAt(lt, a, b, 0);
      }
      forall i ensures LessAt(lt, a, b, i) && i > 0 ==> a[0] == b[0] {
        HeadsAgree(lt, a, b, i);
      }
    } else if b != [] {
      LexMeans(lt, a[1..], b[1..]);
      forall i ensures LessAt(lt, a[1..], b[1..], i) <==> LessAt(lt, a, b, i + 1) {
        LessAtTail(lt, a, b, i);
      }
      if LexLess(lt, a, b) {
        var i :| LessAt(lt, a[1..], b[1..], i);
        assert LessAt(lt, a, b, i + 1);
      }
      if k :| LessAt(lt, a, b, k) {
        assert LessAt(lt, a[1..], b[1..], k - 1);
      }
    }
  }

  lemma HeadsAgree<T>(lt: (T, T) -> bool, a: seq<T>, b: seq<T>, i: int)
    ensures LessAt(lt, a, b, i) && i > 0 ==> a != [] && b != [] && a[0] == b[0]
  {
    if LessAt(lt, a, b, i) && i > 0 {
      assert a[..i][0] == b[..i][0];
    }
  }

  lemma LessAtTail<T>(lt: (T, T) -> bool, a: seq<T>, b: seq<T>, i: int)
    requires a != [] && b != [] && a[0] == b[0]
    ensures LessAt(lt, a[1..], b[1..], i) <==> i + 1 > 0 && LessAt(lt, a, b, i + 1)
  {
    if 0 <= i < |b| - 1 && i <= |a| - 1 {
      assert a[..i + 1] == [a[0]] + a[1..][..i] && b[..i + 1] == [b[0]] + b[1..][..i];
      assert a[..i + 1][1..] == a[1..][..i] && b[..i + 1][1..] == b[1..][..i];
    }
  }

  /** Two strictly ascending lists of the same elements are equal. */
  lemma {:induction false} SortedUnique<T(!new)>(lt: (T, T) -> bool, a: seq<T>, b: seq<T>)
    requires StrictTotal(lt)
    requires Sorted(lt, a) && Sorted(lt, b) && Elems(a) == Elems(b)
    ensures a == b
  {
    ElemsEmpty(a);
    ElemsEmpty(b);
    if a != [] {
      assert a[0] in Elems(b);
      assert b[0] in Elems(a);
      assert a[0] == b[0];
      assert Elems(a[1..]) == Elems(a) - {a[0]} by { SortedTail(lt, a); }
      assert Elems(b[1..]) == Elems(b) - {b[0]} by { SortedTail(lt, b); }
      SortedUnique(lt, a[1..], b[1..]);
      assert a == [a[0]] + a[1..] && b == [b[0]] + b[1..];
    }
  }

  lemma SortedTail<T(!new)>(lt: (T, T) -> bool, a: seq<T>)
    requires StrictTotal(lt) && Sorted(lt, a) && a != []
    ensures Elems(a[1..]) == Elems(a) - {a[0]}
  {
    forall x | x in Elems(a) - {a[0]} ensures x in a[1..] {
      var i :| 0 <= i < |a| && a[i] == x;
      assert a[1..][i - 1] == x;
    }
  }

  /** Inserts a key into an ascending list. */
  function Insert<T(==)>(lt: (T, T) -> bool, x: T, s: seq<T>): (r: seq<T>)
    ensures |r| == |s| + 1
  {
    if s == [] then [x]
    else if lt(x, s[0]) then [x] + s
    else
      [s[0]] + Insert(lt, x, s[1..])
  }

  lemma {:induction false} InsertElems<T>(lt: (T, T) -> bool, x: T, s: seq<T>)
    ensures Elems(Insert(lt, x, s)) == Elems(s) + {x}
  {
    if s != [] && !lt(x, s[0]) {
      InsertElems(lt, x, s[1..]);
      assert s == [s[0]] + s[1..];
      assert Elems(s) == {s[0]} + Elems(s[1..]);
      assert Elems(Insert(lt, x, s)) == {s[0]} + Elems(Insert(lt, x, s[1..]));
    }
  }

  lemma {:induction false} InsertSorted<T(!new)>(lt: (T, T) -> bool, x: T, s: seq<T>)
    requires StrictTotal(lt) && Sorted(lt, s) && x !in s
    ensures Sorted(lt, Insert(lt, x, s))
  {
    if s != [] && !lt(x, s[0]) {
      InsertSorted(lt, x, s[1..]);
      InsertElems(lt, x, s[1..]);
      var r := Insert(lt, x, s[1..]);
      forall j | 0 <= j < |r| ensures lt(s[0], r[j]) {
        assert r[j] in Elems(r);
      }
    }
  }

  /** The ascending list of a finite set of keys. */
  ghost function SortedKeys<T(!new)>(lt: (T, T) -> bool, s: set<T>): (r: seq<T>)
    requires StrictTotal(lt)
    ensures Sorted(lt, r) && Elems(r) == s
  {
    if s == {} then []
    else
      var x :| x in s;
      var rest := SortedKeys(lt, s - {x});
      assert x !in rest by { assert x in rest ==> x in Elems(rest); }
      InsertSorted(lt, x, rest);
      InsertElems(lt, x, rest);
      Insert(lt, x, rest)
  }

  /**
  Collects the keys in whatever order the map yields them and sorts: the
  nondeterministic choice stands for Go's map iteration order.
  */
  method CollectSorted<T(!new, ==)>(lt: (T, T) -> bool, s: set<T>) returns (ks: seq<T>)
    requires StrictTotal(lt)
    ensures ks == SortedKeys(lt, s)
  {
    ks := [];
    var todo := s;
    while todo != {}
      invariant todo <= s
      invariant Sorted(lt, ks) && Elems(ks) == s - todo
      decreases todo
    {
      var k :| k in todo;
      assert k !in ks by { assert k in ks ==> k in Elems(ks); }
      InsertSorted(lt, k, ks);
      InsertElems(lt, k, ks);
      ks := Insert(lt, k, ks);
      todo := todo - {k};
    }
    SortedUnique(lt, ks, SortedKeys(lt, s));
  }
}
