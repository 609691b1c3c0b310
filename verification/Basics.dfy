/** Option and Result, shared by every module of the model. */
module Basics {

  datatype Option<+T> = None | Some(value: T)

  /** A Go (value, error) pair: the value is meaningful only without an error. */
  datatype Result<+T, +E> = Ok(value: T) | Err(error: E) {
    predicate IsFailure() {
      Err?
    }

    function PropagateFailure<U>(): Result<U, E>
      requires Err?
    {
      Err(error)
    }

    function Extract(): T
      requires Ok?
    {
      value
    }
  }

  /** The elements of a sequence, as a set. */
  function Elems<T>(s: seq<T>): set<T> {
    set x | x in s
  }

  /** The elements of all sequences, one after the other. */
  function Flat<T>(ss: seq<seq<T>>): seq<T> {
    if ss == [] then [] else Flat(ss[..|ss| - 1]) + ss[|ss| - 1]
  }

  predicate NoDuplicates<T(==)>(s: seq<T>) {
    forall i, j :: 0 <= i < j < |s| ==> s[i] != s[j]
  }

  /** Some element of a non-empty set. */
  ghost function Any<T>(s: set<T>): (x: T)
    requires s != {}
    ensures x in s
  {
    var x :| x in s;
    x
  }

  /** The list visits every element of the set once: an order in which Go may iterate over it. */
  ghost predicate Enumerates<T>(order: seq<T>, s: set<T>) {
    NoDuplicates(order) && Elems(order) == s
  }

  /** Some order of a set. */
  ghost function Listing<T>(s: set<T>): (order: seq<T>)
    ensures Enumerates(order, s)
  {
    if s == {} then []
    else
      var x := Any(s);
      var rest := Listing(s - {x});
      assert x !in rest by { assert x in rest ==> x in Elems(rest); }
      assert Elems([x] + rest) == {x} + Elems(rest);
      [x] + rest
  }

  /** Putting one element in front of the others. */
  lemma ListingFrom<T>(x: T, s: set<T>)
    requires x in s
    ensures Enumerates([x] + Listing(s - {x}), s)
  {
    var rest := Listing(s - {x});
    assert x !in rest by { assert x in rest ==> x in Elems(rest); }
    assert Elems([x] + rest) == {x} + Elems(rest);
  }
}
