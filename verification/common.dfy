/** Helpers the models share. */
module Common {

  datatype Option<+T> = None | Some(value: T)

  function ToSet<T(==)>(s: seq<T>): set<T> { set x | x in s }

  predicate Distinct<T(==)>(s: seq<T>) {
    forall i, j :: 0 <= i < j < |s| ==> s[i] != s[j]
  }

  /** The sequence holds each element of the set once, in some order. */
  ghost predicate Lists<T(!new)>(s: seq<T>, elements: set<T>) {
    && (forall x :: x in s <==> x in elements)
    && Distinct(s)
  }
}
