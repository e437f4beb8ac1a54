/** The optional value, bytes, the arbitrary choice that stands for Go's map iteration order, and
    what several modules say about sequences. */
module Wrappers {
  datatype Option<+T> = None | Some(value: T)

  type byte = x: int | 0 <= x < 0x100

  method Pick<T>(s: set<T>) returns (x: T)
    requires s != {}
    ensures x in s
  {
    x :| x in s;
  }

  ghost predicate NoRepeats<T>(s: seq<T>) {
    forall i, j :: 0 <= i < j < |s| ==> s[i] != s[j]
  }

  function Elements<T>(s: seq<T>): set<T> {
    set x | x in s
  }

  lemma AppendAssociates<T>(a: seq<T>, b: seq<T>, c: seq<T>)
    ensures a + (b + c) == (a + b) + c
  {
  }

  /** A loop over a set: what it has dealt with and what is left. */
  ghost predicate Splits<T>(all: set<T>, seen: set<T>, todo: set<T>) {
    seen !! todo && seen + todo == all
  }

  lemma SplitsOneMore<T>(all: set<T>, seen: set<T>, todo: set<T>, x: T)
    requires Splits(all, seen, todo) && x in todo
    ensures x in all && x !in seen && Splits(all, seen + {x}, todo - {x})
  {
  }
}
