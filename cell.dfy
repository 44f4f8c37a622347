/** One square of the board: either a placed digit or the list of digits still possible there. */
module Cells {
  import opened Sorted

  datatype Cell = Number(n: nat) | Pencilmarks(marks: seq<nat>)

  predicate IsDigit(d: nat) {
    1 <= d <= 9
  }

  /** The form every candidate list takes in a grid: ascending, no repeats, digits only. */
  predicate Canonical(c: Cell) {
    c.Pencilmarks? ==> StrictlyAscending(c.marks) && forall x :: x in c.marks ==> IsDigit(x)
  }

  /** `d` is still a candidate of the unsolved square `c`. */
  predicate HasMark(c: Cell, d: nat) {
    c.Pencilmarks? && d in c.marks
  }

  function AllPencilmarks(): Cell {
    Pencilmarks([1, 2, 3, 4, 5, 6, 7, 8, 9])
  }

  function IsNumber(c: Cell): (b: bool)
    ensures b <==> c.Number?
  {
    match c
    case Number(_) => true
    case Pencilmarks(_) => false
  }

  function IsPencilmarks(c: Cell): (b: bool)
    ensures b <==> c.Pencilmarks?
  {
    match c
    case Number(_) => false
    case Pencilmarks(_) => true
  }

  /** The placed digit; only defined on a solved square (the source panics otherwise). */
  function NumberOf(c: Cell): (n: nat)
    requires c.Number?
    ensures c == Number(n)
  {
    match c
    case Number(n) => n
  }

  /** The candidate list, unchanged; only defined on an unsolved square (the source panics otherwise). */
  function PencilmarksOf(c: Cell): (ps: seq<nat>)
    requires c.Pencilmarks?
    ensures c == Pencilmarks(ps)
  {
    match c
    case Pencilmarks(p) => p
  }

  /** `ms` with every element of `ds` dropped, order kept (`Vec::retain` with a `!contains` test). */
  function RemoveAll(ms: seq<nat>, ds: set<nat>): (r: seq<nat>)
    ensures forall x :: x in r <==> x in ms && x !in ds
    ensures |r| <= |ms|
    ensures StrictlyAscending(ms) ==> StrictlyAscending(r)
  {
    if ms == [] then []
    else
      var rest := RemoveAll(ms[1..], ds);
      assert forall x :: x in ms <==> x == ms[0] || x in ms[1..];
      if ms[0] in ds then
        assert StrictlyAscending(ms) ==> StrictlyAscending(rest) by {
          if StrictlyAscending(ms) { AscendingHead(ms); }
        }
        rest
      else
        assert StrictlyAscending(ms) ==> StrictlyAscending([ms[0]] + rest) by {
          if StrictlyAscending(ms) { AscendingHead(ms); AscendingCons(ms[0], rest); }
        }
        [ms[0]] + rest
  }

  /** `ms` with only the elements of `ds` kept, order kept (`Vec::retain` with a `contains` test). */
  function KeepOnly(ms: seq<nat>, ds: set<nat>): (r: seq<nat>)
    ensures forall x :: x in r <==> x in ms && x in ds
    ensures |r| <= |ms|
    ensures StrictlyAscending(ms) ==> StrictlyAscending(r)
  {
    if ms == [] then []
    else
      var rest := KeepOnly(ms[1..], ds);
      assert forall x :: x in ms <==> x == ms[0] || x in ms[1..];
      if ms[0] in ds then
        assert StrictlyAscending(ms) ==> StrictlyAscending([ms[0]] + rest) by {
          if StrictlyAscending(ms) { AscendingHead(ms); AscendingCons(ms[0], rest); }
        }
        [ms[0]] + rest
      else
        assert StrictlyAscending(ms) ==> StrictlyAscending(rest) by {
          if StrictlyAscending(ms) { AscendingHead(ms); }
        }
        rest
  }

  lemma {:induction false} RemoveAllNothing(ms: seq<nat>, ds: set<nat>)
    requires forall x :: x in ms ==> x !in ds
    ensures RemoveAll(ms, ds) == ms
  {
    if ms != [] {
      assert ms[0] in ms;
      RemoveAllNothing(ms[1..], ds);
    }
  }

  lemma {:induction false} RemoveAllTwice(ms: seq<nat>, ds: set<nat>, es: set<nat>)
    ensures RemoveAll(RemoveAll(ms, ds), es) == RemoveAll(ms, ds + es)
  {
    if ms != [] {
      RemoveAllTwice(ms[1..], ds, es);
      if ms[0] !in ds {
        assert RemoveAll([ms[0]] + RemoveAll(ms[1..], ds), es)
            == (if ms[0] in es then [] else [ms[0]]) + RemoveAll(RemoveAll(ms[1..], ds), es) by {
          var t := [ms[0]] + RemoveAll(ms[1..], ds);
          assert t[0] == ms[0] && t[1..] == RemoveAll(ms[1..], ds);
        }
      }
    }
  }

  lemma {:induction false} KeepOnlyEverything(ms: seq<nat>, ds: set<nat>)
    requires forall x :: x in ms ==> x in ds
    ensures KeepOnly(ms, ds) == ms
  {
    if ms != [] {
      assert ms[0] in ms;
      KeepOnlyEverything(ms[1..], ds);
    }
  }

  /** `all_pencilmarks()` is the unsolved square holding every digit once, in ascending order. */
  lemma AllPencilmarksAreTheDigits()
    ensures AllPencilmarks().Pencilmarks? && Canonical(AllPencilmarks())
    ensures forall d :: HasMark(AllPencilmarks(), d) <==> IsDigit(d)
    ensures |AllPencilmarks().marks| == 9
  {
  }

  /** A square is solved or unsolved, never both. */
  lemma NumberOrPencilmarks(c: Cell)
    ensures IsNumber(c) != IsPencilmarks(c)
  {
  }
}
