/** The 81-square board, its parser, and the queries and edits every strategy is built from. */
module Grids {
  import opened Wrappers
  import opened Sorted
  import opened Cells
  import opened Figures

  datatype ParseGridError = InvalidSize(size: nat) | InvalidCharacter(position: nat)

  /** What `retain(|&x| !ds.contains(&x))` leaves of a square: a placed digit is untouched. */
  function Stripped(c: Cell, ds: set<nat>): (r: Cell)
    ensures r.Number? <==> c.Number?
    ensures c.Number? ==> r == c
    ensures r.Pencilmarks? ==> forall x :: x in r.marks <==> x in c.marks && x !in ds
    ensures Canonical(c) ==> Canonical(r)
  {
    match c
    case Number(_) => c
    case Pencilmarks(ms) => Pencilmarks(RemoveAll(ms, ds))
  }

  /** What `retain(|&x| ds.contains(&x))` leaves of a square: a placed digit is untouched. */
  function Kept(c: Cell, ds: set<nat>): (r: Cell)
    ensures r.Number? <==> c.Number?
    ensures c.Number? ==> r == c
    ensures r.Pencilmarks? ==> forall x :: x in r.marks <==> x in c.marks && x in ds
    ensures Canonical(c) ==> Canonical(r)
  {
    match c
    case Number(_) => c
    case Pencilmarks(ms) => Pencilmarks(KeepOnly(ms, ds))
  }

  /**
   * The board after `updtae_cell_neighbours(i)`: when square `i` holds a digit, that digit is
   * struck from every unsolved square sharing a unit with `i`; otherwise nothing happens.
   */
  function UpdatedNeighbours(b: seq<Cell>, i: nat): (r: seq<Cell>)
    requires |b| == 81 && i < 81
    ensures |r| == 81
  {
    if b[i].Pencilmarks? then b
    else
      var ns := Neighbours(i);
      seq(81, q requires 0 <= q < 81 => if q in ns then Stripped(b[q], {b[i].n}) else b[q])
  }

  /**
   * `updtae_cell_neighbours(i)` does nothing when square `i` is unsolved; it never touches a solved
   * square or a square outside the units of `i`, never adds a candidate, and leaves no unsolved
   * square of those units holding the digit of `i`.
   */
  lemma UpdatedNeighboursEffect(b: seq<Cell>, i: nat)
    requires |b| == 81 && i < 81
    ensures var r := UpdatedNeighbours(b, i);
      && (b[i].Pencilmarks? ==> r == b)
      && (forall q :: 0 <= q < 81 && b[q].Number? ==> r[q] == b[q])
      && (forall q :: 0 <= q < 81 && !SameUnit(i, q) ==> r[q] == b[q])
      && (forall q :: 0 <= q < 81 ==> (r[q].Pencilmarks? <==> b[q].Pencilmarks?))
      && (b[i].Number? ==> forall q :: 0 <= q < 81 && SameUnit(i, q) && r[q].Pencilmarks? ==> b[i].n !in r[q].marks)
      && (forall q, x :: 0 <= q < 81 && HasMark(r[q], x) ==> HasMark(b[q], x))
  {
  }

  /** The exact value of a neighbour after `updtae_cell_neighbours(i)`, when `i` is solved. */
  lemma UpdatedNeighbourCell(b: seq<Cell>, i: nat, q: nat)
    requires |b| == 81 && i < 81 && q < 81 && b[i].Number?
    ensures UpdatedNeighbours(b, i)[q] == if SameUnit(i, q) then Stripped(b[q], {b[i].n}) else b[q]
  {
  }

  lemma UpdatedNeighboursExact(b: seq<Cell>, i: nat, r: seq<Cell>)
    requires |b| == 81 && i < 81 && b[i].Number? && |r| == 81
    requires forall q :: 0 <= q < 81 ==> r[q] == if q in Neighbours(i) then Stripped(b[q], {b[i].n}) else b[q]
    ensures r == UpdatedNeighbours(b, i)
  {
  }

  /** The board after `set_number(p, d)`. */
  function AfterSetNumber(b: seq<Cell>, p: nat, d: nat): (r: seq<Cell>)
    requires |b| == 81 && p < 81
    ensures |r| == 81
  {
    UpdatedNeighbours(b[p := Number(d)], p)
  }

  /**
   * `set_number(p, d)` leaves `Number(d)` at `p`, strikes `d` from every unsolved square that sees
   * `p`, changes no other square and no solved square, and never adds a candidate.
   */
  lemma SetNumberEffect(b: seq<Cell>, p: nat, d: nat)
    requires |b| == 81 && p < 81
    ensures var r := AfterSetNumber(b, p, d);
      && r[p] == Number(d)
      && (forall q :: 0 <= q < 81 && q != p && b[q].Number? ==> r[q] == b[q])
      && (forall q :: 0 <= q < 81 && !SameUnit(p, q) ==> r[q] == b[q])
      && (forall q :: 0 <= q < 81 && SameUnit(p, q) && r[q].Pencilmarks? ==> d !in r[q].marks)
      && (forall q, x :: 0 <= q < 81 && q != p && HasMark(r[q], x) ==> HasMark(b[q], x))
  {
    UpdatedNeighboursEffect(b[p := Number(d)], p);
  }

  /** `char::to_digit(10)`. */
  function ToDigit(c: char): (r: Option<nat>)
    ensures r.Some? <==> '0' <= c <= '9'
    ensures r.Some? ==> r.value <= 9
  {
    if '0' <= c <= '9' then Some((c as int - '0' as int) as nat) else None
  }

  /** The index of the first character from `from` on that is not a decimal digit. */
  function FirstNonDigit(s: string, from: nat): (r: Option<nat>)
    requires from <= |s|
    ensures r.None? <==> forall j :: from <= j < |s| ==> ToDigit(s[j]).Some?
    ensures r.Some? ==> from <= r.value < |s| && ToDigit(s[r.value]).None?
    ensures r.Some? ==> forall j :: from <= j < r.value ==> ToDigit(s[j]).Some?
    decreases |s| - from
  {
    if from == |s| then None
    else if ToDigit(s[from]).None? then Some(from)
    else FirstNonDigit(s, from + 1)
  }

  /** The board written by the character loop of `from_str`, before eliminations. */
  function Written(s: string): (r: seq<Cell>)
    requires |s| == 81 && forall j :: 0 <= j < 81 ==> ToDigit(s[j]).Some?
    ensures |r| == 81
  {
    seq(81, i requires 0 <= i < 81 =>
      var d := ToDigit(s[i]).value;
      if d != 0 then Number(d) else AllPencilmarks())
  }

  /** The board after `updtae_cell_neighbours` has run on squares 0..k-1 in turn. */
  function Swept(b: seq<Cell>, k: nat): (r: seq<Cell>)
    requires |b| == 81 && k <= 81
    ensures |r| == 81
  {
    if k == 0 then b else UpdatedNeighbours(Swept(b, k - 1), k - 1)
  }

  /** What `Grid::from_str` returns, on an ASCII string. */
  function Parse(s: string): (r: Result<seq<Cell>, ParseGridError>)
    ensures r.Success? ==> |r.value| == 81
  {
    if |s| != 81 then Failure(InvalidSize(|s|))
    else
      match FirstNonDigit(s, 0)
      case Some(i) => Failure(InvalidCharacter(i))
      case None => Success(Swept(Written(s), 81))
  }

  /** The digits given in the string at squares below `k` that share a unit with `q`. */
  function GivensSeen(s: string, k: nat, q: nat): set<nat>
    requires |s| == 81 && k <= 81
  {
    set j: nat | j < k && SameUnit(j, q) && ToDigit(s[j]).Some? && ToDigit(s[j]).value != 0
      :: ToDigit(s[j]).value
  }

  /** The two error cases of `from_str`: a wrong length, else the first non-digit character. */
  lemma ParseErrors(s: string)
    ensures Parse(s).Failure? && Parse(s).error.InvalidSize? <==> |s| != 81
    ensures |s| != 81 ==> Parse(s).error.size == |s|
    ensures forall i: nat :: Parse(s) == Failure(InvalidCharacter(i)) <==>
      |s| == 81 && i < 81 && ToDigit(s[i]).None? && forall j :: 0 <= j < i ==> ToDigit(s[j]).Some?
    ensures Parse(s).Success? <==> |s| == 81 && forall j :: 0 <= j < 81 ==> ToDigit(s[j]).Some?
  {
    if |s| == 81 {
      forall i: nat | i < 81 && ToDigit(s[i]).None? && forall j :: 0 <= j < i ==> ToDigit(s[j]).Some?
        ensures FirstNonDigit(s, 0) == Some(i)
      {
        var r := FirstNonDigit(s, 0);
        assert !(forall j :: 0 <= j < |s| ==> ToDigit(s[j]).Some?);
        assert r.Some?;
      }
    }
  }

  /** The state of the sweep after squares 0..k-1: givens stay, blanks lose the givens they see. */
  predicate SweptState(s: string, b: seq<Cell>, k: nat)
    requires |s| == 81 && |b| == 81 && k <= 81 && forall j :: 0 <= j < 81 ==> ToDigit(s[j]).Some?
  {
    forall q :: 0 <= q < 81 ==>
      var d := ToDigit(s[q]).value;
      b[q] == if d != 0 then Number(d) else Pencilmarks(RemoveAll([1, 2, 3, 4, 5, 6, 7, 8, 9], GivensSeen(s, k, q)))
  }

  lemma {:induction false} SweptInvariant(s: string, k: nat)
    requires |s| == 81 && k <= 81 && forall j :: 0 <= j < 81 ==> ToDigit(s[j]).Some?
    ensures SweptState(s, Swept(Written(s), k), k)
  {
    if k == 0 {
      forall q | 0 <= q < 81 ensures GivensSeen(s, 0, q) == {} {
      }
      RemoveAllNothing([1, 2, 3, 4, 5, 6, 7, 8, 9], {});
    } else {
      SweptInvariant(s, k - 1);
      SweptStep(s, Swept(Written(s), k - 1), k - 1);
    }
  }

  lemma SweptStep(s: string, b: seq<Cell>, i: nat)
    requires |s| == 81 && |b| == 81 && i < 81 && forall j :: 0 <= j < 81 ==> ToDigit(s[j]).Some?
    requires SweptState(s, b, i)
    ensures SweptState(s, UpdatedNeighbours(b, i), i + 1)
  {
    forall q | 0 <= q < 81 {
      SweptCell(s, b, i, q);
    }
  }

  lemma GivensSeenStep(s: string, i: nat, q: nat)
    requires |s| == 81 && i < 81 && forall j :: 0 <= j < 81 ==> ToDigit(s[j]).Some?
    ensures var dk := ToDigit(s[i]).value;
      GivensSeen(s, i + 1, q) == GivensSeen(s, i, q) + if dk != 0 && SameUnit(i, q) then {dk} else {}
  {
    var dk := ToDigit(s[i]).value;
    var g := GivensSeen(s, i, q);
    var h := GivensSeen(s, i + 1, q);
    forall x | x in h ensures x in g || (dk != 0 && SameUnit(i, q) && x == dk) {
      var j: nat :| j < i + 1 && SameUnit(j, q) && ToDigit(s[j]).Some? && ToDigit(s[j]).value != 0 && x == ToDigit(s[j]).value;
      if j < i {
        assert x in g;
      }
    }
    if dk != 0 && SameUnit(i, q) {
      assert dk in h;
    }
  }

  lemma SweptCell(s: string, b: seq<Cell>, i: nat, q: nat)
    requires |s| == 81 && |b| == 81 && i < 81 && q < 81 && forall j :: 0 <= j < 81 ==> ToDigit(s[j]).Some?
    requires SweptState(s, b, i)
    ensures var d := ToDigit(s[q]).value;
      UpdatedNeighbours(b, i)[q] == if d != 0 then Number(d) else Pencilmarks(RemoveAll([1, 2, 3, 4, 5, 6, 7, 8, 9], GivensSeen(s, i + 1, q)))
  {
    var all: seq<nat> := [1, 2, 3, 4, 5, 6, 7, 8, 9];
    var dk := ToDigit(s[i]).value;
    assert b[i] == if dk != 0 then Number(dk) else Pencilmarks(RemoveAll(all, GivensSeen(s, i, i)));
    GivensSeenStep(s, i, q);
    SweptCellAt(s, b, i, q, GivensSeen(s, i, q));
  }

  lemma SweptCellAt(s: string, b: seq<Cell>, i: nat, q: nat, g: set<nat>)
    requires |s| == 81 && |b| == 81 && i < 81 && q < 81 && forall j :: 0 <= j < 81 ==> ToDigit(s[j]).Some?
    requires ToDigit(s[i]).value != 0 ==> b[i] == Number(ToDigit(s[i]).value)
    requires ToDigit(s[i]).value == 0 ==> b[i].Pencilmarks?
    requires var d := ToDigit(s[q]).value;
      b[q] == if d != 0 then Number(d) else Pencilmarks(RemoveAll([1, 2, 3, 4, 5, 6, 7, 8, 9], g))
    requires var dk := ToDigit(s[i]).value;
      GivensSeen(s, i + 1, q) == g + if dk != 0 && SameUnit(i, q) then {dk} else {}
    ensures var d := ToDigit(s[q]).value;
      UpdatedNeighbours(b, i)[q] == if d != 0 then Number(d) else Pencilmarks(RemoveAll([1, 2, 3, 4, 5, 6, 7, 8, 9], GivensSeen(s, i + 1, q)))
  {
    var all: seq<nat> := [1, 2, 3, 4, 5, 6, 7, 8, 9];
    var d := ToDigit(s[q]).value;
    var dk := ToDigit(s[i]).value;
    if dk == 0 {
      assert UpdatedNeighbours(b, i) == b;
      assert GivensSeen(s, i + 1, q) == g;
    } else {
      UpdatedNeighbourCell(b, i, q);
      if !SameUnit(i, q) {
        assert GivensSeen(s, i + 1, q) == g;
      } else if d == 0 {
        RemoveAllTwice(all, g, {dk});
        assert UpdatedNeighbours(b, i)[q] == Pencilmarks(RemoveAll(RemoveAll(all, g), {dk}));
      }
    }
  }

  /**
   * A successful parse: a non-zero digit becomes that number, and a '0' becomes the digits
   * 1..9, ascending, minus every digit given in its row, column or box.
   */
  lemma ParseMeaning(s: string)
    requires Parse(s).Success?
    ensures forall i :: 0 <= i < 81 ==>
      var d := ToDigit(s[i]).value;
      (d != 0 ==> Parse(s).value[i] == Number(d)) &&
      (d == 0 ==> Parse(s).value[i] == Pencilmarks(RemoveAll([1, 2, 3, 4, 5, 6, 7, 8, 9], GivensSeen(s, 81, i))))
  {
    ParseErrors(s);
    SweptInvariant(s, 81);
  }

  /** How often `d` occurs in `ms`. */
  function Count(ms: seq<nat>, d: nat): (k: nat)
    ensures k == 0 <==> d !in ms
    ensures k <= |ms|
  {
    if ms == [] then 0
    else
      assert ms == ms[..|ms| - 1] + [ms[|ms| - 1]];
      Count(ms[..|ms| - 1], d) + if ms[|ms| - 1] == d then 1 else 0
  }

  /** In a list without repeats a digit occurs at most once. */
  lemma {:induction false} CountAscending(ms: seq<nat>, d: nat)
    requires StrictlyAscending(ms)
    ensures Count(ms, d) == if d in ms then 1 else 0
  {
    if ms != [] {
      var init := ms[..|ms| - 1];
      assert StrictlyAscending(init);
      CountAscending(init, d);
      assert ms == init + [ms[|ms| - 1]];
      if ms[|ms| - 1] == d {
        forall x | x in init ensures x < d {
          var k :| 0 <= k < |init| && init[k] == x;
          assert ms[k] == x;
        }
      }
    }
  }

  /** `p` written `k` times. */
  function Repeat(p: nat, k: nat): (r: seq<nat>)
    ensures |r| == k && forall x :: x in r ==> x == p
  {
    if k == 0 then [] else Repeat(p, k - 1) + [p]
  }

  /** The squares of `ps` that are unsolved, as `pencilmarks_info` meets them, once per occurrence of `d`. */
  function InfoList(b: seq<Cell>, ps: seq<nat>, d: nat): (r: seq<nat>)
    requires |b| == 81 && forall i :: 0 <= i < |ps| ==> ps[i] < 81
  {
    if ps == [] then []
    else
      var p := ps[|ps| - 1];
      var init := InfoList(b, ps[..|ps| - 1], d);
      assert forall x :: x in ps[..|ps| - 1] ==> x in ps;
      init + if b[p].Pencilmarks? then Repeat(p, Count(b[p].marks, d)) else []
  }

  /** Every digit written in an unsolved square of `ps`. */
  function InfoKeys(b: seq<Cell>, ps: seq<nat>): (r: set<nat>)
    requires |b| == 81 && forall i :: 0 <= i < |ps| ==> ps[i] < 81
  {
    if ps == [] then {}
    else
      var p := ps[|ps| - 1];
      var init := ps[..|ps| - 1];
      InfoKeys(b, init) + if b[p].Pencilmarks? then SetOf(b[p].marks) else {}
  }

  lemma {:induction false} InfoKeysMember(b: seq<Cell>, ps: seq<nat>)
    requires |b| == 81 && forall i :: 0 <= i < |ps| ==> ps[i] < 81
    ensures forall d :: d in InfoKeys(b, ps) <==> exists x :: x in ps && HasMark(b[x], d)
  {
    if ps != [] {
      var p := ps[|ps| - 1];
      InfoKeysMember(b, ps[..|ps| - 1]);
      assert forall x :: x in ps <==> x in ps[..|ps| - 1] || x == p;
    }
  }

  lemma {:induction false} InfoListEmpty(b: seq<Cell>, ps: seq<nat>, d: nat)
    requires |b| == 81 && forall i :: 0 <= i < |ps| ==> ps[i] < 81
    ensures InfoList(b, ps, d) == [] <==> d !in InfoKeys(b, ps)
  {
    if ps != [] {
      var p := ps[|ps| - 1];
      InfoListEmpty(b, ps[..|ps| - 1], d);
      assert forall x :: x in ps <==> x in ps[..|ps| - 1] || x == p;
    }
  }

  /** The map `pencilmarks_info` builds while reading the squares of `ps` in order. */
  function InfoOf(b: seq<Cell>, ps: seq<nat>): map<nat, seq<nat>>
    requires |b| == 81 && forall i :: 0 <= i < |ps| ==> ps[i] < 81
  {
    map d | d in InfoKeys(b, ps) :: InfoList(b, ps, d)
  }

  /** `pencilmarks_info(f)`: the figure is read in ascending order. */
  function Info(b: seq<Cell>, f: Figure): map<nat, seq<nat>>
    requires |b| == 81 && OnBoard(f)
  {
    var ps := Elements(f);
    assert forall i :: 0 <= i < |ps| ==> ps[i] in f by {
      forall i | 0 <= i < |ps| ensures ps[i] in f {
        var x := ps[i];
        assert x in ps;
      }
    }
    InfoOf(b, ps)
  }

  /** The squares of `f` whose candidates hold `d`. */
  function Holders(b: seq<Cell>, f: Figure, d: nat): set<nat>
    requires |b| == 81 && OnBoard(f)
  {
    set p | p in f && HasMark(b[p], d)
  }

  /** Every candidate list on the board is ascending, without repeats, and made of digits. */
  predicate CanonicalBoard(b: seq<Cell>) {
    |b| == 81 && forall q: nat :: q < 81 ==> Canonical(b[q])
  }

  /** Every position listed by `pencilmarks_info(f)` for `d` is a square of `f` holding `d`. */
  lemma InfoInFigure(b: seq<Cell>, f: Figure, d: nat)
    requires |b| == 81 && OnBoard(f) && d in Info(b, f)
    ensures forall i :: 0 <= i < |Info(b, f)[d]| ==> Info(b, f)[d][i] in f && HasMark(b[Info(b, f)[d][i]], d)
  {
    var ps := Elements(f);
    ElementsOnBoard(f);
    InfoListMember(b, ps, d);
    var l := Info(b, f)[d];
    forall i | 0 <= i < |l|
      ensures l[i] in f && HasMark(b[l[i]], d)
    {
      var x := l[i];
      assert x in l;
    }
  }

  lemma {:induction false} InfoListNonDecreasing(b: seq<Cell>, ps: seq<nat>, d: nat)
    requires |b| == 81 && forall i :: 0 <= i < |ps| ==> ps[i] < 81
    requires StrictlyAscending(ps)
    ensures NonDecreasing(InfoList(b, ps, d))
  {
    if ps != [] {
      var n := |ps| - 1;
      var p := ps[n];
      var init := ps[..n];
      InfoListNonDecreasing(b, init, d);
      InfoListMember(b, init, d);
      var l := InfoList(b, init, d);
      var tail := if b[p].Pencilmarks? then Repeat(p, Count(b[p].marks, d)) else [];
      assert InfoList(b, ps, d) == l + tail;
      forall i, j | 0 <= i < j < |l + tail| ensures (l + tail)[i] <= (l + tail)[j] {
        if j < |l| {
          assert (l + tail)[i] == l[i] && (l + tail)[j] == l[j];
        } else {
          var y := tail[j - |l|];
          assert y in tail;
          assert (l + tail)[j] == p;
          if i < |l| {
            var x := l[i];
            assert x in l;
            var k :| 0 <= k < n && init[k] == x;
            assert ps[k] < ps[n];
          } else {
            var z := tail[i - |l|];
            assert z in tail;
          }
        }
      }
    }
  }

  /** Every list `pencilmarks_info` builds is in ascending square order, so sorting it changes nothing. */
  lemma InfoSorted(b: seq<Cell>, f: Figure, d: nat)
    requires |b| == 81 && OnBoard(f) && d in Info(b, f)
    ensures NonDecreasing(Info(b, f)[d])
  {
    ElementsOnBoard(f);
    InfoListNonDecreasing(b, Elements(f), d);
  }

  /** Every position an info map lists is a square of the board. */
  predicate InfoBounded(info: map<nat, seq<nat>>) {
    forall d, i :: d in info && 0 <= i < |info[d]| ==> info[d][i] < 81
  }

  lemma InfoOnBoard(b: seq<Cell>, f: Figure)
    requires |b| == 81 && OnBoard(f)
    ensures InfoBounded(Info(b, f))
  {
    forall d, i | d in Info(b, f) && 0 <= i < |Info(b, f)[d]|
      ensures Info(b, f)[d][i] < 81
    {
      InfoInFigure(b, f, d);
    }
  }

  lemma {:induction false} InfoListMember(b: seq<Cell>, ps: seq<nat>, d: nat)
    requires |b| == 81 && forall i :: 0 <= i < |ps| ==> ps[i] < 81
    ensures forall x :: x in InfoList(b, ps, d) ==> x in ps && HasMark(b[x], d)
  {
    if ps != [] {
      var p := ps[|ps| - 1];
      InfoListMember(b, ps[..|ps| - 1], d);
      assert forall x :: x in ps[..|ps| - 1] ==> x in ps;
    }
  }

  /** Every list in the info map is non-empty, and a digit is a key iff some unsolved square of `f` holds it. */
  lemma InfoKeysMeaning(b: seq<Cell>, f: Figure)
    requires |b| == 81 && OnBoard(f)
    ensures forall d :: d in Info(b, f) <==> exists p :: p in f && HasMark(b[p], d)
    ensures forall d :: d in Info(b, f) ==> Info(b, f)[d] != []
  {
    ElementsOnBoard(f);
    InfoKeysMember(b, Elements(f));
    forall d | d in Info(b, f) ensures Info(b, f)[d] != [] {
      InfoListEmpty(b, Elements(f), d);
    }
  }

  /** The squares of `ps` whose candidate list contains `d`, in the order of `ps`. */
  function Holding(b: seq<Cell>, ps: seq<nat>, d: nat): (r: seq<nat>)
    requires |b| == 81 && forall i :: 0 <= i < |ps| ==> ps[i] < 81
    ensures forall x :: x in r <==> x in ps && HasMark(b[x], d)
    ensures StrictlyAscending(ps) ==> StrictlyAscending(r)
  {
    if ps == [] then []
    else
      var p := ps[|ps| - 1];
      var init := ps[..|ps| - 1];
      var r := Holding(b, init, d);
      assert forall x :: x in ps <==> x in init || x == p;
      if HasMark(b[p], d) then
        assert StrictlyAscending(ps) ==> StrictlyAscending(r + [p]) by {
          if StrictlyAscending(ps) {
            forall x | x in r ensures x < p {
              var k :| 0 <= k < |init| && init[k] == x;
              assert ps[k] == x;
            }
            AscendingSnoc(r, p);
          }
        }
        r + [p]
      else
        r
  }

  lemma {:induction false} InfoListCanonical(b: seq<Cell>, ps: seq<nat>, d: nat)
    requires |b| == 81 && forall i :: 0 <= i < |ps| ==> ps[i] < 81
    requires forall i :: 0 <= i < |ps| ==> Canonical(b[ps[i]])
    ensures InfoList(b, ps, d) == Holding(b, ps, d)
  {
    if ps != [] {
      var p := ps[|ps| - 1];
      InfoListCanonical(b, ps[..|ps| - 1], d);
      if b[p].Pencilmarks? {
        CountAscending(b[p].marks, d);
      }
    }
  }

  /**
   * On a board whose candidate lists have no repeats, `pencilmarks_info(f)` maps each digit to
   * exactly the ascending positions of `f` whose unsolved square holds it.
   */
  lemma InfoMeaning(b: seq<Cell>, f: Figure)
    requires |b| == 81 && OnBoard(f)
    requires forall p :: p in f ==> Canonical(b[p])
    ensures forall d :: d in Info(b, f) <==> exists p :: p in f && HasMark(b[p], d)
    ensures forall d :: d in Info(b, f) ==> Info(b, f)[d] == Elements(Holders(b, f, d))
  {
    InfoKeysMeaning(b, f);
    forall d | d in Info(b, f) ensures Info(b, f)[d] == Elements(Holders(b, f, d)) {
      InfoEntry(b, f, d);
    }
  }

  /** On a canonical board, `pencilmarks_info(f)` lists for `d` exactly the squares of `f` holding it, ascending. */
  lemma InfoHolders(b: seq<Cell>, f: Figure, d: nat)
    requires CanonicalBoard(b) && OnBoard(f)
    ensures d in Info(b, f) <==> Holders(b, f, d) != {}
    ensures d in Info(b, f) ==> Info(b, f)[d] == Elements(Holders(b, f, d))
    ensures d in Info(b, f) ==> |Info(b, f)[d]| == |Holders(b, f, d)|
  {
    InfoMeaning(b, f);
    if Holders(b, f, d) != {} {
      var p :| p in Holders(b, f, d);
      assert p in f && HasMark(b[p], d);
    }
  }

  lemma InfoEntry(b: seq<Cell>, f: Figure, d: nat)
    requires |b| == 81 && OnBoard(f)
    requires forall p :: p in f ==> Canonical(b[p])
    requires d in Info(b, f)
    ensures Info(b, f)[d] == Elements(Holders(b, f, d))
  {
    var ps := Elements(f);
    assert forall i :: 0 <= i < |ps| ==> ps[i] in f by {
      forall i | 0 <= i < |ps| ensures ps[i] in f {
        var x := ps[i];
        assert x in ps;
      }
    }
    assert Info(b, f)[d] == InfoList(b, ps, d);
    InfoListCanonical(b, ps, d);
    var h := Holding(b, ps, d);
    var e := Elements(Holders(b, f, d));
    AscendingUnique(h, e);
  }

  /** The board after the reconstructed `remove_pencilmarks(f, ds)`: every unsolved square of `f` loses `ds`. */
  function AfterRemove(b: seq<Cell>, f: Figure, ds: seq<nat>): (r: seq<Cell>)
    requires |b| == 81
    ensures |r| == 81
  {
    seq(81, q requires 0 <= q < 81 => if q in f then Stripped(b[q], SetOf(ds)) else b[q])
  }

  /** The board after the reconstructed `preserve_pencilmarks(f, ds)`: every unsolved square of `f` keeps only `ds`. */
  function AfterPreserve(b: seq<Cell>, f: Figure, ds: seq<nat>): (r: seq<Cell>)
    requires |b| == 81
    ensures |r| == 81
  {
    seq(81, q requires 0 <= q < 81 => if q in f then Kept(b[q], SetOf(ds)) else b[q])
  }

  /** A board is solved when no square still holds candidates. */
  predicate Solved(b: seq<Cell>) {
    forall i :: 0 <= i < |b| ==> b[i].Number?
  }

  /** `pencilmarks_info` part-way through square `p`: its first candidates `ms` are already recorded. */
  function Partial(b: seq<Cell>, ps: seq<nat>, p: nat, ms: seq<nat>): map<nat, seq<nat>>
    requires |b| == 81 && forall i :: 0 <= i < |ps| ==> ps[i] < 81
  {
    map d | d in InfoKeys(b, ps) + SetOf(ms) :: InfoList(b, ps, d) + Repeat(p, Count(ms, d))
  }

  lemma PartialStart(b: seq<Cell>, ps: seq<nat>, p: nat)
    requires |b| == 81 && forall i :: 0 <= i < |ps| ==> ps[i] < 81
    ensures Partial(b, ps, p, []) == InfoOf(b, ps)
  {
    var l, r := Partial(b, ps, p, []), InfoOf(b, ps);
    assert SetOf([]) == {};
    assert l.Keys == r.Keys;
    forall d | d in l.Keys
      ensures l[d] == r[d]
    {
      assert Repeat(p, Count([], d)) == [];
    }
  }

  lemma CountSnoc(ms: seq<nat>, m: nat, d: nat)
    ensures Count(ms + [m], d) == Count(ms, d) + if m == d then 1 else 0
  {
    assert (ms + [m])[..|ms|] == ms;
  }

  lemma SetOfSnoc(ms: seq<nat>, m: nat)
    ensures SetOf(ms + [m]) == SetOf(ms) + {m}
  {
    assert forall x :: x in ms + [m] <==> x in ms || x == m;
  }

  /** Recording one more candidate `m` of square `p`: push `p` onto `m`'s list, or start the list. */
  lemma PartialStep(b: seq<Cell>, ps: seq<nat>, p: nat, ms: seq<nat>, m: nat)
    requires |b| == 81 && forall i :: 0 <= i < |ps| ==> ps[i] < 81
    ensures var r := Partial(b, ps, p, ms);
      Partial(b, ps, p, ms + [m]) == if m in r then r[m := r[m] + [p]] else r[m := [p]]
  {
    var r := Partial(b, ps, p, ms);
    var t := Partial(b, ps, p, ms + [m]);
    var u := if m in r then r[m := r[m] + [p]] else r[m := [p]];
    SetOfSnoc(ms, m);
    assert t.Keys == u.Keys;
    forall d | d in t.Keys
      ensures t[d] == u[d]
    {
      CountSnoc(ms, m, d);
      if d == m && m !in r {
        InfoListEmpty(b, ps, m);
      }
    }
  }

  lemma SnocOnBoard(ps: seq<nat>, p: nat)
    requires p < 81 && forall i :: 0 <= i < |ps| ==> ps[i] < 81
    ensures forall i :: 0 <= i < |ps + [p]| ==> (ps + [p])[i] < 81
  {
    var qs := ps + [p];
    forall i | 0 <= i < |qs| ensures qs[i] < 81 {
      if i < |ps| { assert qs[i] == ps[i]; }
    }
  }

  lemma InfoSnoc(b: seq<Cell>, ps: seq<nat>, p: nat, d: nat)
    requires |b| == 81 && p < 81 && forall i :: 0 <= i < |ps| ==> ps[i] < 81
    requires forall i :: 0 <= i < |ps + [p]| ==> (ps + [p])[i] < 81
    ensures InfoKeys(b, ps + [p]) == InfoKeys(b, ps) + if b[p].Pencilmarks? then SetOf(b[p].marks) else {}
    ensures InfoList(b, ps + [p], d)
      == InfoList(b, ps, d) + if b[p].Pencilmarks? then Repeat(p, Count(b[p].marks, d)) else []
  {
    var qs := ps + [p];
    assert qs[..|ps|] == ps && qs[|qs| - 1] == p;
  }

  /** When square `p` has been read in full, the partial map is the map over `ps + [p]`. */
  lemma PartialEnd(b: seq<Cell>, ps: seq<nat>, p: nat)
    requires |b| == 81 && p < 81 && forall i :: 0 <= i < |ps| ==> ps[i] < 81
    ensures forall i :: 0 <= i < |ps + [p]| ==> (ps + [p])[i] < 81
    ensures b[p].Pencilmarks? ==> Partial(b, ps, p, b[p].marks) == InfoOf(b, ps + [p])
    ensures b[p].Number? ==> InfoOf(b, ps) == InfoOf(b, ps + [p])
  {
    SnocOnBoard(ps, p);
    var qs := ps + [p];
    var l := InfoOf(b, qs);
    var r := if b[p].Pencilmarks? then Partial(b, ps, p, b[p].marks) else InfoOf(b, ps);
    InfoSnoc(b, ps, p, 0);
    assert l.Keys == r.Keys;
    forall d | d in l.Keys
      ensures l[d] == r[d]
    {
      InfoSnoc(b, ps, p, d);
    }
  }

  /** The inner loop of `pencilmarks_info`: append square `p` to the list of each of its candidates `ms`. */
  method RecordSquare(info: map<nat, seq<nat>>, ghost b: seq<Cell>, ghost ps: seq<nat>, p: nat, ms: seq<nat>)
    returns (res: map<nat, seq<nat>>)
    requires |b| == 81 && forall i :: 0 <= i < |ps| ==> ps[i] < 81
    requires info == Partial(b, ps, p, [])
    ensures res == Partial(b, ps, p, ms)
  {
    res := info;
    for j := 0 to |ms|
      invariant res == Partial(b, ps, p, ms[..j])
    {
      var m := ms[j];
      PartialStep(b, ps, p, ms[..j], m);
      assert ms[..j + 1] == ms[..j] + [m];
      if m in res {
        res := res[m := res[m] + [p]];
      } else {
        res := res[m := [p]];
      }
    }
    assert ms[..|ms|] == ms;
  }

  class Grid {
    var matrix: array<Cell>

    ghost predicate Valid()
      reads this
    {
      matrix.Length == 81
    }

    function Cells(): seq<Cell>
      reads this, matrix
    {
      matrix[..]
    }

    constructor Of(b: seq<Cell>)
      requires |b| == 81
      ensures Valid() && Cells() == b && fresh(matrix)
    {
      matrix := new Cell[81](i requires 0 <= i < 81 => b[i]);
    }

    /** `Grid::from_str(s)`: read 81 digits (0 for a blank), then strike every given from the squares it sees. */
    static method FromStr(s: string) returns (r: Result<Grid, ParseGridError>)
      ensures r.Failure? <==> Parse(s).Failure?
      ensures r.Failure? ==> r.error == Parse(s).error
      ensures r.Success? ==> fresh(r.value) && fresh(r.value.matrix) && r.value.Valid()
      ensures r.Success? ==> r.value.Cells() == Parse(s).value
    {
      ParseErrors(s);
      if |s| != 81 {
        return Failure(InvalidSize(|s|));
      }
      var m := new Cell[81](_ => AllPencilmarks());
      for i := 0 to 81
        invariant forall j :: 0 <= j < i ==> ToDigit(s[j]).Some?
        invariant forall j :: 0 <= j < i ==> m[j] == if ToDigit(s[j]).value != 0 then Number(ToDigit(s[j]).value) else AllPencilmarks()
        invariant forall j :: i <= j < 81 ==> m[j] == AllPencilmarks()
      {
        var digit := ToDigit(s[i]);
        match digit {
          case Some(d) =>
            if d != 0 {
              m[i] := Number(d);
            }
          case None =>
            return Failure(InvalidCharacter(i));
        }
      }
      assert m[..] == Written(s);
      var grid := new Grid.Of(m[..]);
      for c := 0 to 81
        invariant fresh(grid) && fresh(grid.matrix) && grid.Valid()
        invariant grid.Cells() == Swept(Written(s), c)
      {
        grid.UpdateCellNeighbours(c);
      }
      return Success(grid);
    }

    /** `updtae_cell_neighbours(i)`. */
    method UpdateCellNeighbours(i: nat)
      requires Valid() && i < 81
      modifies matrix
      ensures Cells() == UpdatedNeighbours(old(Cells()), i)
    {
      var center := matrix[i];
      if center.Number? {
        var nf := Neighbours(i);
        var ns := Elements(nf);
        ElementsOnBoard(nf);
        StripEach(ns, {center.n});
        forall q | 0 <= q < 81
          ensures Cells()[q] == if q in nf then Stripped(old(Cells())[q], {center.n}) else old(Cells())[q]
        {
          assert Cells()[q] == matrix[q];
          assert old(Cells())[q] == old(matrix[q]);
          assert q in ns <==> q in nf;
        }
        UpdatedNeighboursExact(old(Cells()), i, Cells());
      }
    }

    /** Strike `ds` from every unsolved square listed in `ps`, one square at a time. */
    method StripEach(ps: seq<nat>, ds: set<nat>)
      requires Valid() && StrictlyAscending(ps) && forall k :: 0 <= k < |ps| ==> ps[k] < 81
      modifies matrix
      ensures forall q :: 0 <= q < 81 ==> matrix[q] == if q in ps then Stripped(old(matrix[q]), ds) else old(matrix[q])
    {
      for k := 0 to |ps|
        invariant forall q :: 0 <= q < 81 ==>
          matrix[q] == if q in ps[..k] then Stripped(old(matrix[q]), ds) else old(matrix[q])
      {
        var q := ps[k];
        AscendingNotBefore(ps, k);
        match matrix[q] {
          case Number(_) =>
          case Pencilmarks(ms) =>
            matrix[q] := Pencilmarks(RemoveAll(ms, ds));
        }
      }
      assert ps[..|ps|] == ps;
    }

    /** Keep only `ds` in every unsolved square listed in `ps`, one square at a time. */
    method KeepEach(ps: seq<nat>, ds: set<nat>)
      requires Valid() && StrictlyAscending(ps) && forall k :: 0 <= k < |ps| ==> ps[k] < 81
      modifies matrix
      ensures forall q :: 0 <= q < 81 ==> matrix[q] == if q in ps then Kept(old(matrix[q]), ds) else old(matrix[q])
    {
      for k := 0 to |ps|
        invariant forall q :: 0 <= q < 81 ==>
          matrix[q] == if q in ps[..k] then Kept(old(matrix[q]), ds) else old(matrix[q])
      {
        var q := ps[k];
        AscendingNotBefore(ps, k);
        match matrix[q] {
          case Number(_) =>
          case Pencilmarks(ms) =>
            matrix[q] := Pencilmarks(KeepOnly(ms, ds));
        }
      }
      assert ps[..|ps|] == ps;
    }

    /** `set_number(p, d)`: place `d` at `p` and strike it from every unsolved square that sees `p`. */
    method SetNumber(p: nat, d: nat)
      requires Valid() && p < 81
      modifies matrix
      ensures Cells() == AfterSetNumber(old(Cells()), p, d)
    {
      matrix[p] := Number(d);
      UpdateCellNeighbours(p);
    }

    /** `set_pencilmarks(p, ps)`: overwrite square `p` and nothing else. */
    method SetPencilmarks(p: nat, ps: seq<nat>)
      requires Valid() && p < 81
      modifies matrix
      ensures Cells() == old(Cells())[p := Pencilmarks(ps)]
    {
      matrix[p] := Pencilmarks(ps);
    }

    /** Reconstruction of `remove_pencilmarks(f, ds)`. */
    method RemovePencilmarks(f: Figure, ds: seq<nat>)
      requires Valid() && OnBoard(f)
      modifies matrix
      ensures Cells() == AfterRemove(old(Cells()), f, ds)
    {
      var ps := Elements(f);
      ElementsOnBoard(f);
      StripEach(ps, SetOf(ds));
    }

    /** Reconstruction of the grid edit behind `PreservePencilmarks`. */
    method PreservePencilmarks(f: Figure, ds: seq<nat>)
      requires Valid() && OnBoard(f)
      modifies matrix
      ensures Cells() == AfterPreserve(old(Cells()), f, ds)
    {
      var ps := Elements(f);
      ElementsOnBoard(f);
      KeepEach(ps, SetOf(ds));
    }

    /** `pencilmarks_info(f)`: for each digit, the squares of `f` (ascending) whose candidates hold it. */
    method PencilmarksInfo(f: Figure) returns (res: map<nat, seq<nat>>)
      requires Valid() && OnBoard(f)
      ensures res == Info(Cells(), f)
    {
      var ps := Elements(f);
      ElementsOnBoard(f);
      ghost var b := Cells();
      res := map[];
      for i := 0 to |ps|
        invariant res == InfoOf(b, ps[..i])
      {
        var p := ps[i];
        assert ps[..i + 1] == ps[..i] + [p];
        PartialEnd(b, ps[..i], p);
        assert matrix[p] == b[p];
        match matrix[p] {
          case Number(_) =>
          case Pencilmarks(ms) =>
            PartialStart(b, ps[..i], p);
            res := RecordSquare(res, b, ps[..i], p, ms);
        }
      }
      assert ps[..|ps|] == ps;
    }

    /** `is_solved()`: no square is `Pencilmarks`. */
    function IsSolved(): (r: bool)
      reads this, matrix
      requires Valid()
      ensures r <==> Solved(Cells())
    {
      !exists i :: 0 <= i < 81 && IsPencilmarks(matrix[i])
    }
  }
}
