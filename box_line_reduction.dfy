/**
 * Box/line reduction: when a digit's places in a row (or column) all lie in one
 * box, the digit leaves the rest of that box.
 */
module BoxLineReduction {
  import opened Wrappers
  import opened Sorted
  import opened Cells
  import opened Figures
  import opened Grids
  import opened Actions

  /** The action for one digit's places in a line: strike `d` from the rest of their common box, if any. */
  function ReductionOf(ps: seq<nat>, d: nat): (r: Option<Action>)
    requires forall i :: 0 <= i < |ps| ==> ps[i] < 81
  {
    var pencilmarksFigure := SetOf(ps);
    var sqr := IsOnTheSameSqr(pencilmarksFigure);
    if sqr.None? then None
    else
      var p := ps[0];
      assert p in pencilmarksFigure;
      OfBounds(p);
      Some(RemovePencilmarks(Sqr(sqr.value) - pencilmarksFigure, [d]))
  }

  /** The actions the digits of `ks` with exactly `n` places yield in one line's info map. */
  function ReductionsAmong(info: map<nat, seq<nat>>, n: nat, ks: set<nat>): set<Action>
    requires InfoBounded(info)
  {
    set d | d in ks && d in info && |info[d]| == n && ReductionOf(info[d], d).Some?
      :: ReductionOf(info[d], d).value
  }

  /** `find_in_figure`, as a set. */
  function ReductionsIn(b: seq<Cell>, f: Figure, n: nat): set<Action>
    requires |b| == 81 && OnBoard(f)
  {
    InfoOnBoard(b, f);
    ReductionsAmong(Info(b, f), n, Info(b, f).Keys)
  }

  /** The scan order: row 0, column 0, row 1, column 1, ..., column 8. */
  function Line(k: nat): (f: Figure)
    requires k < 18
    ensures |f| == 9 && OnBoard(f)
  {
    if k % 2 == 0 then Row(k / 2) else Col(k / 2)
  }

  function ReductionsByLine(b: seq<Cell>, n: nat): (parts: seq<set<Action>>)
    requires |b| == 81
    ensures |parts| == 18
  {
    seq(18, k requires 0 <= k < 18 => ReductionsIn(b, Line(k), n))
  }

  /** `BoxLineReductionCreator { n }.get_all_applications`, as a set. */
  function BoxLine(b: seq<Cell>, n: nat): set<Action>
    requires |b| == 81
  {
    Union(ReductionsByLine(b, n))
  }

  lemma ReductionsStep(info: map<nat, seq<nat>>, n: nat, ks: set<nat>, d: nat)
    requires InfoBounded(info) && d in info
    ensures ReductionsAmong(info, n, ks + {d})
         == ReductionsAmong(info, n, ks)
            + if |info[d]| == n && ReductionOf(info[d], d).Some? then {ReductionOf(info[d], d).value} else {}
  {
  }

  /** `find_in_figure`: emit for each digit of the line boxed in by its `n` places. */
  method FindInFigure(g: Grid, figure: Figure, n: nat) returns (res: set<Action>)
    requires g.Valid() && OnBoard(figure)
    ensures res == ReductionsIn(g.Cells(), figure, n)
  {
    var info := g.PencilmarksInfo(figure);
    InfoOnBoard(g.Cells(), figure);
    res := CollectIn(info, n);
  }

  /** The loop of `find_in_figure` over one line's info map. */
  method CollectIn(info: map<nat, seq<nat>>, n: nat) returns (res: set<Action>)
    requires InfoBounded(info)
    ensures res == ReductionsAmong(info, n, info.Keys)
  {
    res := {};
    var rest := info.Keys;
    while rest != {}
      invariant rest <= info.Keys
      invariant res == ReductionsAmong(info, n, info.Keys - rest)
      decreases |rest|
    {
      var pencilmark :| pencilmark in rest;
      ReductionsStep(info, n, info.Keys - rest, pencilmark);
      assert info.Keys - (rest - {pencilmark}) == (info.Keys - rest) + {pencilmark};
      var positions := info[pencilmark];
      if |positions| == n {
        var pencilmarksFigure := SetOf(positions);
        var sqr := IsOnTheSameSqr(pencilmarksFigure);
        if sqr.Some? {
          assert positions[0] in pencilmarksFigure;
          OfBounds(positions[0]);
          res := res + {RemovePencilmarks(Sqr(sqr.value) - pencilmarksFigure, [pencilmark])};
        }
      }
      rest := rest - {pencilmark};
    }
    assert info.Keys - rest == info.Keys;
  }

  lemma LinesAt(b: seq<Cell>, n: nat, i: nat)
    requires |b| == 81 && i < 9
    ensures ReductionsByLine(b, n)[2 * i] == ReductionsIn(b, Row(i), n)
    ensures ReductionsByLine(b, n)[2 * i + 1] == ReductionsIn(b, Col(i), n)
  {
    assert Line(2 * i) == Row(i) && Line(2 * i + 1) == Col(i);
  }

  /** `BoxLineReductionCreator::get_all_applications`: row `i` then column `i`, for `i` in 0..8. */
  method GetAllApplications(n: nat, g: Grid) returns (res: set<Action>)
    requires g.Valid()
    ensures res == BoxLine(g.Cells(), n)
  {
    res := {};
    ghost var parts := ReductionsByLine(g.Cells(), n);
    for i := 0 to 9
      invariant res == Union(parts[..2 * i])
    {
      LinesAt(g.Cells(), n, i);
      var inRow := FindInFigure(g, Row(i), n);
      UnionSnoc(parts, 2 * i);
      res := res + inRow;
      var inCol := FindInFigure(g, Col(i), n);
      UnionSnoc(parts, 2 * i + 1);
      res := res + inCol;
    }
    assert parts[..18] == parts;
  }

  // --------------------------------------------------------------- meaning

  /**
   * Line `f` confines `d` to `n` squares that all lie in one box, and `a` strikes
   * `d` from the other squares of that box.
   */
  ghost predicate Reduces(b: seq<Cell>, f: Figure, n: nat, d: nat, a: Action)
    requires |b| == 81 && OnBoard(f)
  {
    var h := Holders(b, f, d);
    && n >= 1
    && |h| == n
    && exists s: nat :: s < 9 && h <= Sqr(s) && a == RemovePencilmarks(Sqr(s) - h, [d])
  }

  /** The box test accepts a non-empty list exactly when its squares share a box, and names that box. */
  lemma ReductionOfMeaning(ps: seq<nat>, d: nat, a: Action)
    requires ps != [] && forall i :: 0 <= i < |ps| ==> ps[i] < 81
    ensures ReductionOf(ps, d) == Some(a)
        <==> exists s: nat :: s < 9 && SetOf(ps) <= Sqr(s) && a == RemovePencilmarks(Sqr(s) - SetOf(ps), [d])
  {
    var f := SetOf(ps);
    var p := ps[0];
    assert p in f;
    OfBounds(p);
    if ReductionOf(ps, d) == Some(a) {
      var s := IsOnTheSameSqr(f).value;
      assert s == SqrOf(p);
      assert f <= Sqr(s);
    }
    if exists s: nat :: s < 9 && f <= Sqr(s) && a == RemovePencilmarks(Sqr(s) - f, [d]) {
      var s: nat :| s < 9 && f <= Sqr(s) && a == RemovePencilmarks(Sqr(s) - f, [d]);
      assert p in Sqr(s);
      assert IsOnTheSameSqr(f).Some?;
      assert IsOnTheSameSqr(f).value == SqrOf(p);
    }
  }

  /** A digit of line `f` that passes the box test is boxed in, and its action clears the box. */
  lemma DigitSound(b: seq<Cell>, f: Figure, n: nat, d: nat, a: Action)
    requires CanonicalBoard(b) && OnBoard(f) && InfoBounded(Info(b, f))
    requires d in Info(b, f) && |Info(b, f)[d]| == n && ReductionOf(Info(b, f)[d], d) == Some(a)
    ensures Reduces(b, f, n, d, a)
  {
    InfoHolders(b, f, d);
    BoxedMeaning(Holders(b, f, d), d, a);
  }

  /** A boxed-in digit of line `f` passes the box test with the action that clears its box. */
  lemma DigitComplete(b: seq<Cell>, f: Figure, n: nat, d: nat, a: Action)
    requires CanonicalBoard(b) && OnBoard(f) && Reduces(b, f, n, d, a)
    ensures InfoBounded(Info(b, f))
    ensures d in Info(b, f) && |Info(b, f)[d]| == n && ReductionOf(Info(b, f)[d], d) == Some(a)
  {
    InfoOnBoard(b, f);
    InfoHolders(b, f, d);
    BoxedMeaning(Holders(b, f, d), d, a);
  }

  /** `ReductionOfMeaning` for the ascending listing of a set of squares. */
  lemma BoxedMeaning(h: set<nat>, d: nat, a: Action)
    requires h != {} && OnBoard(h)
    ensures forall i :: 0 <= i < |Elements(h)| ==> Elements(h)[i] < 81
    ensures ReductionOf(Elements(h), d) == Some(a)
        <==> exists s: nat :: s < 9 && h <= Sqr(s) && a == RemovePencilmarks(Sqr(s) - h, [d])
  {
    ElementsOnBoard(h);
    ElementsSetOf(h);
    var ps := Elements(h);
    assert ps[0] in h;
    ReductionOfMeaning(ps, d, a);
  }

  /** On a canonical board, line `f` yields exactly the actions of its boxed-in digits. */
  lemma ReductionsInMeaning(b: seq<Cell>, f: Figure, n: nat, a: Action)
    requires CanonicalBoard(b) && OnBoard(f)
    ensures a in ReductionsIn(b, f, n) <==> exists d :: Reduces(b, f, n, d, a)
  {
    var info := Info(b, f);
    InfoOnBoard(b, f);
    if a in ReductionsIn(b, f, n) {
      var d :| d in info && |info[d]| == n && ReductionOf(info[d], d).Some? && a == ReductionOf(info[d], d).value;
      DigitSound(b, f, n, d, a);
    }
    if exists d :: Reduces(b, f, n, d, a) {
      var d :| Reduces(b, f, n, d, a);
      DigitComplete(b, f, n, d, a);
    }
  }

  /** Some digit of line `f` is boxed in, and `a` clears the rest of its box. */
  ghost predicate ReducesIn(b: seq<Cell>, f: Figure, n: nat, a: Action)
    requires |b| == 81 && OnBoard(f)
  {
    exists d :: Reduces(b, f, n, d, a)
  }

  /** On a canonical board, box/line reduction yields exactly the boxed-in digits of the 18 lines. */
  lemma BoxLineMeaning(b: seq<Cell>, n: nat, a: Action)
    requires CanonicalBoard(b)
    ensures a in BoxLine(b, n) <==> exists k: nat :: k < 18 && ReducesIn(b, Line(k), n, a)
  {
    UnionMember(ReductionsByLine(b, n), a);
    forall k | 0 <= k < 18 ensures a in ReductionsByLine(b, n)[k] <==> ReducesIn(b, Line(k), n, a) {
      ReductionsInMeaning(b, Line(k), n, a);
    }
  }

  /** Places spread over two boxes never yield an action for their digit. */
  lemma SpreadYieldsNothing(b: seq<Cell>, f: Figure, n: nat, d: nat, a: Action)
    requires CanonicalBoard(b) && OnBoard(f)
    requires forall s: nat :: s < 9 ==> !(Holders(b, f, d) <= Sqr(s))
    ensures InfoBounded(Info(b, f))
    ensures !(d in Info(b, f) && |Info(b, f)[d]| == n && ReductionOf(Info(b, f)[d], d) == Some(a))
  {
    InfoOnBoard(b, f);
    if d in Info(b, f) && |Info(b, f)[d]| == n && ReductionOf(Info(b, f)[d], d) == Some(a) {
      DigitSound(b, f, n, d, a);
    }
  }

  /** Every reduction strikes exactly `d` from `9 - n` squares, all inside one box and off the places. */
  lemma ReducesShape(b: seq<Cell>, f: Figure, n: nat, d: nat, a: Action)
    requires |b| == 81 && OnBoard(f) && Reduces(b, f, n, d, a)
    ensures a.RemovePencilmarks? && a.pencilmarks == [d] && |a.figure| == 9 - n
    ensures exists s: nat :: s < 9 && a.figure <= Sqr(s)
    ensures a.figure !! Holders(b, f, d)
  {
    var h := Holders(b, f, d);
    var s: nat :| s < 9 && h <= Sqr(s) && a == RemovePencilmarks(Sqr(s) - h, [d]);
    DiffCard(Sqr(s), h);
  }
}
