/**
 * Figures: sets of board positions 0..80 (row-major, so position p is row p / 9, column p % 9).
 * Only the three checked constructors are given in the source; the other helpers here
 * (`row`, `col`, `sqr`, `row_of`, `col_of`, `sqr_of`, `neighbours`, `all_figures`,
 * `is_on_the_same_row/col/sqr`) are reconstructions chosen to agree with those constructors.
 */
module Figures {
  import opened Wrappers
  import opened Sorted

  /** A `Figure` wraps a `BTreeSet<usize>`: a set of positions, iterated in ascending order. */
  type Figure = set<nat>

  datatype FigureNumberOutOfBoundError = FigureNumberOutOfBoundError

  /** The positions of box 0; box n is this shape shifted right by 3 (n % 3) and down by 3 (n / 3) rows. */
  const ZeroethSquare: seq<nat> := [0, 1, 2, 9, 10, 11, 18, 19, 20]

  predicate OnBoard(f: Figure) {
    forall p :: p in f ==> p < 81
  }

  /** Reconstruction of `Figure::row_of`. */
  function RowOf(p: nat): nat {
    p / 9
  }

  /** Reconstruction of `Figure::col_of`. */
  function ColOf(p: nat): nat {
    p % 9
  }

  /** Reconstruction of `Figure::sqr_of`: the box a position lies in, numbered row-major. */
  function SqrOf(p: nat): nat {
    (p / 27) * 3 + (p % 9) / 3
  }

  lemma OfBounds(p: nat)
    requires p < 81
    ensures RowOf(p) < 9 && ColOf(p) < 9 && SqrOf(p) < 9
    ensures p == RowOf(p) * 9 + ColOf(p)
    ensures SqrOf(p) == (RowOf(p) / 3) * 3 + ColOf(p) / 3
  {
  }

  /** The `n`-th row, or the out-of-bounds error exactly when `n > 8`. */
  function RowChecked(n: nat): (r: Result<Figure, FigureNumberOutOfBoundError>)
    ensures r.Failure? <==> n > 8
    ensures r.Success? ==> forall p: nat :: p in r.value <==> p < 81 && RowOf(p) == n
    ensures r.Success? ==> |r.value| == 9
  {
    if n > 8 then Failure(FigureNumberOutOfBoundError)
    else
      var s: seq<nat> := seq(9, i requires 0 <= i < 9 => i + n * 9);
      RowShape(n, s);
      Success(SetOf(s))
  }

  lemma RowShape(n: nat, s: seq<nat>)
    requires n <= 8 && |s| == 9 && forall i :: 0 <= i < 9 ==> s[i] == i + n * 9
    ensures forall p: nat :: p in SetOf(s) <==> p < 81 && RowOf(p) == n
    ensures |SetOf(s)| == 9
  {
    var b := n * 9;
    assert s == [b, b + 1, b + 2, b + 3, b + 4, b + 5, b + 6, b + 7, b + 8];
    AscendingCard(s);
  }

  /** The `n`-th column, or the out-of-bounds error exactly when `n > 8`. */
  function ColChecked(n: nat): (r: Result<Figure, FigureNumberOutOfBoundError>)
    ensures r.Failure? <==> n > 8
    ensures r.Success? ==> forall p: nat :: p in r.value <==> p < 81 && ColOf(p) == n
    ensures r.Success? ==> |r.value| == 9
  {
    if n > 8 then Failure(FigureNumberOutOfBoundError)
    else
      var s: seq<nat> := seq(9, i requires 0 <= i < 9 => i * 9 + n);
      ColShape(n, s);
      Success(SetOf(s))
  }

  lemma ColShape(n: nat, s: seq<nat>)
    requires n <= 8 && |s| == 9 && forall i :: 0 <= i < 9 ==> s[i] == i * 9 + n
    ensures forall p: nat :: p in SetOf(s) <==> p < 81 && ColOf(p) == n
    ensures |SetOf(s)| == 9
  {
    assert s == [n, n + 9, n + 18, n + 27, n + 36, n + 45, n + 54, n + 63, n + 72];
    AscendingCard(s);
  }

  /** The `n`-th box, or the out-of-bounds error exactly when `n > 8`. */
  function SqrChecked(n: nat): (r: Result<Figure, FigureNumberOutOfBoundError>)
    ensures r.Failure? <==> n > 8
    ensures r.Success? ==> forall p: nat :: p in r.value <==> p < 81 && SqrOf(p) == n
    ensures r.Success? ==> |r.value| == 9
  {
    if n > 8 then Failure(FigureNumberOutOfBoundError)
    else
      var a := 3 * (n % 3);
      var b := 27 * (n / 3);
      var s: seq<nat> := seq(9, i requires 0 <= i < 9 => ZeroethSquare[i] + a + b);
      SqrShape(n, s);
      Success(SetOf(s))
  }

  lemma SqrShape(n: nat, s: seq<nat>)
    requires n <= 8 && |s| == 9
    requires forall i :: 0 <= i < 9 ==> s[i] == ZeroethSquare[i] + 3 * (n % 3) + 27 * (n / 3)
    ensures forall p: nat :: p in SetOf(s) <==> p < 81 && SqrOf(p) == n
    ensures |SetOf(s)| == 9
  {
    SqrCard(n, s);
    ZeroethShape();
    forall p: nat ensures p in SetOf(s) <==> p < 81 && SqrOf(p) == n {
      if p in SetOf(s) {
        var i :| 0 <= i < 9 && s[i] == p;
        InShape(n / 3, n % 3, i / 3, i % 3);
      }
      if p < 81 && SqrOf(p) == n {
        Decomp(p);
        var i := 3 * ((p / 9) % 3) + p % 3;
        assert s[i] == p;
      }
    }
  }

  lemma SqrCard(n: nat, s: seq<nat>)
    requires n <= 8 && |s| == 9
    requires forall i :: 0 <= i < 9 ==> s[i] == ZeroethSquare[i] + 3 * (n % 3) + 27 * (n / 3)
    ensures |SetOf(s)| == 9
  {
    var b := 3 * (n % 3) + 27 * (n / 3);
    assert s == [b, b + 1, b + 2, b + 9, b + 10, b + 11, b + 18, b + 19, b + 20];
    AscendingCard(s);
  }

  lemma ZeroethShape()
    ensures forall i :: 0 <= i < 9 ==> ZeroethSquare[i] == 9 * (i / 3) + i % 3
  {
  }

  /** Every position splits into band, row in band, stack, column in stack. */
  lemma Decomp(p: nat)
    requires p < 81
    ensures p == 27 * (p / 27) + 9 * ((p / 9) % 3) + 3 * ((p % 9) / 3) + p % 3
    ensures (p / 9) % 3 < 3 && (p % 9) / 3 < 3 && p % 3 < 3
    ensures p / 27 == SqrOf(p) / 3 && (p % 9) / 3 == SqrOf(p) % 3
  {
  }

  lemma InShape(band: nat, stack: nat, r: nat, c: nat)
    requires band < 3 && stack < 3 && r < 3 && c < 3
    ensures var p := 27 * band + 9 * r + 3 * stack + c; p < 81 && SqrOf(p) == 3 * band + stack
  {
  }

  /** The fixtures of the row tests, and the out-of-bounds test. */
  lemma RowFixtures()
    ensures RowChecked(1) == Success({9, 10, 11, 12, 13, 14, 15, 16, 17})
    ensures RowChecked(8) == Success({72, 73, 74, 75, 76, 77, 78, 79, 80})
    ensures RowChecked(9).Failure?
  {
    RowFixtureOne();
    RowFixtureEight();
  }

  lemma RowFixtureOne()
    ensures RowChecked(1) == Success({9, 10, 11, 12, 13, 14, 15, 16, 17})
  {
    SameSet(RowChecked(1).value, {9, 10, 11, 12, 13, 14, 15, 16, 17});
  }

  lemma RowFixtureEight()
    ensures RowChecked(8) == Success({72, 73, 74, 75, 76, 77, 78, 79, 80})
  {
    SameSet(RowChecked(8).value, {72, 73, 74, 75, 76, 77, 78, 79, 80});
  }

  /** The fixtures of the column tests, and the out-of-bounds test. */
  lemma ColFixtures()
    ensures ColChecked(1) == Success({1, 10, 19, 28, 37, 46, 55, 64, 73})
    ensures ColChecked(8) == Success({8, 17, 26, 35, 44, 53, 62, 71, 80})
    ensures ColChecked(9).Failure?
  {
    ColFixtureOne();
    ColFixtureEight();
  }

  lemma ColFixtureOne()
    ensures ColChecked(1) == Success({1, 10, 19, 28, 37, 46, 55, 64, 73})
  {
    SameSet(ColChecked(1).value, {1, 10, 19, 28, 37, 46, 55, 64, 73});
  }

  lemma ColFixtureEight()
    ensures ColChecked(8) == Success({8, 17, 26, 35, 44, 53, 62, 71, 80})
  {
    SameSet(ColChecked(8).value, {8, 17, 26, 35, 44, 53, 62, 71, 80});
  }

  /** The fixtures of the box tests, and the out-of-bounds test. */
  lemma SqrFixtures()
    ensures SqrChecked(1) == Success({3, 4, 5, 12, 13, 14, 21, 22, 23})
    ensures SqrChecked(8) == Success({60, 61, 62, 69, 70, 71, 78, 79, 80})
    ensures SqrChecked(9).Failure?
  {
    SqrFixtureOne();
    SqrFixtureEight();
  }

  lemma SqrFixtureOne()
    ensures SqrChecked(1) == Success({3, 4, 5, 12, 13, 14, 21, 22, 23})
  {
    var v := SqrChecked(1).value;
    forall p: nat ensures p in v <==> p in {3, 4, 5, 12, 13, 14, 21, 22, 23} {
      if p < 81 {
        BoxOne(p);
      }
    }
    SameSet(v, {3, 4, 5, 12, 13, 14, 21, 22, 23});
  }

  lemma SqrFixtureEight()
    ensures SqrChecked(8) == Success({60, 61, 62, 69, 70, 71, 78, 79, 80})
  {
    var v := SqrChecked(8).value;
    forall p: nat ensures p in v <==> p in {60, 61, 62, 69, 70, 71, 78, 79, 80} {
      if p < 81 {
        BoxEight(p);
      }
    }
    SameSet(v, {60, 61, 62, 69, 70, 71, 78, 79, 80});
  }

  lemma BoxOne(p: nat)
    requires p < 81
    ensures p in {3, 4, 5, 12, 13, 14, 21, 22, 23} <==> SqrOf(p) == 1
  {
  }

  lemma BoxEight(p: nat)
    requires p < 81
    ensures p in {60, 61, 62, 69, 70, 71, 78, 79, 80} <==> SqrOf(p) == 8
  {
  }

  lemma SameSet(a: set<nat>, b: set<nat>)
    requires forall p :: p in a <==> p in b
    ensures a == b
  {
  }

  /** Reconstruction of `Figure::row`: the checked constructor with the bound as a precondition. */
  function Row(n: nat): (f: Figure)
    requires n < 9
    ensures forall p: nat :: p in f <==> p < 81 && RowOf(p) == n
    ensures |f| == 9
  {
    RowChecked(n).value
  }

  /** Reconstruction of `Figure::col`. */
  function Col(n: nat): (f: Figure)
    requires n < 9
    ensures forall p: nat :: p in f <==> p < 81 && ColOf(p) == n
    ensures |f| == 9
  {
    ColChecked(n).value
  }

  /** Reconstruction of `Figure::sqr`. */
  function Sqr(n: nat): (f: Figure)
    requires n < 9
    ensures forall p: nat :: p in f <==> p < 81 && SqrOf(p) == n
    ensures |f| == 9
  {
    SqrChecked(n).value
  }

  /** Two positions see each other: they share a row, a column or a box. */
  predicate SameUnit(p: nat, q: nat) {
    RowOf(p) == RowOf(q) || ColOf(p) == ColOf(q) || SqrOf(p) == SqrOf(q)
  }

  /** Reconstruction of `Figure::neighbours`: the row, column and box of `p` together (`p` included). */
  function Neighbours(p: nat): (f: Figure)
    requires p < 81
    ensures forall q: nat :: q in f <==> q < 81 && SameUnit(p, q)
  {
    OfBounds(p);
    Row(RowOf(p)) + Col(ColOf(p)) + Sqr(SqrOf(p))
  }

  /** Seeing each other is symmetric, and every cell sees itself. */
  lemma NeighboursSymmetric(p: nat, q: nat)
    requires p < 81 && q < 81
    ensures q in Neighbours(p) <==> p in Neighbours(q)
    ensures p in Neighbours(p)
  {
  }

  /** The 27 units: rows 0..8, then columns 0..8, then boxes 0..8 (reconstruction of `all_figures`). */
  function Unit(k: nat): (f: Figure)
    requires k < 27
    ensures |f| == 9 && OnBoard(f)
  {
    if k < 9 then Row(k) else if k < 18 then Col(k - 9) else Sqr(k - 18)
  }

  function AllFigures(): (fs: seq<Figure>)
    ensures |fs| == 27 && forall k :: 0 <= k < 27 ==> fs[k] == Unit(k)
  {
    seq(27, k requires 0 <= k < 27 => Unit(k))
  }

  /** Every position lies in exactly one row, one column and one box. */
  lemma Partition(p: nat, n: nat)
    requires p < 81 && n < 9
    ensures RowOf(p) < 9 && ColOf(p) < 9 && SqrOf(p) < 9
    ensures p in Row(n) <==> n == RowOf(p)
    ensures p in Col(n) <==> n == ColOf(p)
    ensures p in Sqr(n) <==> n == SqrOf(p)
  {
    OfBounds(p);
  }

  /** Reconstruction of `is_on_the_same_row`: the common row of a non-empty figure, if it has one. */
  function IsOnTheSameRow(f: Figure): (r: Option<nat>)
    ensures r.Some? <==> f != {} && forall p, q :: p in f && q in f ==> RowOf(p) == RowOf(q)
    ensures r.Some? ==> forall p :: p in f ==> RowOf(p) == r.value
  {
    if f == {} then None
    else
      var m := Min(f);
      if forall p :: p in f ==> RowOf(p) == RowOf(m) then Some(RowOf(m)) else None
  }

  /** Reconstruction of `is_on_the_same_col`. */
  function IsOnTheSameCol(f: Figure): (r: Option<nat>)
    ensures r.Some? <==> f != {} && forall p, q :: p in f && q in f ==> ColOf(p) == ColOf(q)
    ensures r.Some? ==> forall p :: p in f ==> ColOf(p) == r.value
  {
    if f == {} then None
    else
      var m := Min(f);
      if forall p :: p in f ==> ColOf(p) == ColOf(m) then Some(ColOf(m)) else None
  }

  /** Reconstruction of `is_on_the_same_sqr`. */
  function IsOnTheSameSqr(f: Figure): (r: Option<nat>)
    ensures r.Some? <==> f != {} && forall p, q :: p in f && q in f ==> SqrOf(p) == SqrOf(q)
    ensures r.Some? ==> forall p :: p in f ==> SqrOf(p) == r.value
  {
    if f == {} then None
    else
      var m := Min(f);
      if forall p :: p in f ==> SqrOf(p) == SqrOf(m) then Some(SqrOf(m)) else None
  }

  /** A position split into band, row in band, stack and column in stack; rows, columns and boxes read off linearly. */
  lemma Split(p: nat) returns (band: nat, r: nat, stack: nat, c: nat)
    requires p < 81
    ensures p == 27 * band + 9 * r + 3 * stack + c
    ensures band < 3 && r < 3 && stack < 3 && c < 3
    ensures RowOf(p) == 3 * band + r && ColOf(p) == 3 * stack + c && SqrOf(p) == 3 * band + stack
  {
    Decomp(p);
    band, r, stack, c := p / 27, (p / 9) % 3, (p % 9) / 3, p % 3;
  }

  /**
   * Inside one box, two positions `p < q` share a row exactly when they are 1 or 2
   * apart, and share a column exactly when they are 9 or 18 apart.
   */
  lemma BoxDistance(p: nat, q: nat)
    requires p < q < 81 && SqrOf(p) == SqrOf(q)
    ensures RowOf(p) == RowOf(q) <==> q - p == 1 || q - p == 2
    ensures ColOf(p) == ColOf(q) <==> q - p == 9 || q - p == 18
  {
    var bp, rp, sp, cp := Split(p);
    var bq, rq, sq, cq := Split(q);
  }

  /** Listing a figure on the board gives positions on the board. */
  lemma ElementsOnBoard(f: Figure)
    requires OnBoard(f)
    ensures forall k :: 0 <= k < |Elements(f)| ==> Elements(f)[k] < 81 && Elements(f)[k] in f
  {
    var ps := Elements(f);
    forall k | 0 <= k < |ps| ensures ps[k] < 81 && ps[k] in f {
      var x := ps[k];
      assert x in ps;
    }
  }

  // ---------------------------------------------- lines by orientation
  // In row mode the lines are the rows and the cross-lines the columns; in column mode the
  // other way round.

  /** Row `i` in row mode, column `i` in column mode (see `LineOfIs`). */
  function LineOf(inRow: bool, i: nat): (f: Figure)
    ensures OnBoard(f)
  {
    set p: nat | p < 81 && LineIndex(p, inRow) == i
  }

  lemma LineOfIs(inRow: bool, i: nat)
    requires i < 9
    ensures LineOf(inRow, i) == if inRow then Row(i) else Col(i)
  {
  }

  /** The index of the line through `p`: its row in row mode, its column in column mode. */
  function LineIndex(p: nat, inRow: bool): nat {
    if inRow then RowOf(p) else ColOf(p)
  }

  /** The index of the cross-line through `p`: its column in row mode, its row in column mode. */
  function CrossIndex(p: nat, inRow: bool): nat {
    if inRow then ColOf(p) else RowOf(p)
  }

  /** The cross-line `j`: column `j` in row mode, row `j` in column mode. */
  function CrossLine(inRow: bool, j: nat): (f: Figure)
    ensures OnBoard(f)
  {
    LineOf(!inRow, j)
  }

  /** The square where line `i` meets cross-line `x`. */
  function At(inRow: bool, i: nat, x: nat): nat {
    if inRow then 9 * i + x else 9 * x + i
  }

  lemma AtCoordinates(inRow: bool, i: nat, x: nat)
    requires i < 9 && x < 9
    ensures At(inRow, i, x) < 81
    ensures LineIndex(At(inRow, i, x), inRow) == i && CrossIndex(At(inRow, i, x), inRow) == x
  {
  }

  lemma Coordinates(p: nat, inRow: bool)
    requires p < 81
    ensures LineIndex(p, inRow) < 9 && CrossIndex(p, inRow) < 9
    ensures p == At(inRow, LineIndex(p, inRow), CrossIndex(p, inRow))
  {
    OfBounds(p);
  }

  lemma CrossLineCard(inRow: bool, j: nat)
    requires j < 9
    ensures |CrossLine(inRow, j)| == 9
  {
    LineOfIs(!inRow, j);
  }
}
