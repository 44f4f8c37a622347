/**
 * Pointing pairs and triples: when a digit's places in a box all lie on one row
 * (or column), the digit leaves the rest of that row (or column).
 */
module PointingNs {
  import opened Wrappers
  import opened Sorted
  import opened Cells
  import opened Figures
  import opened Grids
  import opened Actions

  /**
   * The gap test on a digit's `n` ascending places in a box: for two places a gap
   * of 1, 2, 9 or 18; for three, two equal gaps of 1 or 9; nothing otherwise.
   */
  function Diff(ps: seq<nat>, n: nat): (r: Option<int>)
    requires |ps| == n
    ensures r.Some? ==> n == 2 || n == 3
  {
    if n == 2 then
      var current: int := ps[1] as int - ps[0] as int;
      if current == 1 || current == 2 || current == 9 || current == 18 then Some(current) else None
    else if n == 3 then
      var diff1: int := ps[1] as int - ps[0] as int;
      var diff2: int := ps[2] as int - ps[1] as int;
      if diff1 == diff2 && (diff1 == 1 || diff1 == 9) then Some(diff1) else None
    else
      None
  }

  /** A gap of 1 or 2 means the places share a row; otherwise they share a column. */
  predicate IsRowDiff(diff: int) {
    diff == 1 || diff == 2
  }

  /** Strike `d` from the row (or column) of the first place, except on the places themselves. */
  function PointingAction(ps: seq<nat>, d: nat, diff: int): Action
    requires |ps| >= 1 && ps[0] < 81
  {
    OfBounds(ps[0]);
    var line := if IsRowDiff(diff) then Row(RowOf(ps[0])) else Col(ColOf(ps[0]));
    RemovePencilmarks(line - SetOf(ps), [d])
  }

  /** The actions the digits of `ks` yield in one box's info map. */
  function PointingAmong(info: map<nat, seq<nat>>, n: nat, ks: set<nat>): set<Action>
    requires InfoBounded(info)
  {
    set d | d in ks && d in info && |info[d]| == n && Diff(info[d], n).Some?
      :: PointingAction(info[d], d, Diff(info[d], n).value)
  }

  function PointingIn(b: seq<Cell>, s: nat, n: nat): set<Action>
    requires |b| == 81 && s < 9
  {
    InfoOnBoard(b, Sqr(s));
    PointingAmong(Info(b, Sqr(s)), n, Info(b, Sqr(s)).Keys)
  }

  function PointingByBox(b: seq<Cell>, n: nat): (parts: seq<set<Action>>)
    requires |b| == 81
    ensures |parts| == 9
  {
    seq(9, s requires 0 <= s < 9 => PointingIn(b, s, n))
  }

  /** `PointingNsCreator { n }.get_all_applications`, as a set. */
  function Pointing(b: seq<Cell>, n: nat): set<Action>
    requires |b| == 81
  {
    Union(PointingByBox(b, n))
  }

  lemma PointingStep(info: map<nat, seq<nat>>, n: nat, ks: set<nat>, d: nat)
    requires InfoBounded(info) && d in info
    ensures PointingAmong(info, n, ks + {d})
         == PointingAmong(info, n, ks)
            + if |info[d]| == n && Diff(info[d], n).Some?
              then {PointingAction(info[d], d, Diff(info[d], n).value)} else {}
  {
  }

  /** One box: walk its info map, test each digit with `n` places, emit along the line found. */
  method CollectIn(info: map<nat, seq<nat>>, n: nat) returns (found: set<Action>)
    requires InfoBounded(info)
    ensures found == PointingAmong(info, n, info.Keys)
  {
    found := {};
    var rest := info.Keys;
    while rest != {}
      invariant rest <= info.Keys
      invariant found == PointingAmong(info, n, info.Keys - rest)
      decreases |rest|
    {
      var pencilmark :| pencilmark in rest;
      PointingStep(info, n, info.Keys - rest, pencilmark);
      assert info.Keys - (rest - {pencilmark}) == (info.Keys - rest) + {pencilmark};
      // The source sorts `positions` here; info lists are already ascending (`InfoSorted`).
      var positions := info[pencilmark];
      if |positions| == n {
        var diff := Diff(positions, n);
        if diff.Some? {
          var isRow := diff.value == 1 || diff.value == 2;
          OfBounds(positions[0]);
          var figure := if isRow then Row(RowOf(positions[0])) else Col(ColOf(positions[0]));
          assert RemovePencilmarks(figure - SetOf(positions), [pencilmark])
              == PointingAction(positions, pencilmark, diff.value);
          found := found + {RemovePencilmarks(figure - SetOf(positions), [pencilmark])};
        }
      }
      rest := rest - {pencilmark};
    }
    assert info.Keys - rest == info.Keys;
  }

  /** `PointingNsCreator::get_all_applications`: boxes 0..8 in order. */
  method GetAllApplications(n: nat, g: Grid) returns (res: set<Action>)
    requires g.Valid()
    ensures res == Pointing(g.Cells(), n)
  {
    res := {};
    ghost var parts := PointingByBox(g.Cells(), n);
    for s := 0 to 9
      invariant res == Union(parts[..s])
    {
      var info := g.PencilmarksInfo(Sqr(s));
      InfoOnBoard(g.Cells(), Sqr(s));
      var found := CollectIn(info, n);
      UnionSnoc(parts, s);
      res := res + found;
    }
    assert parts[..9] == parts;
  }

  // --------------------------------------------------------------- meaning

  /** Only pairs and triples are ever reported. */
  lemma OnlyPairsAndTriples(b: seq<Cell>, n: nat)
    requires |b| == 81 && n != 2 && n != 3
    ensures Pointing(b, n) == {}
  {
    forall a | a in Pointing(b, n) ensures false {
      UnionMember(PointingByBox(b, n), a);
    }
  }

  predicate SameRow(ps: seq<nat>) {
    forall i :: 0 <= i < |ps| ==> RowOf(ps[i]) == RowOf(ps[0])
  }

  predicate SameCol(ps: seq<nat>) {
    forall i :: 0 <= i < |ps| ==> ColOf(ps[i]) == ColOf(ps[0])
  }

  /**
   * Inside one box the gap test accepts exactly the places that lie on one row
   * (reported as a row gap) or on one column (reported as a column gap).
   */
  lemma DiffMeaning(ps: seq<nat>, n: nat, s: nat)
    requires |ps| == n && (n == 2 || n == 3) && StrictlyAscending(ps)
    requires forall i :: 0 <= i < n ==> ps[i] < 81 && SqrOf(ps[i]) == s
    ensures Diff(ps, n).Some? <==> SameRow(ps) || SameCol(ps)
    ensures Diff(ps, n).Some? ==> (IsRowDiff(Diff(ps, n).value) <==> SameRow(ps))
  {
    BoxDistance(ps[0], ps[1]);
    if n == 3 {
      BoxDistance(ps[1], ps[2]);
      BoxDistance(ps[0], ps[2]);
      assert SameRow(ps) <==> RowOf(ps[1]) == RowOf(ps[0]) && RowOf(ps[2]) == RowOf(ps[0]);
      assert SameCol(ps) <==> ColOf(ps[1]) == ColOf(ps[0]) && ColOf(ps[2]) == ColOf(ps[0]);
    } else {
      assert SameRow(ps) <==> RowOf(ps[1]) == RowOf(ps[0]);
      assert SameCol(ps) <==> ColOf(ps[1]) == ColOf(ps[0]);
    }
  }

  /**
   * Box `s` confines `d` to `n` (2 or 3) squares lying on one row or one column,
   * and `a` strikes `d` from the rest of that line.
   */
  ghost predicate Points(b: seq<Cell>, s: nat, n: nat, d: nat, a: Action)
    requires |b| == 81 && s < 9
  {
    var h := Holders(b, Sqr(s), d);
    && (n == 2 || n == 3)
    && |h| == n
    && ((exists r: nat :: r < 9 && h <= Row(r) && a == RemovePencilmarks(Row(r) - h, [d]))
        || (exists c: nat :: c < 9 && h <= Col(c) && a == RemovePencilmarks(Col(c) - h, [d])))
  }

  /** A non-empty set of squares lies in row `r` exactly when its ascending listing stays on row `r`. */
  lemma RowPlaces(h: set<nat>, r: nat)
    requires h != {} && OnBoard(h) && r < 9
    ensures h <= Row(r) <==> SameRow(Elements(h)) && r == RowOf(Elements(h)[0])
  {
    var ps := Elements(h);
    assert ps[0] in h;
    if h <= Row(r) {
      forall i | 0 <= i < |ps| ensures RowOf(ps[i]) == RowOf(ps[0]) {
        assert ps[i] in h;
      }
    }
    if SameRow(ps) && r == RowOf(ps[0]) {
      forall q | q in h ensures q in Row(r) {
        var i :| 0 <= i < |ps| && ps[i] == q;
      }
    }
  }

  lemma ColPlaces(h: set<nat>, c: nat)
    requires h != {} && OnBoard(h) && c < 9
    ensures h <= Col(c) <==> SameCol(Elements(h)) && c == ColOf(Elements(h)[0])
  {
    var ps := Elements(h);
    assert ps[0] in h;
    if h <= Col(c) {
      forall i | 0 <= i < |ps| ensures ColOf(ps[i]) == ColOf(ps[0]) {
        assert ps[i] in h;
      }
    }
    if SameCol(ps) && c == ColOf(ps[0]) {
      forall q | q in h ensures q in Col(c) {
        var i :| 0 <= i < |ps| && ps[i] == q;
      }
    }
  }

  /** Two distinct squares never share both a row and a column. */
  lemma NotRowAndCol(ps: seq<nat>)
    requires |ps| >= 2 && StrictlyAscending(ps) && ps[0] < 81 && ps[1] < 81
    ensures !(SameRow(ps) && SameCol(ps))
  {
  }

  /** The places of `d` in box `s`, as the box's info map lists them. */
  lemma BoxPlaces(b: seq<Cell>, s: nat, d: nat)
    requires CanonicalBoard(b) && s < 9
    ensures var h := Holders(b, Sqr(s), d);
      && OnBoard(h)
      && (d in Info(b, Sqr(s)) <==> h != {})
      && (d in Info(b, Sqr(s)) ==> Info(b, Sqr(s))[d] == Elements(h))
      && (forall i :: 0 <= i < |Elements(h)| ==> Elements(h)[i] < 81 && SqrOf(Elements(h)[i]) == s)
  {
    var h := Holders(b, Sqr(s), d);
    InfoHolders(b, Sqr(s), d);
    forall i | 0 <= i < |Elements(h)| ensures Elements(h)[i] < 81 && SqrOf(Elements(h)[i]) == s {
      assert Elements(h)[i] in h;
    }
  }

  /** A digit the gap test accepts points along the line the test names. */
  lemma DigitSound(b: seq<Cell>, s: nat, n: nat, d: nat)
    requires CanonicalBoard(b) && s < 9
    requires d in Info(b, Sqr(s)) && |Info(b, Sqr(s))[d]| == n && Diff(Info(b, Sqr(s))[d], n).Some?
    ensures InfoBounded(Info(b, Sqr(s)))
      && Points(b, s, n, d, PointingAction(Info(b, Sqr(s))[d], d, Diff(Info(b, Sqr(s))[d], n).value))
  {
    var h := Holders(b, Sqr(s), d);
    BoxPlaces(b, s, d);
    InfoOnBoard(b, Sqr(s));
    var ps := Elements(h);
    assert Info(b, Sqr(s))[d] == ps;
    ElementsSetOf(h);
    DiffMeaning(ps, n, s);
    var a := PointingAction(ps, d, Diff(ps, n).value);
    OfBounds(ps[0]);
    if IsRowDiff(Diff(ps, n).value) {
      RowPlaces(h, RowOf(ps[0]));
      assert a == RemovePencilmarks(Row(RowOf(ps[0])) - h, [d]);
    } else {
      ColPlaces(h, ColOf(ps[0]));
      assert a == RemovePencilmarks(Col(ColOf(ps[0])) - h, [d]);
    }
  }

  /** A digit that points along a line passes the gap test, which names that line. */
  lemma DigitComplete(b: seq<Cell>, s: nat, n: nat, d: nat, a: Action)
    requires CanonicalBoard(b) && s < 9 && Points(b, s, n, d, a)
    ensures d in Info(b, Sqr(s)) && |Info(b, Sqr(s))[d]| == n && Diff(Info(b, Sqr(s))[d], n).Some?
    ensures InfoBounded(Info(b, Sqr(s)))
      && a == PointingAction(Info(b, Sqr(s))[d], d, Diff(Info(b, Sqr(s))[d], n).value)
  {
    var h := Holders(b, Sqr(s), d);
    BoxPlaces(b, s, d);
    InfoOnBoard(b, Sqr(s));
    var ps := Elements(h);
    ElementsSetOf(h);
    NotRowAndCol(ps);
    if exists r: nat :: r < 9 && h <= Row(r) && a == RemovePencilmarks(Row(r) - h, [d]) {
      var r: nat :| r < 9 && h <= Row(r) && a == RemovePencilmarks(Row(r) - h, [d]);
      RowPlaces(h, r);
      DiffMeaning(ps, n, s);
    } else {
      var c: nat :| c < 9 && h <= Col(c) && a == RemovePencilmarks(Col(c) - h, [d]);
      ColPlaces(h, c);
      DiffMeaning(ps, n, s);
    }
  }

  /** On a canonical board, box `s` yields exactly the actions it points along a line. */
  lemma PointingInMeaning(b: seq<Cell>, s: nat, n: nat, a: Action)
    requires CanonicalBoard(b) && s < 9
    ensures a in PointingIn(b, s, n) <==> exists d :: Points(b, s, n, d, a)
  {
    var info := Info(b, Sqr(s));
    InfoOnBoard(b, Sqr(s));
    if a in PointingIn(b, s, n) {
      var d :| d in info && |info[d]| == n && Diff(info[d], n).Some?
              && a == PointingAction(info[d], d, Diff(info[d], n).value);
      DigitSound(b, s, n, d);
    }
    if exists d :: Points(b, s, n, d, a) {
      var d :| Points(b, s, n, d, a);
      DigitComplete(b, s, n, d, a);
    }
  }

  /** Some digit of box `s` is confined to a line, and `a` clears the rest of that line. */
  ghost predicate PointsIn(b: seq<Cell>, s: nat, n: nat, a: Action)
    requires |b| == 81 && s < 9
  {
    exists d :: Points(b, s, n, d, a)
  }

  /** On a canonical board, pointing pairs/triples are exactly the line-confined digits of the boxes. */
  lemma PointingMeaning(b: seq<Cell>, n: nat, a: Action)
    requires CanonicalBoard(b)
    ensures a in Pointing(b, n) <==> exists s: nat :: s < 9 && PointsIn(b, s, n, a)
  {
    UnionMember(PointingByBox(b, n), a);
    forall s | 0 <= s < 9 ensures a in PointingByBox(b, n)[s] <==> PointsIn(b, s, n, a) {
      PointingInMeaning(b, s, n, a);
    }
  }

  /** Every pointing action strikes exactly digit `d` from the `9 - n` other squares of its line. */
  lemma PointsShape(b: seq<Cell>, s: nat, n: nat, d: nat, a: Action)
    requires |b| == 81 && s < 9 && Points(b, s, n, d, a)
    ensures a.RemovePencilmarks? && a.pencilmarks == [d] && |a.figure| == 9 - n && OnBoard(a.figure)
    ensures a.figure !! Holders(b, Sqr(s), d)
  {
    var h := Holders(b, Sqr(s), d);
    if exists r: nat :: r < 9 && h <= Row(r) && a == RemovePencilmarks(Row(r) - h, [d]) {
      var r: nat :| r < 9 && h <= Row(r) && a == RemovePencilmarks(Row(r) - h, [d]);
      DiffCard(Row(r), h);
    } else {
      var c: nat :| c < 9 && h <= Col(c) && a == RemovePencilmarks(Col(c) - h, [d]);
      DiffCard(Col(c), h);
    }
  }
}
