/**
 * The older hidden-single strategy: one `HiddenSingle` per figure in which a digit
 * has exactly one place, collected into a plain list, so repeats are kept.
 */
module HiddenSingle {
  import opened Cells
  import opened Figures
  import opened Grids
  import opened Actions
  import HiddenN

  datatype HiddenSingle = HiddenSingle(position: nat, numberToPlace: nat)

  /** The hidden singles one figure's info map yields, for the digits of `ks`. */
  function SinglesAmong(info: map<nat, seq<nat>>, ks: set<nat>): set<HiddenSingle> {
    set d | d in ks && d in info && |info[d]| == 1 :: HiddenSingle(info[d][0], d)
  }

  function SinglesIn(info: map<nat, seq<nat>>): set<HiddenSingle> {
    SinglesAmong(info, info.Keys)
  }

  function SinglesByFigure(b: seq<Cell>): (parts: seq<set<HiddenSingle>>)
    requires |b| == 81
    ensures |parts| == 27
  {
    seq(27, k requires 0 <= k < 27 => SinglesIn(Info(b, Unit(k))))
  }

  /** The figures' results added up, one copy per figure that yields an item. */
  function Sum(parts: seq<set<HiddenSingle>>): multiset<HiddenSingle> {
    if parts == [] then multiset{} else Sum(parts[..|parts| - 1]) + multiset(parts[|parts| - 1])
  }

  /** The list `get_all_applications` returns, as a multiset (its order follows `HashMap` iteration). */
  function AllSingles(b: seq<Cell>): multiset<HiddenSingle>
    requires |b| == 81
  {
    Sum(SinglesByFigure(b))
  }

  lemma SinglesStep(info: map<nat, seq<nat>>, ks: set<nat>, d: nat)
    requires d in info && d !in ks
    ensures multiset(SinglesAmong(info, ks + {d}))
         == multiset(SinglesAmong(info, ks)) + if |info[d]| == 1 then multiset{HiddenSingle(info[d][0], d)} else multiset{}
  {
    var l := SinglesAmong(info, ks + {d});
    var r := SinglesAmong(info, ks);
    if |info[d]| == 1 {
      var hs := HiddenSingle(info[d][0], d);
      assert hs !in r;
      assert l == r + {hs};
    } else {
      assert l == r;
    }
  }

  /** One figure's hidden singles, pushed onto `res` in key order. */
  method PushSingles(info: map<nat, seq<nat>>, res0: seq<HiddenSingle>) returns (res: seq<HiddenSingle>)
    ensures multiset(res) == multiset(res0) + multiset(SinglesIn(info))
  {
    res := res0;
    var rest := info.Keys;
    while rest != {}
      invariant rest <= info.Keys
      invariant multiset(res) == multiset(res0) + multiset(SinglesAmong(info, info.Keys - rest))
      decreases |rest|
    {
      var d :| d in rest;
      SinglesStep(info, info.Keys - rest, d);
      assert info.Keys - (rest - {d}) == (info.Keys - rest) + {d};
      if |info[d]| == 1 {
        res := res + [HiddenSingle(info[d][0], d)];
      }
      rest := rest - {d};
    }
    assert info.Keys - rest == info.Keys;
  }

  /** `HiddenSingleCreator::get_all_applications`. */
  method GetAllApplications(g: Grid) returns (res: seq<HiddenSingle>)
    requires g.Valid()
    ensures multiset(res) == AllSingles(g.Cells())
  {
    res := [];
    ghost var parts := SinglesByFigure(g.Cells());
    for k := 0 to 27
      invariant multiset(res) == Sum(parts[..k])
    {
      var info := g.PencilmarksInfo(Unit(k));
      SumSnoc(parts, k);
      res := PushSingles(info, res);
    }
    assert parts[..27] == parts;
  }

  lemma SumSnoc(parts: seq<set<HiddenSingle>>, k: nat)
    requires k < |parts|
    ensures Sum(parts[..k + 1]) == Sum(parts[..k]) + multiset(parts[k])
  {
    assert parts[..k + 1][..k] == parts[..k];
  }

  /** `HiddenSingle::apply_to_grid` is `set_number(position, number_to_place)`. */
  method ApplyToGrid(hs: HiddenSingle, g: Grid)
    requires g.Valid() && hs.position < 81
    modifies g.matrix
    ensures g.Valid()
    ensures g.Cells() == Applied(PlaceNumber(hs.position, hs.numberToPlace), old(g.Cells()))
  {
    g.SetNumber(hs.position, hs.numberToPlace);
  }

  /** The figures whose result holds `x`. */
  function Holding(parts: seq<set<HiddenSingle>>, x: HiddenSingle): set<nat> {
    set j: nat | j < |parts| && x in parts[j]
  }

  /** An item is listed once for every figure that yields it. */
  lemma {:induction false} SumCount(parts: seq<set<HiddenSingle>>, x: HiddenSingle)
    ensures Sum(parts)[x] == |Holding(parts, x)|
  {
    if parts != [] {
      var n := |parts| - 1;
      var init := parts[..n];
      SumCount(init, x);
      if x in parts[n] {
        assert Holding(parts, x) == Holding(init, x) + {n};
      } else {
        assert Holding(parts, x) == Holding(init, x);
      }
    }
  }

  /** The placement a hidden single stands for. */
  function AsAction(hs: HiddenSingle): Action {
    PlaceNumber(hs.position, hs.numberToPlace)
  }

  lemma SinglesInAgree(info: map<nat, seq<nat>>)
    ensures (set hs | hs in SinglesIn(info) :: AsAction(hs)) == HiddenN.SinglesIn(info)
  {
    var l := set hs | hs in SinglesIn(info) :: AsAction(hs);
    forall a | a in HiddenN.SinglesIn(info) ensures a in l {
      var d :| d in info && |info[d]| == 1 && a == PlaceNumber(info[d][0], d);
      assert HiddenSingle(info[d][0], d) in SinglesIn(info);
    }
  }

  lemma AllSinglesMember(b: seq<Cell>, hs: HiddenSingle)
    requires |b| == 81
    ensures hs in AllSingles(b) <==> exists j :: 0 <= j < 27 && hs in SinglesByFigure(b)[j]
  {
    var parts := SinglesByFigure(b);
    SumCount(parts, hs);
    if exists j :: 0 <= j < 27 && hs in parts[j] {
      var j :| 0 <= j < 27 && hs in parts[j];
      assert j in Holding(parts, hs);
    }
    if hs in AllSingles(b) {
      var j :| j in Holding(parts, hs);
    }
  }

  /** As a set of placements, the older strategy finds exactly what `Hidden::Single` finds. */
  lemma SameAsHiddenSingle(b: seq<Cell>, a: Action)
    requires |b| == 81
    ensures (exists hs :: hs in AllSingles(b) && AsAction(hs) == a) <==> a in HiddenN.Singles(b)
  {
    var parts := SinglesByFigure(b);
    UnionMember(HiddenN.SinglesByFigure(b), a);
    if exists hs :: hs in AllSingles(b) && AsAction(hs) == a {
      var hs :| hs in AllSingles(b) && AsAction(hs) == a;
      AllSinglesMember(b, hs);
      var j :| 0 <= j < 27 && hs in parts[j];
      SinglesInAgree(Info(b, Unit(j)));
      assert a in HiddenN.SinglesByFigure(b)[j];
    }
    if a in HiddenN.Singles(b) {
      var j :| 0 <= j < 27 && a in HiddenN.SinglesByFigure(b)[j];
      SinglesInAgree(Info(b, Unit(j)));
      var hs :| hs in parts[j] && AsAction(hs) == a;
      AllSinglesMember(b, hs);
    }
  }

  lemma FigureAgrees(b: seq<Cell>, k: nat, p: nat, d: nat)
    requires CanonicalBoard(b) && k < 27
    ensures HiddenSingle(p, d) in SinglesByFigure(b)[k] <==> HiddenN.SoleHolder(b, k, p, d)
  {
    var info := Info(b, Unit(k));
    HiddenN.SinglesInMeaning(b, Unit(k), p, d);
    SinglesInAgree(info);
    if HiddenSingle(p, d) in SinglesIn(info) {
      assert AsAction(HiddenSingle(p, d)) in HiddenN.SinglesIn(info);
    }
    if PlaceNumber(p, d) in HiddenN.SinglesIn(info) {
      var hs :| hs in SinglesIn(info) && AsAction(hs) == PlaceNumber(p, d);
    }
  }

  /**
   * On a canonical board, `HiddenSingle{p, d}` is listed once for every row,
   * column and box in which `p` is the only square holding `d`; a single found
   * in both a line and a box is listed twice.
   */
  lemma ListedPerFigure(b: seq<Cell>, p: nat, d: nat)
    requires CanonicalBoard(b)
    ensures AllSingles(b)[HiddenSingle(p, d)] == |set k: nat | k < 27 && HiddenN.SoleHolder(b, k, p, d)|
  {
    SumCount(SinglesByFigure(b), HiddenSingle(p, d));
    HoldingIsSole(b, p, d);
  }

  lemma HoldingIsSole(b: seq<Cell>, p: nat, d: nat)
    requires CanonicalBoard(b)
    ensures Holding(SinglesByFigure(b), HiddenSingle(p, d)) == set k: nat | k < 27 && HiddenN.SoleHolder(b, k, p, d)
  {
    var l := Holding(SinglesByFigure(b), HiddenSingle(p, d));
    var r := set k: nat | k < 27 && HiddenN.SoleHolder(b, k, p, d);
    forall k: nat ensures k in l <==> k in r {
      if k < 27 {
        FigureAgrees(b, k, p, d);
      }
    }
  }
}
