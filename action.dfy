/**
 * The edits a strategy proposes, how they are applied to a grid, when they are helpful, how they
 * are narrowed, and the order a `BTreeSet<Action>` keeps them in.
 */
module Actions {
  import opened Sorted
  import opened Cells
  import opened Figures
  import opened Grids

  datatype Action =
    | PlaceNumber(position: nat, number: nat)
    | RemovePencilmarks(figure: Figure, pencilmarks: seq<nat>)
    | PreservePencilmarks(figure: Figure, pencilmarks: seq<nat>)

  /** The squares an action touches lie on the board (the source indexes the matrix with them). */
  predicate OnGrid(a: Action) {
    match a
    case PlaceNumber(p, _) => p < 81
    case RemovePencilmarks(f, _) => OnBoard(f)
    case PreservePencilmarks(f, _) => OnBoard(f)
  }

  /** The board after `apply_to_grid`. */
  function Applied(a: Action, b: seq<Cell>): (r: seq<Cell>)
    requires |b| == 81 && OnGrid(a)
    ensures |r| == 81
  {
    match a
    case PlaceNumber(p, d) => AfterSetNumber(b, p, d)
    case RemovePencilmarks(f, ds) => AfterRemove(b, f, ds)
    case PreservePencilmarks(f, ds) => AfterPreserve(b, f, ds)
  }

  /** `apply_to_grid`: place a digit through `set_number`, or edit the candidates of a figure. */
  method ApplyToGrid(a: Action, g: Grid)
    requires g.Valid() && OnGrid(a)
    modifies g.matrix
    ensures g.Valid() && g.Cells() == Applied(a, old(g.Cells()))
  {
    match a
    case PlaceNumber(p, d) => g.SetNumber(p, d);
    case RemovePencilmarks(f, ds) => g.RemovePencilmarks(f, ds);
    case PreservePencilmarks(f, ds) => g.PreservePencilmarks(f, ds);
  }

  /** Applying `PlaceNumber(p, d)` is `set_number(p, d)`: the digit lands at `p` and leaves its peers. */
  lemma PlaceNumberEffect(p: nat, d: nat, b: seq<Cell>)
    requires |b| == 81 && p < 81
    ensures var r := Applied(PlaceNumber(p, d), b);
      && r == AfterSetNumber(b, p, d)
      && r[p] == Number(d)
      && (forall q :: 0 <= q < 81 && SameUnit(p, q) && r[q].Pencilmarks? ==> d !in r[q].marks)
      && (forall q :: 0 <= q < 81 && !SameUnit(p, q) ==> r[q] == b[q])
  {
    SetNumberEffect(b, p, d);
  }

  /**
   * Applying `RemovePencilmarks(f, ds)`, seen from any square `q` and digit `x`: a square outside `f`
   * or a solved square is untouched, no square changes between solved and unsolved, and `x` stays
   * a candidate of `q` exactly when it was one and is not being removed there.
   */
  lemma RemoveEffect(f: Figure, ds: seq<nat>, b: seq<Cell>, q: nat, x: nat)
    requires |b| == 81 && OnBoard(f) && q < 81
    ensures var r := Applied(RemovePencilmarks(f, ds), b);
      && (q !in f || b[q].Number? ==> r[q] == b[q])
      && (r[q].Pencilmarks? <==> b[q].Pencilmarks?)
      && (HasMark(r[q], x) <==> HasMark(b[q], x) && !(q in f && x in ds))
  {
    if q in f {
      assert x in SetOf(ds) <==> x in ds;
    }
  }

  /**
   * Applying `PreservePencilmarks(f, ds)`, seen from any square `q` and digit `x`: a square outside
   * `f` or a solved square is untouched, no square changes between solved and unsolved, and `x`
   * stays a candidate of `q` exactly when it was one and `q` is outside `f` or `x` is kept.
   */
  lemma PreserveEffect(f: Figure, ds: seq<nat>, b: seq<Cell>, q: nat, x: nat)
    requires |b| == 81 && OnBoard(f) && q < 81
    ensures var r := Applied(PreservePencilmarks(f, ds), b);
      && (q !in f || b[q].Number? ==> r[q] == b[q])
      && (r[q].Pencilmarks? <==> b[q].Pencilmarks?)
      && (HasMark(r[q], x) <==> HasMark(b[q], x) && (q !in f || x in ds))
  {
    if q in f {
      assert x in SetOf(ds) <==> x in ds;
    }
  }

  /** Removing the same candidates a second time changes nothing. */
  lemma RemoveIdempotent(f: Figure, ds: seq<nat>, b: seq<Cell>)
    requires |b| == 81 && OnBoard(f)
    ensures var a := RemovePencilmarks(f, ds);
      Applied(a, Applied(a, b)) == Applied(a, b)
  {
    var a := RemovePencilmarks(f, ds);
    var once := Applied(a, b);
    var twice := Applied(a, once);
    forall q | 0 <= q < 81
      ensures twice[q] == once[q]
    {
      if q in f && b[q].Pencilmarks? {
        RemoveAllTwice(b[q].marks, SetOf(ds), SetOf(ds));
        assert SetOf(ds) + SetOf(ds) == SetOf(ds);
      }
    }
  }

  /** Keeping the same candidates a second time changes nothing. */
  lemma PreserveIdempotent(f: Figure, ds: seq<nat>, b: seq<Cell>)
    requires |b| == 81 && OnBoard(f)
    ensures var a := PreservePencilmarks(f, ds);
      Applied(a, Applied(a, b)) == Applied(a, b)
  {
    var a := PreservePencilmarks(f, ds);
    var once := Applied(a, b);
    var twice := Applied(a, once);
    forall q | 0 <= q < 81
      ensures twice[q] == once[q]
    {
      if q in f && b[q].Pencilmarks? {
        var kept := KeepOnly(b[q].marks, SetOf(ds));
        KeepOnlyEverything(kept, SetOf(ds));
      }
    }
  }

  /**
   * Reconstruction of `is_helpful`: a placement is helpful while its square is unsolved; a removal
   * while some unsolved square of its figure still holds one of its digits; a preservation while
   * some unsolved square of its figure still holds a digit outside its list.
   */
  predicate IsHelpful(a: Action, b: seq<Cell>)
    requires |b| == 81
  {
    match a
    case PlaceNumber(p, _) => p < 81 && b[p].Pencilmarks?
    case RemovePencilmarks(f, ds) => exists q :: q in f && q < 81 && Loses(b[q], ds)
    case PreservePencilmarks(f, ds) => exists q :: q in f && q < 81 && Exceeds(b[q], ds)
  }

  /** An unsolved square holding one of the digits `ds`. */
  predicate Loses(c: Cell, ds: seq<nat>) {
    c.Pencilmarks? && exists x :: x in c.marks && x in ds
  }

  /** An unsolved square holding a digit outside `ds`. */
  predicate Exceeds(c: Cell, ds: seq<nat>) {
    c.Pencilmarks? && exists x :: x in c.marks && x !in ds
  }

  /** A removal or preservation is helpful exactly when applying it changes the board; a helpful placement always does. */
  lemma HelpfulMeansChange(a: Action, b: seq<Cell>)
    requires |b| == 81 && OnGrid(a)
    ensures a.PlaceNumber? && IsHelpful(a, b) ==> Applied(a, b) != b
    ensures !a.PlaceNumber? ==> (IsHelpful(a, b) <==> Applied(a, b) != b)
  {
    match a
    case PlaceNumber(p, d) =>
      if IsHelpful(a, b) {
        SetNumberEffect(b, p, d);
        assert Applied(a, b)[p] != b[p];
      }
    case RemovePencilmarks(f, ds) =>
      if IsHelpful(a, b) {
        var q :| q in f && q < 81 && Loses(b[q], ds);
        var x :| x in b[q].marks && x in ds;
        RemoveEffect(f, ds, b, q, x);
        assert !HasMark(Applied(a, b)[q], x);
      } else {
        forall q | 0 <= q < 81
          ensures Applied(a, b)[q] == b[q]
        {
          if q in f && b[q].Pencilmarks? {
            RemoveAllNothing(b[q].marks, SetOf(ds));
          }
        }
      }
    case PreservePencilmarks(f, ds) =>
      if IsHelpful(a, b) {
        var q :| q in f && q < 81 && Exceeds(b[q], ds);
        var x :| x in b[q].marks && x !in ds;
        PreserveEffect(f, ds, b, q, x);
        assert !HasMark(Applied(a, b)[q], x);
      } else {
        forall q | 0 <= q < 81
          ensures Applied(a, b)[q] == b[q]
        {
          if q in f && b[q].Pencilmarks? {
            KeepOnlyEverything(b[q].marks, SetOf(ds));
          }
        }
      }
  }

  /** Once a removal has been applied it is no longer helpful. */
  lemma RemoveThenUnhelpful(f: Figure, ds: seq<nat>, b: seq<Cell>)
    requires |b| == 81 && OnBoard(f)
    ensures !IsHelpful(RemovePencilmarks(f, ds), Applied(RemovePencilmarks(f, ds), b))
  {
  }

  /**
   * Reconstruction of `simplify`: narrow the figure of a removal or preservation to the squares
   * on which it has an effect; a placement is left as it is.
   */
  function Simplify(a: Action, b: seq<Cell>): (r: Action)
    requires |b| == 81
    ensures OnGrid(a) ==> OnGrid(r)
    ensures r.PlaceNumber? <==> a.PlaceNumber?
    ensures r.RemovePencilmarks? <==> a.RemovePencilmarks?
    ensures !r.PlaceNumber? ==> r.figure <= a.figure && r.pencilmarks == a.pencilmarks
  {
    match a
    case PlaceNumber(_, _) => a
    case RemovePencilmarks(f, ds) =>
      var g := set q | q in f && q < 81 && Loses(b[q], ds);
      RemovePencilmarks(g, ds)
    case PreservePencilmarks(f, ds) =>
      var g := set q | q in f && q < 81 && Exceeds(b[q], ds);
      PreservePencilmarks(g, ds)
  }

  /** Simplifying keeps exactly the squares that make an action helpful, so it never changes whether it is. */
  lemma SimplifyKeepsHelpful(a: Action, b: seq<Cell>)
    requires |b| == 81
    ensures IsHelpful(Simplify(a, b), b) <==> IsHelpful(a, b)
  {
  }

  /** Simplifying changes nothing an action does to the board, and a simplified action is its own simplification. */
  lemma SimplifyKeepsEffect(a: Action, b: seq<Cell>)
    requires |b| == 81 && OnGrid(a)
    ensures Applied(Simplify(a, b), b) == Applied(a, b)
    ensures Simplify(Simplify(a, b), b) == Simplify(a, b)
  {
    var s := Simplify(a, b);
    match a
    case PlaceNumber(_, _) =>
    case RemovePencilmarks(f, ds) =>
      forall q | 0 <= q < 81
        ensures Applied(s, b)[q] == Applied(a, b)[q]
      {
        if q in f && q !in s.figure && b[q].Pencilmarks? {
          RemoveAllNothing(b[q].marks, SetOf(ds));
        }
      }
    case PreservePencilmarks(f, ds) =>
      forall q | 0 <= q < 81
        ensures Applied(s, b)[q] == Applied(a, b)[q]
      {
        if q in f && q !in s.figure && b[q].Pencilmarks? {
          KeepOnlyEverything(b[q].marks, SetOf(ds));
        }
      }
  }

  // The derived `Ord`: variants in declaration order, then the fields lexicographically.

  /** Lexicographic order of digit and position lists, as `Vec<u8>` and `Vec<usize>` compare. */
  predicate SeqLess(a: seq<nat>, b: seq<nat>) {
    if a == [] then b != []
    else if b == [] then false
    else if a[0] != b[0] then a[0] < b[0]
    else SeqLess(a[1..], b[1..])
  }

  lemma {:induction false} SeqLessIrreflexive(a: seq<nat>)
    ensures !SeqLess(a, a)
  {
    if a != [] {
      SeqLessIrreflexive(a[1..]);
    }
  }

  lemma {:induction false} SeqLessTransitive(a: seq<nat>, b: seq<nat>, c: seq<nat>)
    requires SeqLess(a, b) && SeqLess(b, c)
    ensures SeqLess(a, c)
  {
    if a != [] && a[0] == b[0] && b[0] == c[0] {
      SeqLessTransitive(a[1..], b[1..], c[1..]);
    }
  }

  lemma {:induction false} SeqLessTotal(a: seq<nat>, b: seq<nat>)
    ensures a == b || SeqLess(a, b) || SeqLess(b, a)
  {
    if a != [] && b != [] && a[0] == b[0] {
      SeqLessTotal(a[1..], b[1..]);
      if a[1..] == b[1..] {
        assert a == [a[0]] + a[1..] && b == [b[0]] + b[1..];
      }
    }
  }

  /** Figures compare as their positions listed in ascending order. */
  predicate FigureLess(f: Figure, g: Figure) {
    SeqLess(Elements(f), Elements(g))
  }

  lemma FigureLessTotal(f: Figure, g: Figure)
    ensures f == g || FigureLess(f, g) || FigureLess(g, f)
  {
    SeqLessTotal(Elements(f), Elements(g));
    if Elements(f) == Elements(g) {
      assert forall x :: x in f <==> x in g;
    }
  }

  function Variant(a: Action): nat {
    match a
    case PlaceNumber(_, _) => 0
    case RemovePencilmarks(_, _) => 1
    case PreservePencilmarks(_, _) => 2
  }

  /** The derived `Ord` of `Action` (strictly less). */
  predicate ActionLess(a: Action, b: Action) {
    if Variant(a) != Variant(b) then Variant(a) < Variant(b)
    else match a
      case PlaceNumber(p, d) =>
        p < b.position || (p == b.position && d < b.number)
      case RemovePencilmarks(f, ds) =>
        FigureLess(f, b.figure) || (f == b.figure && SeqLess(ds, b.pencilmarks))
      case PreservePencilmarks(f, ds) =>
        FigureLess(f, b.figure) || (f == b.figure && SeqLess(ds, b.pencilmarks))
  }

  /** `PlaceNumber` sorts before `RemovePencilmarks`, which sorts before `PreservePencilmarks`. */
  lemma VariantOrder(p: nat, d: nat, f: Figure, ds: seq<nat>, g: Figure, es: seq<nat>)
    ensures ActionLess(PlaceNumber(p, d), RemovePencilmarks(f, ds))
    ensures ActionLess(RemovePencilmarks(f, ds), PreservePencilmarks(g, es))
    ensures !ActionLess(RemovePencilmarks(f, ds), PlaceNumber(p, d))
  {
  }

  lemma ActionLessIrreflexive(a: Action)
    ensures !ActionLess(a, a)
  {
    if !a.PlaceNumber? {
      SeqLessIrreflexive(Elements(a.figure));
      SeqLessIrreflexive(a.pencilmarks);
    }
  }

  lemma ActionLessTransitive(a: Action, b: Action, c: Action)
    requires ActionLess(a, b) && ActionLess(b, c)
    ensures ActionLess(a, c)
  {
    if Variant(a) == Variant(b) == Variant(c) && !a.PlaceNumber? {
      if FigureLess(a.figure, b.figure) && FigureLess(b.figure, c.figure) {
        SeqLessTransitive(Elements(a.figure), Elements(b.figure), Elements(c.figure));
      } else if a.figure == b.figure == c.figure {
        SeqLessTransitive(a.pencilmarks, b.pencilmarks, c.pencilmarks);
      }
    }
  }

  /** The order is total: two different actions are always ordered one way or the other. */
  lemma ActionLessTotal(a: Action, b: Action)
    ensures a == b || ActionLess(a, b) || ActionLess(b, a)
  {
    if Variant(a) == Variant(b) && !a.PlaceNumber? {
      FigureLessTotal(a.figure, b.figure);
      SeqLessTotal(a.pencilmarks, b.pencilmarks);
    }
  }

  lemma ActionLessAsymmetric(a: Action, b: Action)
    requires ActionLess(a, b)
    ensures !ActionLess(b, a)
  {
    if ActionLess(b, a) {
      ActionLessTransitive(a, b, a);
      ActionLessIrreflexive(a);
    }
  }

  lemma {:induction false} LeastWitness(s: set<Action>) returns (m: Action)
    requires s != {}
    ensures m in s && forall a :: a in s && a != m ==> ActionLess(m, a)
    decreases |s|
  {
    var x :| x in s;
    if s == {x} {
      m := x;
    } else {
      var m' := LeastWitness(s - {x});
      ActionLessTotal(x, m');
      if ActionLess(x, m') {
        m := x;
        forall a | a in s && a != m
          ensures ActionLess(m, a)
        {
          if a != m' {
            ActionLessTransitive(x, m', a);
          }
        }
      } else {
        m := m';
      }
    }
  }

  /** A non-empty set of actions has exactly one least element. */
  lemma LeastExists(s: set<Action>)
    requires s != {}
    ensures exists m :: IsLeast(m, s)
    ensures forall m, n :: IsLeast(m, s) && IsLeast(n, s) ==> m == n
  {
    var w := LeastWitness(s);
    assert IsLeast(w, s);
    forall m, n | IsLeast(m, s) && IsLeast(n, s)
      ensures m == n
    {
      if m != n {
        ActionLessAsymmetric(m, n);
      }
    }
  }

  predicate IsLeast(m: Action, s: set<Action>) {
    m in s && forall a :: a in s && a != m ==> ActionLess(m, a)
  }

  /** The first action of a non-empty `BTreeSet<Action>`. */
  function Least(s: set<Action>): (m: Action)
    requires s != {}
    ensures m in s && forall a :: a in s && a != m ==> ActionLess(m, a)
  {
    LeastExists(s);
    var m :| IsLeast(m, s);
    m
  }

  predicate Ascending(s: seq<Action>) {
    forall i, j :: 0 <= i < j < |s| ==> ActionLess(s[i], s[j])
  }

  /** A `BTreeSet<Action>` as its iterator lists it: every element once, in ascending order. */
  function Listed(s: set<Action>): (r: seq<Action>)
    ensures forall a :: a in r <==> a in s
    ensures |r| == |s|
    ensures Ascending(r)
    decreases |s|
  {
    if s == {} then []
    else
      var m := Least(s);
      var rest := Listed(s - {m});
      assert forall a :: a in [m] + rest <==> a in s;
      [m] + rest
  }

  /** The actions found figure by figure, merged into one set (the strategies' result sets). */
  function Union(parts: seq<set<Action>>): set<Action> {
    if parts == [] then {} else Union(parts[..|parts| - 1]) + parts[|parts| - 1]
  }

  lemma {:induction false} UnionMember(parts: seq<set<Action>>, a: Action)
    ensures a in Union(parts) <==> exists j :: 0 <= j < |parts| && a in parts[j]
  {
    if parts != [] {
      var init := parts[..|parts| - 1];
      UnionMember(init, a);
      if exists j :: 0 <= j < |parts| && a in parts[j] {
        var j :| 0 <= j < |parts| && a in parts[j];
        if j < |parts| - 1 {
          assert a in init[j];
        }
      }
    }
  }

  lemma UnionSnoc(parts: seq<set<Action>>, k: nat)
    requires k < |parts|
    ensures Union(parts[..k + 1]) == Union(parts[..k]) + parts[k]
  {
    assert parts[..k + 1][..k] == parts[..k];
  }

  // -------------------------------------------------------------- pair tables
  // A loop over the index pairs `x < z` of a listing, where pair `(x, z)` contributes `t(x, z)`.

  /** The contributions of the pairs `(x, z)` with `x < z < y`. */
  function PairsWith(t: (nat, nat) -> set<Action>, x: nat, y: nat): set<Action> {
    if y <= x + 1 then {} else PairsWith(t, x, y - 1) + t(x, y - 1)
  }

  /** The contributions of the pairs `(i, z)` with `i < x` and `i < z < n`. */
  function PairsBelow(t: (nat, nat) -> set<Action>, n: nat, x: nat): set<Action> {
    if x == 0 then {} else PairsBelow(t, n, x - 1) + PairsWith(t, x - 1, n)
  }

  lemma {:induction false} PairsWithMember(t: (nat, nat) -> set<Action>, x: nat, y: nat, a: Action)
    ensures a in PairsWith(t, x, y) <==> exists z: nat :: x < z < y && a in t(x, z)
  {
    if y > x + 1 {
      PairsWithMember(t, x, y - 1, a);
    }
  }

  lemma {:induction false} PairsBelowMember(t: (nat, nat) -> set<Action>, n: nat, x: nat, a: Action)
    ensures a in PairsBelow(t, n, x) <==> exists i: nat, z: nat :: i < x && i < z < n && a in t(i, z)
  {
    if x > 0 {
      PairsBelowMember(t, n, x - 1, a);
      PairsWithMember(t, x - 1, n, a);
    }
  }
}
