/**
 * The `Method` trait: every strategy lists its applications on a grid, and the shared
 * `get_all_helpful_applications` keeps those that would still change the grid, optionally
 * after narrowing each one to the squares it affects.
 */
module Methods {
  import opened Cells
  import opened Grids
  import opened Actions
  import NakedN
  import HiddenN
  import PointingNs
  import BoxLineReduction
  import Fishes
  import SimpleColoring

  /**
   * The strategies behind `Box<dyn Method>`, as a closed set: the size-parametrised creators
   * keep their `n`, the enums their variant.
   */
  datatype Method =
    | Naked(n: nat)
    | Hidden(h: HiddenN.Hidden)
    | Pointing(n: nat)
    | BoxLine(n: nat)
    | Fish(f: Fishes.Fish)
    | Coloring

  /** `get_all_applications` of each strategy, as the set the trait returns. */
  ghost function Applications(m: Method, b: seq<Cell>): set<Action>
    requires |b| == 81
  {
    match m
    case Naked(n) => NakedN.Applications(n, b)
    case Hidden(h) => HiddenN.Applications(h, b)
    case Pointing(n) => PointingNs.Pointing(b, n)
    case BoxLine(n) => BoxLineReduction.BoxLine(b, n)
    case Fish(f) => Fishes.FishesAll(b, f)
    case Coloring => SimpleColoring.ColoringAll(b)
  }

  method GetAllApplications(m: Method, g: Grid) returns (res: set<Action>)
    requires g.Valid()
    ensures res == Applications(m, g.Cells())
  {
    match m
    case Naked(n) => res := NakedN.GetAllApplications(n, g);
    case Hidden(h) => res := HiddenN.GetAllApplications(h, g);
    case Pointing(n) => res := PointingNs.GetAllApplications(n, g);
    case BoxLine(n) => res := BoxLineReduction.GetAllApplications(n, g);
    case Fish(f) => res := Fishes.GetAllApplications(f, g);
    case Coloring => res := SimpleColoring.GetAllApplications(g);
  }

  /** Each action of `s` narrowed to the squares it affects. */
  function SimplifyAll(s: set<Action>, b: seq<Cell>): set<Action>
    requires |b| == 81
  {
    set a | a in s :: Simplify(a, b)
  }

  /** The actions of `s` that would change something on `b`. */
  function Helpful(s: set<Action>, b: seq<Cell>): (r: set<Action>)
    requires |b| == 81
    ensures r <= s
    ensures forall a :: a in s ==> (a in r <==> IsHelpful(a, b))
  {
    set a | a in s && IsHelpful(a, b)
  }

  /** What `get_all_helpful_applications(grid, simplify)` returns. */
  ghost function HelpfulApplications(m: Method, b: seq<Cell>, simplify: bool): set<Action>
    requires |b| == 81
  {
    var applications := Applications(m, b);
    Helpful(if simplify then SimplifyAll(applications, b) else applications, b)
  }

  method GetAllHelpfulApplications(m: Method, g: Grid, simplify: bool) returns (res: set<Action>)
    requires g.Valid()
    ensures res == HelpfulApplications(m, g.Cells(), simplify)
  {
    var applications := GetAllApplications(m, g);
    if simplify {
      applications := set a | a in applications :: Simplify(a, g.Cells());
    }
    res := set a | a in applications && IsHelpful(a, g.Cells());
  }

  /**
   * Without simplification the result is exactly the strategy's helpful applications; every
   * result is helpful either way.
   */
  lemma HelpfulMeaning(m: Method, b: seq<Cell>, simplify: bool, a: Action)
    requires |b| == 81
    ensures a in HelpfulApplications(m, b, simplify) ==> IsHelpful(a, b)
    ensures !simplify ==> (a in HelpfulApplications(m, b, simplify) <==> a in Applications(m, b) && IsHelpful(a, b))
  {
  }

  /**
   * Simplifying before filtering gives the simplified helpful applications: an application
   * survives the filter exactly when its simplification does.
   */
  lemma SimplifyCommutes(m: Method, b: seq<Cell>)
    requires |b| == 81
    ensures HelpfulApplications(m, b, true) == SimplifyAll(HelpfulApplications(m, b, false), b)
  {
    var applications := Applications(m, b);
    forall a | a in applications
      ensures IsHelpful(Simplify(a, b), b) <==> IsHelpful(a, b)
    {
      SimplifyKeepsHelpful(a, b);
    }
  }

  /**
   * The simplified result does on the board what the plain result does: every simplified action
   * acts like the application it came from.
   */
  lemma SimplifiedActsAlike(m: Method, b: seq<Cell>, a: Action)
    requires |b| == 81
    requires forall o :: o in Applications(m, b) ==> OnGrid(o)
    requires a in HelpfulApplications(m, b, true)
    ensures exists o :: o in HelpfulApplications(m, b, false) && Applied(a, b) == Applied(o, b)
  {
    SimplifyCommutes(m, b);
    var o :| o in HelpfulApplications(m, b, false) && a == Simplify(o, b);
    SimplifyKeepsEffect(o, b);
  }
}
