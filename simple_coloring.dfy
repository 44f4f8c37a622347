/**
 * Simple colouring (singles chains). For one digit, squares joined by strong links (the digit has
 * exactly two places in a row, column or box) form a chain; a breadth-first walk from a seed gives
 * each square a colour that flips with every hop. Rule 2 strikes a colour two of whose squares see
 * each other; rule 4 strikes the digit from the squares seen by two links of opposite colours.
 *
 * `ChainLink` compares equal on (digit, position), but its derived hash also covers the colour.
 * With distinct hashes, the usual case, the `HashSet`s of `get_chain` tell apart two links of one
 * square with different colours; with a colliding probe they need not. The model takes the first
 * reading: a chain is a set of (digit, position, colour) links, everything reachable from the
 * seed, where a square met after both an even and an odd number of hops is in it under both
 * colours.
 */
module SimpleColoring {
  import opened Wrappers
  import opened Sorted
  import opened Cells
  import opened Figures
  import opened Grids
  import opened Actions

  /** A square of a chain for digit `number`; the source's cached `info` is a function of `pos` (`PosInfoOf`). */
  datatype ChainLink = ChainLink(number: nat, pos: nat, isColored: bool)

  /** The row, column, box and neighbours of a position, as `usize::into::<PosInfo>` computes them. */
  datatype PosInfo = PosInfo(row: nat, col: nat, sqr: nat, neighbours: Figure)

  function PosInfoOf(p: nat): PosInfo
    requires p < 81
  {
    PosInfo(RowOf(p), ColOf(p), SqrOf(p), Neighbours(p))
  }

  function HaveCommonFigures(i: PosInfo, j: PosInfo): bool {
    i.row == j.row || i.col == j.col || i.sqr == j.sqr
  }

  /** `have_common_figures` holds exactly when the two positions share a row, a column or a box. */
  lemma CommonFiguresMeaning(p: nat, q: nat)
    requires p < 81 && q < 81
    ensures HaveCommonFigures(PosInfoOf(p), PosInfoOf(q)) <==> q in Neighbours(p)
    ensures HaveCommonFigures(PosInfoOf(p), PosInfoOf(q)) <==> SameUnit(p, q)
  {
  }

  // ------------------------------------------------------------- strong links

  /** The units `get_next` looks at, in its order: the column, the row and the box of `p`. */
  function UnitOf(p: nat, k: nat): (f: Figure)
    requires p < 81 && k < 3
    ensures OnBoard(f) && p in f
  {
    OfBounds(p);
    if k == 0 then Col(ColOf(p)) else if k == 1 then Row(RowOf(p)) else Sqr(SqrOf(p))
  }

  /**
   * The partner `get_next` finds in figure `f`: when `d` is listed at exactly two squares of `f`,
   * the first of them that is not `p`. If both entries are `p` (a square listing `d` twice), the
   * source's `unwrap` panics; the model then gives `p` itself.
   */
  function Partner(b: seq<Cell>, f: Figure, d: nat, p: nat): Option<nat>
    requires |b| == 81 && OnBoard(f)
  {
    var info := Info(b, f);
    if d in info && |info[d]| == 2 then
      Some(if info[d][0] != p then info[d][0] else info[d][1])
    else None
  }

  function OptSeq(o: Option<nat>): seq<nat> {
    if o.Some? then [o.value] else []
  }

  /** The partners found in the first `k` units of `p`, in order. */
  function PartnersUpTo(b: seq<Cell>, d: nat, p: nat, k: nat): (r: seq<nat>)
    requires |b| == 81 && p < 81 && k <= 3
    ensures |r| <= k
  {
    if k == 0 then [] else PartnersUpTo(b, d, p, k - 1) + OptSeq(Partner(b, UnitOf(p, k - 1), d, p))
  }

  /** The positions strongly linked to `p` for digit `d`. */
  function Partners(b: seq<Cell>, d: nat, p: nat): set<nat>
    requires |b| == 81 && p < 81
  {
    SetOf(PartnersUpTo(b, d, p, 3))
  }

  /** The links `get_next` returns: one per partner, same digit, colour flipped. */
  function Linked(ps: seq<nat>, l: ChainLink): (r: seq<ChainLink>)
    ensures |r| == |ps|
  {
    seq(|ps|, i requires 0 <= i < |ps| => ChainLink(l.number, ps[i], !l.isColored))
  }

  function NextLinks(b: seq<Cell>, l: ChainLink): seq<ChainLink>
    requires |b| == 81 && l.pos < 81
  {
    Linked(PartnersUpTo(b, l.number, l.pos, 3), l)
  }

  /** One unit's turn in `get_next`: read the info map of `figure` and pick the partner. */
  method PartnerIn(g: Grid, figure: Figure, d: nat, p: nat) returns (o: Option<nat>)
    requires g.Valid() && OnBoard(figure)
    ensures o == Partner(g.Cells(), figure, d, p)
  {
    var info := g.PencilmarksInfo(figure);
    if d in info && |info[d]| == 2 {
      var numberPositions := info[d];
      o := Some(if numberPositions[0] != p then numberPositions[0] else numberPositions[1]);
    } else {
      o := None;
    }
  }

  lemma LinkedSnoc(ps: seq<nat>, o: Option<nat>, l: ChainLink)
    ensures Linked(ps + OptSeq(o), l) == Linked(ps, l) + Linked(OptSeq(o), l)
  {
  }

  /** `ChainLink::get_next`. */
  method GetNext(g: Grid, link: ChainLink) returns (res: seq<ChainLink>)
    requires g.Valid() && link.pos < 81
    ensures res == NextLinks(g.Cells(), link)
  {
    ghost var b := g.Cells();
    res := [];
    for k := 0 to 3
      invariant res == Linked(PartnersUpTo(b, link.number, link.pos, k), link)
    {
      var figure := UnitOf(link.pos, k);
      var o := PartnerIn(g, figure, link.number, link.pos);
      LinkedSnoc(PartnersUpTo(b, link.number, link.pos, k), o, link);
      if o.Some? {
        res := res + [ChainLink(link.number, o.value, !link.isColored)];
      }
    }
  }

  /**
   * `get_next` gives at most three links, each with the same digit, the flipped colour and a
   * partner's position; every partner is given.
   */
  lemma NextLinksShape(b: seq<Cell>, l: ChainLink)
    requires |b| == 81 && l.pos < 81
    ensures |NextLinks(b, l)| <= 3
    ensures forall m :: m in NextLinks(b, l) ==>
              m.number == l.number && m.isColored == !l.isColored && m.pos in Partners(b, l.number, l.pos)
    ensures forall q :: q in Partners(b, l.number, l.pos) ==> ChainLink(l.number, q, !l.isColored) in NextLinks(b, l)
  {
    var ps := PartnersUpTo(b, l.number, l.pos, 3);
    forall q | q in Partners(b, l.number, l.pos)
      ensures ChainLink(l.number, q, !l.isColored) in NextLinks(b, l)
    {
      var i :| 0 <= i < |ps| && ps[i] == q;
      assert NextLinks(b, l)[i] == ChainLink(l.number, q, !l.isColored);
    }
  }

  lemma PartnerInFigure(b: seq<Cell>, f: Figure, d: nat, p: nat)
    requires |b| == 81 && OnBoard(f) && Partner(b, f, d, p).Some?
    ensures Partner(b, f, d, p).value in f && Partner(b, f, d, p).value < 81
  {
    InfoInFigure(b, f, d);
  }

  lemma {:induction false} PartnersUpToOnBoard(b: seq<Cell>, d: nat, p: nat, k: nat)
    requires |b| == 81 && p < 81 && k <= 3
    ensures forall q :: q in PartnersUpTo(b, d, p, k) ==> q < 81
  {
    if k > 0 {
      PartnersUpToOnBoard(b, d, p, k - 1);
      var o := Partner(b, UnitOf(p, k - 1), d, p);
      if o.Some? {
        PartnerInFigure(b, UnitOf(p, k - 1), d, p);
      }
    }
  }

  lemma PartnersOnBoard(b: seq<Cell>, d: nat, p: nat)
    requires |b| == 81 && p < 81
    ensures forall q :: q in Partners(b, d, p) ==> q < 81
  {
    PartnersUpToOnBoard(b, d, p, 3);
  }

  /**
   * On a canonical board, with `p` holding `d` in figure `f`: `f` gives a partner exactly when `d`
   * has two places in `f`, and the partner is the other one of them.
   */
  lemma PartnerMeaning(b: seq<Cell>, f: Figure, d: nat, p: nat)
    requires CanonicalBoard(b) && OnBoard(f) && p in Holders(b, f, d)
    ensures Partner(b, f, d, p).Some? <==> |Holders(b, f, d)| == 2
    ensures Partner(b, f, d, p).Some? ==>
              Partner(b, f, d, p).value != p && Holders(b, f, d) == {p, Partner(b, f, d, p).value}
  {
    InfoHolders(b, f, d);
    if |Holders(b, f, d)| == 2 {
      TwoElements(Holders(b, f, d));
    }
  }

  /** The units of `p` number 0, 1, 2 in `UnitOf`; a partner comes from one of them. */
  lemma {:induction false} PartnersUpToMember(b: seq<Cell>, d: nat, p: nat, k: nat, q: nat)
    requires |b| == 81 && p < 81 && k <= 3
    ensures q in PartnersUpTo(b, d, p, k) <==> exists u :: 0 <= u < k && Partner(b, UnitOf(p, u), d, p) == Some(q)
  {
    if k > 0 {
      PartnersUpToMember(b, d, p, k - 1, q);
      var o := Partner(b, UnitOf(p, k - 1), d, p);
      assert q in PartnersUpTo(b, d, p, k) <==> q in PartnersUpTo(b, d, p, k - 1) || o == Some(q);
    }
  }

  /** Two squares are strongly linked for `d`: some unit holds `d` at exactly these two squares. */
  predicate StrongLink(b: seq<Cell>, d: nat, p: nat, q: nat)
    requires |b| == 81 && p < 81
  {
    p != q && exists u :: 0 <= u < 3 && Holders(b, UnitOf(p, u), d) == {p, q}
  }

  /**
   * On a canonical board, the partners of a square holding `d` are exactly the squares it is
   * strongly linked to.
   */
  lemma PartnersMeaning(b: seq<Cell>, d: nat, p: nat, q: nat)
    requires CanonicalBoard(b) && p < 81 && HasMark(b[p], d)
    ensures q in Partners(b, d, p) <==> StrongLink(b, d, p, q)
  {
    PartnersUpToMember(b, d, p, 3, q);
    if q in Partners(b, d, p) {
      var u :| 0 <= u < 3 && Partner(b, UnitOf(p, u), d, p) == Some(q);
      PartnerMeaning(b, UnitOf(p, u), d, p);
    }
    if StrongLink(b, d, p, q) {
      var u :| 0 <= u < 3 && Holders(b, UnitOf(p, u), d) == {p, q};
      PartnerMeaning(b, UnitOf(p, u), d, p);
      assert Partner(b, UnitOf(p, u), d, p) == Some(q);
    }
  }

  // ------------------------------------------------------------------ chains
  // Reachability is stated over any successor relation `links` on links; a chain uses `LinksOf(b)`.

  /** The links `get_next` gives for `x`, as a set (none for a square off the board). */
  function Successors(b: seq<Cell>, x: ChainLink): set<ChainLink>
    requires |b| == 81
  {
    if x.pos < 81 then set m | m in NextLinks(b, x) else {}
  }

  function LinksOf(b: seq<Cell>): ChainLink -> set<ChainLink>
    requires |b| == 81
  {
    x => Successors(b, x)
  }

  /** A successor keeps the digit, flips the colour and moves to a partner square. */
  lemma SuccessorsMeaning(b: seq<Cell>, x: ChainLink, y: ChainLink)
    requires |b| == 81 && x.pos < 81
    ensures y in Successors(b, x) <==>
              y.number == x.number && y.isColored == !x.isColored && y.pos in Partners(b, x.number, x.pos)
  {
    NextLinksShape(b, x);
    if y.number == x.number && y.isColored == !x.isColored && y.pos in Partners(b, x.number, x.pos) {
      assert y == ChainLink(x.number, y.pos, !x.isColored);
    }
  }

  /** Every link of digit `d` on the board, under either colour. */
  function AllLinks(d: nat): set<ChainLink> {
    set p: nat, c: bool | p < 81 :: ChainLink(d, p, c)
  }

  /** `links` keeps the digit and stays on the board. */
  ghost predicate Preserving(links: ChainLink -> set<ChainLink>) {
    forall x, y :: y in links(x) ==> y.number == x.number && y.pos < 81
  }

  lemma LinksPreserving(b: seq<Cell>)
    requires |b| == 81
    ensures Preserving(LinksOf(b))
  {
    forall x, y | y in LinksOf(b)(x) ensures y.number == x.number && y.pos < 81 {
      SuccessorsMeaning(b, x, y);
      PartnersOnBoard(b, x.number, x.pos);
    }
  }

  /** One breadth-first hop: `r` together with every successor of its links. */
  function Step(links: ChainLink -> set<ChainLink>, r: set<ChainLink>): set<ChainLink> {
    r + set x, y | x in r && y in links(x) :: y
  }

  /** The links at most `k` hops away from `seed`. */
  function Reach(links: ChainLink -> set<ChainLink>, seed: ChainLink, k: nat): set<ChainLink> {
    if k == 0 then {seed} else Step(links, Reach(links, seed, k - 1))
  }

  /** The chain grown from `seed` along `links`: every link some number of hops away from it. */
  ghost function ChainOf(links: ChainLink -> set<ChainLink>, seed: ChainLink): set<ChainLink> {
    set x | x in AllLinks(seed.number) && exists k: nat :: x in Reach(links, seed, k)
  }

  /** The chain `get_chain` grows from `seed` on board `b`. */
  ghost function Chain(b: seq<Cell>, seed: ChainLink): set<ChainLink>
    requires |b| == 81
  {
    ChainOf(LinksOf(b), seed)
  }

  lemma StepMember(links: ChainLink -> set<ChainLink>, r: set<ChainLink>, y: ChainLink)
    ensures y in Step(links, r) <==> y in r || exists x :: x in r && y in links(x)
  {
  }

  lemma {:induction false} ReachGrows(links: ChainLink -> set<ChainLink>, seed: ChainLink, i: nat, k: nat)
    requires i <= k
    ensures Reach(links, seed, i) <= Reach(links, seed, k)
    decreases k
  {
    if i < k {
      ReachGrows(links, seed, i, k - 1);
    }
  }

  /** Once a hop adds nothing, no later hop does. */
  lemma {:induction false} ReachStable(links: ChainLink -> set<ChainLink>, seed: ChainLink, k: nat, m: nat)
    requires k <= m && Reach(links, seed, k + 1) == Reach(links, seed, k)
    ensures Reach(links, seed, m) == Reach(links, seed, k)
    decreases m
  {
    if k < m {
      ReachStable(links, seed, k, m - 1);
    }
  }

  /** Links that keep the digit and the board keep everything reached from the seed among its digit's links. */
  lemma {:induction false} ReachWithin(links: ChainLink -> set<ChainLink>, seed: ChainLink, k: nat)
    requires Preserving(links) && seed.pos < 81
    ensures Reach(links, seed, k) <= AllLinks(seed.number)
  {
    if k > 0 {
      ReachWithin(links, seed, k - 1);
      forall y | y in Reach(links, seed, k) ensures y in AllLinks(seed.number) {
        StepMember(links, Reach(links, seed, k - 1), y);
        if y !in Reach(links, seed, k - 1) {
          var x :| x in Reach(links, seed, k - 1) && y in links(x);
          assert y == ChainLink(seed.number, y.pos, y.isColored);
        }
      }
    } else {
      assert seed == ChainLink(seed.number, seed.pos, seed.isColored);
    }
  }

  /** When hop `j + 1` adds nothing, the chain is exactly what `j` hops reach. */
  lemma ChainIs(links: ChainLink -> set<ChainLink>, seed: ChainLink, j: nat)
    requires Preserving(links) && seed.pos < 81
    requires Reach(links, seed, j + 1) == Reach(links, seed, j)
    ensures ChainOf(links, seed) == Reach(links, seed, j)
  {
    ReachWithin(links, seed, j);
    forall x | x in ChainOf(links, seed) ensures x in Reach(links, seed, j) {
      var k: nat :| x in Reach(links, seed, k);
      if k <= j {
        ReachGrows(links, seed, k, j);
      } else {
        ReachStable(links, seed, j, k);
      }
    }
  }

  /** The seed is in its own chain, with its own colour. */
  lemma SeedInChain(b: seq<Cell>, seed: ChainLink)
    requires |b| == 81 && seed.pos < 81
    ensures seed in Chain(b, seed)
  {
    assert seed in Reach(LinksOf(b), seed, 0);
    assert seed == ChainLink(seed.number, seed.pos, seed.isColored);
  }

  /** A chain is closed: every successor of one of its links is in it. */
  lemma ChainClosed(b: seq<Cell>, seed: ChainLink, x: ChainLink, y: ChainLink)
    requires |b| == 81 && seed.pos < 81
    requires x in Chain(b, seed) && y in Successors(b, x)
    ensures y in Chain(b, seed)
  {
    var links := LinksOf(b);
    LinksPreserving(b);
    var k: nat :| x in Reach(links, seed, k);
    StepMember(links, Reach(links, seed, k), y);
    ReachWithin(links, seed, k + 1);
  }

  /** `s` holds every successor of its own links. */
  ghost predicate ClosedUnder(links: ChainLink -> set<ChainLink>, s: set<ChainLink>) {
    forall x, y :: x in s && y in links(x) ==> y in s
  }

  lemma {:induction false} ReachInside(links: ChainLink -> set<ChainLink>, seed: ChainLink, s: set<ChainLink>, k: nat)
    requires seed in s && ClosedUnder(links, s)
    ensures Reach(links, seed, k) <= s
  {
    if k > 0 {
      ReachInside(links, seed, s, k - 1);
      forall y | y in Reach(links, seed, k) ensures y in s {
        StepMember(links, Reach(links, seed, k - 1), y);
      }
    }
  }

  /** A chain is the least closed set holding the seed. */
  lemma ChainLeast(b: seq<Cell>, seed: ChainLink, s: set<ChainLink>)
    requires |b| == 81 && seed in s
    requires forall x, y :: x in s && y in Successors(b, x) ==> y in s
    ensures Chain(b, seed) <= s
  {
    assert ClosedUnder(LinksOf(b), s);
    forall x | x in Chain(b, seed) ensures x in s {
      var k: nat :| x in Reach(LinksOf(b), seed, k);
      ReachInside(LinksOf(b), seed, s, k);
    }
  }

  // ---------------------------------------------------------------- get_chain

  /** The successors of the links of `ps` that are not in `res`. */
  function Fresh(links: ChainLink -> set<ChainLink>, ps: set<ChainLink>, res: set<ChainLink>): set<ChainLink> {
    set x, y | x in ps && y in links(x) && y !in res :: y
  }

  /** Sweeping one more stacked link `p` adds its successors outside `res`. */
  lemma FreshStep(links: ChainLink -> set<ChainLink>, stack: set<ChainLink>, todo: set<ChainLink>, p: ChainLink, res: set<ChainLink>)
    requires p in todo && todo <= stack
    ensures Fresh(links, stack - (todo - {p}), res) == Fresh(links, stack - todo, res) + (links(p) - res)
  {
    assert stack - (todo - {p}) == (stack - todo) + {p};
  }

  /** Sweeping the newest links of hop `j` gives exactly the links first reached at hop `j + 1`. */
  lemma ExpandLevel(links: ChainLink -> set<ChainLink>, seed: ChainLink, j: nat, stack: set<ChainLink>)
    requires j >= 1
    requires Reach(links, seed, j) - Reach(links, seed, j - 1) <= stack <= Reach(links, seed, j)
    ensures Fresh(links, stack, Reach(links, seed, j)) == Reach(links, seed, j + 1) - Reach(links, seed, j)
  {
    var r := Reach(links, seed, j);
    var prev := Reach(links, seed, j - 1);
    forall y | y in Reach(links, seed, j + 1) - r
      ensures y in Fresh(links, stack, r)
    {
      StepMember(links, r, y);
      var x :| x in r && y in links(x);
      if x in prev {
        StepMember(links, prev, y);
        assert false;
      }
    }
  }

  /** One stacked link's turn: `get_next`, minus what `res` holds, goes onto the new stack. */
  method PushFresh(g: Grid, link: ChainLink, res: set<ChainLink>, stack: set<ChainLink>)
    returns (newStack: set<ChainLink>)
    requires g.Valid() && link.pos < 81
    ensures newStack == stack + (Successors(g.Cells(), link) - res)
  {
    var nextLinks := GetNext(g, link);
    newStack := stack + set m | m in nextLinks && m !in res;
  }

  /** One sweep over the stack (`for chain_link in stack`): the successors not in `res` yet. */
  method NextStack(g: Grid, stack: set<ChainLink>, res: set<ChainLink>) returns (newStack: set<ChainLink>)
    requires g.Valid() && forall x :: x in stack ==> x.pos < 81
    ensures newStack == Fresh(LinksOf(g.Cells()), stack, res)
  {
    ghost var links := LinksOf(g.Cells());
    newStack := {};
    var todo := stack;
    while todo != {}
      invariant todo <= stack
      invariant newStack == Fresh(links, stack - todo, res)
      decreases todo
    {
      var p :| p in todo;
      newStack := PushFresh(g, p, res, newStack);
      FreshStep(links, stack, todo, p, res);
      assert links(p) == Successors(g.Cells(), p);
      todo := todo - {p};
    }
  }

  /**
   * The state of `get_chain` after `j` sweeps: `res` is everything `j` hops reach, and the stack
   * holds at least the links first reached at hop `j`.
   */
  ghost predicate Sweeps(links: ChainLink -> set<ChainLink>, seed: ChainLink, j: nat, res: set<ChainLink>, stack: set<ChainLink>) {
    j >= 1 && res == Reach(links, seed, j) && Reach(links, seed, j) - Reach(links, seed, j - 1) <= stack <= res
  }

  /** Everything a sweep handles is on the board. */
  lemma SweepOnBoard(links: ChainLink -> set<ChainLink>, seed: ChainLink, j: nat, res: set<ChainLink>, stack: set<ChainLink>)
    requires Preserving(links) && seed.pos < 81 && Sweeps(links, seed, j, res, stack)
    ensures forall x :: x in stack ==> x.pos < 81
  {
    ReachWithin(links, seed, j);
  }

  /** A sweep keeps `Sweeps`. */
  lemma SweepStep(links: ChainLink -> set<ChainLink>, seed: ChainLink, j: nat, res: set<ChainLink>, stack: set<ChainLink>)
    requires Sweeps(links, seed, j, res, stack)
    ensures Sweeps(links, seed, j + 1, res + Fresh(links, stack, res), Fresh(links, stack, res))
  {
    ExpandLevel(links, seed, j, stack);
    ReachGrows(links, seed, j, j + 1);
  }

  /** A sweep that finds something shrinks the links not reached yet. */
  lemma SweepShrinks(links: ChainLink -> set<ChainLink>, seed: ChainLink, j: nat, res: set<ChainLink>, stack: set<ChainLink>)
    requires Preserving(links) && seed.pos < 81 && Sweeps(links, seed, j, res, stack)
    ensures var newStack := Fresh(links, stack, res);
      newStack != {} ==> AllLinks(seed.number) - (res + newStack) < AllLinks(seed.number) - res
  {
    var newStack := Fresh(links, stack, res);
    if newStack != {} {
      SweepStep(links, seed, j, res, stack);
      ReachWithin(links, seed, j + 1);
      var y :| y in newStack;
      assert y in AllLinks(seed.number) - res;
    }
  }

  /** When a sweep leaves the stack empty, `res` is the whole chain. */
  lemma SweepDone(links: ChainLink -> set<ChainLink>, seed: ChainLink, j: nat, res: set<ChainLink>)
    requires Preserving(links) && seed.pos < 81 && Sweeps(links, seed, j, res, {})
    ensures res == ChainOf(links, seed)
  {
    ReachGrows(links, seed, j - 1, j);
    forall x ensures x in Reach(links, seed, j) <==> x in Reach(links, seed, j - 1) {
      assert x !in Reach(links, seed, j) - Reach(links, seed, j - 1);
    }
    assert Reach(links, seed, j - 1 + 1) == Reach(links, seed, j - 1);
    ChainIs(links, seed, j - 1);
  }

  /** The start of `get_chain`: the seed's links and the seed itself, everything one hop reaches. */
  method FirstLinks(g: Grid, seed: ChainLink) returns (res: set<ChainLink>)
    requires g.Valid() && seed.pos < 81
    ensures res == Reach(LinksOf(g.Cells()), seed, 1)
  {
    ghost var links := LinksOf(g.Cells());
    var first := GetNext(g, seed);
    res := set m | m in first;
    res := res + {seed};
    assert links(seed) == Successors(g.Cells(), seed);
    forall y ensures y in Reach(links, seed, 1) <==> y in res {
      StepMember(links, {seed}, y);
    }
  }

  function LinkSet(cs: seq<ChainLink>): set<ChainLink> {
    set l | l in cs
  }

  predicate DistinctLinks(cs: seq<ChainLink>) {
    forall i, j :: 0 <= i < j < |cs| ==> cs[i] != cs[j]
  }

  /** `into_iter().collect()` of a set of links: each link once, in no particular order. */
  method Collect(s: set<ChainLink>) returns (cs: seq<ChainLink>)
    ensures LinkSet(cs) == s && DistinctLinks(cs)
  {
    cs := [];
    var rest := s;
    while rest != {}
      invariant rest <= s && LinkSet(cs) == s - rest && DistinctLinks(cs)
      decreases rest
    {
      var x :| x in rest;
      assert x !in LinkSet(cs);
      assert LinkSet(cs + [x]) == LinkSet(cs) + {x};
      cs := cs + [x];
      rest := rest - {x};
    }
  }

  /** `ChainLink::get_chain`: grow the chain of `seed` breadth first until a sweep finds nothing new. */
  method GetChain(g: Grid, seed: ChainLink) returns (chain: seq<ChainLink>)
    requires g.Valid() && seed.pos < 81
    ensures LinkSet(chain) == Chain(g.Cells(), seed) && DistinctLinks(chain)
  {
    ghost var links := LinksOf(g.Cells());
    LinksPreserving(g.Cells());
    var res := FirstLinks(g, seed);
    var stack := res;
    ghost var j: nat := 1;
    while stack != {}
      invariant Sweeps(links, seed, j, res, stack)
      decreases AllLinks(seed.number) - res, |stack|
    {
      SweepOnBoard(links, seed, j, res, stack);
      SweepStep(links, seed, j, res, stack);
      SweepShrinks(links, seed, j, res, stack);
      var newStack := NextStack(g, stack, res);
      stack := newStack;
      res := res + stack;
      j := j + 1;
    }
    SweepDone(links, seed, j, res);
    chain := Collect(res);
  }

  // -------------------------------------------------------------------- rules

  /** The squares of the links of `chain` that have colour `colour`. */
  function ColourSquares(chain: set<ChainLink>, colour: bool): Figure {
    set l | l in chain && l.isColored == colour :: l.pos
  }

  /** Rule 2: two links of one colour whose squares share a unit condemn that colour's squares. */
  function Rule2(x: ChainLink, y: ChainLink, chain: set<ChainLink>): Option<Action> {
    if x.isColored != y.isColored then None
    else if !SameUnit(x.pos, y.pos) then None
    else Some(RemovePencilmarks(ColourSquares(chain, x.isColored), [x.number]))
  }

  /** The squares that see both `p` and `q`. */
  function SeenByBoth(p: nat, q: nat): Figure {
    set r: nat | r < 81 && SameUnit(p, r) && SameUnit(q, r)
  }

  /** Rule 4: two links of opposite colours strike the digit from the other squares that see both. */
  function Rule4(x: ChainLink, y: ChainLink): Option<Action> {
    if x.isColored == y.isColored then None
    else if SeenByBoth(x.pos, y.pos) == {} then None
    else Some(RemovePencilmarks(SeenByBoth(x.pos, y.pos) - {x.pos, y.pos}, [x.number]))
  }

  /**
   * Two squares always have a common neighbour (the square on the row of one and the column of
   * the other), so rule 4 fires for every pair of opposite colours: the emptiness guard of
   * `rule4` never triggers.
   */
  lemma Rule4Fires(x: ChainLink, y: ChainLink)
    requires x.pos < 81 && y.pos < 81
    ensures Rule4(x, y).Some? <==> x.isColored != y.isColored
  {
    if x.isColored != y.isColored {
      OfBounds(x.pos);
      OfBounds(y.pos);
      var w := RowOf(x.pos) * 9 + ColOf(y.pos);
      assert RowOf(w) == RowOf(x.pos) && ColOf(w) == ColOf(y.pos);
      assert w in SeenByBoth(x.pos, y.pos);
    }
  }

  /** The squares rule 4 strikes are those, other than the two links' own, that see both links. */
  lemma Rule4Meaning(x: ChainLink, y: ChainLink, q: nat)
    requires Rule4(x, y).Some?
    ensures Rule4(x, y).value.RemovePencilmarks? && Rule4(x, y).value.pencilmarks == [x.number]
    ensures q in Rule4(x, y).value.figure <==>
              q < 81 && q != x.pos && q != y.pos && SameUnit(x.pos, q) && SameUnit(y.pos, q)
  {
  }

  /** Neither rule depends on the order of the pair. */
  lemma RulesSymmetric(x: ChainLink, y: ChainLink, chain: set<ChainLink>)
    requires x.number == y.number
    ensures Rule2(x, y, chain) == Rule2(y, x, chain)
    ensures Rule4(x, y) == Rule4(y, x)
  {
    assert {x.pos, y.pos} == {y.pos, x.pos};
    assert SeenByBoth(x.pos, y.pos) == SeenByBoth(y.pos, x.pos);
  }

  /** The neighbours both `PosInfo`s list are the squares that see both positions. */
  lemma NeighboursBoth(p: nat, q: nat)
    requires p < 81 && q < 81
    ensures PosInfoOf(p).neighbours * PosInfoOf(q).neighbours == SeenByBoth(p, q)
  {
  }

  /** The loop of `rule2` over the chain: the squares of the links of colour `colour`. */
  method ColourPositions(chain: seq<ChainLink>, colour: bool) returns (positions: Figure)
    ensures positions == ColourSquares(LinkSet(chain), colour)
  {
    positions := {};
    for i := 0 to |chain|
      invariant positions == ColourSquares(LinkSet(chain[..i]), colour)
    {
      assert LinkSet(chain[..i + 1]) == LinkSet(chain[..i]) + {chain[i]} by {
        assert chain[..i + 1] == chain[..i] + [chain[i]];
      }
      if chain[i].isColored == colour {
        positions := positions + {chain[i].pos};
      }
    }
    assert chain[..|chain|] == chain;
  }

  /** `ChainLink::rule2`, on the links' `PosInfo`s. */
  method TryRule2(x: ChainLink, y: ChainLink, chain: seq<ChainLink>) returns (action: Option<Action>)
    requires x.pos < 81 && y.pos < 81
    ensures action == Rule2(x, y, LinkSet(chain))
  {
    if x.isColored != y.isColored {
      return None;
    }
    var info1 := PosInfoOf(x.pos);
    var info2 := PosInfoOf(y.pos);
    CommonFiguresMeaning(x.pos, y.pos);
    if !HaveCommonFigures(info1, info2) {
      return None;
    }
    var positions := ColourPositions(chain, x.isColored);
    action := Some(RemovePencilmarks(positions, [x.number]));
  }

  /** `ChainLink::rule4`, on the links' `PosInfo`s. */
  method TryRule4(x: ChainLink, y: ChainLink) returns (action: Option<Action>)
    requires x.pos < 81 && y.pos < 81
    ensures action == Rule4(x, y)
  {
    if x.isColored == y.isColored {
      return None;
    }
    var info1 := PosInfoOf(x.pos);
    var info2 := PosInfoOf(y.pos);
    var intersection := info1.neighbours * info2.neighbours;
    NeighboursBoth(x.pos, y.pos);
    if |intersection| == 0 {
      return None;
    }
    action := Some(RemovePencilmarks(intersection - {x.pos, y.pos}, [x.number]));
  }

  // ---------------------------------------------------------------- one chain

  function OptionSet(o: Option<Action>): set<Action> {
    if o.Some? then {o.value} else {}
  }

  /** What the pair of links `(x, y)` of `chain` yields: rule 2's action and rule 4's. */
  function PairActions(x: ChainLink, y: ChainLink, chain: set<ChainLink>): set<Action> {
    OptionSet(Rule2(x, y, chain)) + OptionSet(Rule4(x, y))
  }

  /** Every pair of distinct links of `chain`, through both rules. */
  function ChainActions(chain: set<ChainLink>): set<Action> {
    set x, y, a | x in chain && y in chain && x != y && a in PairActions(x, y, chain) :: a
  }

  /** The links of a listed chain share one digit and lie on the board. */
  predicate ChainShaped(cs: seq<ChainLink>) {
    forall i :: 0 <= i < |cs| ==> cs[i].number == cs[0].number && cs[i].pos < 81
  }

  /** What the index pair `(i, j)` of a listed chain contributes. */
  function ChainTable(cs: seq<ChainLink>): (nat, nat) -> set<Action> {
    (i: nat, j: nat) =>
      if i < |cs| && j < |cs| then PairActions(cs[i], cs[j], LinkSet(cs)) else {}
  }

  /** The body of the pair loop for one pair: rule 2, then rule 4. */
  method TryPair(x: ChainLink, y: ChainLink, chain: seq<ChainLink>) returns (found: set<Action>)
    requires x.pos < 81 && y.pos < 81
    ensures found == PairActions(x, y, LinkSet(chain))
  {
    found := {};
    var rule2 := TryRule2(x, y, chain);
    var rule4 := TryRule4(x, y);
    if rule2.Some? {
      found := found + {rule2.value};
    }
    if rule4.Some? {
      found := found + {rule4.value};
    }
  }

  lemma PairsWithNext(cs: seq<ChainLink>, i: nat, j: nat)
    requires i < j < |cs|
    ensures PairsWith(ChainTable(cs), i, j + 1) == PairsWith(ChainTable(cs), i, j) + PairActions(cs[i], cs[j], LinkSet(cs))
  {
  }

  /** Link `i` of the listed chain against every later one. */
  method PairsFrom(cs: seq<ChainLink>, i: nat) returns (found: set<Action>)
    requires ChainShaped(cs) && i < |cs|
    ensures found == PairsWith(ChainTable(cs), i, |cs|)
  {
    found := {};
    for j := i + 1 to |cs|
      invariant found == PairsWith(ChainTable(cs), i, j)
    {
      var pair := TryPair(cs[i], cs[j], cs);
      PairsWithNext(cs, i, j);
      found := found + pair;
    }
  }

  /** `chain.iter().combinations(2)`: every index pair `i < j` of the listed chain. */
  method ChainPairs(cs: seq<ChainLink>) returns (res: set<Action>)
    requires ChainShaped(cs) && DistinctLinks(cs)
    ensures res == ChainActions(LinkSet(cs))
  {
    res := {};
    for i := 0 to |cs|
      invariant res == PairsBelow(ChainTable(cs), |cs|, i)
    {
      var found := PairsFrom(cs, i);
      res := res + found;
    }
    ListingPairs(cs);
  }

  /** Over a repetition-free listing, the index pairs `i < j` give exactly the pairs of distinct links. */
  lemma ListingPairs(cs: seq<ChainLink>)
    requires ChainShaped(cs) && DistinctLinks(cs)
    ensures PairsBelow(ChainTable(cs), |cs|, |cs|) == ChainActions(LinkSet(cs))
  {
    var t := ChainTable(cs);
    forall a ensures a in PairsBelow(t, |cs|, |cs|) <==> a in ChainActions(LinkSet(cs)) {
      PairsBelowMember(t, |cs|, |cs|, a);
      if a in ChainActions(LinkSet(cs)) {
        var x, y :| x in LinkSet(cs) && y in LinkSet(cs) && x != y && a in PairActions(x, y, LinkSet(cs));
        var i: nat :| i < |cs| && cs[i] == x;
        var j: nat :| j < |cs| && cs[j] == y;
        RulesSymmetric(x, y, LinkSet(cs));
        if j < i {
          assert a in t(j, i);
        } else {
          assert a in t(i, j);
        }
      }
      if a in PairsBelow(t, |cs|, |cs|) {
        var i: nat, j: nat :| i < |cs| && i < j < |cs| && a in t(i, j);
        assert cs[i] in LinkSet(cs) && cs[j] in LinkSet(cs);
      }
    }
  }

  // ------------------------------------------------------- chains of one digit

  /** Some chain of `chains` has a link on square `p`. */
  ghost predicate Covered(chains: seq<set<ChainLink>>, p: nat) {
    exists i, l :: 0 <= i < |chains| && l in chains[i] && l.pos == p
  }

  /**
   * The chains `get_chains_for_number` has after trying squares `0..k` as seeds: a square holding
   * digit `d` that no earlier chain reaches seeds a chain, uncoloured.
   */
  ghost function ChainsUpTo(b: seq<Cell>, d: nat, k: nat): seq<set<ChainLink>>
    requires |b| == 81 && k <= 81
  {
    if k == 0 then []
    else
      var chains := ChainsUpTo(b, d, k - 1);
      if HasMark(b[k - 1], d) && !Covered(chains, k - 1) then chains + [Chain(b, ChainLink(d, k - 1, false))]
      else chains
  }

  /** Chains listed one by one, each link once. */
  ghost predicate Listings(lists: seq<seq<ChainLink>>, chains: seq<set<ChainLink>>) {
    |lists| == |chains| && forall i :: 0 <= i < |lists| ==> LinkSet(lists[i]) == chains[i] && DistinctLinks(lists[i])
  }

  /** Every link of a chain has the seed's digit and lies on the board. */
  lemma ChainLinks(b: seq<Cell>, seed: ChainLink, x: ChainLink)
    requires |b| == 81 && x in Chain(b, seed)
    ensures x.number == seed.number && x.pos < 81
  {
  }

  /** `SinglesChains::get_chains_for_number`. */
  method GetChainsForNumber(g: Grid, number: nat) returns (chains: seq<seq<ChainLink>>)
    requires g.Valid()
    ensures Listings(chains, ChainsUpTo(g.Cells(), number, 81))
  {
    chains := [];
    for pos := 0 to 81
      invariant Listings(chains, ChainsUpTo(g.Cells(), number, pos))
    {
      ghost var sets := ChainsUpTo(g.Cells(), number, pos);
      var unseen := forall i, l :: 0 <= i < |chains| && l in chains[i] ==> l.pos != pos;
      assert unseen <==> !Covered(sets, pos) by {
        if !unseen {
          var i, l :| 0 <= i < |chains| && l in chains[i] && l.pos == pos;
          assert l in sets[i];
        }
        if Covered(sets, pos) {
          var i: nat, l: ChainLink :| 0 <= i < |sets| && l in sets[i] && l.pos == pos;
          assert l in LinkSet(chains[i]);
        }
      }
      if g.matrix[pos].Pencilmarks? && number in g.matrix[pos].marks && unseen {
        var chain := GetChain(g, ChainLink(number, pos, false));
        chains := chains + [chain];
      }
    }
  }

  /** Covering a square survives later chains. */
  lemma CoveredGrows(b: seq<Cell>, d: nat, k: nat, m: nat, p: nat)
    requires |b| == 81 && k <= m <= 81 && Covered(ChainsUpTo(b, d, k), p)
    ensures Covered(ChainsUpTo(b, d, m), p)
    decreases m
  {
    if k < m {
      CoveredGrows(b, d, k, m - 1, p);
      var chains := ChainsUpTo(b, d, m - 1);
      var i: nat, l: ChainLink :| 0 <= i < |chains| && l in chains[i] && l.pos == p;
      assert ChainsUpTo(b, d, m)[i] == chains[i];
    }
  }

  /** Every square holding the digit ends up in some chain of that digit. */
  lemma ChainsCover(b: seq<Cell>, d: nat, p: nat)
    requires |b| == 81 && p < 81 && HasMark(b[p], d)
    ensures Covered(ChainsUpTo(b, d, 81), p)
  {
    var chains := ChainsUpTo(b, d, p);
    if !Covered(chains, p) {
      var seed := ChainLink(d, p, false);
      SeedInChain(b, seed);
      assert ChainsUpTo(b, d, p + 1)[|chains|] == Chain(b, seed);
    }
    CoveredGrows(b, d, p + 1, 81, p);
  }

  /** Every chain of a digit is grown from an uncoloured seed holding that digit. */
  lemma {:induction false} ChainsSeeded(b: seq<Cell>, d: nat, k: nat, i: nat)
    requires |b| == 81 && k <= 81 && i < |ChainsUpTo(b, d, k)|
    ensures exists p: nat :: p < k && HasMark(b[p], d) && ChainsUpTo(b, d, k)[i] == Chain(b, ChainLink(d, p, false))
  {
    if i < |ChainsUpTo(b, d, k - 1)| {
      ChainsSeeded(b, d, k - 1, i);
      assert ChainsUpTo(b, d, k)[i] == ChainsUpTo(b, d, k - 1)[i];
    } else {
      assert HasMark(b[k - 1], d);
    }
  }

  // ----------------------------------------------------------- all the digits

  /** The chains of digits `1..k`, digit by digit. */
  ghost function AllChains(b: seq<Cell>, k: nat): seq<set<ChainLink>>
    requires |b| == 81
  {
    if k == 0 then [] else AllChains(b, k - 1) + ChainsUpTo(b, k, 81)
  }

  /** What the pairs of every chain of `chains` yield. */
  function ChainsActions(chains: seq<set<ChainLink>>): set<Action> {
    if chains == [] then {} else ChainsActions(chains[..|chains| - 1]) + ChainActions(chains[|chains| - 1])
  }

  /** Every action simple colouring finds on board `b`. */
  ghost function ColoringAll(b: seq<Cell>): set<Action>
    requires |b| == 81
  {
    ChainsActions(AllChains(b, 9))
  }

  lemma ListingsAppend(lists: seq<seq<ChainLink>>, chains: seq<set<ChainLink>>, more: seq<seq<ChainLink>>, moreChains: seq<set<ChainLink>>)
    requires Listings(lists, chains) && Listings(more, moreChains)
    ensures Listings(lists + more, chains + moreChains)
  {
  }

  lemma ChainsActionsSnoc(chains: seq<set<ChainLink>>, i: nat)
    requires i < |chains|
    ensures ChainsActions(chains[..i + 1]) == ChainsActions(chains[..i]) + ChainActions(chains[i])
  {
    assert chains[..i + 1][..i] == chains[..i];
  }

  /** Every chain of every digit is grown from a seed on the board. */
  lemma AllChainsSeeded(b: seq<Cell>, k: nat, i: nat)
    requires |b| == 81 && i < |AllChains(b, k)|
    ensures exists seed: ChainLink :: seed.pos < 81 && AllChains(b, k)[i] == Chain(b, seed)
    decreases k
  {
    var before := AllChains(b, k - 1);
    if i < |before| {
      AllChainsSeeded(b, k - 1, i);
      assert AllChains(b, k)[i] == before[i];
    } else {
      ChainsSeeded(b, k, 81, i - |before|);
      assert AllChains(b, k)[i] == ChainsUpTo(b, k, 81)[i - |before|];
    }
  }

  /** A listing of a chain is shaped for the pair loop. */
  lemma ListedChainShaped(b: seq<Cell>, cs: seq<ChainLink>, seed: ChainLink)
    requires |b| == 81 && LinkSet(cs) == Chain(b, seed)
    ensures ChainShaped(cs)
  {
    forall i | 0 <= i < |cs| ensures cs[i].number == cs[0].number && cs[i].pos < 81 {
      assert cs[i] in LinkSet(cs) && cs[0] in LinkSet(cs);
      ChainLinks(b, seed, cs[i]);
      ChainLinks(b, seed, cs[0]);
    }
  }

  /** The first loop of `get_all_applications`: the chains of the digits 1 to 9, one after the other. */
  method CollectChains(g: Grid) returns (chains: seq<seq<ChainLink>>)
    requires g.Valid()
    ensures Listings(chains, AllChains(g.Cells(), 9))
  {
    chains := [];
    for number := 1 to 10
      invariant Listings(chains, AllChains(g.Cells(), number - 1))
    {
      var more := GetChainsForNumber(g, number);
      ListingsAppend(chains, AllChains(g.Cells(), number - 1), more, ChainsUpTo(g.Cells(), number, 81));
      chains := chains + more;
    }
  }

  /** `SinglesChains::get_all_applications`: both rules on every pair of links of every chain. */
  method GetAllApplications(g: Grid) returns (res: set<Action>)
    requires g.Valid()
    ensures res == ColoringAll(g.Cells())
  {
    var chains := CollectChains(g);
    ghost var sets := AllChains(g.Cells(), 9);
    // `generate_info` caches `PosInfoOf(pos)` in every link; the rules compute it where they need it.
    res := {};
    for i := 0 to |chains|
      invariant res == ChainsActions(sets[..i])
    {
      AllChainsSeeded(g.Cells(), 9, i);
      ghost var seed: ChainLink :| seed.pos < 81 && sets[i] == Chain(g.Cells(), seed);
      ListedChainShaped(g.Cells(), chains[i], seed);
      var found := ChainPairs(chains[i]);
      ChainsActionsSnoc(sets, i);
      res := res + found;
    }
    assert sets[..|chains|] == sets;
  }
}

