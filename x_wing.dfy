/**
 * The older X-Wing strategy: two lines where a digit has exactly two places, and
 * those places pair up on two cross-lines; the digit leaves the rest of the
 * cross-lines.
 */
module XWing {
  import opened Wrappers
  import opened Sorted
  import opened Cells
  import opened Figures
  import opened Grids
  import opened Actions

  /** A line in which `pencilmark` has exactly the two places `first < second`. */
  datatype Candidate = Candidate(pencilmark: nat, first: nat, second: nat)

  predicate CandidateOnBoard(c: Candidate) {
    c.first < 81 && c.second < 81
  }

  predicate AllOnBoard(cs: set<Candidate>) {
    forall c :: c in cs ==> CandidateOnBoard(c)
  }

  /** The candidates the digits of `ks` give in one line's info map. */
  function LineCandidates(info: map<nat, seq<nat>>, ks: set<nat>): set<Candidate> {
    set d | d in ks && d in info && |info[d]| == 2 :: Candidate(d, info[d][0], info[d][1])
  }

  function CandidatesIn(b: seq<Cell>, inRow: bool, i: nat): set<Candidate>
    requires |b| == 81 && i < 9
  {
    LineCandidates(Info(b, LineOf(inRow, i)), Info(b, LineOf(inRow, i)).Keys)
  }

  /** The candidates of lines `0 .. k - 1`. */
  function CandidatesUpTo(b: seq<Cell>, inRow: bool, k: nat): set<Candidate>
    requires |b| == 81 && k <= 9
  {
    if k == 0 then {} else CandidatesUpTo(b, inRow, k - 1) + CandidatesIn(b, inRow, k - 1)
  }

  function Candidates(b: seq<Cell>, inRow: bool): set<Candidate>
    requires |b| == 81
  {
    CandidatesUpTo(b, inRow, 9)
  }

  /**
   * Two candidates of one digit whose first places share a cross-line, and whose
   * second places do too.
   */
  predicate Fires(c1: Candidate, c2: Candidate, inRow: bool) {
    && c1.pencilmark == c2.pencilmark
    && CrossIndex(c1.first, inRow) == CrossIndex(c2.first, inRow)
    && CrossIndex(c1.second, inRow) == CrossIndex(c2.second, inRow)
  }

  /** The two cross-lines minus the four places, with the candidates' digit. */
  function XAction(c1: Candidate, c2: Candidate, inRow: bool): Action {
    var same1 := CrossLine(inRow, CrossIndex(c1.first, inRow));
    var same2 := CrossLine(inRow, CrossIndex(c1.second, inRow));
    RemovePencilmarks(same1 + same2 - {c1.first, c2.first} - {c1.second, c2.second}, [c1.pencilmark])
  }

  /** The `on_same_figure` test of `get_all`: both pairs of places lie on a common cross-line. */
  lemma SameFigureTest(c1: Candidate, c2: Candidate, inRow: bool)
    requires c1.pencilmark == c2.pencilmark
    ensures Fires(c1, c2, inRow) <==>
      if inRow then
        IsOnTheSameCol({c1.first, c2.first}).Some? && IsOnTheSameCol({c1.second, c2.second}).Some?
      else
        IsOnTheSameRow({c1.first, c2.first}).Some? && IsOnTheSameRow({c1.second, c2.second}).Some?
  {
  }

  /** The figure of the elimination in `get_all`, built from the common cross-lines the test returns. */
  lemma CrossFigure(c1: Candidate, c2: Candidate, inRow: bool)
    requires CandidateOnBoard(c1) && CandidateOnBoard(c2) && Fires(c1, c2, inRow)
    ensures inRow ==> (IsOnTheSameCol({c1.first, c2.first}) == Some(ColOf(c1.first))
                   && IsOnTheSameCol({c1.second, c2.second}) == Some(ColOf(c1.second)))
    ensures !inRow ==> (IsOnTheSameRow({c1.first, c2.first}) == Some(RowOf(c1.first))
                    && IsOnTheSameRow({c1.second, c2.second}) == Some(RowOf(c1.second)))
  {
    assert c1.first in {c1.first, c2.first} && c1.second in {c1.second, c2.second};
  }

  /** The firing test, as a value. */
  function FireOf(inRow: bool): (Candidate, Candidate) -> bool {
    (c1: Candidate, c2: Candidate) => Fires(c1, c2, inRow)
  }

  /** The action of a pair, as a value. */
  function ActOf(inRow: bool): (Candidate, Candidate) -> Action {
    (c1: Candidate, c2: Candidate) => XAction(c1, c2, inRow)
  }

  /** What `act` makes of every unordered pair of distinct members of `cs` that `fire` accepts. */
  function PairImage(cs: set<Candidate>, fire: (Candidate, Candidate) -> bool, act: (Candidate, Candidate) -> Action): set<Action> {
    set c1, c2 | c1 in cs && c2 in cs && c1 != c2 && fire(c1, c2) :: act(c1, c2)
  }

  /** Every unordered pair of distinct candidates that fires, turned into its action. */
  function XWingFrom(cs: set<Candidate>, inRow: bool): set<Action> {
    PairImage(cs, FireOf(inRow), ActOf(inRow))
  }

  /** `XWingCreator::get_all`, as a set. */
  function XWingIn(b: seq<Cell>, inRow: bool): set<Action>
    requires |b| == 81
  {
    XWingFrom(Candidates(b, inRow), inRow)
  }

  /** `XWingCreator::get_all_applications`: row mode, then column mode. */
  function XWingAll(b: seq<Cell>): set<Action>
    requires |b| == 81
  {
    XWingIn(b, true) + XWingIn(b, false)
  }

  // ----------------------------------------------------- candidate collection

  predicate Distinct(cs: seq<Candidate>) {
    forall x, y :: 0 <= x < y < |cs| ==> cs[x] != cs[y]
  }

  function AsSet(cs: seq<Candidate>): set<Candidate> {
    set c | c in cs
  }

  /** Every position an info map lists lies on the board, on line `i`. */
  predicate InfoOnLine(info: map<nat, seq<nat>>, inRow: bool, i: nat) {
    forall d, k :: d in info && 0 <= k < |info[d]| ==> info[d][k] < 81 && LineIndex(info[d][k], inRow) == i
  }

  lemma InfoOfLine(b: seq<Cell>, inRow: bool, i: nat)
    requires |b| == 81 && i < 9
    ensures InfoOnLine(Info(b, LineOf(inRow, i)), inRow, i)
    ensures InfoWithin(Info(b, LineOf(inRow, i)), LineOf(inRow, i))
  {
    var f := LineOf(inRow, i);
    forall d, k | d in Info(b, f) && 0 <= k < |Info(b, f)[d]|
      ensures Info(b, f)[d][k] in f && Info(b, f)[d][k] < 81 && LineIndex(Info(b, f)[d][k], inRow) == i
    {
      InfoInFigure(b, f, d);
    }
  }

  lemma CandidatesOnLine(b: seq<Cell>, inRow: bool, i: nat)
    requires |b| == 81 && i < 9
    ensures forall c :: c in CandidatesIn(b, inRow, i) ==>
      CandidateOnBoard(c) && LineIndex(c.first, inRow) == i
  {
    InfoOfLine(b, inRow, i);
  }

  lemma {:induction false} CandidatesOnBoard(b: seq<Cell>, inRow: bool, k: nat)
    requires |b| == 81 && k <= 9
    ensures AllOnBoard(CandidatesUpTo(b, inRow, k))
    ensures forall c :: c in CandidatesUpTo(b, inRow, k) ==> LineIndex(c.first, inRow) < k
  {
    if k > 0 {
      CandidatesOnBoard(b, inRow, k - 1);
      CandidatesOnLine(b, inRow, k - 1);
    }
  }

  lemma LineCandidatesStep(info: map<nat, seq<nat>>, ks: set<nat>, d: nat)
    requires d in info
    ensures LineCandidates(info, ks + {d})
         == LineCandidates(info, ks) + if |info[d]| == 2 then {Candidate(d, info[d][0], info[d][1])} else {}
  {
  }

  /** Every position an info map lists lies in `figure`. */
  predicate InfoWithin(info: map<nat, seq<nat>>, figure: Figure) {
    forall d, k :: d in info && 0 <= k < |info[d]| ==> info[d][k] in figure
  }

  /** The candidates found so far in a line: each once, in the line, of digits no longer pending. */
  predicate Fresh(added: seq<Candidate>, figure: Figure, rest: set<nat>) {
    && Distinct(added)
    && forall x :: 0 <= x < |added| ==> added[x].first in figure && added[x].pencilmark !in rest
  }

  lemma FreshStep(added: seq<Candidate>, figure: Figure, rest: set<nat>, c: Candidate)
    requires Fresh(added, figure, rest) && c.first in figure && c.pencilmark in rest
    ensures Fresh(added + [c], figure, rest - {c.pencilmark})
    ensures AsSet(added + [c]) == AsSet(added) + {c}
  {
    assert c !in added;
  }

  lemma FreshSkip(added: seq<Candidate>, figure: Figure, rest: set<nat>, d: nat)
    requires Fresh(added, figure, rest)
    ensures Fresh(added, figure, rest - {d})
  {
  }

  /** The `filter_map` of `get_all`: the two-place digits of one line, each once. */
  method LineCandidatesOf(info: map<nat, seq<nat>>, figure: Figure) returns (added: seq<Candidate>)
    requires InfoWithin(info, figure)
    ensures AsSet(added) == LineCandidates(info, info.Keys)
    ensures Distinct(added)
    ensures forall x :: 0 <= x < |added| ==> added[x].first in figure
  {
    added := [];
    var rest := info.Keys;
    while rest != {}
      invariant rest <= info.Keys
      invariant AsSet(added) == LineCandidates(info, info.Keys - rest)
      invariant Fresh(added, figure, rest)
      decreases |rest|
    {
      var pencilmark :| pencilmark in rest;
      LineCandidatesStep(info, info.Keys - rest, pencilmark);
      assert info.Keys - (rest - {pencilmark}) == (info.Keys - rest) + {pencilmark};
      var positions := info[pencilmark];
      if |positions| == 2 {
        var c := Candidate(pencilmark, positions[0], positions[1]);
        FreshStep(added, figure, rest, c);
        added := added + [c];
      } else {
        FreshSkip(added, figure, rest, pencilmark);
      }
      rest := rest - {pencilmark};
    }
    assert info.Keys - rest == info.Keys;
  }

  /** `extend`: candidates of earlier lines never repeat those of the current one. */
  lemma ExtendDistinct(cs: seq<Candidate>, added: seq<Candidate>, figure: Figure)
    requires Distinct(cs) && Distinct(added)
    requires forall x :: 0 <= x < |cs| ==> cs[x].first !in figure
    requires forall x :: 0 <= x < |added| ==> added[x].first in figure
    ensures Distinct(cs + added) && AsSet(cs + added) == AsSet(cs) + AsSet(added)
  {
    var all := cs + added;
    forall x, y | 0 <= x < y < |all| ensures all[x] != all[y] {
      if x < |cs| && y >= |cs| {
        assert all[x].first !in figure && all[y].first in figure;
      }
    }
    forall c ensures c in all <==> c in cs || c in added {
      if c in all {
        var x :| 0 <= x < |all| && all[x] == c;
        if x >= |cs| { assert added[x - |cs|] == c; }
      }
    }
  }

  /** The candidates of the first `i` lines, each once, all on the board and on those lines. */
  predicate Collected(b: seq<Cell>, inRow: bool, cs: seq<Candidate>, i: nat)
    requires |b| == 81 && i <= 9
  {
    && AsSet(cs) == CandidatesUpTo(b, inRow, i)
    && Distinct(cs)
    && forall x :: 0 <= x < |cs| ==> cs[x].first < 81 && LineIndex(cs[x].first, inRow) < i
  }

  lemma CollectedStep(b: seq<Cell>, inRow: bool, cs: seq<Candidate>, added: seq<Candidate>, i: nat)
    requires |b| == 81 && i < 9 && Collected(b, inRow, cs, i)
    requires AsSet(added) == CandidatesIn(b, inRow, i) && Distinct(added)
    requires forall x :: 0 <= x < |added| ==> added[x].first in LineOf(inRow, i)
    ensures Collected(b, inRow, cs + added, i + 1)
  {
    forall x | 0 <= x < |cs| ensures cs[x].first !in LineOf(inRow, i) {
      assert LineIndex(cs[x].first, inRow) < i;
    }
    ExtendDistinct(cs, added, LineOf(inRow, i));
    forall x | 0 <= x < |cs + added|
      ensures (cs + added)[x].first < 81 && LineIndex((cs + added)[x].first, inRow) < i + 1
    {
      if x >= |cs| {
        assert (cs + added)[x] == added[x - |cs|];
      }
    }
  }

  /** The line loop of `get_all`: the candidates of all nine lines, each once. */
  method CollectCandidates(g: Grid, inRow: bool) returns (candidates: seq<Candidate>)
    requires g.Valid()
    ensures AsSet(candidates) == Candidates(g.Cells(), inRow)
    ensures Distinct(candidates)
  {
    candidates := [];
    for i := 0 to 9
      invariant Collected(g.Cells(), inRow, candidates, i)
    {
      var figure := if inRow then Row(i) else Col(i);
      LineOfIs(inRow, i);
      var info := g.PencilmarksInfo(figure);
      InfoOfLine(g.Cells(), inRow, i);
      var added := LineCandidatesOf(info, figure);
      CollectedStep(g.Cells(), inRow, candidates, added, i);
      candidates := candidates + added;
    }
  }

  // --------------------------------------------------------------- pair loop

  predicate SeqOnBoard(cs: seq<Candidate>) {
    forall x :: 0 <= x < |cs| ==> CandidateOnBoard(cs[x])
  }

  /** What the index pair `(x, z)` of a listing contributes. */
  function ListingTable(cs: seq<Candidate>, fire: (Candidate, Candidate) -> bool, act: (Candidate, Candidate) -> Action): (nat, nat) -> set<Action> {
    (x: nat, z: nat) => if x < |cs| && z < |cs| && fire(cs[x], cs[z]) then {act(cs[x], cs[z])} else {}
  }

  function Table(cs: seq<Candidate>, inRow: bool): (nat, nat) -> set<Action> {
    ListingTable(cs, FireOf(inRow), ActOf(inRow))
  }

  /** The body of the pair loop of `get_all` for one pair of candidates. */
  method TryPair(candidate1: Candidate, candidate2: Candidate, inRow: bool) returns (found: set<Action>)
    requires CandidateOnBoard(candidate1) && CandidateOnBoard(candidate2)
    ensures found == if Fires(candidate1, candidate2, inRow) then {XAction(candidate1, candidate2, inRow)} else {}
  {
    found := {};
    if candidate1.pencilmark != candidate2.pencilmark {
      return;
    }
    var figure1: Figure := {candidate1.first, candidate2.first};
    var figure2: Figure := {candidate1.second, candidate2.second};
    var onSameFigure := if inRow then IsOnTheSameCol(figure1).Some? && IsOnTheSameCol(figure2).Some?
                        else IsOnTheSameRow(figure1).Some? && IsOnTheSameRow(figure2).Some?;
    SameFigureTest(candidate1, candidate2, inRow);
    if onSameFigure {
      CrossFigure(candidate1, candidate2, inRow);
      OfBounds(candidate1.first);
      OfBounds(candidate1.second);
      LineOfIs(!inRow, CrossIndex(candidate1.first, inRow));
      LineOfIs(!inRow, CrossIndex(candidate1.second, inRow));
      var (same1, same2) :=
        if inRow then (Col(IsOnTheSameCol(figure1).value), Col(IsOnTheSameCol(figure2).value))
        else (Row(IsOnTheSameRow(figure1).value), Row(IsOnTheSameRow(figure2).value));
      found := {RemovePencilmarks(same1 + same2 - figure1 - figure2, [candidate1.pencilmark])};
    }
  }

  /** The inner loop of `get_all`: candidate `x` against every later one. */
  method PairsFrom(cs: seq<Candidate>, inRow: bool, x: nat) returns (found: set<Action>)
    requires SeqOnBoard(cs) && x < |cs|
    ensures found == PairsWith(Table(cs, inRow), x, |cs|)
  {
    found := {};
    for y := x + 1 to |cs|
      invariant found == PairsWith(Table(cs, inRow), x, y)
    {
      var pair := TryPair(cs[x], cs[y], inRow);
      found := found + pair;
    }
  }

  /** The pair loop of `get_all`: every pair `(x, z)` with `x < z` of one digit that fires. */
  method PairLoop(cs: seq<Candidate>, inRow: bool) returns (res: set<Action>)
    requires SeqOnBoard(cs)
    ensures res == PairsBelow(Table(cs, inRow), |cs|, |cs|)
  {
    res := {};
    for x := 0 to |cs|
      invariant res == PairsBelow(Table(cs, inRow), |cs|, x)
    {
      var found := PairsFrom(cs, inRow, x);
      res := res + found;
    }
  }

  lemma FiresSymmetric(c1: Candidate, c2: Candidate, inRow: bool)
    requires Fires(c1, c2, inRow)
    ensures Fires(c2, c1, inRow) && ActOf(inRow)(c2, c1) == ActOf(inRow)(c1, c2)
  {
    assert {c1.first, c2.first} == {c2.first, c1.first};
    assert {c1.second, c2.second} == {c2.second, c1.second};
  }

  /** The pair test and the pair's result do not depend on the order of the pair. */
  ghost predicate Symmetric(fire: (Candidate, Candidate) -> bool, act: (Candidate, Candidate) -> Action) {
    forall c1, c2 :: fire(c1, c2) ==> fire(c2, c1) && act(c2, c1) == act(c1, c2)
  }

  /** Over a repetition-free listing, the index pairs `x < z` give exactly the unordered pairs of distinct members. */
  lemma ListingPairs(cs: seq<Candidate>, fire: (Candidate, Candidate) -> bool, act: (Candidate, Candidate) -> Action)
    requires Distinct(cs) && Symmetric(fire, act)
    ensures PairsBelow(ListingTable(cs, fire, act), |cs|, |cs|) == PairImage(AsSet(cs), fire, act)
  {
    var t := ListingTable(cs, fire, act);
    forall a ensures a in PairsBelow(t, |cs|, |cs|) <==> a in PairImage(AsSet(cs), fire, act) {
      PairsBelowMember(t, |cs|, |cs|, a);
      if a in PairImage(AsSet(cs), fire, act) {
        var c1, c2 :| c1 in AsSet(cs) && c2 in AsSet(cs) && c1 != c2 && fire(c1, c2) && a == act(c1, c2);
        var i: nat :| i < |cs| && cs[i] == c1;
        var z: nat :| z < |cs| && cs[z] == c2;
        if z < i {
          assert fire(cs[z], cs[i]) && act(cs[z], cs[i]) == a;
          assert a in t(z, i);
        } else {
          assert a in t(i, z);
        }
      }
      if a in PairsBelow(t, |cs|, |cs|) {
        var i: nat, z: nat :| i < |cs| && i < z < |cs| && a in t(i, z);
        assert cs[i] in AsSet(cs) && cs[z] in AsSet(cs);
      }
    }
  }

  lemma PairsOfListing(cs: seq<Candidate>, inRow: bool)
    requires Distinct(cs)
    ensures PairsBelow(Table(cs, inRow), |cs|, |cs|) == XWingFrom(AsSet(cs), inRow)
  {
    forall c1, c2 | FireOf(inRow)(c1, c2)
      ensures FireOf(inRow)(c2, c1) && ActOf(inRow)(c2, c1) == ActOf(inRow)(c1, c2)
    {
      FiresSymmetric(c1, c2, inRow);
    }
    ListingPairs(cs, FireOf(inRow), ActOf(inRow));
  }

  /** `XWingCreator::get_all`. */
  method GetAll(g: Grid, inRow: bool) returns (res: set<Action>)
    requires g.Valid()
    ensures res == XWingIn(g.Cells(), inRow)
  {
    var candidates := CollectCandidates(g, inRow);
    CandidatesOnBoard(g.Cells(), inRow, 9);
    assert SeqOnBoard(candidates) by {
      forall x | 0 <= x < |candidates| ensures CandidateOnBoard(candidates[x]) {
        assert candidates[x] in AsSet(candidates);
      }
    }
    res := PairLoop(candidates, inRow);
    PairsOfListing(candidates, inRow);
  }

  /** `XWingCreator::get_all_applications`. */
  method GetAllApplications(g: Grid) returns (res: set<Action>)
    requires g.Valid()
    ensures res == XWingAll(g.Cells())
  {
    res := GetAll(g, true);
    var cols := GetAll(g, false);
    res := res + cols;
  }

  // ------------------------------------------------------------------ meaning

  /** Line `i` holds `c.pencilmark` in exactly the two squares `c.first < c.second`. */
  ghost predicate TwoPlaces(b: seq<Cell>, inRow: bool, i: nat, c: Candidate)
    requires |b| == 81 && i < 9
  {
    c.first < c.second && Holders(b, LineOf(inRow, i), c.pencilmark) == {c.first, c.second}
  }

  /** On a canonical board, line `i` yields exactly the digits it holds in two squares. */
  lemma CandidatesInMeaning(b: seq<Cell>, inRow: bool, i: nat, c: Candidate)
    requires CanonicalBoard(b) && i < 9
    ensures c in CandidatesIn(b, inRow, i) <==> TwoPlaces(b, inRow, i, c)
  {
    if c in CandidatesIn(b, inRow, i) {
      CandidateSound(b, inRow, i, c);
    }
    if TwoPlaces(b, inRow, i, c) {
      CandidateComplete(b, inRow, i, c);
    }
  }

  lemma CandidateSound(b: seq<Cell>, inRow: bool, i: nat, c: Candidate)
    requires CanonicalBoard(b) && i < 9 && c in CandidatesIn(b, inRow, i)
    ensures TwoPlaces(b, inRow, i, c)
  {
    var f := LineOf(inRow, i);
    var info := Info(b, f);
    var d := c.pencilmark;
    InfoHolders(b, f, d);
    var e :| e in info.Keys && e in info && |info[e]| == 2 && c == Candidate(e, info[e][0], info[e][1]);
    assert e == d;
    TwoElements(Holders(b, f, d));
  }

  lemma CandidateComplete(b: seq<Cell>, inRow: bool, i: nat, c: Candidate)
    requires CanonicalBoard(b) && i < 9 && TwoPlaces(b, inRow, i, c)
    ensures c in CandidatesIn(b, inRow, i)
  {
    var f := LineOf(inRow, i);
    var info := Info(b, f);
    var d := c.pencilmark;
    InfoHolders(b, f, d);
    PairElements(c.first, c.second);
    assert c.first in Holders(b, f, d);
    assert info[d] == [c.first, c.second];
    assert c == Candidate(d, info[d][0], info[d][1]);
  }

  lemma {:induction false} CandidatesUpToMember(b: seq<Cell>, inRow: bool, k: nat, c: Candidate)
    requires |b| == 81 && k <= 9
    ensures c in CandidatesUpTo(b, inRow, k) <==> exists i: nat :: i < k && c in CandidatesIn(b, inRow, i)
  {
    if k > 0 {
      CandidatesUpToMember(b, inRow, k - 1, c);
      var last := CandidatesIn(b, inRow, k - 1);
      assert CandidatesUpTo(b, inRow, k) == CandidatesUpTo(b, inRow, k - 1) + last;
      if c in last {
        assert k - 1 < k && c in CandidatesIn(b, inRow, k - 1);
      }
      if exists i: nat :: i < k && c in CandidatesIn(b, inRow, i) {
        var i: nat :| i < k && c in CandidatesIn(b, inRow, i);
        if i < k - 1 {
          assert c in CandidatesUpTo(b, inRow, k - 1);
        }
      }
    }
  }

  /** Some line holds `c.pencilmark` in exactly the squares `c.first < c.second`. */
  ghost predicate Listed(b: seq<Cell>, inRow: bool, c: Candidate)
    requires |b| == 81
  {
    exists i: nat :: i < 9 && TwoPlaces(b, inRow, i, c)
  }

  /** On a canonical board, the candidates are exactly the digits some line holds in two squares. */
  lemma CandidatesMeaning(b: seq<Cell>, inRow: bool, c: Candidate)
    requires CanonicalBoard(b)
    ensures c in Candidates(b, inRow) <==> Listed(b, inRow, c)
  {
    CandidatesUpToMember(b, inRow, 9, c);
    forall i: nat | i < 9 ensures c in CandidatesIn(b, inRow, i) <==> TwoPlaces(b, inRow, i, c) {
      CandidatesInMeaning(b, inRow, i, c);
    }
  }

  /**
   * The X-Wing pattern: in lines `i != j` digit `d` has exactly two places each, and these lie
   * on the same two cross-lines `x < y`; `a` strikes `d` from the rest of those cross-lines.
   */
  ghost predicate Wing(b: seq<Cell>, inRow: bool, d: nat, i: nat, j: nat, x: nat, y: nat, a: Action)
    requires |b| == 81
  {
    && i < 9 && j < 9 && i != j && x < y < 9
    && Holders(b, LineOf(inRow, i), d) == {At(inRow, i, x), At(inRow, i, y)}
    && Holders(b, LineOf(inRow, j), d) == {At(inRow, j, x), At(inRow, j, y)}
    && a == RemovePencilmarks(CrossLine(inRow, x) + CrossLine(inRow, y)
                              - Holders(b, LineOf(inRow, i), d) - Holders(b, LineOf(inRow, j), d), [d])
  }

  ghost predicate WingIn(b: seq<Cell>, inRow: bool, a: Action)
    requires |b| == 81
  {
    exists d, i, j, x, y :: Wing(b, inRow, d, i, j, x, y, a)
  }

  /** A candidate of line `i` sits on the cross-lines of its two squares, the first one lower. */
  lemma CandidateCoordinates(b: seq<Cell>, inRow: bool, i: nat, c: Candidate)
    requires |b| == 81 && i < 9 && TwoPlaces(b, inRow, i, c)
    ensures CrossIndex(c.first, inRow) < CrossIndex(c.second, inRow) < 9
    ensures c.first == At(inRow, i, CrossIndex(c.first, inRow))
    ensures c.second == At(inRow, i, CrossIndex(c.second, inRow))
  {
    assert c.first in Holders(b, LineOf(inRow, i), c.pencilmark);
    assert c.second in Holders(b, LineOf(inRow, i), c.pencilmark);
    Coordinates(c.first, inRow);
    Coordinates(c.second, inRow);
  }

  /** Removing the two places of each line is removing the two pairs the source builds. */
  lemma PlacesRegrouped(u: set<nat>, f1: nat, s1: nat, f2: nat, s2: nat)
    ensures u - {f1, f2} - {s1, s2} == u - {f1, s1} - {f2, s2}
  {
  }

  lemma WingSound(b: seq<Cell>, inRow: bool, a: Action)
    requires CanonicalBoard(b) && a in XWingIn(b, inRow)
    ensures WingIn(b, inRow, a)
  {
    var cs := Candidates(b, inRow);
    var c1, c2 :| c1 in cs && c2 in cs && c1 != c2 && FireOf(inRow)(c1, c2) && a == ActOf(inRow)(c1, c2);
    CandidatesMeaning(b, inRow, c1);
    CandidatesMeaning(b, inRow, c2);
    var i: nat :| i < 9 && TwoPlaces(b, inRow, i, c1);
    var j: nat :| j < 9 && TwoPlaces(b, inRow, j, c2);
    CandidateCoordinates(b, inRow, i, c1);
    CandidateCoordinates(b, inRow, j, c2);
    var d := c1.pencilmark;
    var x := CrossIndex(c1.first, inRow);
    var y := CrossIndex(c1.second, inRow);
    PlacesRegrouped(CrossLine(inRow, x) + CrossLine(inRow, y), c1.first, c1.second, c2.first, c2.second);
    assert i != j;
    assert Wing(b, inRow, d, i, j, x, y, a);
  }

  lemma WingComplete(b: seq<Cell>, inRow: bool, d: nat, i: nat, j: nat, x: nat, y: nat, a: Action)
    requires CanonicalBoard(b) && Wing(b, inRow, d, i, j, x, y, a)
    ensures a in XWingIn(b, inRow)
  {
    AtCoordinates(inRow, i, x);
    AtCoordinates(inRow, i, y);
    AtCoordinates(inRow, j, x);
    AtCoordinates(inRow, j, y);
    var c1 := Candidate(d, At(inRow, i, x), At(inRow, i, y));
    var c2 := Candidate(d, At(inRow, j, x), At(inRow, j, y));
    assert TwoPlaces(b, inRow, i, c1) && TwoPlaces(b, inRow, j, c2);
    CandidatesMeaning(b, inRow, c1);
    CandidatesMeaning(b, inRow, c2);
    PlacesRegrouped(CrossLine(inRow, x) + CrossLine(inRow, y), c1.first, c1.second, c2.first, c2.second);
    assert c1 != c2;
    assert FireOf(inRow)(c1, c2) && a == ActOf(inRow)(c1, c2);
  }

  /** On a canonical board, one mode of the X-Wing finds exactly the X-Wing patterns of its lines. */
  lemma XWingInMeaning(b: seq<Cell>, inRow: bool, a: Action)
    requires CanonicalBoard(b)
    ensures a in XWingIn(b, inRow) <==> WingIn(b, inRow, a)
  {
    if a in XWingIn(b, inRow) {
      WingSound(b, inRow, a);
    }
    if WingIn(b, inRow, a) {
      var d, i, j, x, y :| Wing(b, inRow, d, i, j, x, y, a);
      WingComplete(b, inRow, d, i, j, x, y, a);
    }
  }

  /** `get_all_applications` finds exactly the row-mode and the column-mode X-Wings. */
  lemma XWingMeaning(b: seq<Cell>, a: Action)
    requires CanonicalBoard(b)
    ensures a in XWingAll(b) <==> WingIn(b, true, a) || WingIn(b, false, a)
  {
    XWingInMeaning(b, true, a);
    XWingInMeaning(b, false, a);
  }

  /** Every X-Wing strikes its digit from 14 squares: the two cross-lines without the four places. */
  lemma WingShape(b: seq<Cell>, inRow: bool, d: nat, i: nat, j: nat, x: nat, y: nat, a: Action)
    requires |b| == 81 && Wing(b, inRow, d, i, j, x, y, a)
    ensures a.RemovePencilmarks? && a.pencilmarks == [d] && |a.figure| == 14
    ensures a.figure <= CrossLine(inRow, x) + CrossLine(inRow, y)
    ensures a.figure !! Holders(b, LineOf(inRow, i), d) && a.figure !! Holders(b, LineOf(inRow, j), d)
  {
    var u := CrossLine(inRow, x) + CrossLine(inRow, y);
    CrossLineCard(inRow, x);
    CrossLineCard(inRow, y);
    assert CrossLine(inRow, x) !! CrossLine(inRow, y);
    assert |u| == 18;
    AtCoordinates(inRow, i, x);
    AtCoordinates(inRow, i, y);
    AtCoordinates(inRow, j, x);
    AtCoordinates(inRow, j, y);
    var places := {At(inRow, i, x), At(inRow, i, y), At(inRow, j, x), At(inRow, j, y)};
    assert |places| == 4;
    assert a.figure == u - places;
    DiffCard(u, places);
  }
}
