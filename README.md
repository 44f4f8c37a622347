# logidoku deduction core in Dafny

logidoku is a Sudoku assistant. A grid holds 81 squares, indexed 0..80 row by row. Each square is
either solved (`Cell::Number(d)`) or holds a list of candidate digits (`Cell::Pencilmarks`). The
grid is built from an 81-character string: `0` is a blank square, and every given digit is struck
from the candidates of the squares that see it. Human-style strategies then look at the grid
(naked and hidden singles/pairs/triples/quads, pointing pairs and triples, box/line reduction,
X-Wing and the other fishes, simple colouring). Each strategy proposes actions: place a digit,
remove candidates from a figure, or keep only some candidates in a figure. The solver asks the
enabled strategies, in a fixed order, for the proposals that would still change the grid.

This project models that core in Dafny and proves what its operations mean.

- `Cells`: the square, `all_pencilmarks`, and the `retain` edits of a candidate list.
- `Figures`: sets of positions, the checked row/column/box constructors, the 27 units, and
  neighbourhood.
- `Grids`:
  - `class Grid`, whose 81-square `array` is updated in place by `updtae_cell_neighbours`,
    `set_number` and `set_pencilmarks`;
  - `from_str` and its errors;
  - the `pencilmarks_info` map (digit → ascending positions of a figure holding it);
  - `is_solved`.
- `Actions`: the `Action` enum, `apply_to_grid`, the helpful test, simplification, and the
  derived `Ord` with the ascending listing a `BTreeSet` gives.
- One module per strategy:
  - `NakedN`, `HiddenN`, `PointingNs`, `BoxLineReduction`, `Fishes` and `SimpleColoring`;
  - the older stand-alone strategies `NakedSingle`, `HiddenSingle` and `XWing`.
- `Methods`: the `Method` trait's `get_all_helpful_applications`.
- `Solvers`: `class Solver` with `all_methods`, `take_step`, `set_state` and `toggle`.

## How the model is built

Every strategy is a read-only method on a `Grid`. It follows the source's loops and is proved to
return exactly a pure function of the board (`g.Cells()`), such as `NakedN.NakedIn`. Separate lemmas then say what
that function means on a canonical board, one whose candidate lists are ascending digits 1..9:
an action is found exactly when the pattern the strategy names is present. They are stated through
`Holders(b, f, d)`, the squares of figure `f` that still hold `d`.

The model follows the code where the code and its comments disagree:

- **`take_step`'s doc comment.** The comment at `src/solver.rs:49-51` says the opposite of what
  the loop at lines 61-67 does. The code stops after the first strategy that finds something when
  `stop_after_first` is true, so `Solvers.Step` does that.
- **Chain links in simple colouring.** `ChainLink` compares equal on (digit, position), but its
  derived `Hash` also covers the colour. This mismatch leaves the `HashSet`s of `get_chain`
  unspecified: with distinct hashes (the usual case) they keep `(pos, coloured)` and
  `(pos, uncoloured)` apart, but a probe that meets the other-coloured twin may take it as
  present. The model takes the first reading: a chain is a set of (digit, position, colour)
  links, everything reachable from the seed in the colour-flipping graph.
- **Rule 4's emptiness guard.** The guard in `rule4` (`src/methods/simple_coloring.rs:145-147`)
  never triggers, because any two squares have a common neighbour. `SimpleColoring.Rule4Fires`
  proves this.
- **The `simplify` argument.** `take_step` calls `get_all_helpful_applications` with one
  argument, while the trait at this revision takes `simplify` as well. The model passes `false`,
  which is what the solver's own scenario at `src/solver.rs:135-158` expects: an unsimplified
  figure that still contains solved squares.
- **Helpers that are called but not included.** `Action::PreservePencilmarks` (used by
  `hidden_n.rs`), `Grid::remove_pencilmarks`, `simplify`, `is_helpful` and the `Figure` helpers
  (`row`, `col`, `sqr`, `neighbours`, `all_cells`, `all_figures`, `is_on_the_same_*`,
  `row_of`/`col_of`/`sqr_of`) are called, but their definitions are not among the modelled files.
  They are reconstructed from their names and uses. Each reconstruction says so in its doc comment.

## Model

| member | source | states |
|---|---|---|
| Cells.IsNumber | src/cell.rs:12-17 | true exactly for a solved square |
| Cells.IsPencilmarks | src/cell.rs:19-24 | true exactly for an unsolved square |
| Cells.NumberOf | src/cell.rs:26-34 | defined only on a solved square (the source panics on the other variant) and gives back its digit |
| Cells.PencilmarksOf | src/cell.rs:36-42 | defined only on an unsolved square and gives back its candidate list unchanged |
| Cells.AllPencilmarksAreTheDigits | src/cell.rs:8-10 | `all_pencilmarks()` is an unsolved square holding each digit 1..9 exactly once, ascending |
| Cells.NumberOrPencilmarks | src/cell.rs:49-71 | every square is exactly one of solved and unsolved, as the cell tests check for both variants |
| Cells.RemoveAll | src/grid.rs:17-21 | the `retain` that strikes digits keeps exactly the old candidates outside the struck set, never grows, and keeps an ascending list ascending |
| Cells.KeepOnly | src/methods/hidden_n.rs:70-75 | keeping only some digits leaves exactly the old candidates inside the kept set, never grows, and keeps an ascending list ascending |
| Cells.RemoveAllNothing | src/grid.rs:17-21 | striking digits a list does not hold leaves the list as it was |
| Cells.RemoveAllTwice | src/grid.rs:17-21 | striking two sets one after the other equals striking their union once |
| Cells.KeepOnlyEverything | src/methods/hidden_n.rs:70-75 | keeping a superset of the candidates leaves the list as it was |
| Figures.RowChecked | src/figure.rs:22-30 | fails exactly when the index exceeds 8; otherwise gives the 9 positions of that row and no others |
| Figures.ColChecked | src/figure.rs:31-39 | fails exactly when the index exceeds 8; otherwise gives the 9 positions of that column |
| Figures.SqrChecked | src/figure.rs:40-55 | fails exactly when the index exceeds 8; otherwise gives the 9 positions of that box, built from `ZEROETH_SQUARE` shifted by box column and band |
| Figures.RowFixtures | src/figure.rs:62-80 | rows 1 and 8 are the fixture sets of the row test, and row 9 is an error (src/figure.rs:122-127) |
| Figures.ColFixtures | src/figure.rs:82-100 | columns 1 and 8 are the fixture sets of the column test, and column 9 is an error |
| Figures.SqrFixtures | src/figure.rs:102-120 | boxes 1 and 8 are the fixture sets of the box test, and box 9 is an error |
| Figures.Row | src/methods/box_line_reduction.rs:40 | `Figure::row(n)` holds exactly the 9 positions of row `n` |
| Figures.Col | src/methods/box_line_reduction.rs:41 | `Figure::col(n)` holds exactly the 9 positions of column `n` |
| Figures.Sqr | src/methods/box_line_reduction.rs:24 | `Figure::sqr(n)` holds exactly the 9 positions of box `n` |
| Figures.Neighbours | src/grid.rs:16 | `Figure::neighbours(p)` holds exactly the positions that share a row, a column or a box with `p` |
| Figures.NeighboursSymmetric | src/grid.rs:16 | seeing each other is symmetric, and every square is its own neighbour |
| Figures.AllFigures | src/methods/naked_n.rs:28 | `all_figures()` is the 27 units: rows, then columns, then boxes, each 9 squares on the board |
| Figures.Partition | src/figure.rs:22-55 | every position lies in exactly one row, one column and one box, namely those of its coordinates |
| Figures.IsOnTheSameRow | src/methods/x_wing.rs:52 | some row exactly when the figure is non-empty and all of it lies on one row, which is the row returned |
| Figures.IsOnTheSameCol | src/methods/x_wing.rs:50 | some column exactly when the figure is non-empty and lies on one column, which is the column returned |
| Figures.IsOnTheSameSqr | src/methods/box_line_reduction.rs:22 | some box exactly when the figure is non-empty and lies in one box, which is the box returned |
| Figures.BoxDistance | src/methods/pointing_ns.rs:21-38 | inside one box, two positions share a row exactly when they are 1 or 2 apart and a column exactly when 9 or 18 apart: the gap test of pointing |
| Figures.OfBounds | src/methods/simple_coloring.rs:23-32 | row, column and box indices of a position are below 9 and recompose the position |
| Figures.LineOfIs | src/methods/fishes.rs:75-79 | the base line `i` of a scan is row `i` in row mode and column `i` in column mode |
| Grids.Stripped | src/grid.rs:17-21 | striking digits from a square: a solved square is untouched; an unsolved one keeps exactly its other candidates and stays canonical |
| Grids.Kept | src/methods/hidden_n.rs:70-75 | keeping digits in a square: a solved square is untouched; an unsolved one keeps exactly the listed candidates it had |
| Grids.UpdatedNeighboursEffect | src/grid.rs:12-24 | nothing happens for an unsolved square; otherwise no solved square and nothing outside its units changes, no square changes variant, and no unsolved peer still holds its digit |
| Grids.UpdatedNeighbourCell | src/grid.rs:12-24 | after the update, each square seen by the solved square has lost its digit and every other square is as before |
| Grids.Grid.UpdateCellNeighbours | src/grid.rs:12-24 | the in-place loop leaves the board `UpdatedNeighbours` describes |
| Grids.SetNumberEffect | src/grid.rs:26-29 | `set_number(p, d)` leaves `Number(d)` at `p`, strikes `d` from every unsolved square seeing `p`, changes no other square, and never adds a candidate |
| Grids.Grid.SetNumber | src/grid.rs:26-29 | the grid afterwards is the board `SetNumberEffect` characterises |
| Grids.Grid.SetPencilmarks | src/grid.rs:31-33 | square `p` becomes the given candidate list and nothing else changes |
| Grids.ToDigit | src/grid.rs:73 | `to_digit(10)` succeeds exactly on `'0'..'9'`, with a value of at most 9 |
| Grids.FirstNonDigit | src/grid.rs:72-81 | finds the first non-digit character from a given index on, or reports that none exists |
| Grids.ParseErrors | src/grid.rs:63-81 | `InvalidSize(len)` exactly when the length is not 81; `InvalidCharacter(i)` exactly when `i` is the first non-digit; success exactly when all 81 characters are digits |
| Grids.SweptInvariant | src/grid.rs:83-87 | after the sweep has visited squares `0..k`, givens stay placed and each blank holds 1..9 minus the givens it sees among them |
| Grids.ParseMeaning | src/grid.rs:70-87 | on success a given digit becomes that solved square, and a `0` becomes the digits 1..9 minus every given it sees |
| Grids.Grid.FromStr | src/grid.rs:63-90 | fails exactly as `Parse` does, with its error; on success returns a fresh grid holding the parsed board |
| Grids.Grid.Of | src/grid.rs:70 | a fresh grid holding the given 81 squares |
| Grids.RecordSquare | src/grid.rs:41-45 | the inner loop of `pencilmarks_info` appends the square to the list of each of its candidates, starting the list when missing |
| Grids.PartialStep | src/grid.rs:42-44 | recording one candidate pushes the square onto its list or inserts a fresh one-element list |
| Grids.Grid.PencilmarksInfo | src/grid.rs:35-52 | returns `Info(b, f)`, the info map of the board `b` and the figure `f` |
| Grids.InfoKeysMeaning | src/grid.rs:35-52 | a digit is a key exactly when some unsolved square of the figure holds it, and no list is empty |
| Grids.InfoInFigure | src/grid.rs:35-52 | every listed position is in the figure and holds the digit |
| Grids.InfoSorted | src/grid.rs:35-52 | each list comes out in ascending square order, so later `sort` calls change nothing |
| Grids.InfoMeaning | src/grid.rs:35-52 | with repetition-free candidate lists, each digit maps to exactly the ascending squares of the figure holding it |
| Grids.InfoHolders | src/grid.rs:35-52 | on a canonical board a digit is a key exactly when it has a holder, and its list is the ascending holders |
| Grids.Grid.RemovePencilmarks | src/action.rs:19-21 | reconstruction: every unsolved square of the figure loses the listed digits, all else unchanged |
| Grids.Grid.PreservePencilmarks | src/methods/hidden_n.rs:70-75 | reconstruction: every unsolved square of the figure keeps only the listed digits, all else unchanged |
| Grids.Grid.IsSolved | src/grid.rs:54-57 | true exactly when no square is unsolved |
| Actions.ApplyToGrid | src/action.rs:14-23 | a placement runs `set_number`, a removal or preservation edits the figure; the grid ends as `Applied` says |
| Actions.PlaceNumberEffect | src/action.rs:16-18 | a placement leaves the digit at its square, struck from every unsolved peer, and touches nothing outside its units |
| Actions.RemoveEffect | src/action.rs:19-21 | for every square and digit: outside the figure or solved nothing changes; inside, the digit survives exactly when it is not struck |
| Actions.PreserveEffect | src/methods/hidden_n.rs:70-75 | for every square and digit: outside the figure or solved nothing changes; inside, a candidate survives exactly when it is kept |
| Actions.RemoveIdempotent | src/action.rs:19-21 | applying the same removal twice equals applying it once |
| Actions.PreserveIdempotent | src/methods/hidden_n.rs:70-75 | applying the same preservation twice equals applying it once |
| Actions.HelpfulMeansChange | src/methods/mod.rs:34-38 | a removal or preservation is helpful exactly when applying it changes the board; a helpful placement always changes it |
| Actions.RemoveThenUnhelpful | src/methods/mod.rs:34-38 | once a removal is applied it is no longer helpful, so repeated steps do not propose it again |
| Actions.Simplify | src/methods/mod.rs:24-32 | simplification keeps the variant and the digits and only narrows the figure |
| Actions.SimplifyKeepsHelpful | src/methods/mod.rs:24-38 | an action is helpful exactly when its simplification is |
| Actions.SimplifyKeepsEffect | src/methods/mod.rs:24-32 | a simplified action does to the board exactly what the original does, and simplifying twice is simplifying once |
| Actions.SeqLessIrreflexive | src/action.rs:3 | the derived lexicographic order on digit and position lists is irreflexive |
| Actions.SeqLessTransitive | src/action.rs:3 | that order is transitive |
| Actions.SeqLessTotal | src/action.rs:3 | that order is total |
| Actions.FigureLessTotal | src/action.rs:3 | figures, compared as their ascending listings, are totally ordered |
| Actions.VariantOrder | src/action.rs:3-11 | the derived `Ord` puts placements before removals before preservations |
| Actions.ActionLessIrreflexive | src/action.rs:3-11 | the derived order on actions is irreflexive |
| Actions.ActionLessTransitive | src/action.rs:3-11 | the derived order on actions is transitive |
| Actions.ActionLessTotal | src/action.rs:3-11 | two different actions are always ordered one way or the other |
| Actions.ActionLessAsymmetric | src/action.rs:3-11 | the derived order on actions is asymmetric |
| Actions.LeastExists | src/methods/mod.rs:21 | a non-empty action set has exactly one least element |
| Actions.Least | src/methods/mod.rs:21 | the first element of a `BTreeSet<Action>` is in it and below every other element |
| Actions.Listed | src/solver.rs:62 | iterating a `BTreeSet<Action>` gives every element once, in strictly ascending order |
| Actions.UnionMember | src/methods/hidden_n.rs:22-38 | an action is in the merged per-figure results exactly when some figure yields it |
| Actions.PairsWithMember | src/methods/x_wing.rs:40-41 | the inner pair loop from `x` collects exactly the contributions of the pairs `(x, z)`, `x < z` |
| Actions.PairsBelowMember | src/methods/x_wing.rs:40-41 | the nested pair loop collects exactly the contributions of the index pairs `i < z` |
| NakedN.SingleApplications | src/methods/naked_n.rs:12-24 | the scan over `all_cells()` returns the naked-singles set |
| NakedN.SinglesMeaning | src/methods/naked_n.rs:12-24 | a naked single places the only candidate of an unsolved square, and every such square yields one |
| NakedN.Classify | src/methods/naked_n.rs:32-42 | the first pass collects exactly the squares with 2..n candidates and the candidate lists of length n |
| NakedN.PossiblePositions | src/methods/naked_n.rs:47-53 | collects exactly the candidate squares whose candidates all lie in the lead list |
| NakedN.CollectLeads | src/methods/naked_n.rs:44-61 | the loop over the lead lists emits one action per lead matched by exactly n squares |
| NakedN.CollectIn | src/methods/naked_n.rs:29-61 | one figure's naked groups, `NakedIn(b, f, n)` |
| NakedN.MultipleApplications | src/methods/naked_n.rs:25-64 | the loop over the 27 figures returns the naked groups of the board |
| NakedN.GetAllApplications | src/methods/naked_n.rs:69-75 | `n == 1` gives the singles, otherwise the multiples |
| NakedN.PossibleMeaning | src/methods/naked_n.rs:47-53 | a square is possible for a lead exactly when it is an unsolved square of the figure with 2..n candidates, all in the lead |
| NakedN.NakedInOnly | src/methods/naked_n.rs:44-61 | every action of a figure comes from a square with exactly n candidates whose list exactly n squares fit |
| NakedN.NakedShape | src/methods/naked_n.rs:55-59 | a naked group strikes the lead's digits from the figure minus exactly the n matching squares; no solved square is counted, and the lead square is spared |
| NakedN.OneActionPerLead | src/methods/naked_n.rs:30-44 | within a figure, one lead list yields at most one action however many squares share it |
| NakedN.MultiplesMeaning | src/methods/naked_n.rs:25-64 | an action is found exactly when some row, column or box yields it |
| NakedN.MultiplesShape | src/methods/naked_n.rs:55-59 | every naked-group removal covers exactly 9 − n squares of the board |
| NakedSingle.GetAllApplications | src/methods/naked_single.rs:11-26 | positions come out ascending, and a position is listed exactly when its square is unsolved with one candidate |
| NakedSingle.ApplyToGrid | src/methods/naked_single.rs:28-32 | places the square's sole candidate through `set_number` |
| NakedSingle.SameAsNakedN | src/methods/naked_single.rs:11-26 | the older strategy picks the same placements as `NakedNCreator { n: 1 }` |
| NakedSingle.ListingIsUnique | src/methods/naked_single.rs:11-26 | the ascending listing of those positions is unique |
| HiddenN.Dimension | src/methods/hidden_n.rs:100-105 | single, pair, triple and quad have dimension 1, 2, 3, 4, and only `Single` has 1 |
| HiddenN.DimensionInjective | src/methods/hidden_n.rs:100-105 | no two patterns share a dimension |
| HiddenN.CollectSingles | src/methods/hidden_n.rs:24-35 | one figure's hidden singles, read off its info map |
| HiddenN.SingleApplications | src/methods/hidden_n.rs:19-41 | the loop over `all_figures()` returns the hidden singles of the board |
| HiddenN.SinglesInMeaning | src/methods/hidden_n.rs:24-35 | a figure yields `PlaceNumber(p, d)` exactly when `p` is its only square holding `d` |
| HiddenN.SinglesMeaning | src/methods/hidden_n.rs:19-41 | a placement is found exactly when some row, column or box has `p` as its only holder of `d` |
| HiddenN.SinglesInCandidates | src/methods/hidden_n.rs:24-35 | a figure's hidden single places, in that figure, a digit the square still holds |
| HiddenN.SinglesAreCandidates | src/methods/hidden_n.rs:19-41 | every hidden single places a digit its square still holds |
| HiddenN.Classify | src/methods/hidden_n.rs:50-57 | the first pass collects exactly the digits with 2..dim places and the position lists of length dim |
| HiddenN.CoveringDigits | src/methods/hidden_n.rs:62-66 | collects exactly the candidate digits whose places all lie inside the lead |
| HiddenN.CollectLeads | src/methods/hidden_n.rs:59-76 | emits one preservation per lead covered by exactly dim digits |
| HiddenN.CollectMultiples | src/methods/hidden_n.rs:47-76 | one figure's hidden groups, `MultiplesIn(info, dim)` |
| HiddenN.MultipleApplications | src/methods/hidden_n.rs:42-80 | the loop over the 27 figures returns the hidden groups of the board |
| HiddenN.GetAllApplications | src/methods/hidden_n.rs:99-112 | `Single` dispatches to the singles, the others to the multiples of their dimension |
| HiddenN.CoveredMeaning | src/methods/hidden_n.rs:62-66 | read through the info map, a lead is its digit's holders, and its cover is the digits with 2..dim places all inside them |
| HiddenN.MultiplesInOnly | src/methods/hidden_n.rs:59-76 | every preservation a figure yields is a hidden group of one of its digits |
| HiddenN.MultiplesInAll | src/methods/hidden_n.rs:59-76 | every hidden group of a figure is yielded |
| HiddenN.MultiplesInMeaning | src/methods/hidden_n.rs:46-77 | a figure yields exactly its hidden groups |
| HiddenN.MultiplesMeaning | src/methods/hidden_n.rs:42-80 | an action is found exactly when it is a hidden group of some row, column or box |
| HiddenN.HiddenGroupShape | src/methods/hidden_n.rs:68-75 | a hidden group keeps exactly dim ascending digits on exactly dim squares; each has 2..dim places, all on those squares |
| HiddenSingle.PushSingles | src/methods/hidden_single.rs:17-29 | one figure's hidden singles are appended to the result vector |
| HiddenSingle.GetAllApplications | src/methods/hidden_single.rs:10-33 | the vector holds, with multiplicity, the hidden singles of every figure |
| HiddenSingle.ApplyToGrid | src/methods/hidden_single.rs:43-45 | applying a hidden single is `set_number` at its position |
| HiddenSingle.SumCount | src/methods/hidden_single.rs:16-30 | an item occurs once per figure that yields it |
| HiddenSingle.SinglesInAgree | src/methods/hidden_single.rs:17-29 | per figure, the older strategy finds the same placements as `Hidden::Single` |
| HiddenSingle.AllSinglesMember | src/methods/hidden_single.rs:10-33 | an item is listed exactly when some figure yields it |
| HiddenSingle.SameAsHiddenSingle | src/methods/hidden_single.rs:10-33 | as a set of placements, the older strategy finds exactly what `Hidden::Single` finds |
| HiddenSingle.FigureAgrees | src/methods/hidden_single.rs:16-30 | a figure yields `(p, d)` exactly when `p` is its only holder of `d` |
| HiddenSingle.ListedPerFigure | src/methods/hidden_single.rs:10-33 | `(p, d)` is listed once for every unit with `p` as sole holder of `d`; one found in a line and a box is listed twice |
| PointingNs.Diff | src/methods/pointing_ns.rs:21-38 | the gap test only ever accepts pairs and triples |
| PointingNs.DiffMeaning | src/methods/pointing_ns.rs:21-41 | within a box, the gap test accepts exactly places on one row or one column, and says "row" exactly for a row |
| PointingNs.CollectIn | src/methods/pointing_ns.rs:17-55 | one box: the digits with n places passing the gap test, each emitted along its line |
| PointingNs.GetAllApplications | src/methods/pointing_ns.rs:10-59 | boxes 0..8 in order give the pointing set of the board |
| PointingNs.OnlyPairsAndTriples | src/methods/pointing_ns.rs:21-38 | for any n other than 2 or 3 nothing is reported |
| PointingNs.BoxPlaces | src/methods/pointing_ns.rs:13-19 | a box's info map lists a digit exactly when it has places there, as their ascending listing, all in the box |
| PointingNs.DigitSound | src/methods/pointing_ns.rs:17-53 | a digit the gap test accepts is confined to one line, and its action clears the rest of that line |
| PointingNs.DigitComplete | src/methods/pointing_ns.rs:17-53 | a digit confined to n squares of one line passes the gap test, with that action |
| PointingNs.PointingInMeaning | src/methods/pointing_ns.rs:17-55 | a box yields exactly the actions of its line-confined digits |
| PointingNs.PointingMeaning | src/methods/pointing_ns.rs:10-59 | an action is found exactly when some box confines a digit to a line and the action clears the rest of it |
| PointingNs.PointsShape | src/methods/pointing_ns.rs:43-52 | every pointing action strikes its one digit from the 9 − n other squares of its line, away from the box's places |
| BoxLineReduction.Line | src/methods/box_line_reduction.rs:39-42 | the scan visits 18 lines of 9 squares each |
| BoxLineReduction.LinesAt | src/methods/box_line_reduction.rs:39-42 | the scan order is row i then column i |
| BoxLineReduction.FindInFigure | src/methods/box_line_reduction.rs:10-32 | `find_in_figure` returns `ReductionsIn(b, f, n)`, the reductions of that line |
| BoxLineReduction.CollectIn | src/methods/box_line_reduction.rs:18-29 | the loop over one line's info map emits for each digit with n places in one box |
| BoxLineReduction.GetAllApplications | src/methods/box_line_reduction.rs:36-45 | the whole scan gives the box/line set of the board |
| BoxLineReduction.ReductionOfMeaning | src/methods/box_line_reduction.rs:20-27 | the box test accepts a non-empty list exactly when its squares share a box, and then strikes the digit from the rest of it |
| BoxLineReduction.DigitSound | src/methods/box_line_reduction.rs:18-29 | a digit passing the test is boxed in, and its action clears the box |
| BoxLineReduction.DigitComplete | src/methods/box_line_reduction.rs:18-29 | a boxed-in digit passes the test with that action |
| BoxLineReduction.BoxedMeaning | src/methods/box_line_reduction.rs:20-27 | a line's action for digit `d` exists exactly when `d`'s n places there share a box |
| BoxLineReduction.ReductionsInMeaning | src/methods/box_line_reduction.rs:10-32 | a line yields exactly the actions of its boxed-in digits |
| BoxLineReduction.BoxLineMeaning | src/methods/box_line_reduction.rs:36-45 | an action is found exactly when some row or column boxes in a digit and the action clears the rest of that box |
| BoxLineReduction.SpreadYieldsNothing | src/methods/box_line_reduction.rs:22 | places spread over two boxes yield nothing |
| BoxLineReduction.ReducesShape | src/methods/box_line_reduction.rs:23-26 | a reduction strikes one digit from the 9 − n other squares of the box, away from the line's places |
| XWing.SameFigureTest | src/methods/x_wing.rs:46-53 | the `is_on_the_same_*` test holds exactly when both pairs of places share a cross-line |
| XWing.CrossFigure | src/methods/x_wing.rs:55-71 | the unwrapped common cross-lines are those of the first and second places |
| XWing.LineCandidatesOf | src/methods/x_wing.rs:26-37 | the `filter_map` lists, without repeats, every digit with exactly two places in the line |
| XWing.CollectCandidates | src/methods/x_wing.rs:17-38 | the nine lines' candidates, each once |
| XWing.TryPair | src/methods/x_wing.rs:42-72 | a pair gives its action exactly when it fires |
| XWing.PairsFrom | src/methods/x_wing.rs:41-73 | candidate `x` against every later one |
| XWing.PairLoop | src/methods/x_wing.rs:40-74 | all index pairs `x < z` |
| XWing.FiresSymmetric | src/methods/x_wing.rs:46-71 | the pair test and its action do not depend on the order of the pair |
| XWing.PairsOfListing | src/methods/x_wing.rs:40-74 | over a repetition-free listing, the index pairs give exactly the unordered pairs of distinct candidates |
| XWing.GetAll | src/methods/x_wing.rs:14-77 | one mode gives the X-Wing set of its lines |
| XWing.GetAllApplications | src/methods/x_wing.rs:80-88 | row mode then column mode |
| XWing.CandidatesInMeaning | src/methods/x_wing.rs:26-37 | a line yields exactly the digits it holds in exactly two squares, in ascending order |
| XWing.CandidatesMeaning | src/methods/x_wing.rs:17-38 | candidates are exactly the digits some line holds in two squares |
| XWing.WingSound | src/methods/x_wing.rs:40-74 | every action found is an X-Wing pattern |
| XWing.WingComplete | src/methods/x_wing.rs:40-74 | every X-Wing pattern is found |
| XWing.XWingInMeaning | src/methods/x_wing.rs:14-77 | one mode finds exactly the X-Wing patterns of its lines |
| XWing.XWingMeaning | src/methods/x_wing.rs:80-88 | the strategy finds exactly the row-mode and column-mode X-Wings |
| XWing.WingShape | src/methods/x_wing.rs:55-71 | an X-Wing strikes its digit from 14 squares of the two cross-lines, none of them the four places |
| Fishes.Dimensions | src/methods/fishes.rs:66-70 | X-Wing, Swordfish, Jellyfish use 2, 3 and 4 lines |
| Fishes.DimensionsDistinct | src/methods/fishes.rs:66-70 | the three fishes have distinct dimensions |
| Fishes.NewCandidate | src/methods/fishes.rs:15-29 | `Candidate::new` keeps the figure and gives one cover index per square, each being a square's cross index |
| Fishes.CandidateRowsAscend | src/methods/fishes.rs:15-29 | for squares of one base line the cover indices strictly ascend |
| Fishes.KeysOf | src/methods/fishes.rs:46 | collecting the counter's keys lists every row once |
| Fishes.CountInto | src/methods/fishes.rs:36-42 | one candidate's rows are added to the counter |
| Fishes.CountRows | src/methods/fishes.rs:33-43 | the counter maps each row to how often it occurs in the combination |
| Fishes.DoCandidatesMatch | src/methods/fishes.rs:31-50 | some rows exactly when the combination meets exactly n rows, each at least twice; those rows are returned, without repeats |
| Fishes.FlatCount | src/methods/fishes.rs:35-43 | with ascending rows per candidate, a row's count is the number of candidates meeting it |
| Fishes.MatchesMeaning | src/methods/fishes.rs:45-47 | the row test holds exactly when n rows are met, each by at least two candidates |
| Fishes.CombinationsCount | src/methods/fishes.rs:104 | `combinations(k)` yields binomial(len, k) picks |
| Fishes.CombinationsMeaning | src/methods/fishes.rs:104 | the combinations are exactly the picks of k entries at strictly ascending indices |
| Fishes.LineFishes | src/methods/fishes.rs:83-92 | a digit gets a candidate in a base line exactly when it has 2..n places there |
| Fishes.PushAll | src/methods/fishes.rs:94-100 | each new candidate is appended to its digit's list, created when missing; no list is empty |
| Fishes.PushLine | src/methods/fishes.rs:94-100 | after base line k, the lists are those of the first k + 1 lines |
| Fishes.LineCandidates | src/methods/fishes.rs:74-92 | the candidates of one base line |
| Fishes.GatherCandidates | src/methods/fishes.rs:72-101 | each digit's list is its candidates over the nine base lines in line order, and only digits with one are keys |
| Fishes.LineFindsMeaning | src/methods/fishes.rs:81-92 | a base line gives digit `d` a candidate exactly when `d` has 2..n places there, made of those places |
| Fishes.FishListMeaning | src/methods/fishes.rs:72-101 | a digit's list holds exactly one candidate per base line with 2..n places of it |
| Fishes.FishListRowsAscend | src/methods/fishes.rs:15-29 | every listed candidate's cover indices ascend, so `MatchesMeaning` applies |
| Fishes.BuildFigure | src/methods/fishes.rs:108-123 | the union of the cover lines minus every candidate's squares |
| Fishes.TryCombination | src/methods/fishes.rs:105-126 | a combination yields its elimination exactly when it matches |
| Fishes.FishesOfDigit | src/methods/fishes.rs:104-127 | one digit's eliminations: one per matching combination of n candidates |
| Fishes.FishesOfDigits | src/methods/fishes.rs:103-128 | the eliminations of every digit with a list |
| Fishes.GetAllInRowOrCol | src/methods/fishes.rs:63-131 | one orientation's fishes of the strategy's size |
| Fishes.GetAllApplications | src/methods/fishes.rs:144-152 | both orientations |
| SimpleColoring.CommonFiguresMeaning | src/methods/simple_coloring.rs:18-20 | `have_common_figures` holds exactly when the positions share a row, a column or a box |
| SimpleColoring.UnitOf | src/methods/simple_coloring.rs:50 | the units `get_next` looks at are on the board and contain the square |
| SimpleColoring.PartnerIn | src/methods/simple_coloring.rs:52-60 | one unit's turn reads its info map and picks `Partner(b, f, d, p)`; a duplicated listing where the source panics is admitted under Left out |
| SimpleColoring.GetNext | src/methods/simple_coloring.rs:43-75 | `get_next` returns `NextLinks(b, link)`; a duplicated listing where the source panics is admitted under Left out |
| SimpleColoring.NextLinksShape | src/methods/simple_coloring.rs:43-75 | at most three next links, each with the same digit, the flipped colour and a partner square; every partner is given |
| SimpleColoring.PartnerMeaning | src/methods/simple_coloring.rs:55-60 | a unit gives a partner exactly when the digit has two places in it, and the partner is the other one |
| SimpleColoring.PartnersMeaning | src/methods/simple_coloring.rs:50-71 | the partners of a square are exactly the squares strongly linked to it |
| SimpleColoring.SuccessorsMeaning | src/methods/simple_coloring.rs:62-67 | a successor keeps the digit, flips the colour and moves to a partner square |
| SimpleColoring.ChainIs | src/methods/simple_coloring.rs:83-98 | once a hop adds nothing, the chain is what has been reached |
| SimpleColoring.SeedInChain | src/methods/simple_coloring.rs:78-81 | the seed is in its own chain, with its own colour |
| SimpleColoring.ChainClosed | src/methods/simple_coloring.rs:77-101 | every successor of a chain link is in the chain |
| SimpleColoring.ChainLeast | src/methods/simple_coloring.rs:77-101 | the chain is the least successor-closed set holding the seed |
| SimpleColoring.FirstLinks | src/methods/simple_coloring.rs:78-81 | the start of `get_chain` holds the seed and its next links |
| SimpleColoring.PushFresh | src/methods/simple_coloring.rs:87-93 | one stacked link's next links not yet in the result go onto the new stack |
| SimpleColoring.NextStack | src/methods/simple_coloring.rs:84-96 | one sweep gives exactly the successors of the stack not yet reached |
| SimpleColoring.SweepStep | src/methods/simple_coloring.rs:83-98 | after every sweep the result is what j hops reach and the stack holds the newest links |
| SimpleColoring.SweepShrinks | src/methods/simple_coloring.rs:83 | a sweep that finds something strictly shrinks the links not yet reached, so the loop ends |
| SimpleColoring.SweepDone | src/methods/simple_coloring.rs:83-98 | when a sweep leaves the stack empty the result is the whole chain |
| SimpleColoring.Collect | src/methods/simple_coloring.rs:100 | collecting a set lists each link once |
| SimpleColoring.GetChain | src/methods/simple_coloring.rs:77-101 | lists each link of the seed's chain once |
| SimpleColoring.Rule4Fires | src/methods/simple_coloring.rs:143-147 | rule 4 yields an action exactly for links of opposite colours, so its emptiness guard never triggers |
| SimpleColoring.Rule4Meaning | src/methods/simple_coloring.rs:135-155 | rule 4 strikes the digit from exactly the squares other than the two links' that see both |
| SimpleColoring.RulesSymmetric | src/methods/simple_coloring.rs:109-155 | neither rule depends on the order of the pair |
| SimpleColoring.NeighboursBoth | src/methods/simple_coloring.rs:143 | the intersection of the two cached neighbour sets is the squares seeing both |
| SimpleColoring.ColourPositions | src/methods/simple_coloring.rs:121-127 | collects the squares of the chain's links of one colour |
| SimpleColoring.TryRule2 | src/methods/simple_coloring.rs:109-133 | two same-coloured links sharing a unit condemn that colour's squares; otherwise nothing |
| SimpleColoring.TryRule4 | src/methods/simple_coloring.rs:135-155 | `rule4` on the cached `PosInfo`s gives the rule-4 action |
| SimpleColoring.TryPair | src/methods/simple_coloring.rs:212-224 | one pair gives rule 2's action and rule 4's |
| SimpleColoring.PairsFrom | src/methods/simple_coloring.rs:210-225 | link `i` against every later link |
| SimpleColoring.ChainPairs | src/methods/simple_coloring.rs:210-226 | `combinations(2)` over a listed chain gives both rules on every pair of distinct links |
| SimpleColoring.ListingPairs | src/methods/simple_coloring.rs:210-226 | over a repetition-free listing, index pairs `i < j` are exactly the pairs of distinct links |
| SimpleColoring.ChainLinks | src/methods/simple_coloring.rs:62-66 | every link of a chain has the seed's digit and is on the board |
| SimpleColoring.GetChainsForNumber | src/methods/simple_coloring.rs:167-192 | each square holding the digit that no earlier chain reaches seeds an uncoloured chain, listed once |
| SimpleColoring.CoveredGrows | src/methods/simple_coloring.rs:171-177 | a square reached by some chain stays reached |
| SimpleColoring.ChainsCover | src/methods/simple_coloring.rs:167-192 | every square holding the digit ends up in some chain |
| SimpleColoring.ChainsSeeded | src/methods/simple_coloring.rs:178-186 | every chain of a digit grows from an uncoloured seed holding it |
| SimpleColoring.AllChainsSeeded | src/methods/simple_coloring.rs:201-203 | every chain of every digit grows from a seed on the board |
| SimpleColoring.CollectChains | src/methods/simple_coloring.rs:199-203 | the chains of digits 1..9, one digit after the other |
| SimpleColoring.GetAllApplications | src/methods/simple_coloring.rs:196-228 | both rules on every pair of links of every chain |
| Methods.GetAllApplications | src/methods/mod.rs:20 | each strategy gives its own application set |
| Methods.Helpful | src/methods/mod.rs:34-38 | the filter keeps exactly the helpful members |
| Methods.GetAllHelpfulApplications | src/methods/mod.rs:21-39 | simplify (optionally), then keep the helpful ones |
| Methods.HelpfulMeaning | src/methods/mod.rs:34-38 | every result is helpful; without simplification the results are exactly the helpful applications |
| Methods.SimplifyCommutes | src/methods/mod.rs:21-39 | simplifying then filtering equals filtering then simplifying |
| Methods.SimplifiedActsAlike | src/methods/mod.rs:24-32 | every simplified result acts on the board like an unsimplified helpful application |
| Solvers.Catalogue | src/solver.rs:19-47 | 14 strategies, all enabled, no strategy twice |
| Solvers.Solver.AllMethods | src/solver.rs:19-47 | a new solver holds the catalogue |
| Solvers.Solver.TakeStep | src/solver.rs:52-71 | returns the step of the enabled strategies in catalogue order, each as its ascending `BTreeSet` listing |
| Solvers.StepAt | src/solver.rs:54-68 | one round of the loop: skip a disabled entry, stop after a non-empty contribution when asked, else append and go on |
| Solvers.StepMember | src/solver.rs:54-68 | every returned action is helpful and comes from an enabled strategy; without stopping, every such action is returned |
| Solvers.StopAfterFirst | src/solver.rs:61-67 | when stopping, the step is empty exactly when no enabled strategy finds anything, and otherwise is the first finder's result |
| Solvers.StopIsPrefix | src/solver.rs:61-67 | the stopping step is a prefix of the full step |
| Solvers.DisabledIgnored | src/solver.rs:55-57 | a disabled entry changes nothing: the step equals the step with it removed |
| Solvers.WithState | src/solver.rs:79-81 | `set_state` changes exactly one entry's flag |
| Solvers.Solver.SetState | src/solver.rs:79-81 | the solver's entries become `WithState` of the old ones |
| Solvers.SwitchedOff | src/solver.rs:79-81 | switching a strategy off equals removing it from the catalogue, for every step |
| Solvers.SetStateOverrides | src/solver.rs:79-81 | setting a flag twice keeps only the second setting |
| Solvers.Toggled | src/solver.rs:84-88 | `toggle` flips exactly one entry's flag |
| Solvers.Solver.Toggle | src/solver.rs:84-88 | the solver's entries become `Toggled` of the old ones |
| Solvers.ToggleTwice | src/solver.rs:84-88 | toggling the same entry twice restores the catalogue |

## Left out

- Display implementations, the `ParseGridError` and `FigureNumberOutOfBoundError` message text,
  `dyn_clone`, and `Solver`'s `PartialEq` by `type_id`: these are formatting and trait plumbing.
- `Solver::methods()`: a getter of the `methods` field, which the model reads directly.
- `Index<usize> for Grid`: the model reads the squares through `Grid.Cells()`.
- The golden fixtures of the grid, strategy and solver unit tests (concrete 81-character puzzles)
  are not restated as lemmas. The `figure.rs` fixtures and the cell-variant test are.
- `Grids.Grid.FromStr`: the input is a sequence of characters, and the length check counts them.
  The source's `len()` counts UTF-8 bytes. The two differ only for non-ASCII input, which the
  source rejects as `InvalidCharacter` anyway, although possibly with a different index or error.
- `Grids.Grid.SetPencilmarks`: accepts any list, as the source does. The meaning lemmas require a
  canonical board instead of the grid enforcing it.
- Every meaning lemma requires a canonical board: candidate lists strictly ascending, digits 1..9.
  The source never builds any other board, but nothing in its types prevents one. The lemmas
  concerned are `Grids.InfoHolders`, `HiddenN.SinglesMeaning`, `HiddenN.MultiplesMeaning`,
  `PointingNs.PointingMeaning`, `BoxLineReduction.BoxLineMeaning`, `XWing.XWingMeaning`,
  `Fishes.FishListMeaning`, `SimpleColoring.PartnersMeaning` and
  `HiddenSingle.ListedPerFigure`, with their per-figure helpers.
- `Methods.SimplifiedActsAlike`: requires every application to lie on the board. All strategies
  emit such actions, but this is not proved for all of them at once.
- Integer widths: digits are `u8`, positions `usize`, and the fish counter `u8`. None can
  overflow on an 81-square board, so the model uses unbounded naturals.
- `HashMap`/`HashSet` iteration order: strategy results are modelled as sets. The source
  collects a `Vec` in some strategies and a `BTreeSet` in the trait, so duplicates collapse as
  the trait's `BTreeSet` would. Where order is observable, the model fixes it:
  - the older hidden single keeps its multiplicity, as a multiset;
  - the older naked single keeps its ascending order;
  - `take_step` concatenates ascending listings.

  `Fishes.KeysOf` and `SimpleColoring.Collect` return an unspecified order.
- `SimpleColoring.GetChain`: on a chain whose colours clash (a square reached after both an even
  and an odd number of hops), the source's result depends on each process's hash seed, because
  `ChainLink`'s `Hash` and `PartialEq` disagree. The model takes the reading that keeps both
  colours of such a square.
- `SimpleColoring.Partner`, `SimpleColoring.PartnerIn` and `SimpleColoring.GetNext`: when a
  square lists digit `d` twice and is the only square of a unit holding `d`, the unit's info list
  is `[p, p]`. The source's `find(..).unwrap()` then panics. The model returns `Some(p)` instead,
  a self-link of the flipped colour. Canonical boards, the only boards the source builds, never
  list a digit twice, and there `SimpleColoring.PartnerMeaning` shows the partner is the other
  holder.
- `Solvers.Solver.SetState` and `Solvers.Solver.Toggle`: the source panics on an index past the
  end of the strategy list. The model requires `index < |methods|` and has no panic path.
- `generate_info`'s caching of `PosInfo` inside each chain link: the rules compute
  `SimpleColoring.PosInfoOf` on demand, which gives the same values.
- The equivalence of the older `XWing` module and `Fishes` with `XWing` as the fish is not
  proved; each is characterised on its own.
- `x_wing.rs`, `naked_single.rs` and `hidden_single.rs` are not reachable from the solver's
  catalogue at this revision. They are modelled as stand-alone strategies outside `Methods.Method`.
- The `pencilmarks()` panic in naked multiples cannot happen, because candidate squares are
  unsolved. The model has no panic path there.
- Reconstructed helpers (`remove_pencilmarks`, `PreservePencilmarks`, `simplify`, `is_helpful`, the
  `Figure` constructors and tests): their definitions are not part of this model's source files.
  They follow their names and call sites, and each is marked as a reconstruction in its doc comment.
