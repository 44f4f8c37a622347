/** The older naked-single strategy: the positions of unsolved squares with one candidate left. */
module NakedSingle {
  import opened Sorted
  import opened Cells
  import opened Grids
  import opened Actions
  import NakedN

  /**
   * `NakedSingle::get_all_applications`: every `NakedSingle { i }`, scanning the
   * squares in order, so the positions come out ascending.
   */
  method GetAllApplications(g: Grid) returns (res: seq<nat>)
    requires g.Valid()
    ensures StrictlyAscending(res)
    ensures forall i: nat :: i in res <==> i < 81 && NakedN.IsNakedSingle(g.Cells()[i])
  {
    res := [];
    for i := 0 to 81
      invariant StrictlyAscending(res)
      invariant forall x: nat :: x in res <==> x < i && NakedN.IsNakedSingle(g.Cells()[x])
    {
      match g.matrix[i] {
        case Number(_) =>
        case Pencilmarks(pencilmarks) =>
          if |pencilmarks| == 1 {
            AscendingSnoc(res, i);
            res := res + [i];
          }
      }
    }
  }

  /** `NakedSingle::apply_to_grid`: place the sole candidate; the square must still be unsolved and non-empty. */
  method ApplyToGrid(i: nat, g: Grid)
    requires g.Valid() && i < 81
    requires g.Cells()[i].Pencilmarks? && |g.Cells()[i].marks| >= 1
    modifies g.matrix
    ensures g.Valid()
    ensures g.Cells() == Applied(PlaceNumber(i, old(g.Cells())[i].marks[0]), old(g.Cells()))
  {
    var numberToSet := PencilmarksOf(g.matrix[i])[0];
    g.SetNumber(i, numberToSet);
  }

  /**
   * The older strategy picks the same squares as `NakedNCreator { n: 1 }`: turning
   * its positions into placements of their sole candidates gives exactly that set.
   */
  lemma SameAsNakedN(b: seq<Cell>, res: seq<nat>)
    requires |b| == 81
    requires forall i: nat :: i in res <==> i < 81 && NakedN.IsNakedSingle(b[i])
    ensures (set i: nat | i in res && i < 81 && b[i].Pencilmarks? && |b[i].marks| >= 1 :: PlaceNumber(i, b[i].marks[0]))
         == NakedN.Applications(1, b)
  {
    var l := set i: nat | i in res && i < 81 && b[i].Pencilmarks? && |b[i].marks| >= 1 :: PlaceNumber(i, b[i].marks[0]);
    forall a | a in NakedN.Singles(b) ensures a in l {
      NakedN.SinglesMeaning(b, a);
      assert a.position in res;
    }
  }

  /** Two ascending listings with the same positions are the same listing. */
  lemma ListingIsUnique(b: seq<Cell>, r1: seq<nat>, r2: seq<nat>)
    requires |b| == 81
    requires StrictlyAscending(r1) && forall i: nat :: i in r1 <==> i < 81 && NakedN.IsNakedSingle(b[i])
    requires StrictlyAscending(r2) && forall i: nat :: i in r2 <==> i < 81 && NakedN.IsNakedSingle(b[i])
    ensures r1 == r2
  {
    AscendingUnique(r1, r2);
  }
}
