/**
 * Naked singles, pairs, triples, ...: `n` squares of a figure whose candidates,
 * taken together, are exactly `n` digits; those digits then leave the rest of the figure.
 */
module NakedN {
  import opened Sorted
  import opened Cells
  import opened Figures
  import opened Grids
  import opened Actions

  // ---------------------------------------------------------------- singles

  /** An unsolved square with exactly one candidate left. */
  predicate IsNakedSingle(c: Cell) {
    c.Pencilmarks? && |c.marks| == 1
  }

  /** The placements for the naked singles among the squares `0 .. k - 1`. */
  function SinglesBelow(b: seq<Cell>, k: nat): set<Action>
    requires |b| == 81 && k <= 81
  {
    set i: nat | i < k && IsNakedSingle(b[i]) :: PlaceNumber(i, b[i].marks[0])
  }

  function Singles(b: seq<Cell>): set<Action>
    requires |b| == 81
  {
    SinglesBelow(b, 81)
  }

  lemma SinglesBelowStep(b: seq<Cell>, k: nat)
    requires |b| == 81 && k < 81
    ensures SinglesBelow(b, k + 1)
         == SinglesBelow(b, k) + if IsNakedSingle(b[k]) then {PlaceNumber(k, b[k].marks[0])} else {}
  {
  }

  /** `NakedNCreator::get_single_applications`: scan `all_cells()` in order. */
  method SingleApplications(g: Grid) returns (res: set<Action>)
    requires g.Valid()
    ensures res == Singles(g.Cells())
  {
    res := {};
    for i := 0 to 81
      invariant res == SinglesBelow(g.Cells(), i)
    {
      SinglesBelowStep(g.Cells(), i);
      match g.matrix[i] {
        case Number(_) =>
        case Pencilmarks(ms) =>
          if |ms| == 1 {
            res := res + {PlaceNumber(i, ms[0])};
          }
      }
    }
  }

  /** A naked single places the only candidate of an unsolved square, and every such square yields one. */
  lemma SinglesMeaning(b: seq<Cell>, a: Action)
    requires |b| == 81
    ensures a in Singles(b) <==> a.PlaceNumber? && a.position < 81 && b[a.position] == Pencilmarks([a.number])
  {
    if a.PlaceNumber? && a.position < 81 && b[a.position] == Pencilmarks([a.number]) {
      assert IsNakedSingle(b[a.position]);
    }
  }

  // -------------------------------------------------------------- multiples

  /** A square takes part in a match when it is unsolved with between 2 and `n` candidates. */
  predicate IsCandidate(c: Cell, n: nat) {
    c.Pencilmarks? && 2 <= |c.marks| <= n
  }

  /** The candidate squares among `s` (the source's `candidates`). */
  function CandidatesAmong(b: seq<Cell>, n: nat, s: set<nat>): set<nat>
    requires |b| == 81
  {
    set i: nat | i in s && i < 81 && IsCandidate(b[i], n)
  }

  /** The candidate lists of length `n` among the squares of `s` (the source's `lead_sets`). */
  function LeadsAmong(b: seq<Cell>, n: nat, s: set<nat>): set<seq<nat>>
    requires |b| == 81
  {
    set i: nat | i in s && i < 81 && b[i].Pencilmarks? && |b[i].marks| == n :: b[i].marks
  }

  /** The squares of `cs` whose candidates all occur in `lead` (the source's `possible_positions`). */
  function PossibleAmong(b: seq<Cell>, lead: seq<nat>, cs: set<nat>): set<nat>
    requires |b| == 81
  {
    set i: nat | i in cs && i < 81 && b[i].Pencilmarks? && Within(b[i].marks, lead)
  }

  function Possible(b: seq<Cell>, f: Figure, n: nat, lead: seq<nat>): set<nat>
    requires |b| == 81
  {
    PossibleAmong(b, lead, CandidatesAmong(b, n, f))
  }

  /** The action one lead yields: strike its digits from the rest of the figure. */
  function NakedAction(b: seq<Cell>, f: Figure, n: nat, lead: seq<nat>): Action
    requires |b| == 81
  {
    RemovePencilmarks(f - Possible(b, f, n, lead), lead)
  }

  /** The leads among `ls` matched by exactly `n` squares, each turned into its action. */
  function NakedAmong(b: seq<Cell>, f: Figure, n: nat, ls: set<seq<nat>>): set<Action>
    requires |b| == 81
  {
    set lead | lead in ls && |Possible(b, f, n, lead)| == n :: NakedAction(b, f, n, lead)
  }

  function NakedIn(b: seq<Cell>, f: Figure, n: nat): set<Action>
    requires |b| == 81
  {
    NakedAmong(b, f, n, LeadsAmong(b, n, f))
  }

  /** The naked groups of each of the 27 figures of `all_figures()`. */
  function MultiplesByFigure(b: seq<Cell>, n: nat): (parts: seq<set<Action>>)
    requires |b| == 81
    ensures |parts| == 27
  {
    seq(27, k requires 0 <= k < 27 => NakedIn(b, Unit(k), n))
  }

  function Multiples(b: seq<Cell>, n: nat): set<Action>
    requires |b| == 81
  {
    Union(MultiplesByFigure(b, n))
  }

  /** `MethodCreator::get_all_applications` for `NakedNCreator { n }`. */
  function Applications(n: nat, b: seq<Cell>): set<Action>
    requires |b| == 81
  {
    if n == 1 then Singles(b) else Multiples(b, n)
  }

  lemma ClassifyStep(b: seq<Cell>, n: nat, s: set<nat>, i: nat)
    requires |b| == 81 && i < 81
    ensures CandidatesAmong(b, n, s + {i})
         == CandidatesAmong(b, n, s) + if IsCandidate(b[i], n) then {i} else {}
    ensures LeadsAmong(b, n, s + {i})
         == LeadsAmong(b, n, s) + if b[i].Pencilmarks? && |b[i].marks| == n then {b[i].marks} else {}
  {
  }

  /** The first pass over a figure: its candidate squares and its lead lists. */
  method Classify(g: Grid, f: Figure, n: nat) returns (candidates: set<nat>, leads: set<seq<nat>>)
    requires g.Valid() && OnBoard(f)
    ensures candidates == CandidatesAmong(g.Cells(), n, f)
    ensures leads == LeadsAmong(g.Cells(), n, f)
  {
    candidates := {};
    leads := {};
    var rest := f;
    while rest != {}
      invariant rest <= f
      invariant candidates == CandidatesAmong(g.Cells(), n, f - rest)
      invariant leads == LeadsAmong(g.Cells(), n, f - rest)
      decreases |rest|
    {
      var i :| i in rest;
      ClassifyStep(g.Cells(), n, f - rest, i);
      assert f - (rest - {i}) == (f - rest) + {i};
      match g.matrix[i] {
        case Number(_) =>
        case Pencilmarks(ms) =>
          if 2 <= |ms| <= n {
            candidates := candidates + {i};
          }
          if |ms| == n {
            leads := leads + {ms};
          }
      }
      rest := rest - {i};
    }
    assert f - rest == f;
  }

  lemma PossibleStep(b: seq<Cell>, lead: seq<nat>, cs: set<nat>, i: nat)
    requires |b| == 81 && i < 81 && b[i].Pencilmarks?
    ensures PossibleAmong(b, lead, cs + {i})
         == PossibleAmong(b, lead, cs) + if Within(b[i].marks, lead) then {i} else {}
  {
  }

  /** The candidate squares whose candidates all lie in one lead list. */
  method PossiblePositions(g: Grid, candidates: set<nat>, lead: seq<nat>) returns (possible: set<nat>)
    requires g.Valid()
    requires forall i :: i in candidates ==> i < 81 && g.Cells()[i].Pencilmarks?
    ensures possible == PossibleAmong(g.Cells(), lead, candidates)
  {
    possible := {};
    var rest := candidates;
    while rest != {}
      invariant rest <= candidates
      invariant possible == PossibleAmong(g.Cells(), lead, candidates - rest)
      decreases |rest|
    {
      var i :| i in rest;
      PossibleStep(g.Cells(), lead, candidates - rest, i);
      assert candidates - (rest - {i}) == (candidates - rest) + {i};
      var pencilmarks := PencilmarksOf(g.matrix[i]);
      if forall x :: x in pencilmarks ==> x in lead {
        possible := possible + {i};
      }
      rest := rest - {i};
    }
    assert candidates - rest == candidates;
  }

  lemma NakedFires(b: seq<Cell>, f: Figure, n: nat, ls: set<seq<nat>>, lead: seq<nat>)
    requires |b| == 81 && lead in ls && |Possible(b, f, n, lead)| == n
    ensures NakedAction(b, f, n, lead) in NakedAmong(b, f, n, ls)
  {
  }

  lemma NakedAmongSub(b: seq<Cell>, f: Figure, n: nat, ls: set<seq<nat>>, lead: seq<nat>)
    requires |b| == 81
    ensures NakedAmong(b, f, n, ls + {lead})
         <= NakedAmong(b, f, n, ls) + if |Possible(b, f, n, lead)| == n then {NakedAction(b, f, n, lead)} else {}
  {
    forall a | a in NakedAmong(b, f, n, ls + {lead})
      ensures a in NakedAmong(b, f, n, ls) + if |Possible(b, f, n, lead)| == n then {NakedAction(b, f, n, lead)} else {}
    {
      var m :| m in ls + {lead} && |Possible(b, f, n, m)| == n && a == NakedAction(b, f, n, m);
      if m != lead {
        NakedFires(b, f, n, ls, m);
      }
    }
  }

  lemma NakedAmongSuper(b: seq<Cell>, f: Figure, n: nat, ls: set<seq<nat>>, lead: seq<nat>)
    requires |b| == 81
    ensures NakedAmong(b, f, n, ls) + (if |Possible(b, f, n, lead)| == n then {NakedAction(b, f, n, lead)} else {})
         <= NakedAmong(b, f, n, ls + {lead})
  {
    forall a | a in NakedAmong(b, f, n, ls)
      ensures a in NakedAmong(b, f, n, ls + {lead})
    {
      var m :| m in ls && |Possible(b, f, n, m)| == n && a == NakedAction(b, f, n, m);
      NakedFires(b, f, n, ls + {lead}, m);
    }
    if |Possible(b, f, n, lead)| == n {
      NakedFires(b, f, n, ls + {lead}, lead);
    }
  }

  lemma NakedAmongStep(b: seq<Cell>, f: Figure, n: nat, ls: set<seq<nat>>, lead: seq<nat>)
    requires |b| == 81
    ensures NakedAmong(b, f, n, ls + {lead})
         == NakedAmong(b, f, n, ls) + if |Possible(b, f, n, lead)| == n then {NakedAction(b, f, n, lead)} else {}
  {
    NakedAmongSub(b, f, n, ls, lead);
    NakedAmongSuper(b, f, n, ls, lead);
  }

  /** The naked groups of one figure. */
  method CollectIn(g: Grid, f: Figure, n: nat) returns (found: set<Action>)
    requires g.Valid() && OnBoard(f)
    ensures found == NakedIn(g.Cells(), f, n)
  {
    var candidates, leads := Classify(g, f, n);
    found := CollectLeads(g, f, n, candidates, leads);
  }

  /** The loop of `get_multiple_applications` over the lead combinations of one figure. */
  method CollectLeads(g: Grid, f: Figure, n: nat, candidates: set<nat>, leads: set<seq<nat>>)
    returns (found: set<Action>)
    requires g.Valid() && OnBoard(f)
    requires candidates == CandidatesAmong(g.Cells(), n, f)
    ensures found == NakedAmong(g.Cells(), f, n, leads)
  {
    found := {};
    var rest := leads;
    while rest != {}
      invariant rest <= leads
      invariant found == NakedAmong(g.Cells(), f, n, leads - rest)
      decreases |rest|
    {
      var lead :| lead in rest;
      NakedAmongStep(g.Cells(), f, n, leads - rest, lead);
      assert leads - (rest - {lead}) == (leads - rest) + {lead};
      var possible := PossiblePositions(g, candidates, lead);
      if |possible| == n {
        found := found + {RemovePencilmarks(f - possible, lead)};
      }
      rest := rest - {lead};
    }
    assert leads - rest == leads;
  }

  /** `NakedNCreator::get_multiple_applications`. */
  method MultipleApplications(g: Grid, n: nat) returns (res: set<Action>)
    requires g.Valid()
    ensures res == Multiples(g.Cells(), n)
  {
    res := {};
    ghost var parts := MultiplesByFigure(g.Cells(), n);
    for k := 0 to 27
      invariant res == Union(parts[..k])
    {
      var found := CollectIn(g, Unit(k), n);
      UnionSnoc(parts, k);
      res := res + found;
    }
    assert parts[..27] == parts;
  }

  /** `MethodCreator::get_all_applications` for `NakedNCreator { n }`. */
  method GetAllApplications(n: nat, g: Grid) returns (res: set<Action>)
    requires g.Valid()
    ensures res == Applications(n, g.Cells())
  {
    if n == 1 {
      res := SingleApplications(g);
    } else {
      res := MultipleApplications(g, n);
    }
  }

  // ------------------------------------------------- meaning of the multiples

  /** Square `i` of `f` supplies a lead: it is unsolved with exactly `n` candidates. */
  predicate LeadSquare(b: seq<Cell>, f: Figure, n: nat, i: nat)
    requires |b| == 81
  {
    i in f && i < 81 && b[i].Pencilmarks? && |b[i].marks| == n
  }

  /** The squares of `f` that are unsolved with 2..`n` candidates, all of them in `lead`. */
  lemma PossibleMeaning(b: seq<Cell>, f: Figure, n: nat, lead: seq<nat>, i: nat)
    requires |b| == 81
    ensures i in Possible(b, f, n, lead) <==>
              i in f && i < 81 && b[i].Pencilmarks? && 2 <= |b[i].marks| <= n && Within(b[i].marks, lead)
  {
  }

  lemma NakedInOnly(b: seq<Cell>, f: Figure, n: nat, a: Action)
    requires |b| == 81 && a in NakedIn(b, f, n)
    ensures exists i: nat :: LeadSquare(b, f, n, i) && |Possible(b, f, n, b[i].marks)| == n
                        && a == NakedAction(b, f, n, b[i].marks)
  {
    var lead :| lead in LeadsAmong(b, n, f) && |Possible(b, f, n, lead)| == n && a == NakedAction(b, f, n, lead);
    var i :| i in f && i < 81 && b[i].Pencilmarks? && |b[i].marks| == n && lead == b[i].marks;
    assert LeadSquare(b, f, n, i);
  }

  /**
   * A naked group of figure `f` strikes the candidates of an unsolved square of
   * `f` with `n` candidates from every square of `f` except the exactly `n`
   * unsolved squares with 2..`n` candidates that all occur in that list; so no
   * solved square is ever counted, and for `n >= 2` the lead square itself is spared.
   */
  lemma NakedShape(b: seq<Cell>, f: Figure, n: nat, a: Action)
    requires |b| == 81 && OnBoard(f) && a in NakedIn(b, f, n)
    ensures a.RemovePencilmarks? && a.figure <= f && |a.figure| == |f| - n
    ensures exists i: nat :: LeadSquare(b, f, n, i) && a.pencilmarks == b[i].marks && (n >= 2 ==> i !in a.figure)
    ensures forall i :: i in f && i !in a.figure ==>
              b[i].Pencilmarks? && 2 <= |b[i].marks| <= n && Within(b[i].marks, a.pencilmarks)
  {
    NakedInOnly(b, f, n, a);
    var i: nat :| LeadSquare(b, f, n, i) && |Possible(b, f, n, b[i].marks)| == n && a == NakedAction(b, f, n, b[i].marks);
    var poss := Possible(b, f, n, b[i].marks);
    assert poss <= f;
    assert |f - poss| == |f| - |poss| by {
      assert f == (f - poss) + poss;
    }
    if n >= 2 {
      PossibleMeaning(b, f, n, b[i].marks, i);
    }
  }

  /** Within one figure, a lead list gives at most one action, however many squares share it. */
  lemma OneActionPerLead(b: seq<Cell>, f: Figure, n: nat, a1: Action, a2: Action)
    requires |b| == 81 && a1 in NakedIn(b, f, n) && a2 in NakedIn(b, f, n)
    requires a1.pencilmarks == a2.pencilmarks
    ensures a1 == a2
  {
    NakedInOnly(b, f, n, a1);
    NakedInOnly(b, f, n, a2);
  }

  /** Over the whole board, naked groups are exactly those of the rows, columns and boxes. */
  lemma MultiplesMeaning(b: seq<Cell>, n: nat, a: Action)
    requires |b| == 81
    ensures a in Multiples(b, n) <==> exists k :: 0 <= k < 27 && a in NakedIn(b, Unit(k), n)
  {
    UnionMember(MultiplesByFigure(b, n), a);
    forall k | 0 <= k < 27
      ensures MultiplesByFigure(b, n)[k] == NakedIn(b, Unit(k), n)
    {
    }
  }

  /** Every naked group of the board removes exactly `n` squares' worth from a 9-square figure. */
  lemma MultiplesShape(b: seq<Cell>, n: nat, a: Action)
    requires |b| == 81 && a in Multiples(b, n)
    ensures a.RemovePencilmarks? && |a.figure| == 9 - n && OnBoard(a.figure)
  {
    MultiplesMeaning(b, n, a);
    var k :| 0 <= k < 27 && a in NakedIn(b, Unit(k), n);
    NakedShape(b, Unit(k), n, a);
  }
}
