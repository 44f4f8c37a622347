/**
 * Hidden singles, pairs, triples and quads: a digit (or `n` digits) whose only
 * places in a row, column or box are one square (or the same `n` squares).
 */
module HiddenN {
  import opened Sorted
  import opened Cells
  import opened Figures
  import opened Grids
  import opened Actions

  datatype Hidden = Single | Pair | Triple | Quad

  /** The number of digits (and squares) the pattern is about. */
  function Dimension(h: Hidden): (n: nat)
    ensures 1 <= n <= 4
    ensures n == 1 <==> h == Single
  {
    match h
    case Single => 1
    case Pair => 2
    case Triple => 3
    case Quad => 4
  }

  /** The dimensions of the four patterns are 1, 2, 3 and 4, so no two patterns share one. */
  lemma DimensionInjective(h: Hidden, k: Hidden)
    ensures Dimension(h) == Dimension(k) ==> h == k
  {
  }

  // ---------------------------------------------------------------- singles

  /** The placements read off one figure's info map, for the digits of `ks`. */
  function SinglesAmong(info: map<nat, seq<nat>>, ks: set<nat>): set<Action> {
    set d | d in ks && d in info && |info[d]| == 1 :: PlaceNumber(info[d][0], d)
  }

  /** A digit listed at exactly one square of the figure is placed there. */
  function SinglesIn(info: map<nat, seq<nat>>): set<Action> {
    SinglesAmong(info, info.Keys)
  }

  /** The singles of each of the 27 figures of `all_figures()`. */
  function SinglesByFigure(b: seq<Cell>): (parts: seq<set<Action>>)
    requires |b| == 81
    ensures |parts| == 27
  {
    seq(27, k requires 0 <= k < 27 => SinglesIn(Info(b, Unit(k))))
  }

  /** All figures' singles, merged (the source's `BTreeSet`). */
  function Singles(b: seq<Cell>): set<Action>
    requires |b| == 81
  {
    Union(SinglesByFigure(b))
  }

  lemma SinglesAmongStep(info: map<nat, seq<nat>>, ks: set<nat>, d: nat)
    requires d in info
    ensures SinglesAmong(info, ks + {d})
         == SinglesAmong(info, ks) + if |info[d]| == 1 then {PlaceNumber(info[d][0], d)} else {}
  {
  }

  /** One figure's singles, by a walk over the keys of its info map. */
  method CollectSingles(info: map<nat, seq<nat>>) returns (found: set<Action>)
    ensures found == SinglesIn(info)
  {
    found := {};
    var rest := info.Keys;
    while rest != {}
      invariant rest <= info.Keys
      invariant found == SinglesAmong(info, info.Keys - rest)
      decreases |rest|
    {
      var d :| d in rest;
      SinglesAmongStep(info, info.Keys - rest, d);
      assert info.Keys - (rest - {d}) == (info.Keys - rest) + {d};
      if |info[d]| == 1 {
        found := found + {PlaceNumber(info[d][0], d)};
      }
      rest := rest - {d};
    }
  }

  /** `Hidden::single_applications`. */
  method SingleApplications(g: Grid) returns (res: set<Action>)
    requires g.Valid()
    ensures res == Singles(g.Cells())
  {
    res := {};
    ghost var parts := SinglesByFigure(g.Cells());
    for k := 0 to 27
      invariant res == Union(parts[..k])
    {
      var info := g.PencilmarksInfo(Unit(k));
      var found := CollectSingles(info);
      UnionSnoc(parts, k);
      res := res + found;
    }
    assert parts[..27] == parts;
  }

  lemma SingletonElements(h: set<nat>, p: nat)
    ensures |Elements(h)| == 1 && Elements(h)[0] == p <==> h == {p}
  {
    var s := Elements(h);
    if h == {p} {
      assert p in s;
    }
    if |s| == 1 && s[0] == p {
      ElementsSetOf(h);
      assert s == [p];
      assert SetOf([p]) == {p};
    }
  }

  /** On a canonical board, one figure yields `PlaceNumber(p, d)` exactly when `p` is the only square of it holding `d`. */
  lemma SinglesInMeaning(b: seq<Cell>, f: Figure, p: nat, d: nat)
    requires CanonicalBoard(b) && OnBoard(f)
    ensures PlaceNumber(p, d) in SinglesIn(Info(b, f)) <==> Holders(b, f, d) == {p}
  {
    InfoHolders(b, f, d);
    if Holders(b, f, d) == {p} {
      SingletonElements(Holders(b, f, d), p);
    }
    if PlaceNumber(p, d) in SinglesIn(Info(b, f)) {
      SingletonElements(Holders(b, f, d), p);
    }
  }

  /** `p` is the only square of figure `k` whose candidates hold `d`. */
  predicate SoleHolder(b: seq<Cell>, k: nat, p: nat, d: nat)
    requires |b| == 81 && k < 27
  {
    Holders(b, Unit(k), d) == {p}
  }

  /**
   * On a canonical board, hidden singles are exactly the placements of a digit
   * at the only square of some row, column or box that can still hold it; since
   * the result is a set, a single found in several figures is listed once.
   */
  lemma SinglesMeaning(b: seq<Cell>, p: nat, d: nat)
    requires CanonicalBoard(b)
    ensures PlaceNumber(p, d) in Singles(b) <==> exists k :: 0 <= k < 27 && SoleHolder(b, k, p, d)
  {
    UnionMember(SinglesByFigure(b), PlaceNumber(p, d));
    forall k | 0 <= k < 27
      ensures PlaceNumber(p, d) in SinglesByFigure(b)[k] <==> SoleHolder(b, k, p, d)
    {
      SinglesInMeaning(b, Unit(k), p, d);
    }
  }

  /** `a` places a digit at a square that still holds it as a candidate. */
  predicate PlacesCandidate(b: seq<Cell>, a: Action)
    requires |b| == 81
  {
    a.PlaceNumber? && a.position < 81 && HasMark(b[a.position], a.number)
  }

  lemma SinglesInCandidates(b: seq<Cell>, f: Figure, a: Action)
    requires |b| == 81 && OnBoard(f) && a in SinglesIn(Info(b, f))
    ensures PlacesCandidate(b, a) && a.position in f
  {
    var info := Info(b, f);
    var d :| d in info && |info[d]| == 1 && a == PlaceNumber(info[d][0], d);
    InfoInFigure(b, f, d);
  }

  /** Every hidden single places a digit at a square holding it as a candidate. */
  lemma SinglesAreCandidates(b: seq<Cell>, a: Action)
    requires |b| == 81 && a in Singles(b)
    ensures PlacesCandidate(b, a)
  {
    UnionMember(SinglesByFigure(b), a);
    var k :| 0 <= k < 27 && a in SinglesByFigure(b)[k];
    SinglesInCandidates(b, Unit(k), a);
  }

  // -------------------------------------------------------------- multiples

  /** A digit takes part in a match when it has between 2 and `dim` places in the figure. */
  predicate IsCandidate(info: map<nat, seq<nat>>, dim: nat, d: nat) {
    d in info && 2 <= |info[d]| <= dim
  }

  /** The candidate digits among `ks` (the source's `candidates`). */
  function CandidatesAmong(info: map<nat, seq<nat>>, dim: nat, ks: set<nat>): set<nat> {
    set d | d in ks && IsCandidate(info, dim, d)
  }

  /** The position lists of the digits of `ks` with exactly `dim` places (the source's `lead_positions`). */
  function LeadsAmong(info: map<nat, seq<nat>>, dim: nat, ks: set<nat>): set<seq<nat>> {
    set d | d in ks && d in info && |info[d]| == dim :: info[d]
  }

  function Leads(info: map<nat, seq<nat>>, dim: nat): set<seq<nat>> {
    LeadsAmong(info, dim, info.Keys)
  }

  /** The candidate digits among `ks` whose places all lie in `lead`. */
  function CoveredAmong(info: map<nat, seq<nat>>, dim: nat, lead: seq<nat>, ks: set<nat>): set<nat> {
    set d | d in ks && IsCandidate(info, dim, d) && Within(info[d], lead)
  }

  function Covered(info: map<nat, seq<nat>>, dim: nat, lead: seq<nat>): set<nat> {
    CoveredAmong(info, dim, lead, info.Keys)
  }

  /** The action a lead yields: keep only the covered digits on the lead's squares. */
  function LeadAction(info: map<nat, seq<nat>>, dim: nat, lead: seq<nat>): Action {
    PreservePencilmarks(SetOf(lead), Elements(Covered(info, dim, lead)))
  }

  /** The leads among `ls` that are covered by exactly `dim` digits, each turned into its action. */
  function MultiplesAmong(info: map<nat, seq<nat>>, dim: nat, ls: set<seq<nat>>): set<Action> {
    set lead | lead in ls && |Covered(info, dim, lead)| == dim :: LeadAction(info, dim, lead)
  }

  function MultiplesIn(info: map<nat, seq<nat>>, dim: nat): set<Action> {
    MultiplesAmong(info, dim, Leads(info, dim))
  }

  /** The hidden groups of each of the 27 figures of `all_figures()`. */
  function MultiplesByFigure(b: seq<Cell>, dim: nat): (parts: seq<set<Action>>)
    requires |b| == 81
    ensures |parts| == 27
  {
    seq(27, k requires 0 <= k < 27 => MultiplesIn(Info(b, Unit(k)), dim))
  }

  function Multiples(b: seq<Cell>, dim: nat): set<Action>
    requires |b| == 81
  {
    Union(MultiplesByFigure(b, dim))
  }

  /** `Method::get_all_applications` for `Hidden`. */
  function Applications(h: Hidden, b: seq<Cell>): set<Action>
    requires |b| == 81
  {
    if Dimension(h) == 1 then Singles(b) else Multiples(b, Dimension(h))
  }

  lemma ClassifyStep(info: map<nat, seq<nat>>, dim: nat, ks: set<nat>, d: nat)
    requires d in info
    ensures CandidatesAmong(info, dim, ks + {d})
         == CandidatesAmong(info, dim, ks) + if IsCandidate(info, dim, d) then {d} else {}
    ensures LeadsAmong(info, dim, ks + {d})
         == LeadsAmong(info, dim, ks) + if |info[d]| == dim then {info[d]} else {}
  {
  }

  /** The first pass over one figure's info map: the candidate digits and the lead position lists. */
  method Classify(info: map<nat, seq<nat>>, dim: nat) returns (candidates: set<nat>, leads: set<seq<nat>>)
    ensures candidates == CandidatesAmong(info, dim, info.Keys)
    ensures leads == Leads(info, dim)
  {
    candidates := {};
    leads := {};
    var rest := info.Keys;
    while rest != {}
      invariant rest <= info.Keys
      invariant candidates == CandidatesAmong(info, dim, info.Keys - rest)
      invariant leads == LeadsAmong(info, dim, info.Keys - rest)
      decreases |rest|
    {
      var d :| d in rest;
      ClassifyStep(info, dim, info.Keys - rest, d);
      assert info.Keys - (rest - {d}) == (info.Keys - rest) + {d};
      if 2 <= |info[d]| <= dim {
        candidates := candidates + {d};
      }
      if |info[d]| == dim {
        leads := leads + {info[d]};
      }
      rest := rest - {d};
    }
    assert info.Keys - rest == info.Keys;
  }

  lemma CoveredStep(info: map<nat, seq<nat>>, dim: nat, lead: seq<nat>, ks: set<nat>, d: nat)
    requires IsCandidate(info, dim, d)
    ensures CoveredAmong(info, dim, lead, ks + {d})
         == CoveredAmong(info, dim, lead, ks) + if Within(info[d], lead) then {d} else {}
  {
  }

  lemma CoveredByCandidates(info: map<nat, seq<nat>>, dim: nat, lead: seq<nat>)
    ensures CoveredAmong(info, dim, lead, CandidatesAmong(info, dim, info.Keys)) == Covered(info, dim, lead)
  {
  }

  /** The digits whose places all lie inside one lead, by a walk over the candidates. */
  method CoveringDigits(info: map<nat, seq<nat>>, dim: nat, candidates: set<nat>, lead: seq<nat>)
    returns (pencilmarks: set<nat>)
    requires candidates == CandidatesAmong(info, dim, info.Keys)
    ensures pencilmarks == Covered(info, dim, lead)
  {
    pencilmarks := {};
    var rest := candidates;
    while rest != {}
      invariant rest <= candidates
      invariant pencilmarks == CoveredAmong(info, dim, lead, candidates - rest)
      decreases |rest|
    {
      var d :| d in rest;
      CoveredStep(info, dim, lead, candidates - rest, d);
      assert candidates - (rest - {d}) == (candidates - rest) + {d};
      if forall x :: x in info[d] ==> x in lead {
        pencilmarks := pencilmarks + {d};
      }
      rest := rest - {d};
    }
    assert candidates - rest == candidates;
    CoveredByCandidates(info, dim, lead);
  }

  lemma MultiplesAmongStep(info: map<nat, seq<nat>>, dim: nat, ls: set<seq<nat>>, lead: seq<nat>)
    ensures MultiplesAmong(info, dim, ls + {lead})
         == MultiplesAmong(info, dim, ls) + if |Covered(info, dim, lead)| == dim then {LeadAction(info, dim, lead)} else {}
  {
    MultiplesAmongSub(info, dim, ls, lead);
    MultiplesAmongSuper(info, dim, ls, lead);
  }

  lemma MultiplesAmongSub(info: map<nat, seq<nat>>, dim: nat, ls: set<seq<nat>>, lead: seq<nat>)
    ensures MultiplesAmong(info, dim, ls + {lead})
         <= MultiplesAmong(info, dim, ls) + if |Covered(info, dim, lead)| == dim then {LeadAction(info, dim, lead)} else {}
  {
    forall a | a in MultiplesAmong(info, dim, ls + {lead})
      ensures a in MultiplesAmong(info, dim, ls) + if |Covered(info, dim, lead)| == dim then {LeadAction(info, dim, lead)} else {}
    {
      var m :| m in ls + {lead} && |Covered(info, dim, m)| == dim && a == LeadAction(info, dim, m);
      if m != lead {
        LeadFires(info, dim, ls, m);
      }
    }
  }

  lemma MultiplesAmongSuper(info: map<nat, seq<nat>>, dim: nat, ls: set<seq<nat>>, lead: seq<nat>)
    ensures MultiplesAmong(info, dim, ls) + (if |Covered(info, dim, lead)| == dim then {LeadAction(info, dim, lead)} else {})
         <= MultiplesAmong(info, dim, ls + {lead})
  {
    forall a | a in MultiplesAmong(info, dim, ls)
      ensures a in MultiplesAmong(info, dim, ls + {lead})
    {
      var m :| m in ls && |Covered(info, dim, m)| == dim && a == LeadAction(info, dim, m);
      LeadFires(info, dim, ls + {lead}, m);
    }
    if |Covered(info, dim, lead)| == dim {
      LeadFires(info, dim, ls + {lead}, lead);
    }
  }

  lemma LeadFires(info: map<nat, seq<nat>>, dim: nat, ls: set<seq<nat>>, m: seq<nat>)
    requires m in ls && |Covered(info, dim, m)| == dim
    ensures LeadAction(info, dim, m) in MultiplesAmong(info, dim, ls)
  {
  }

  /** The multiple matches in one figure. */
  method CollectMultiples(info: map<nat, seq<nat>>, dim: nat) returns (found: set<Action>)
    ensures found == MultiplesIn(info, dim)
  {
    var candidates, leads := Classify(info, dim);
    found := CollectLeads(info, dim, candidates, leads);
  }

  /** The loop of `multiple_applications` over the lead combinations of one figure. */
  method CollectLeads(info: map<nat, seq<nat>>, dim: nat, candidates: set<nat>, leads: set<seq<nat>>)
    returns (found: set<Action>)
    requires candidates == CandidatesAmong(info, dim, info.Keys)
    ensures found == MultiplesAmong(info, dim, leads)
  {
    found := {};
    var rest := leads;
    while rest != {}
      invariant rest <= leads
      invariant found == MultiplesAmong(info, dim, leads - rest)
      decreases |rest|
    {
      var lead :| lead in rest;
      MultiplesAmongStep(info, dim, leads - rest, lead);
      assert leads - (rest - {lead}) == (leads - rest) + {lead};
      var pencilmarks := CoveringDigits(info, dim, candidates, lead);
      if |pencilmarks| == dim {
        found := found + {PreservePencilmarks(SetOf(lead), Elements(pencilmarks))};
      }
      rest := rest - {lead};
    }
    assert leads - rest == leads;
  }

  /** `Hidden::multiple_applications`. */
  method MultipleApplications(g: Grid, dim: nat) returns (res: set<Action>)
    requires g.Valid()
    ensures res == Multiples(g.Cells(), dim)
  {
    res := {};
    ghost var parts := MultiplesByFigure(g.Cells(), dim);
    for k := 0 to 27
      invariant res == Union(parts[..k])
    {
      var info := g.PencilmarksInfo(Unit(k));
      var found := CollectMultiples(info, dim);
      UnionSnoc(parts, k);
      res := res + found;
    }
    assert parts[..27] == parts;
  }

  /** `Method::get_all_applications` for `Hidden`. */
  method GetAllApplications(h: Hidden, g: Grid) returns (res: set<Action>)
    requires g.Valid()
    ensures res == Applications(h, g.Cells())
  {
    var dimension := Dimension(h);
    if dimension == 1 {
      res := SingleApplications(g);
    } else {
      res := MultipleApplications(g, dimension);
    }
  }

  // ------------------------------------------------- meaning of the multiples

  /** The digits with between 2 and `dim` places in `f`, all of them inside `s`. */
  function Hides(b: seq<Cell>, f: Figure, dim: nat, s: set<nat>): set<nat>
    requires |b| == 81 && OnBoard(f)
  {
    set d: nat | 1 <= d <= 9 && 2 <= |Holders(b, f, d)| <= dim && Holders(b, f, d) <= s
  }

  /**
   * `a` is the hidden group of digit `d0` in `f`: `d0` has exactly `dim` places,
   * exactly `dim` digits with 2..`dim` places keep to those places, and `a`
   * keeps just those digits there.
   */
  predicate HiddenGroup(b: seq<Cell>, f: Figure, dim: nat, d0: nat, a: Action)
    requires |b| == 81 && OnBoard(f)
  {
    && 1 <= d0 <= 9
    && |Holders(b, f, d0)| == dim
    && |Hides(b, f, dim, Holders(b, f, d0))| == dim
    && a == PreservePencilmarks(Holders(b, f, d0), Elements(Hides(b, f, dim, Holders(b, f, d0))))
  }

  lemma HoldersDigit(b: seq<Cell>, f: Figure, d: nat)
    requires CanonicalBoard(b) && OnBoard(f) && Holders(b, f, d) != {}
    ensures IsDigit(d)
  {
    var p :| p in Holders(b, f, d);
    assert Canonical(b[p]);
  }

  lemma CoveredDigit(b: seq<Cell>, f: Figure, dim: nat, d0: nat, d: nat)
    requires CanonicalBoard(b) && OnBoard(f) && d0 in Info(b, f)
    requires Info(b, f)[d0] == Elements(Holders(b, f, d0))
    ensures d in Covered(Info(b, f), dim, Info(b, f)[d0]) <==> d in Hides(b, f, dim, Holders(b, f, d0))
  {
    InfoHolders(b, f, d);
    if Holders(b, f, d) != {} {
      HoldersDigit(b, f, d);
    }
  }

  /** Read through the info map, a lead is the place set of its digit and its cover is `Hides`. */
  lemma CoveredMeaning(b: seq<Cell>, f: Figure, dim: nat, d0: nat)
    requires CanonicalBoard(b) && OnBoard(f) && d0 in Info(b, f)
    ensures SetOf(Info(b, f)[d0]) == Holders(b, f, d0)
    ensures Covered(Info(b, f), dim, Info(b, f)[d0]) == Hides(b, f, dim, Holders(b, f, d0))
  {
    InfoHolders(b, f, d0);
    ElementsSetOf(Holders(b, f, d0));
    forall d: nat
      ensures d in Covered(Info(b, f), dim, Info(b, f)[d0]) <==> d in Hides(b, f, dim, Holders(b, f, d0))
    {
      CoveredDigit(b, f, dim, d0, d);
    }
  }

  lemma MultiplesInOnly(b: seq<Cell>, f: Figure, dim: nat, a: Action)
    requires CanonicalBoard(b) && OnBoard(f) && a in MultiplesIn(Info(b, f), dim)
    ensures exists d0 :: HiddenGroup(b, f, dim, d0, a)
  {
    var info := Info(b, f);
    var lead :| lead in Leads(info, dim) && |Covered(info, dim, lead)| == dim && a == LeadAction(info, dim, lead);
    var d0 :| d0 in info.Keys && d0 in info && |info[d0]| == dim && lead == info[d0];
    CoveredMeaning(b, f, dim, d0);
    InfoHolders(b, f, d0);
    HoldersDigit(b, f, d0);
    assert HiddenGroup(b, f, dim, d0, a);
  }

  lemma MultiplesInAll(b: seq<Cell>, f: Figure, dim: nat, d0: nat, a: Action)
    requires CanonicalBoard(b) && OnBoard(f) && dim >= 1 && HiddenGroup(b, f, dim, d0, a)
    ensures a in MultiplesIn(Info(b, f), dim)
  {
    var info := Info(b, f);
    InfoHolders(b, f, d0);
    CoveredMeaning(b, f, dim, d0);
    var lead := info[d0];
    assert lead in Leads(info, dim);
    LeadFires(info, dim, Leads(info, dim), lead);
  }

  /** On a canonical board, one figure yields exactly the hidden groups of its digits (for `dim >= 1`). */
  lemma MultiplesInMeaning(b: seq<Cell>, f: Figure, dim: nat, a: Action)
    requires CanonicalBoard(b) && OnBoard(f) && dim >= 1
    ensures a in MultiplesIn(Info(b, f), dim) <==> exists d0 :: HiddenGroup(b, f, dim, d0, a)
  {
    if a in MultiplesIn(Info(b, f), dim) {
      MultiplesInOnly(b, f, dim, a);
    }
    if exists d0 :: HiddenGroup(b, f, dim, d0, a) {
      var d0 :| HiddenGroup(b, f, dim, d0, a);
      MultiplesInAll(b, f, dim, d0, a);
    }
  }

  /** `a` is a hidden group of figure `k`. */
  predicate HiddenGroupIn(b: seq<Cell>, k: nat, dim: nat, a: Action)
    requires |b| == 81 && k < 27
  {
    exists d0: nat :: d0 <= 9 && HiddenGroup(b, Unit(k), dim, d0, a)
  }

  /**
   * On a canonical board, hidden pairs, triples and quads are exactly the hidden
   * groups of the rows, columns and boxes.
   */
  lemma MultiplesMeaning(b: seq<Cell>, dim: nat, a: Action)
    requires CanonicalBoard(b) && dim >= 1
    ensures a in Multiples(b, dim) <==> exists k :: 0 <= k < 27 && HiddenGroupIn(b, k, dim, a)
  {
    UnionMember(MultiplesByFigure(b, dim), a);
    forall j | 0 <= j < 27
      ensures a in MultiplesByFigure(b, dim)[j] <==> HiddenGroupIn(b, j, dim, a)
    {
      MultiplesInMeaning(b, Unit(j), dim, a);
    }
  }

  /**
   * A hidden group keeps exactly `dim` ascending digits on exactly `dim` squares
   * of its figure; each kept digit has between 2 and `dim` places there, all on
   * those squares, so a digit with a single place never takes part.
   */
  lemma HiddenGroupShape(b: seq<Cell>, f: Figure, dim: nat, d0: nat, a: Action)
    requires |b| == 81 && OnBoard(f) && dim >= 2 && HiddenGroup(b, f, dim, d0, a)
    ensures a.PreservePencilmarks? && a.figure <= f && |a.figure| == dim
    ensures |a.pencilmarks| == dim && StrictlyAscending(a.pencilmarks) && d0 in a.pencilmarks
    ensures forall d :: d in a.pencilmarks ==>
              IsDigit(d) && 2 <= |Holders(b, f, d)| <= dim && Holders(b, f, d) <= a.figure
  {
  }
}
