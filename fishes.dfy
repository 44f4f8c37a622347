/**
 * The fish strategies (X-Wing, Swordfish, Jellyfish): `n` base lines in which a digit has
 * between two and `n` places that together fall on exactly `n` cover lines, each met at least
 * twice; the digit leaves the rest of those cover lines.
 *
 * Unrotated, the base lines are the columns and the cover lines the rows; rotated, the other way
 * round. In the orientation helpers of `Figures` that is `inRow == rotated`.
 */
module Fishes {
  import opened Wrappers
  import opened Sorted
  import opened Cells
  import opened Figures
  import opened Grids
  import opened Actions

  datatype Fish = XWing | Swordfish | Jellyfish

  /** The number of base lines, and of cover lines, of each fish. */
  function Dimensions(f: Fish): (n: nat)
    ensures 2 <= n <= 4
  {
    match f
    case XWing => 2
    case Swordfish => 3
    case Jellyfish => 4
  }

  lemma DimensionsDistinct(f: Fish, g: Fish)
    ensures Dimensions(f) == Dimensions(g) <==> f == g
  {
  }

  /** The places of a digit in one base line, and the cover line through each place. */
  datatype FishCandidate = FishCandidate(rows: seq<nat>, figure: Figure)

  /** `Candidate::new`: the cover index of every square of `figure`, in ascending square order. */
  function NewCandidate(figure: Figure, rotated: bool): (c: FishCandidate)
    ensures c.figure == figure && |c.rows| == |figure|
    ensures forall r :: r in c.rows <==> exists p :: p in figure && CrossIndex(p, rotated) == r
    ensures OnBoard(figure) ==> forall k :: 0 <= k < |c.rows| ==> c.rows[k] < 9
  {
    var ps := Elements(figure);
    var rows := seq(|ps|, k requires 0 <= k < |ps| => CrossIndex(ps[k], rotated));
    assert forall r :: r in rows <==> exists p :: p in figure && CrossIndex(p, rotated) == r by {
      forall r ensures r in rows <==> exists p :: p in figure && CrossIndex(p, rotated) == r {
        if exists p :: p in figure && CrossIndex(p, rotated) == r {
          var p :| p in figure && CrossIndex(p, rotated) == r;
          var k :| 0 <= k < |ps| && ps[k] == p;
          assert rows[k] == r;
        }
      }
    }
    assert OnBoard(figure) ==> forall k :: 0 <= k < |rows| ==> rows[k] < 9 by {
      if OnBoard(figure) {
        forall k | 0 <= k < |rows| ensures rows[k] < 9 {
          assert ps[k] in figure;
          OfBounds(ps[k]);
        }
      }
    }
    FishCandidate(rows, figure)
  }

  /** When the squares lie in one base line, their cover indices ascend, so none repeats. */
  lemma CandidateRowsAscend(figure: Figure, rotated: bool, i: nat)
    requires figure <= LineOf(rotated, i)
    ensures StrictlyAscending(NewCandidate(figure, rotated).rows)
  {
    var ps := Elements(figure);
    var rows := NewCandidate(figure, rotated).rows;
    forall x, y | 0 <= x < y < |rows| ensures rows[x] < rows[y] {
      assert ps[x] in figure && ps[y] in figure;
      OfBounds(ps[x]);
      OfBounds(ps[y]);
    }
  }

  /** Every cover index of a candidate is that of a square of the board. */
  predicate FitsBoard(c: FishCandidate) {
    forall k :: 0 <= k < |c.rows| ==> c.rows[k] < 9
  }

  // ------------------------------------------------------------- the row test

  /** The rows of a combination, candidate after candidate. */
  function Flat(cs: seq<FishCandidate>): seq<nat> {
    if cs == [] then [] else Flat(cs[..|cs| - 1]) + cs[|cs| - 1].rows
  }

  /** How often each row occurs in `s`: the `all_rows` counter. */
  function Tally(s: seq<nat>): map<nat, nat> {
    map r | r in SetOf(s) :: Count(s, r)
  }

  lemma TallySnoc(s: seq<nat>, v: nat)
    ensures v in Tally(s) ==> Tally(s + [v]) == Tally(s)[v := Tally(s)[v] + 1]
    ensures v !in Tally(s) ==> Tally(s + [v]) == Tally(s)[v := 1]
  {
    SetOfSnoc(s, v);
    var t := Tally(s)[v := if v in Tally(s) then Tally(s)[v] + 1 else 1];
    forall r | r in SetOf(s + [v]) ensures Tally(s + [v])[r] == t[r] {
      CountSnoc(s, v, r);
    }
    assert Tally(s + [v]).Keys == t.Keys;
  }

  /** `do_candidates_match`'s test: exactly `n` distinct rows, each occurring at least twice. */
  predicate Matches(cs: seq<FishCandidate>, n: nat) {
    var s := Flat(cs);
    |SetOf(s)| == n && forall r :: r in SetOf(s) ==> Count(s, r) >= 2
  }

  predicate NoRepeats(s: seq<nat>) {
    forall x, y :: 0 <= x < y < |s| ==> s[x] != s[y]
  }

  /** The `into_iter().map(..).collect()` at the end of `do_candidates_match`: the counter's rows, in an unspecified order. */
  method KeysOf(m: map<nat, nat>) returns (out: seq<nat>)
    ensures SetOf(out) == m.Keys && NoRepeats(out)
  {
    out := [];
    var rest := m.Keys;
    while rest != {}
      invariant rest <= m.Keys && SetOf(out) == m.Keys - rest && NoRepeats(out)
      decreases |rest|
    {
      var row :| row in rest;
      SetOfSnoc(out, row);
      out := out + [row];
      rest := rest - {row};
    }
  }

  lemma FlatSnoc(cs: seq<FishCandidate>, i: nat)
    requires i < |cs|
    ensures Flat(cs[..i + 1]) == Flat(cs[..i]) + cs[i].rows
  {
    assert cs[..i + 1][..i] == cs[..i];
  }

  /** The inner loop of `do_candidates_match`: one candidate's rows added to the counter. */
  method CountInto(counter: map<nat, nat>, ghost seen: seq<nat>, rows: seq<nat>) returns (allRows: map<nat, nat>)
    requires counter == Tally(seen)
    ensures allRows == Tally(seen + rows)
  {
    allRows := counter;
    assert seen + rows[..0] == seen;
    for j := 0 to |rows|
      invariant allRows == Tally(seen + rows[..j])
    {
      var row := rows[j];
      TallySnoc(seen + rows[..j], row);
      assert seen + rows[..j + 1] == (seen + rows[..j]) + [row];
      if row in allRows {
        allRows := allRows[row := allRows[row] + 1];
      } else {
        allRows := allRows[row := 1];
      }
    }
    assert rows[..|rows|] == rows;
  }

  /** The counting loops of `do_candidates_match`: how often each row occurs in the combination. */
  method CountRows(candidates: seq<FishCandidate>) returns (allRows: map<nat, nat>)
    ensures allRows == Tally(Flat(candidates))
  {
    allRows := map[];
    for i := 0 to |candidates|
      invariant allRows == Tally(Flat(candidates[..i]))
    {
      allRows := CountInto(allRows, Flat(candidates[..i]), candidates[i].rows);
      FlatSnoc(candidates, i);
    }
    assert candidates[..|candidates|] == candidates;
  }

  /** `Candidate::do_candidates_match`: count the rows of the combination, then test the counter. */
  method DoCandidatesMatch(candidates: seq<FishCandidate>, dimensions: nat) returns (r: Option<seq<nat>>)
    ensures r.Some? <==> Matches(candidates, dimensions)
    ensures r.Some? ==> SetOf(r.value) == SetOf(Flat(candidates)) && NoRepeats(r.value)
  {
    var allRows := CountRows(candidates);
    assert allRows.Keys == SetOf(Flat(candidates));
    if |allRows| == dimensions && forall row | row in allRows :: allRows[row] >= 2 {
      var out := KeysOf(allRows);
      return Some(out);
    }
    return None;
  }

  /** The rows a combination meets. */
  function Lines(cs: seq<FishCandidate>): set<nat> {
    set k, r | 0 <= k < |cs| && r in cs[k].rows :: r
  }

  /** The candidates of a combination that meet row `r`. */
  function Hitting(cs: seq<FishCandidate>, r: nat): set<nat> {
    set k | 0 <= k < |cs| && r in cs[k].rows
  }

  lemma CountConcat(a: seq<nat>, b: seq<nat>, r: nat)
    ensures Count(a + b, r) == Count(a, r) + Count(b, r)
    decreases |b|
  {
    if b != [] {
      var init := b[..|b| - 1];
      var last := b[|b| - 1];
      assert b == init + [last];
      assert a + b == (a + init) + [last];
      CountConcat(a, init, r);
      CountSnoc(a + init, last, r);
      CountSnoc(init, last, r);
    } else {
      assert a + b == a;
    }
  }

  lemma HittingSnoc(cs: seq<FishCandidate>, r: nat)
    requires cs != []
    ensures Hitting(cs, r) == Hitting(cs[..|cs| - 1], r) + if r in cs[|cs| - 1].rows then {|cs| - 1} else {}
  {
    var init := cs[..|cs| - 1];
    forall k ensures k in Hitting(cs, r) <==> k in Hitting(init, r) || (k == |cs| - 1 && r in cs[|cs| - 1].rows) {
      if 0 <= k < |init| {
        assert init[k] == cs[k];
      }
    }
  }

  /** Over candidates whose rows ascend, a row occurs once for every candidate that meets it. */
  lemma {:induction false} FlatCount(cs: seq<FishCandidate>, r: nat)
    requires forall k :: 0 <= k < |cs| ==> StrictlyAscending(cs[k].rows)
    ensures Count(Flat(cs), r) == |Hitting(cs, r)|
  {
    if cs != [] {
      var init := cs[..|cs| - 1];
      var last := cs[|cs| - 1];
      assert forall k :: 0 <= k < |init| ==> init[k] == cs[k];
      FlatCount(init, r);
      assert Flat(cs) == Flat(init) + last.rows;
      CountConcat(Flat(init), last.rows, r);
      CountAscending(last.rows, r);
      HittingSnoc(cs, r);
    }
  }

  lemma LinesFlat(cs: seq<FishCandidate>)
    requires forall k :: 0 <= k < |cs| ==> StrictlyAscending(cs[k].rows)
    ensures SetOf(Flat(cs)) == Lines(cs)
  {
    forall r ensures r in SetOf(Flat(cs)) <==> r in Lines(cs) {
      FlatCount(cs, r);
      if r in Lines(cs) {
        var k :| 0 <= k < |cs| && r in cs[k].rows;
        assert k in Hitting(cs, r);
      }
      if r in SetOf(Flat(cs)) {
        var k :| k in Hitting(cs, r);
        assert r in cs[k].rows;
      }
    }
  }

  /** The row test in the terms of the strategy: `n` rows met, each by at least two candidates. */
  lemma MatchesMeaning(cs: seq<FishCandidate>, n: nat)
    requires forall k :: 0 <= k < |cs| ==> StrictlyAscending(cs[k].rows)
    ensures Matches(cs, n) <==> |Lines(cs)| == n && forall r :: r in Lines(cs) ==> |Hitting(cs, r)| >= 2
  {
    LinesFlat(cs);
    forall r ensures Count(Flat(cs), r) == |Hitting(cs, r)| {
      FlatCount(cs, r);
    }
  }

  // ------------------------------------------------------------- combinations

  function Prefixed(x: FishCandidate, cs: seq<seq<FishCandidate>>): (r: seq<seq<FishCandidate>>)
    ensures |r| == |cs| && forall i :: 0 <= i < |r| ==> r[i] == [x] + cs[i]
  {
    seq(|cs|, i requires 0 <= i < |cs| => [x] + cs[i])
  }

  /** itertools' `combinations(k)`: the picks of `k` entries of `s` in their order, lexicographically. */
  function Combinations(s: seq<FishCandidate>, k: nat): seq<seq<FishCandidate>>
    decreases |s|
  {
    if k == 0 then [[]]
    else if s == [] then []
    else Prefixed(s[0], Combinations(s[1..], k - 1)) + Combinations(s[1..], k)
  }

  function Binomial(n: nat, k: nat): nat {
    if k == 0 then 1 else if n == 0 then 0 else Binomial(n - 1, k - 1) + Binomial(n - 1, k)
  }

  lemma CombinationsSplit(s: seq<FishCandidate>, k: nat)
    requires k > 0 && s != []
    ensures |Combinations(s, k)| == |Combinations(s[1..], k - 1)| + |Combinations(s[1..], k)|
  {
    var with := Combinations(s[1..], k - 1);
    assert |Prefixed(s[0], with)| == |with|;
  }

  lemma {:induction false} CombinationsCount(s: seq<FishCandidate>, k: nat)
    ensures |Combinations(s, k)| == Binomial(|s|, k)
    decreases |s|
  {
    if k > 0 && s != [] {
      var t := s[1..];
      CombinationsSplit(s, k);
      CombinationsCount(t, k - 1);
      CombinationsCount(t, k);
      assert Binomial(|s|, k) == Binomial(|t|, k - 1) + Binomial(|t|, k);
    }
  }

  /** `c` takes the entries of `s` at the ascending indices `idx`. */
  ghost predicate Picks(s: seq<FishCandidate>, idx: seq<nat>, c: seq<FishCandidate>) {
    && StrictlyAscending(idx)
    && |c| == |idx|
    && forall j :: 0 <= j < |idx| ==> idx[j] < |s| && c[j] == s[idx[j]]
  }

  function Shifted(idx: seq<nat>): (r: seq<nat>)
    ensures |r| == |idx| && forall j :: 0 <= j < |r| ==> r[j] == idx[j] + 1
  {
    seq(|idx|, j requires 0 <= j < |idx| => idx[j] + 1)
  }

  function Unshifted(idx: seq<nat>): (r: seq<nat>)
    requires forall j :: 0 <= j < |idx| ==> idx[j] > 0
    ensures |r| == |idx| && forall j :: 0 <= j < |r| ==> r[j] == idx[j] - 1
  {
    seq(|idx|, j requires 0 <= j < |idx| => idx[j] - 1)
  }

  lemma PicksTail(s: seq<FishCandidate>, idx: seq<nat>, c: seq<FishCandidate>)
    requires s != [] && Picks(s[1..], idx, c)
    ensures Picks(s, Shifted(idx), c)
    ensures Picks(s, [0] + Shifted(idx), [s[0]] + c)
  {
    var t := [0] + Shifted(idx);
    forall x, y | 0 <= x < y < |t| ensures t[x] < t[y] {
      if x > 0 {
        assert t[x] == idx[x - 1] + 1 && t[y] == idx[y - 1] + 1;
      }
    }
  }

  lemma PicksHead(s: seq<FishCandidate>, idx: seq<nat>, c: seq<FishCandidate>)
    requires s != [] && Picks(s, idx, c) && idx != []
    ensures idx[0] == 0 ==> forall j :: 1 <= j < |idx| ==> idx[j] > 0
    ensures idx[0] == 0 ==> c[0] == s[0] && Picks(s[1..], Unshifted(idx[1..]), c[1..])
    ensures idx[0] > 0 ==> Picks(s[1..], Unshifted(idx), c)
  {
    if idx[0] == 0 {
      forall j | 1 <= j < |idx| ensures idx[j] > 0 {
        assert idx[0] < idx[j];
      }
      var u := Unshifted(idx[1..]);
      forall x, y | 0 <= x < y < |u| ensures u[x] < u[y] {
        assert idx[x + 1] < idx[y + 1];
      }
    } else {
      forall j | 0 <= j < |idx| ensures idx[j] > 0 {
        if j > 0 {
          assert idx[0] < idx[j];
        }
      }
      var u := Unshifted(idx);
      forall x, y | 0 <= x < y < |u| ensures u[x] < u[y] {
        assert idx[x] < idx[y];
      }
    }
  }

  lemma PicksNonEmpty(s: seq<FishCandidate>, idx: seq<nat>, c: seq<FishCandidate>)
    requires Picks(s, idx, c) && idx != []
    ensures s != []
  {
    assert idx[0] < |s|;
  }

  lemma PrefixedMember(x: FishCandidate, cs: seq<seq<FishCandidate>>, c: seq<FishCandidate>)
    requires c in Prefixed(x, cs)
    ensures c != [] && c[0] == x && c[1..] in cs && c == [x] + c[1..]
  {
    var i :| 0 <= i < |cs| && Prefixed(x, cs)[i] == c;
    assert c[1..] == cs[i];
  }

  /** A combination of `k > 0` entries either starts with the first entry or leaves it out. */
  lemma CombinationsCases(s: seq<FishCandidate>, k: nat, c: seq<FishCandidate>)
    requires k > 0 && c in Combinations(s, k)
    ensures s != []
    ensures (c != [] && c[0] == s[0] && c[1..] in Combinations(s[1..], k - 1)) || c in Combinations(s[1..], k)
  {
    var tails := Combinations(s[1..], k - 1);
    if c in Prefixed(s[0], tails) {
      PrefixedMember(s[0], tails, c);
    }
  }

  /** The positions a combination is drawn from. */
  lemma {:induction false} CombinationsPick(s: seq<FishCandidate>, k: nat, c: seq<FishCandidate>) returns (idx: seq<nat>)
    requires c in Combinations(s, k)
    ensures |idx| == k && Picks(s, idx, c)
    decreases |s|, 1
  {
    if k == 0 {
      idx := [];
    } else {
      CombinationsCases(s, k, c);
      if c != [] && c[0] == s[0] && c[1..] in Combinations(s[1..], k - 1) {
        idx := PickWithFirst(s, k, c);
      } else {
        idx := PickWithoutFirst(s, k, c);
      }
    }
  }

  lemma {:induction false} PickWithFirst(s: seq<FishCandidate>, k: nat, c: seq<FishCandidate>) returns (idx: seq<nat>)
    requires s != [] && k > 0 && c != [] && c[0] == s[0] && c[1..] in Combinations(s[1..], k - 1)
    ensures |idx| == k && Picks(s, idx, c)
    decreases |s|, 0
  {
    var tail := CombinationsPick(s[1..], k - 1, c[1..]);
    PicksTail(s, tail, c[1..]);
    assert c == [s[0]] + c[1..];
    idx := [0] + Shifted(tail);
  }

  lemma {:induction false} PickWithoutFirst(s: seq<FishCandidate>, k: nat, c: seq<FishCandidate>) returns (idx: seq<nat>)
    requires s != [] && c in Combinations(s[1..], k)
    ensures |idx| == k && Picks(s, idx, c)
    decreases |s|, 0
  {
    var tail := CombinationsPick(s[1..], k, c);
    PicksTail(s, tail, c);
    idx := Shifted(tail);
  }

  lemma CombinationsSound(s: seq<FishCandidate>, k: nat, c: seq<FishCandidate>)
    requires c in Combinations(s, k)
    ensures exists idx :: |idx| == k && Picks(s, idx, c)
  {
    var idx := CombinationsPick(s, k, c);
  }

  lemma {:induction false} CombinationsComplete(s: seq<FishCandidate>, k: nat, idx: seq<nat>, c: seq<FishCandidate>)
    requires |idx| == k && Picks(s, idx, c)
    ensures c in Combinations(s, k)
    decreases |s|
  {
    if k == 0 {
      assert c == [];
    } else {
      PicksNonEmpty(s, idx, c);
      PicksHead(s, idx, c);
      if idx[0] == 0 {
        CombinationsComplete(s[1..], k - 1, Unshifted(idx[1..]), c[1..]);
        var i :| 0 <= i < |Combinations(s[1..], k - 1)| && Combinations(s[1..], k - 1)[i] == c[1..];
        assert c == [s[0]] + c[1..];
        assert Prefixed(s[0], Combinations(s[1..], k - 1))[i] == c;
      } else {
        CombinationsComplete(s[1..], k, Unshifted(idx), c);
      }
    }
  }

  /** The combinations are exactly the picks of `k` entries at ascending indices. */
  lemma CombinationsMeaning(s: seq<FishCandidate>, k: nat, c: seq<FishCandidate>)
    ensures c in Combinations(s, k) <==> exists idx :: |idx| == k && Picks(s, idx, c)
  {
    if c in Combinations(s, k) {
      CombinationsSound(s, k, c);
    }
    if exists idx :: |idx| == k && Picks(s, idx, c) {
      var idx :| |idx| == k && Picks(s, idx, c);
      CombinationsComplete(s, k, idx, c);
    }
  }

  // ------------------------------------------------------------- candidates of a digit

  /** The candidates of every digit in each of the nine base lines, in line order. */
  function LineFinds(b: seq<Cell>, rotated: bool, n: nat): (finds: seq<map<nat, FishCandidate>>)
    requires |b| == 81
    ensures |finds| == 9
  {
    seq(9, i requires 0 <= i < 9 => LineFishes(Info(b, LineOf(rotated, i)), rotated, n))
  }

  /** The `filter_map` of `get_all_in_row_or_col`: the digits with two to `n` places in a base line, each with its candidate. */
  function LineFishes(info: map<nat, seq<nat>>, rotated: bool, n: nat): (found: map<nat, FishCandidate>)
    ensures forall d :: d in found <==> d in info && 2 <= |info[d]| <= n
  {
    map d | d in info && 2 <= |info[d]| <= n :: NewCandidate(SetOf(info[d]), rotated)
  }

  /** The entry of `d` in `found` as a list of at most one element. */
  function Entry<T>(found: map<nat, T>, d: nat): seq<T> {
    if d in found then [found[d]] else []
  }

  /** The entry of `d`, or nothing yet. */
  function Look<T>(m: map<nat, seq<T>>, d: nat): seq<T> {
    if d in m then m[d] else []
  }

  /** The candidates of `d` in the first `k` base lines, in line order: its `numbers_to_candidates` entry. */
  function FishList<T>(finds: seq<map<nat, T>>, d: nat, k: nat): seq<T>
    requires k <= |finds|
  {
    if k == 0 then [] else FishList(finds, d, k - 1) + Entry(finds[k - 1], d)
  }

  /** The push loop of `get_all_in_row_or_col`: each new candidate is pushed onto its digit's list, which is created when missing. */
  method PushAll<T>(m0: map<nat, seq<T>>, found: map<nat, T>) returns (m: map<nat, seq<T>>)
    requires forall d :: d in m0 ==> m0[d] != []
    ensures forall d :: d in m ==> m[d] != []
    ensures forall d :: Look(m, d) == Look(m0, d) + Entry(found, d)
  {
    m := m0;
    var rest := found.Keys;
    while rest != {}
      invariant rest <= found.Keys
      invariant forall d :: d in m ==> m[d] != []
      invariant forall d :: d in rest ==> Look(m, d) == Look(m0, d)
      invariant forall d :: d !in rest ==> Look(m, d) == Look(m0, d) + Entry(found, d)
      decreases |rest|
    {
      var number :| number in rest;
      var candidate := found[number];
      ghost var before := m;
      if number in m {
        m := m[number := m[number] + [candidate]];
      } else {
        assert [candidate] == Look(m, number) + [candidate];
        m := m[number := [candidate]];
      }
      PushStep(m0, found, before, m, rest, number);
      rest := rest - {number};
    }
  }

  lemma PushStep<T>(m0: map<nat, seq<T>>, found: map<nat, T>, m: map<nat, seq<T>>, m': map<nat, seq<T>>,
                    rest: set<nat>, number: nat)
    requires number in found && number in rest
    requires forall d :: d in rest ==> Look(m, d) == Look(m0, d)
    requires forall d :: d !in rest ==> Look(m, d) == Look(m0, d) + Entry(found, d)
    requires m' == m[number := Look(m, number) + [found[number]]]
    ensures forall d :: d in rest - {number} ==> Look(m', d) == Look(m0, d)
    ensures forall d :: d !in rest - {number} ==> Look(m', d) == Look(m0, d) + Entry(found, d)
  {
    assert Look(m', number) == Look(m0, number) + Entry(found, number);
  }

  lemma FishListNext<T>(finds: seq<map<nat, T>>, k: nat)
    requires k < |finds|
    ensures forall d :: FishList(finds, d, k + 1) == FishList(finds, d, k) + Entry(finds[k], d)
  {
  }

  /** The push loop of `get_all_in_row_or_col` for base line `k`: the lists of the first `k` lines become those of the first `k + 1`. */
  method PushLine<T>(m0: map<nat, seq<T>>, ghost finds: seq<map<nat, T>>, ghost k: nat, found: map<nat, T>)
    returns (m: map<nat, seq<T>>)
    requires k < |finds| && found == finds[k]
    requires forall d :: d in m0 ==> m0[d] != []
    requires forall d :: Look(m0, d) == FishList(finds, d, k)
    ensures forall d :: d in m ==> m[d] != []
    ensures forall d :: Look(m, d) == FishList(finds, d, k + 1)
  {
    m := PushAll(m0, found);
    FishListNext(finds, k);
  }

  /** One turn of the base-line loop of `get_all_in_row_or_col`: the candidates of base line `i`. */
  method LineCandidates(g: Grid, rotated: bool, n: nat, i: nat) returns (candidates: map<nat, FishCandidate>)
    requires g.Valid() && i < 9
    ensures candidates == LineFinds(g.Cells(), rotated, n)[i]
  {
    LineOfIs(rotated, i);
    var column := if rotated then Row(i) else Col(i);
    var info := g.PencilmarksInfo(column);
    candidates := LineFishes(info, rotated, n);
  }

  /** The base-line loop of `get_all_in_row_or_col`: every digit's candidates over the nine base lines, in line order. */
  method GatherCandidates(g: Grid, rotated: bool, n: nat) returns (m: map<nat, seq<FishCandidate>>)
    requires g.Valid()
    ensures forall d :: d in m <==> FishList(LineFinds(g.Cells(), rotated, n), d, 9) != []
    ensures forall d :: d in m ==> m[d] == FishList(LineFinds(g.Cells(), rotated, n), d, 9)
  {
    ghost var finds := LineFinds(g.Cells(), rotated, n);
    m := map[];
    for i := 0 to 9
      invariant forall d :: d in m ==> m[d] != []
      invariant forall d :: Look(m, d) == FishList(finds, d, i)
    {
      var candidates := LineCandidates(g, rotated, n, i);
      m := PushLine(m, finds, i, candidates);
    }
    forall d ensures d in m <==> FishList(finds, d, 9) != [] {
      assert Look(m, d) == FishList(finds, d, 9);
    }
  }

  // ------------------------------------------------------------- the elimination

  /** The squares of the cover lines `rows`. */
  function Covered(rows: set<nat>, rotated: bool): (f: Figure)
    ensures OnBoard(f)
  {
    set p: nat | p < 81 && CrossIndex(p, rotated) in rows
  }

  /** The squares of the candidates of a combination. */
  function CellsOf(cs: seq<FishCandidate>): set<nat> {
    set k, p | 0 <= k < |cs| && p in cs[k].figure :: p
  }

  /** The cover lines `rows`, less the squares of the combination's candidates. */
  function FishFigure(rows: set<nat>, cs: seq<FishCandidate>, rotated: bool): Figure {
    Covered(rows, rotated) - CellsOf(cs)
  }

  lemma CoveredSnoc(rows: seq<nat>, k: nat, rotated: bool)
    requires k < |rows|
    ensures Covered(SetOf(rows[..k + 1]), rotated) == Covered(SetOf(rows[..k]), rotated) + CrossLine(rotated, rows[k])
  {
    assert rows[..k + 1] == rows[..k] + [rows[k]];
    SetOfSnoc(rows[..k], rows[k]);
  }

  lemma CellsOfSnoc(cs: seq<FishCandidate>, k: nat)
    requires k < |cs|
    ensures CellsOf(cs[..k + 1]) == CellsOf(cs[..k]) + cs[k].figure
  {
    var init := cs[..k];
    var next := cs[..k + 1];
    forall p ensures p in CellsOf(next) <==> p in CellsOf(init) || p in cs[k].figure {
      if p in CellsOf(next) {
        var x :| 0 <= x < |next| && p in next[x].figure;
        if x < k {
          assert p in init[x].figure;
        }
      }
      if p in CellsOf(init) {
        var x :| 0 <= x < |init| && p in init[x].figure;
        assert p in next[x].figure;
      }
      if p in cs[k].figure {
        assert p in next[k].figure;
      }
    }
  }

  /** The figure of a matching combination: the union of the cover lines, then each candidate's squares taken away. */
  method BuildFigure(rows: seq<nat>, combination: seq<FishCandidate>, rotated: bool) returns (figure: Figure)
    requires forall k :: 0 <= k < |rows| ==> rows[k] < 9
    ensures figure == FishFigure(SetOf(rows), combination, rotated)
  {
    figure := {};
    for k := 0 to |rows|
      invariant figure == Covered(SetOf(rows[..k]), rotated)
    {
      LineOfIs(!rotated, rows[k]);
      var f := if rotated then Col(rows[k]) else Row(rows[k]);
      CoveredSnoc(rows, k, rotated);
      figure := figure + f;
    }
    assert rows[..|rows|] == rows;
    for k := 0 to |combination|
      invariant figure == Covered(SetOf(rows), rotated) - CellsOf(combination[..k])
    {
      CellsOfSnoc(combination, k);
      figure := figure - combination[k].figure;
    }
    assert combination[..|combination|] == combination;
  }

  /** The elimination of a matching combination: what it proposes for digit `d`. */
  function FishAction(cs: seq<FishCandidate>, d: nat, rotated: bool): Action {
    RemovePencilmarks(FishFigure(SetOf(Flat(cs)), cs, rotated), [d])
  }

  /** The eliminations of the matching combinations among `combos`. */
  function Chosen(combos: seq<seq<FishCandidate>>, n: nat, d: nat, rotated: bool): set<Action> {
    set c | c in combos && Matches(c, n) :: FishAction(c, d, rotated)
  }

  lemma ChosenStep(combos: seq<seq<FishCandidate>>, j: nat, n: nat, d: nat, rotated: bool)
    requires j < |combos|
    ensures Chosen(combos[..j + 1], n, d, rotated) ==
            Chosen(combos[..j], n, d, rotated) + if Matches(combos[j], n) then {FishAction(combos[j], d, rotated)} else {}
  {
    assert combos[..j + 1] == combos[..j] + [combos[j]];
    assert forall x :: x in combos[..j + 1] <==> x in combos[..j] || x == combos[j];
  }

  /** The combination loop of `get_all_in_row_or_col` for one digit: an elimination for every matching combination of `n` candidates. */
  function DigitFishes(cs: seq<FishCandidate>, n: nat, d: nat, rotated: bool): set<Action> {
    Chosen(Combinations(cs, n), n, d, rotated)
  }

  /** Every combination is made of entries of the list it is drawn from. */
  lemma CombinationsFrom(s: seq<FishCandidate>, k: nat, c: seq<FishCandidate>)
    requires c in Combinations(s, k)
    ensures forall x :: x in c ==> x in s
  {
    CombinationsSound(s, k, c);
    var idx :| |idx| == k && Picks(s, idx, c);
    forall x | x in c ensures x in s {
      var j :| 0 <= j < |c| && c[j] == x;
      assert s[idx[j]] == x;
    }
  }

  /** Rows of candidates that fit the board are rows of the board. */
  lemma {:induction false} FlatFits(cs: seq<FishCandidate>)
    requires forall x :: x in cs ==> FitsBoard(x)
    ensures forall r :: r in Flat(cs) ==> r < 9
  {
    if cs != [] {
      var init := cs[..|cs| - 1];
      assert forall x :: x in init ==> x in cs;
      FlatFits(init);
      assert cs[|cs| - 1] in cs;
    }
  }

  /** The elimination of one combination, when it matches. */
  method TryCombination(combination: seq<FishCandidate>, n: nat, d: nat, rotated: bool) returns (found: set<Action>)
    requires forall x :: x in combination ==> FitsBoard(x)
    ensures found == if Matches(combination, n) then {FishAction(combination, d, rotated)} else {}
  {
    var valid := DoCandidatesMatch(combination, n);
    found := {};
    if valid.Some? {
      FlatFits(combination);
      var rows := valid.value;
      assert forall k :: 0 <= k < |rows| ==> rows[k] < 9 by {
        forall k | 0 <= k < |rows| ensures rows[k] < 9 {
          assert rows[k] in SetOf(rows);
        }
      }
      var figure := BuildFigure(rows, combination, rotated);
      found := {RemovePencilmarks(figure, [d])};
    }
  }

  /** The combination loop of `get_all_in_row_or_col` for one digit. */
  method FishesOfDigit(candidates: seq<FishCandidate>, n: nat, d: nat, rotated: bool) returns (res: set<Action>)
    requires forall x :: x in candidates ==> FitsBoard(x)
    ensures res == DigitFishes(candidates, n, d, rotated)
  {
    var combinations := Combinations(candidates, n);
    res := {};
    for j := 0 to |combinations|
      invariant res == Chosen(combinations[..j], n, d, rotated)
    {
      var combination := combinations[j];
      CombinationsFrom(candidates, n, combination);
      var found := TryCombination(combination, n, d, rotated);
      ChosenStep(combinations, j, n, d, rotated);
      res := res + found;
    }
    assert combinations[..|combinations|] == combinations;
  }

  // ------------------------------------------------------------- one orientation, and both

  /** The digits that have a candidate in some base line: the keys of `numbers_to_candidates`. */
  function FishDigits(b: seq<Cell>, rotated: bool, n: nat): set<nat>
    requires |b| == 81
  {
    set i, d | 0 <= i < 9 && d in LineFinds(b, rotated, n)[i].Keys :: d
  }

  /** A digit has a list exactly when one of the base lines gives it a candidate. */
  lemma {:induction false} FishListNonEmpty<T>(finds: seq<map<nat, T>>, d: nat, k: nat)
    requires k <= |finds|
    ensures FishList(finds, d, k) != [] <==> exists i :: 0 <= i < k && d in finds[i]
  {
    if k > 0 {
      FishListNonEmpty(finds, d, k - 1);
    }
  }

  /** The digits with a non-empty list are those of `FishDigits`. */
  lemma FishKeys(b: seq<Cell>, rotated: bool, n: nat, m: map<nat, seq<FishCandidate>>)
    requires |b| == 81
    requires forall d :: d in m <==> FishList(LineFinds(b, rotated, n), d, 9) != []
    ensures m.Keys == FishDigits(b, rotated, n)
  {
    forall d ensures d in m <==> d in FishDigits(b, rotated, n) {
      FishListNonEmpty(LineFinds(b, rotated, n), d, 9);
    }
  }

  /** Each candidate of a base line has its cover indices on the board. */
  lemma LineFishFits(b: seq<Cell>, rotated: bool, n: nat, i: nat, d: nat)
    requires |b| == 81 && i < 9 && d in LineFinds(b, rotated, n)[i]
    ensures FitsBoard(LineFinds(b, rotated, n)[i][d])
  {
    var f := LineOf(rotated, i);
    InfoInFigure(b, f, d);
    var l := Info(b, f)[d];
    forall p | p in SetOf(l) ensures p < 81 {
      var j :| 0 <= j < |l| && l[j] == p;
      assert l[j] in f;
    }
  }

  /** Every candidate of every base line fits the board. */
  lemma LineFindsFit(b: seq<Cell>, rotated: bool, n: nat)
    requires |b| == 81
    ensures forall i, d :: 0 <= i < 9 && d in LineFinds(b, rotated, n)[i] ==> FitsBoard(LineFinds(b, rotated, n)[i][d])
  {
    forall i, d | 0 <= i < 9 && d in LineFinds(b, rotated, n)[i] ensures FitsBoard(LineFinds(b, rotated, n)[i][d]) {
      LineFishFits(b, rotated, n, i, d);
    }
  }

  /** Every candidate in a digit's list is one of some line's. */
  lemma {:induction false} FishListFrom<T>(finds: seq<map<nat, T>>, d: nat, k: nat, x: T)
    requires k <= |finds| && x in FishList(finds, d, k)
    ensures exists i :: 0 <= i < k && d in finds[i] && finds[i][d] == x
  {
    if x !in FishList(finds, d, k - 1) {
      assert d in finds[k - 1] && finds[k - 1][d] == x;
    } else {
      FishListFrom(finds, d, k - 1, x);
    }
  }

  /** Every candidate in a digit's list fits the board. */
  lemma FishListFits(b: seq<Cell>, rotated: bool, n: nat, d: nat)
    requires |b| == 81
    ensures forall x :: x in FishList(LineFinds(b, rotated, n), d, 9) ==> FitsBoard(x)
  {
    var finds := LineFinds(b, rotated, n);
    LineFindsFit(b, rotated, n);
    forall x | x in FishList(finds, d, 9) ensures FitsBoard(x) {
      FishListFrom(finds, d, 9, x);
    }
  }

  /** A line's candidate appears in the list of its digit. */
  lemma {:induction false} FishListHas<T>(finds: seq<map<nat, T>>, d: nat, k: nat, i: nat)
    requires i < k <= |finds| && d in finds[i]
    ensures finds[i][d] in FishList(finds, d, k)
  {
    if i < k - 1 {
      FishListHas(finds, d, k - 1, i);
    }
  }

  /**
   * On a canonical board, base line `i` gives digit `d` a candidate exactly when `d` has two to
   * `n` places there, and the candidate is made of those places.
   */
  lemma LineFindsMeaning(b: seq<Cell>, rotated: bool, n: nat, i: nat, d: nat)
    requires CanonicalBoard(b) && i < 9
    ensures d in LineFinds(b, rotated, n)[i] <==> 2 <= |Holders(b, LineOf(rotated, i), d)| <= n
    ensures d in LineFinds(b, rotated, n)[i] ==>
              LineFinds(b, rotated, n)[i][d] == NewCandidate(Holders(b, LineOf(rotated, i), d), rotated)
  {
    var f := LineOf(rotated, i);
    InfoHolders(b, f, d);
    if d in Info(b, f) {
      var h := Holders(b, f, d);
      assert SetOf(Elements(h)) == h;
    }
  }

  /**
   * On a canonical board, the list of `d` holds exactly one candidate per base line in which `d` has
   * two to `n` places, made of those places.
   */
  lemma FishListMeaning(b: seq<Cell>, rotated: bool, n: nat, d: nat, x: FishCandidate)
    requires CanonicalBoard(b)
    ensures x in FishList(LineFinds(b, rotated, n), d, 9) <==>
              exists i :: 0 <= i < 9 && 2 <= |Holders(b, LineOf(rotated, i), d)| <= n &&
                          x == NewCandidate(Holders(b, LineOf(rotated, i), d), rotated)
  {
    var finds := LineFinds(b, rotated, n);
    if x in FishList(finds, d, 9) {
      FishListFrom(finds, d, 9, x);
      var i :| 0 <= i < 9 && d in finds[i] && finds[i][d] == x;
      LineFindsMeaning(b, rotated, n, i, d);
    }
    if exists i :: 0 <= i < 9 && 2 <= |Holders(b, LineOf(rotated, i), d)| <= n &&
                   x == NewCandidate(Holders(b, LineOf(rotated, i), d), rotated) {
      var i :| 0 <= i < 9 && 2 <= |Holders(b, LineOf(rotated, i), d)| <= n &&
               x == NewCandidate(Holders(b, LineOf(rotated, i), d), rotated);
      LineFindsMeaning(b, rotated, n, i, d);
      FishListHas(finds, d, 9, i);
    }
  }

  /** The cover indices of every listed candidate ascend, so the row test of `MatchesMeaning` applies. */
  lemma FishListRowsAscend(b: seq<Cell>, rotated: bool, n: nat, d: nat, x: FishCandidate)
    requires |b| == 81 && x in FishList(LineFinds(b, rotated, n), d, 9)
    ensures StrictlyAscending(x.rows)
  {
    var finds := LineFinds(b, rotated, n);
    FishListFrom(finds, d, 9, x);
    var i :| 0 <= i < 9 && d in finds[i] && finds[i][d] == x;
    var f := LineOf(rotated, i);
    InfoInFigure(b, f, d);
    var l := Info(b, f)[d];
    forall p | p in SetOf(l) ensures p in f {
      var j :| 0 <= j < |l| && l[j] == p;
    }
    CandidateRowsAscend(SetOf(l), rotated, i);
  }

  /** The eliminations of the digits `ds`, each over its whole list. */
  function FishesAmong(b: seq<Cell>, rotated: bool, n: nat, ds: set<nat>): set<Action>
    requires |b| == 81
  {
    set d, a | d in ds && a in DigitFishes(FishList(LineFinds(b, rotated, n), d, 9), n, d, rotated) :: a
  }

  /** `get_all_in_row_or_col`: the fishes of size `n` with base lines in one orientation. */
  function FishesIn(b: seq<Cell>, rotated: bool, n: nat): set<Action>
    requires |b| == 81
  {
    FishesAmong(b, rotated, n, FishDigits(b, rotated, n))
  }

  /** `get_all_applications`: both orientations. */
  function FishesAll(b: seq<Cell>, f: Fish): set<Action>
    requires |b| == 81
  {
    FishesIn(b, false, Dimensions(f)) + FishesIn(b, true, Dimensions(f))
  }

  /** The eliminations of the digits `ds` of `m`, each over its list in `m`. */
  function MapFishes(m: map<nat, seq<FishCandidate>>, n: nat, rotated: bool, ds: set<nat>): set<Action> {
    set d, a | d in ds && d in m && a in DigitFishes(m[d], n, d, rotated) :: a
  }

  lemma MapFishesStep(m: map<nat, seq<FishCandidate>>, n: nat, rotated: bool, ds: set<nat>, d: nat)
    requires d in m
    ensures MapFishes(m, n, rotated, ds + {d}) == MapFishes(m, n, rotated, ds) + DigitFishes(m[d], n, d, rotated)
  {
  }

  /** When `m` holds the board's lists, its eliminations are those of its digits on the board. */
  lemma MapFishesOfBoard(m: map<nat, seq<FishCandidate>>, b: seq<Cell>, rotated: bool, n: nat)
    requires |b| == 81
    requires forall d :: d in m ==> m[d] == FishList(LineFinds(b, rotated, n), d, 9)
    ensures MapFishes(m, n, rotated, m.Keys) == FishesAmong(b, rotated, n, m.Keys)
  {
  }

  /** The digit loop of `get_all_in_row_or_col`: the eliminations of every digit of `m`. */
  method FishesOfDigits(m: map<nat, seq<FishCandidate>>, n: nat, rotated: bool) returns (res: set<Action>)
    requires forall d, x :: d in m && x in m[d] ==> FitsBoard(x)
    ensures res == MapFishes(m, n, rotated, m.Keys)
  {
    res := {};
    var rest := m.Keys;
    ghost var done: set<nat> := {};
    while rest != {}
      invariant done + rest == m.Keys && done !! rest
      invariant res == MapFishes(m, n, rotated, done)
      decreases |rest|
    {
      var number :| number in rest;
      var found := FishesOfDigit(m[number], n, number, rotated);
      MapFishesStep(m, n, rotated, done, number);
      res := res + found;
      done := done + {number};
      rest := rest - {number};
    }
  }

  /** `Fishes::get_all_in_row_or_col`: the fishes of one orientation. */
  method GetAllInRowOrCol(f: Fish, g: Grid, rotated: bool) returns (res: set<Action>)
    requires g.Valid()
    ensures res == FishesIn(g.Cells(), rotated, Dimensions(f))
  {
    var dimensions := Dimensions(f);
    var m := GatherCandidates(g, rotated, dimensions);
    ghost var b := g.Cells();
    FishKeys(b, rotated, dimensions, m);
    forall d, x | d in m && x in m[d] ensures FitsBoard(x) {
      FishListFits(b, rotated, dimensions, d);
    }
    res := FishesOfDigits(m, dimensions, rotated);
    MapFishesOfBoard(m, b, rotated, dimensions);
  }

  /** `get_all_applications`: the unrotated scan followed by the rotated scan. */
  method GetAllApplications(f: Fish, g: Grid) returns (res: set<Action>)
    requires g.Valid()
    ensures res == FishesAll(g.Cells(), f)
  {
    var columns := GetAllInRowOrCol(f, g, false);
    var rows := GetAllInRowOrCol(f, g, true);
    res := columns + rows;
  }
}
