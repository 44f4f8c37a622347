/**
 * The solver: the catalogue of strategies, each with an on/off flag, and one step of
 * deduction that asks the enabled strategies, in catalogue order, for their helpful actions.
 */
module Solvers {
  import opened Cells
  import opened Grids
  import opened Actions
  import opened Methods
  import HiddenN
  import Fishes

  /** A strategy and whether it is enabled. */
  type Entry = (Method, bool)

  /** `all_methods`: the sudokuwiki.org order, every strategy once and every one enabled. */
  function Catalogue(): (r: seq<Entry>)
    ensures |r| == 14
    ensures forall i :: 0 <= i < |r| ==> r[i].1
    ensures forall i, j :: 0 <= i < j < |r| ==> r[i].0 != r[j].0
  {
    [ (Naked(1), true), (Hidden(HiddenN.Single), true),
      (Naked(2), true), (Naked(3), true),
      (Hidden(HiddenN.Pair), true), (Hidden(HiddenN.Triple), true),
      (Naked(4), true), (Hidden(HiddenN.Quad), true),
      (Pointing(2), true), (Pointing(3), true),
      (BoxLine(2), true), (BoxLine(3), true),
      (Fish(Fishes.XWing), true),
      (Coloring, true) ]
  }

  /** The helpful actions of one strategy, as the `BTreeSet` lists them. */
  ghost function Found(m: Method, b: seq<Cell>): seq<Action>
    requires |b| == 81
  {
    Listed(HelpfulApplications(m, b, false))
  }

  /**
   * What `take_step` returns for the entries `es`: disabled entries are skipped; an enabled
   * entry's actions are appended; with `stopAfterFirst` the first non-empty contribution ends the step.
   */
  ghost function Step(es: seq<Entry>, b: seq<Cell>, stopAfterFirst: bool): seq<Action>
    requires |b| == 81
    decreases |es|
  {
    if es == [] then []
    else if !es[0].1 then Step(es[1..], b, stopAfterFirst)
    else
      var found := Found(es[0].0, b);
      if found != [] && stopAfterFirst then found else found + Step(es[1..], b, stopAfterFirst)
  }

  /** Entry `i` is the first enabled entry with something helpful to offer. */
  ghost predicate FirstFound(es: seq<Entry>, b: seq<Cell>, i: nat)
    requires |b| == 81
  {
    i < |es| && es[i].1 && HelpfulApplications(es[i].0, b, false) != {} &&
    forall j :: 0 <= j < i && es[j].1 ==> HelpfulApplications(es[j].0, b, false) == {}
  }

  /** `set_state`: entry `i` gets flag `s`; no strategy and no other flag changes. */
  function WithState(es: seq<Entry>, i: nat, s: bool): (r: seq<Entry>)
    requires i < |es|
    ensures |r| == |es| && r[i] == (es[i].0, s)
    ensures forall j :: 0 <= j < |es| && j != i ==> r[j] == es[j]
  {
    es[i := (es[i].0, s)]
  }

  /** `toggle`: entry `i`'s flag flipped. */
  function Toggled(es: seq<Entry>, i: nat): (r: seq<Entry>)
    requires i < |es|
    ensures |r| == |es| && r[i].0 == es[i].0 && r[i].1 == !es[i].1
    ensures forall j :: 0 <= j < |es| && j != i ==> r[j] == es[j]
  {
    WithState(es, i, !es[i].1)
  }

  class Solver {
    var methods: seq<Entry>

    constructor AllMethods()
      ensures methods == Catalogue()
    {
      methods := Catalogue();
    }

    /** `take_step`: reads the grid and changes nothing. */
    method TakeStep(g: Grid, stopAfterFirst: bool) returns (applications: seq<Action>)
      requires g.Valid()
      ensures applications == Step(methods, g.Cells(), stopAfterFirst)
    {
      var es := methods;
      ghost var b := g.Cells();
      applications := [];
      for i := 0 to |es|
        invariant Step(es, b, stopAfterFirst) == applications + Step(es[i..], b, stopAfterFirst)
      {
        StepAt(es, b, stopAfterFirst, i);
        var (strategy, enabled) := es[i];
        if !enabled {
          continue;
        }
        var found := GetAllHelpfulApplications(strategy, g, false);
        if found != {} {
          applications := applications + Listed(found);
          if stopAfterFirst {
            break;
          }
        }
      }
    }

    /** `set_state`: requires `index` to be in range, as the indexing in the source does. */
    method SetState(index: nat, state: bool)
      requires index < |methods|
      modifies this
      ensures methods == WithState(old(methods), index, state)
    {
      methods := methods[index := (methods[index].0, state)];
    }

    method Toggle(index: nat)
      requires index < |methods|
      modifies this
      ensures methods == Toggled(old(methods), index)
    {
      var currentState := methods[index].1;
      SetState(index, !currentState);
    }
  }

  // ------------------------------------------------------------------ lemmas

  /** One round of `take_step`'s loop: the step from entry `i` on, by the entry's flag and contribution. */
  lemma StepAt(es: seq<Entry>, b: seq<Cell>, stopAfterFirst: bool, i: nat)
    requires |b| == 81 && i < |es|
    ensures var found := HelpfulApplications(es[i].0, b, false);
      Step(es[i..], b, stopAfterFirst) ==
        if !es[i].1 then Step(es[i + 1..], b, stopAfterFirst)
        else if found != {} && stopAfterFirst then Listed(found)
        else Listed(found) + Step(es[i + 1..], b, stopAfterFirst)
  {
    assert es[i..][1..] == es[i + 1..];
  }

  /**
   * Every action of a step comes from an enabled entry and is helpful; without `stopAfterFirst`
   * every helpful action of every enabled entry is in the step.
   */
  lemma {:induction false} StepMember(es: seq<Entry>, b: seq<Cell>, stopAfterFirst: bool, a: Action)
    requires |b| == 81
    ensures a in Step(es, b, stopAfterFirst) ==>
      IsHelpful(a, b) && exists i :: 0 <= i < |es| && es[i].1 && a in HelpfulApplications(es[i].0, b, false)
    ensures !stopAfterFirst ==>
      (a in Step(es, b, false) <==> exists i :: 0 <= i < |es| && es[i].1 && a in HelpfulApplications(es[i].0, b, false))
    decreases |es|
  {
    if es != [] {
      StepMember(es[1..], b, stopAfterFirst, a);
      if exists i :: 0 <= i < |es| && es[i].1 && a in HelpfulApplications(es[i].0, b, false) {
        var i :| 0 <= i < |es| && es[i].1 && a in HelpfulApplications(es[i].0, b, false);
        if i > 0 {
          assert es[1..][i - 1] == es[i];
        }
      }
      if a in Step(es[1..], b, stopAfterFirst) {
        var i :| 0 <= i < |es[1..]| && es[1..][i].1 && a in HelpfulApplications(es[1..][i].0, b, false);
        assert es[i + 1] == es[1..][i];
      }
      if es[0].1 {
        HelpfulMeaning(es[0].0, b, false, a);
      }
    }
  }

  /**
   * With `stopAfterFirst` the step is empty exactly when no enabled entry has anything helpful,
   * and otherwise it is the first such entry's helpful actions and nothing else.
   */
  lemma {:induction false} StopAfterFirst(es: seq<Entry>, b: seq<Cell>, i: nat)
    requires |b| == 81
    ensures Step(es, b, true) == [] <==>
      forall j :: 0 <= j < |es| && es[j].1 ==> HelpfulApplications(es[j].0, b, false) == {}
    ensures FirstFound(es, b, i) ==> Step(es, b, true) == Found(es[i].0, b)
    decreases |es|
  {
    if es != [] {
      var rest := es[1..];
      StopAfterFirst(rest, b, if i == 0 then 0 else i - 1);
      forall j | 0 <= j < |rest|
        ensures rest[j] == es[j + 1]
      {
      }
      if i > 0 && FirstFound(es, b, i) {
        assert FirstFound(rest, b, i - 1);
      }
      if exists j :: 0 <= j < |es| && es[j].1 && HelpfulApplications(es[j].0, b, false) != {} {
        var j :| 0 <= j < |es| && es[j].1 && HelpfulApplications(es[j].0, b, false) != {};
        if j > 0 {
          assert rest[j - 1] == es[j];
        }
      }
    }
  }

  /** Stopping after the first contribution gives a prefix of the full step. */
  lemma {:induction false} StopIsPrefix(es: seq<Entry>, b: seq<Cell>)
    requires |b| == 81
    ensures Step(es, b, true) <= Step(es, b, false)
    decreases |es|
  {
    if es != [] {
      StopIsPrefix(es[1..], b);
    }
  }

  /** A disabled entry contributes nothing: the step is the same with that entry removed. */
  lemma {:induction false} DisabledIgnored(es: seq<Entry>, b: seq<Cell>, stopAfterFirst: bool, i: nat)
    requires |b| == 81 && i < |es| && !es[i].1
    ensures Step(es, b, stopAfterFirst) == Step(es[..i] + es[i + 1..], b, stopAfterFirst)
    decreases i
  {
    var without := es[..i] + es[i + 1..];
    if i == 0 {
      assert without == es[1..];
    } else {
      var rest := es[1..];
      DisabledIgnored(rest, b, stopAfterFirst, i - 1);
      assert without[0] == es[0];
      assert without[1..] == rest[..i - 1] + rest[i..];
    }
  }

  /** Switching an entry off is the same, for every step, as removing it from the catalogue. */
  lemma SwitchedOff(es: seq<Entry>, b: seq<Cell>, stopAfterFirst: bool, i: nat)
    requires |b| == 81 && i < |es|
    ensures Step(WithState(es, i, false), b, stopAfterFirst) == Step(es[..i] + es[i + 1..], b, stopAfterFirst)
  {
    var off := WithState(es, i, false);
    DisabledIgnored(off, b, stopAfterFirst, i);
    assert off[..i] + off[i + 1..] == es[..i] + es[i + 1..];
  }

  /** Toggling the same entry twice restores the catalogue. */
  lemma ToggleTwice(es: seq<Entry>, i: nat)
    requires i < |es|
    ensures Toggled(Toggled(es, i), i) == es
  {
  }

  /** Setting a flag twice keeps only the second setting. */
  lemma SetStateOverrides(es: seq<Entry>, i: nat, s: bool, t: bool)
    requires i < |es|
    ensures WithState(WithState(es, i, s), i, t) == WithState(es, i, t)
  {
  }
}
