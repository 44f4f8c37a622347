/** Ascending lists of naturals and the sets they stand for: the iteration order of a `BTreeSet<usize>`. */
module Sorted {

  predicate StrictlyAscending(s: seq<nat>) {
    forall i, j :: 0 <= i < j < |s| ==> s[i] < s[j]
  }

  /** A lookup in a list gives the same answer as in the set it stands for. */
  function SetOf(s: seq<nat>): (r: set<nat>)
    ensures forall x :: x in r <==> x in s
  {
    set x | x in s
  }

  /** Every element after the head of an ascending list is greater than the head. */
  /** Ascending with repeats allowed: what `sort()` leaves unchanged. */
  predicate NonDecreasing(s: seq<nat>) {
    forall i, j :: 0 <= i < j < |s| ==> s[i] <= s[j]
  }

  /** Every element of `s` occurs in `t` (the source's `s.iter().all(|x| t.contains(x))`). */
  predicate Within(s: seq<nat>, t: seq<nat>) {
    forall x :: x in s ==> x in t
  }

  lemma AscendingHead(s: seq<nat>)
    requires StrictlyAscending(s) && s != []
    ensures StrictlyAscending(s[1..])
    ensures forall x :: x in s[1..] ==> s[0] < x
  {
    forall x | x in s[1..] ensures s[0] < x {
      var k :| 0 <= k < |s[1..]| && s[1..][k] == x;
      assert s[k + 1] == x;
    }
  }

  /** Putting `v` in front of an ascending list of larger values keeps it ascending. */
  lemma AscendingCons(v: nat, s: seq<nat>)
    requires StrictlyAscending(s)
    requires forall x :: x in s ==> v < x
    ensures StrictlyAscending([v] + s)
  {
    forall i, j | 0 <= i < j < |[v] + s| ensures ([v] + s)[i] < ([v] + s)[j] {
      assert ([v] + s)[j] == s[j - 1];
      if i > 0 {
        assert ([v] + s)[i] == s[i - 1];
      } else {
        assert s[j - 1] in s;
      }
    }
  }

  /** Two lists with the same elements are empty together. */
  lemma SameElementsEmpty(a: seq<nat>, b: seq<nat>)
    requires forall x :: x in a <==> x in b
    ensures a == [] <==> b == []
  {
    if a != [] {
      var h := a[0];
      assert h in a;
    }
    if b != [] {
      var h := b[0];
      assert h in b;
    }
  }

  /** Two strictly ascending lists with the same elements are the same list. */
  lemma {:induction false} AscendingUnique(a: seq<nat>, b: seq<nat>)
    requires StrictlyAscending(a) && StrictlyAscending(b)
    requires forall x :: x in a <==> x in b
    ensures a == b
  {
    SameElementsEmpty(a, b);
    if a != [] {
      AscendingHead(a);
      AscendingHead(b);
      assert a == [a[0]] + a[1..];
      assert b == [b[0]] + b[1..];
      assert a[0] in a && b[0] in b;
      assert a[0] == b[0];
      forall x ensures x in a[1..] <==> x in b[1..] {
        assert x in a <==> x == a[0] || x in a[1..];
        assert x in b <==> x == b[0] || x in b[1..];
      }
      AscendingUnique(a[1..], b[1..]);
    }
  }

  /** A strictly ascending list has no repeats, so it is as long as its set is large. */
  lemma {:induction false} AscendingCard(s: seq<nat>)
    requires StrictlyAscending(s)
    ensures |SetOf(s)| == |s|
  {
    if s != [] {
      AscendingHead(s);
      AscendingCard(s[1..]);
      assert SetOf(s) == {s[0]} + SetOf(s[1..]);
      assert s[0] !in SetOf(s[1..]);
    }
  }

  /** Every non-empty finite set of naturals has a least element. */
  lemma {:induction false} MinExists(f: set<nat>)
    requires f != {}
    ensures exists m :: m in f && forall y :: y in f ==> m <= y
  {
    var x :| x in f;
    if f - {x} == {} {
      assert f == {x};
    } else {
      MinExists(f - {x});
      var m :| m in f - {x} && forall y :: y in f - {x} ==> m <= y;
      var least := if x < m then x else m;
      forall y | y in f ensures least <= y {
        if y != x {
          assert y in f - {x};
        }
      }
      assert least in f;
    }
  }

  /** The least element of a non-empty set, the first one a `BTreeSet` yields. */
  function Min(f: set<nat>): (m: nat)
    requires f != {}
    ensures m in f && forall y :: y in f ==> m <= y
  {
    MinExists(f);
    var m :| m in f && forall y :: y in f ==> m <= y;
    m
  }

  /** The elements of `f` in ascending order: how a `BTreeSet` is iterated. */
  function Elements(f: set<nat>): (s: seq<nat>)
    ensures forall x :: x in s <==> x in f
    ensures StrictlyAscending(s)
    ensures |s| == |f|
    decreases |f|
  {
    if f == {} then []
    else
      var m := Min(f);
      var rest := Elements(f - {m});
      assert forall x :: x in rest ==> m < x by {
        forall x | x in rest ensures m < x {
          assert x in f - {m};
        }
      }
      AscendingCons(m, rest);
      assert |f - {m}| == |f| - 1;
      [m] + rest
  }

  /** Listing a set and reading the list back as a set gives the set. */
  lemma ElementsSetOf(f: set<nat>)
    ensures SetOf(Elements(f)) == f
  {
  }

  /** The listing of an ascending list's set is that list. */
  lemma SetOfElements(s: seq<nat>)
    requires StrictlyAscending(s)
    ensures Elements(SetOf(s)) == s
  {
    AscendingUnique(Elements(SetOf(s)), s);
  }

  /** Appending a value larger than everything in an ascending list keeps it ascending. */
  lemma AscendingSnoc(s: seq<nat>, v: nat)
    requires StrictlyAscending(s)
    requires forall x :: x in s ==> x < v
    ensures StrictlyAscending(s + [v])
  {
    forall i, j | 0 <= i < j < |s + [v]| ensures (s + [v])[i] < (s + [v])[j] {
      assert (s + [v])[i] == s[i];
      if j < |s| {
        assert (s + [v])[j] == s[j];
      } else {
        assert s[i] in s;
      }
    }
  }

  /** In an ascending list an element does not occur before its own index. */
  lemma AscendingNotBefore(s: seq<nat>, k: nat)
    requires StrictlyAscending(s) && k < |s|
    ensures s[k] !in s[..k]
    ensures forall x :: x in s[..k + 1] <==> x in s[..k] || x == s[k]
  {
    assert s[..k + 1] == s[..k] + [s[k]];
  }

  lemma DiffCard(a: set<nat>, h: set<nat>)
    requires h <= a
    ensures |a - h| == |a| - |h|
  {
    assert a == (a - h) + h;
  }

  /** The listing of a two-element set. */
  lemma PairElements(p: nat, q: nat)
    requires p < q
    ensures Elements({p, q}) == [p, q]
  {
    assert SetOf([p, q]) == {p, q};
    SetOfElements([p, q]);
  }

  /** A two-element set is its listing's two entries, ascending. */
  lemma TwoElements(h: set<nat>)
    requires |h| == 2
    ensures Elements(h)[0] < Elements(h)[1] && h == {Elements(h)[0], Elements(h)[1]}
  {
    var e := Elements(h);
    assert e == [e[0], e[1]];
    assert SetOf(e) == {e[0], e[1]};
    ElementsSetOf(h);
  }
}
