/** contrib/internal/lists/combinations.go: all selections of a given size. */
module Lists {
  import opened Common

  // ---------------------------------------------------------------------
  // Selections of positions, the reference

  /** Strictly increasing positions in [lo, n), `pick` of them. */
  ghost predicate IsSelection(c: seq<nat>, lo: nat, n: nat, pick: int) {
    && |c| == pick
    && (forall i :: 0 <= i < |c| ==> lo <= c[i] < n)
    && (forall i, j :: 0 <= i < j < |c| ==> c[i] < c[j])
  }

  function Prefixed<T>(x: T, cs: seq<seq<T>>): (r: seq<seq<T>>)
    ensures |r| == |cs|
  {
    seq(|cs|, i requires 0 <= i < |cs| => [x] + cs[i])
  }

  function Starting(lo: nat, n: nat, pick: int): seq<seq<nat>>
    requires lo < n
    decreases n - lo, 0
  {
    if pick <= 0 then [] else if pick == 1 then [[lo]] else Prefixed(lo, Choose(lo + 1, n, pick - 1))
  }

  /** The selections of `pick` positions in [lo, n), by first position. */
  function Choose(lo: nat, n: nat, pick: int): seq<seq<nat>>
    decreases if lo < n then n - lo else 0, 1
  {
    if lo >= n then [] else Starting(lo, n, pick) + Choose(lo + 1, n, pick)
  }

  // ---------------------------------------------------------------------
  // The generator on lists

  function Sub<T>(list: seq<T>, pick: int): seq<seq<T>>
    requires list != []
    decreases |list|, 0
  {
    if pick <= 0 then [] else if pick == 1 then [[list[0]]] else Prefixed(list[0], Selections(list[1..], pick - 1))
  }

  function Selections<T>(list: seq<T>, pick: int): seq<seq<T>>
    decreases |list|, 1
  {
    if list == [] then [] else Sub(list, pick) + Selections(list[1..], pick)
  }

  lemma {:induction false} NoPick<T>(list: seq<T>, pick: int)
    requires pick <= 0
    ensures Selections(list, pick) == []
    decreases |list|
  {
    if list != [] {
      NoPick(list[1..], pick);
    }
  }

  lemma SelectionsFrom<T>(list: seq<T>, i: nat, pick: int)
    requires i < |list|
    ensures Selections(list[i..], pick) == Sub(list[i..], pick) + Selections(list[i + 1..], pick)
    ensures list[i..][0] == list[i] && list[i..][1..] == list[i + 1..]
  {
    assert list[i..][1..] == list[i + 1..];
  }

  method Combinations<T>(list: seq<T>, pick: int) returns (all: seq<seq<T>>)
    ensures all == Selections(list, pick)
    decreases |list|
  {
    hide Selections, Sub;
    all := [];
    if pick == 0 {
      NoPick(list, pick);
    } else if pick == 1 {
      var i := 0;
      assert list[0..] == list;
      while i < |list|
        invariant 0 <= i <= |list|
        invariant all + Selections(list[i..], pick) == Selections(list, pick)
      {
        SelectionsFrom(list, i, pick);
        SubOne(list[i..]);
        assert list[i..i + 1] == [list[i]];
        all := all + [list[i..i + 1]];
        i := i + 1;
      }
      SelectionsEnd(list, pick);
    } else {
      var i := 0;
      assert list[0..] == list;
      while i < |list|
        invariant 0 <= i <= |list|
        invariant all + Selections(list[i..], pick) == Selections(list, pick)
      {
        SelectionsFrom(list, i, pick);
        var nexts := Combinations(list[i + 1..], pick - 1);
        SubMany(list[i..], pick);
        ghost var before := all;
        var k := 0;
        while k < |nexts|
          invariant 0 <= k <= |nexts|
          invariant all == before + Prefixed(list[i], nexts)[..k]
        {
          all := all + [[list[i]] + nexts[k]];
          k := k + 1;
        }
        assert all == before + Prefixed(list[i], nexts);
        i := i + 1;
      }
      SelectionsEnd(list, pick);
    }
  }

  lemma SelectionsEnd<T>(list: seq<T>, pick: int)
    ensures Selections(list[|list|..], pick) == []
  {
  }

  lemma SubOne<T>(list: seq<T>)
    requires list != []
    ensures Sub(list, 1) == [[list[0]]]
  {
  }

  /** Below one nothing is ever selected, however the recursion gets there. */
  lemma SubMany<T>(list: seq<T>, pick: int)
    requires list != [] && pick != 0 && pick != 1
    ensures Sub(list, pick) == Prefixed(list[0], Selections(list[1..], pick - 1))
  {
    if pick < 0 {
      NoPick(list[1..], pick - 1);
    }
  }

  // ---------------------------------------------------------------------
  // Lists are selected by position

  function At<T>(list: seq<T>, c: seq<nat>): seq<T>
    requires forall i :: 0 <= i < |c| ==> c[i] < |list|
  {
    seq(|c|, i requires 0 <= i < |c| => list[c[i]])
  }

  ghost predicate Within(cs: seq<seq<nat>>, n: nat) {
    forall k :: 0 <= k < |cs| ==> forall i :: 0 <= i < |cs[k]| ==> cs[k][i] < n
  }

  ghost function AllAt<T>(list: seq<T>, cs: seq<seq<nat>>): (r: seq<seq<T>>)
    requires Within(cs, |list|)
    ensures |r| == |cs|
  {
    seq(|cs|, k requires 0 <= k < |cs| => At(list, cs[k]))
  }

  /** Everything chosen is a selection. */
  lemma {:induction false} ChooseSound(lo: nat, n: nat, pick: int)
    ensures forall k :: 0 <= k < |Choose(lo, n, pick)| ==> IsSelection(Choose(lo, n, pick)[k], lo, n, pick)
    decreases if lo < n then n - lo else 0
  {
    if lo < n {
      var first, rest := Starting(lo, n, pick), Choose(lo + 1, n, pick);
      ChooseSound(lo + 1, n, pick);
      ChooseSound(lo + 1, n, pick - 1);
      forall k | 0 <= k < |first| ensures IsSelection(first[k], lo, n, pick) {
        if pick != 1 {
          var c := Choose(lo + 1, n, pick - 1)[k];
          assert first[k] == [lo] + c && IsSelection(c, lo + 1, n, pick - 1);
        }
      }
      forall k | 0 <= k < |rest| ensures IsSelection(rest[k], lo, n, pick) {
        assert IsSelection(rest[k], lo + 1, n, pick);
      }
    }
  }

  lemma ChooseWithin(lo: nat, n: nat, pick: int)
    ensures Within(Choose(lo, n, pick), n)
  {
    hide Choose;
    ChooseSound(lo, n, pick);
    var cs := Choose(lo, n, pick);
    forall k | 0 <= k < |cs| ensures forall i :: 0 <= i < |cs[k]| ==> cs[k][i] < n {
      assert IsSelection(cs[k], lo, n, pick);
    }
  }

  /** Every selection is chosen. */
  lemma {:induction false} ChooseComplete(c: seq<nat>, lo: nat, n: nat, pick: int)
    requires pick >= 1 && IsSelection(c, lo, n, pick)
    ensures c in Choose(lo, n, pick)
    decreases if lo < n then n - lo else 0
  {
    assert lo <= c[0] < n;
    if c[0] == lo {
      if pick == 1 {
        assert c == [lo] && Starting(lo, n, pick)[0] == c;
      } else {
        var d := c[1..];
        assert c == [lo] + d;
        assert IsSelection(d, lo + 1, n, pick - 1) by {
          assert forall i :: 0 <= i < |d| ==> d[i] == c[i + 1];
        }
        ChooseComplete(d, lo + 1, n, pick - 1);
        var k :| 0 <= k < |Choose(lo + 1, n, pick - 1)| && Choose(lo + 1, n, pick - 1)[k] == d;
        assert Starting(lo, n, pick)[k] == c;
      }
    } else {
      ChooseComplete(c, lo + 1, n, pick);
    }
  }

  /** Nothing is chosen twice. */
  lemma {:induction false} ChooseDistinct(lo: nat, n: nat, pick: int)
    ensures Distinct(Choose(lo, n, pick))
    decreases if lo < n then n - lo else 0
  {
    if lo < n {
      var first, rest := Starting(lo, n, pick), Choose(lo + 1, n, pick);
      ChooseDistinct(lo + 1, n, pick);
      ChooseSound(lo + 1, n, pick);
      StartingDistinct(lo, n, pick);
      forall k | 0 <= k < |rest| ensures rest[k] !in first {
        assert IsSelection(rest[k], lo + 1, n, pick);
      }
    }
  }

  lemma StartingDistinct(lo: nat, n: nat, pick: int)
    requires lo < n
    ensures Distinct(Starting(lo, n, pick))
    ensures forall j :: 0 <= j < |Starting(lo, n, pick)| ==> |Starting(lo, n, pick)[j]| >= 1 && Starting(lo, n, pick)[j][0] == lo
    decreases n - lo, 0
  {
    if pick > 1 {
      var cs := Choose(lo + 1, n, pick - 1);
      ChooseDistinct(lo + 1, n, pick - 1);
      var first := Prefixed(lo, cs);
      forall i, j | 0 <= i < j < |first| ensures first[i] != first[j] {
        assert first[i][1..] == cs[i] && first[j][1..] == cs[j];
      }
    }
  }

  function Binomial(n: nat, k: int): nat {
    if k < 0 then 0 else if k == 0 then 1 else if n == 0 then 0 else Binomial(n - 1, k - 1) + Binomial(n - 1, k)
  }

  lemma {:induction false} ChooseCount(lo: nat, n: nat, pick: int)
    requires lo <= n && pick >= 1
    ensures |Choose(lo, n, pick)| == Binomial(n - lo, pick)
    decreases n - lo
  {
    if lo < n {
      ChooseCount(lo + 1, n, pick);
      if pick > 1 {
        ChooseCount(lo + 1, n, pick - 1);
      }
    }
  }

  /** On any list the generator selects by position. */
  lemma {:induction false} SelectionsArePositions<T>(list: seq<T>, lo: nat, pick: int)
    requires lo <= |list|
    ensures Within(Choose(lo, |list|, pick), |list|)
    ensures Selections(list[lo..], pick) == AllAt(list, Choose(lo, |list|, pick))
    decreases |list| - lo
  {
    hide IsSelection;
    ChooseWithin(lo, |list|, pick);
    if lo < |list| {
      var n := |list|;
      ChooseWithin(lo + 1, n, pick);
      ChooseWithin(lo + 1, n, pick - 1);
      SelectionsFrom(list, lo, pick);
      SelectionsArePositions(list, lo + 1, pick);
      SelectionsArePositions(list, lo + 1, pick - 1);
      StartingAt(list, lo, pick);
      assert AllAt(list, Starting(lo, n, pick) + Choose(lo + 1, n, pick))
          == AllAt(list, Starting(lo, n, pick)) + AllAt(list, Choose(lo + 1, n, pick));
    }
  }

  lemma StartingAt<T>(list: seq<T>, lo: nat, pick: int)
    requires lo < |list| && Within(Choose(lo + 1, |list|, pick - 1), |list|)
    requires Selections(list[lo + 1..], pick - 1) == AllAt(list, Choose(lo + 1, |list|, pick - 1))
    ensures Within(Starting(lo, |list|, pick), |list|)
    ensures Sub(list[lo..], pick) == AllAt(list, Starting(lo, |list|, pick))
  {
    hide Choose, Selections;
    assert list[lo..][1..] == list[lo + 1..];
    var cs := Choose(lo + 1, |list|, pick - 1);
    if pick == 1 {
      assert At(list, [lo]) == [list[lo]];
    } else if pick > 1 {
      forall k | 0 <= k < |cs| ensures At(list, [lo] + cs[k]) == [list[lo]] + At(list, cs[k]) {
      }
    }
  }

  /**
   * For pick >= 1 the result lists every selection of `pick` increasing positions exactly once,
   * binomial(n, pick) in all; for pick <= 0 it is empty.
   */
  lemma AllSelectionsOnce<T>(list: seq<T>, pick: int)
    ensures pick <= 0 ==> Selections(list, pick) == []
    ensures pick >= 1 ==>
              var cs := Choose(0, |list|, pick);
              && Within(cs, |list|) && Selections(list, pick) == AllAt(list, cs)
              && Distinct(cs) && |cs| == Binomial(|list|, pick)
              && (forall c :: c in cs <==> IsSelection(c, 0, |list|, pick))
  {
    hide Choose, Selections;
    if pick <= 0 {
      NoPick(list, pick);
    } else {
      var n, cs := |list|, Choose(0, |list|, pick);
      assert list[0..] == list;
      SelectionsArePositions(list, 0, pick);
      ChooseDistinct(0, n, pick);
      ChooseCount(0, n, pick);
      ChooseSound(0, n, pick);
      forall c | IsSelection(c, 0, n, pick) ensures c in cs {
        ChooseComplete(c, 0, n, pick);
      }
    }
  }
}
