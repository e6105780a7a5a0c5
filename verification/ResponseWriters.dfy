/**
 * The switch that contrib/net/http/make_responsewriter.go generates: one case per nonempty
 * selection of interfaces, larger selections first, and the first case whose interfaces are all
 * implemented is taken.
 */
module ResponseWriters {
  import opened Common
  import opened Lists

  /** The generator's loop: combinations by falling size. */
  method CasesBySize<T>(interfaces: seq<T>) returns (combos: seq<seq<seq<T>>>)
    ensures Flatten(combos) == Cases(interfaces, |interfaces|)
  {
    hide Flatten, Cases;
    combos := [];
    var pick := |interfaces|;
    FlattenNone<T>();
    while pick > 0
      invariant 0 <= pick <= |interfaces|
      invariant Flatten(combos) + Cases(interfaces, pick) == Cases(interfaces, |interfaces|)
    {
      var cs := Combinations(interfaces, pick);
      FlattenSnoc(combos, cs);
      CasesStep(interfaces, pick);
      combos := combos + [cs];
      pick := pick - 1;
    }
    NoCases(interfaces);
  }

  lemma FlattenNone<T>()
    ensures Flatten<seq<T>>([]) == []
  {
  }

  lemma CasesStep<T>(list: seq<T>, pick: nat)
    requires pick > 0
    ensures Cases(list, pick) == Selections(list, pick) + Cases(list, pick - 1)
  {
  }

  lemma NoCases<T>(list: seq<T>)
    ensures Cases(list, 0) == []
  {
  }

  /** All selections of sizes `most` down to one. */
  function Cases<T>(list: seq<T>, most: nat): seq<seq<T>> {
    if most == 0 then [] else Selections(list, most) + Cases(list, most - 1)
  }

  predicate Matches<T(==)>(c: seq<T>, implemented: set<T>) {
    forall i :: 0 <= i < |c| ==> c[i] in implemented
  }

  /** What the switch picks: the first case that matches, or the default. */
  function FirstCase<T(==)>(cases: seq<seq<T>>, implemented: set<T>): Option<seq<T>> {
    if cases == [] then None
    else if Matches(cases[0], implemented) then Some(cases[0])
    else FirstCase(cases[1..], implemented)
  }

  // ---------------------------------------------------------------------

  lemma {:induction false} FirstCaseSkips<T>(front: seq<seq<T>>, back: seq<seq<T>>, implemented: set<T>)
    requires forall i :: 0 <= i < |front| ==> !Matches(front[i], implemented)
    ensures FirstCase(front + back, implemented) == FirstCase(back, implemented)
    decreases |front|
  {
    if front == [] {
      assert front + back == back;
    } else {
      assert (front + back)[1..] == front[1..] + back;
      FirstCaseSkips(front[1..], back, implemented);
    }
  }

  lemma {:induction false} FirstCaseFinds<T>(front: seq<seq<T>>, back: seq<seq<T>>, implemented: set<T>, k: nat)
    requires k < |front| && Matches(front[k], implemented)
    ensures FirstCase(front + back, implemented).Some?
    ensures FirstCase(front + back, implemented).value in front
    ensures Matches(FirstCase(front + back, implemented).value, implemented)
    decreases |front|
  {
    if !Matches(front[0], implemented) {
      assert (front + back)[1..] == front[1..] + back;
      assert front[1..][k - 1] == front[k];
      FirstCaseFinds(front[1..], back, implemented, k - 1);
    }
  }

  /** The positions from `lo` on whose elements are in `s`, in order. */
  ghost function Positions<T>(list: seq<T>, s: set<T>, lo: nat): (c: seq<nat>)
    requires lo <= |list|
    ensures IsSelection(c, lo, |list|, |c|) && |c| <= |list| - lo
    ensures forall i :: 0 <= i < |c| ==> list[c[i]] in s
    ensures forall p :: lo <= p < |list| && list[p] in s ==> p in c
    decreases |list| - lo
  {
    if lo == |list| then []
    else if list[lo] in s then [lo] + Positions(list, s, lo + 1)
    else Positions(list, s, lo + 1)
  }

  /** A selection all of whose elements are in `s` only uses the positions of `s`. */
  lemma SelectionFits<T>(list: seq<T>, s: set<T>, c: seq<nat>)
    requires IsSelection(c, 0, |list|, |c|) && Matches(At(list, c), s)
    ensures |c| <= |Positions(list, s, 0)|
    ensures |c| == |Positions(list, s, 0)| ==> c == Positions(list, s, 0)
  {
    var m := Positions(list, s, 0);
    forall i | 0 <= i < |c| ensures c[i] in m {
      assert At(list, c)[i] == list[c[i]];
    }
    Embedded(c, m);
  }

  ghost predicate Rising(c: seq<nat>) {
    forall i, j :: 0 <= i < j < |c| ==> c[i] < c[j]
  }

  lemma RisingBelow(m: seq<nat>, k: nat, y: nat)
    requires Rising(m) && k < |m| && y in m && y < m[k]
    ensures y in m[..k]
  {
    var j :| 0 <= j < |m| && m[j] == y;
    assert m[..k][j] == y;
  }

  lemma {:induction false} Embedded(c: seq<nat>, m: seq<nat>)
    requires Rising(c) && Rising(m) && forall i :: 0 <= i < |c| ==> c[i] in m
    ensures |c| <= |m|
    ensures |c| == |m| ==> c == m
    decreases |c|
  {
    if c != [] {
      var x, front := c[|c| - 1], c[..|c| - 1];
      var k :| 0 <= k < |m| && m[k] == x;
      var below := m[..k];
      forall i | 0 <= i < |front| ensures front[i] in below {
        RisingBelow(m, k, c[i]);
      }
      Embedded(front, below);
      assert c == front + [x] && m == below + [x] + m[k + 1..];
    }
  }

  /** Sizes above the number of implemented interfaces have no matching case. */
  lemma LargerNeverMatch<T>(list: seq<T>, s: set<T>, pick: nat, k: nat)
    requires pick > |Positions(list, s, 0)| && k < |Selections(list, pick)|
    ensures !Matches(Selections(list, pick)[k], s)
  {
    hide Choose, Selections, Matches, IsSelection;
    AllSelectionsOnce(list, pick);
    var c := Choose(0, |list|, pick)[k];
    assert c in Choose(0, |list|, pick);
    SelectionSize(c, 0, |list|, pick);
    if Matches(At(list, c), s) {
      SelectionFits(list, s, c);
    }
  }

  lemma SelectionSize(c: seq<nat>, lo: nat, n: nat, pick: int)
    requires IsSelection(c, lo, n, pick)
    ensures |c| == pick && IsSelection(c, lo, n, |c|)
  {
  }

  /** At exactly that size there is one matching case, the implemented interfaces. */
  lemma EqualSizeMatches<T>(list: seq<T>, s: set<T>)
    requires Positions(list, s, 0) != []
    ensures var m := Positions(list, s, 0); var cs := Selections(list, |m|);
            && At(list, m) in cs && Matches(At(list, m), s)
            && (forall c :: c in cs && Matches(c, s) ==> c == At(list, m))
  {
    hide Choose, Selections, IsSelection;
    var m := Positions(list, s, 0);
    AllSelectionsOnce(list, |m|);
    var ps, cs := Choose(0, |list|, |m|), Selections(list, |m|);
    assert m in ps;
    var j :| 0 <= j < |ps| && ps[j] == m;
    assert cs[j] == At(list, m);
    forall c | c in cs && Matches(c, s) ensures c == At(list, m) {
      var k :| 0 <= k < |cs| && cs[k] == c;
      assert ps[k] in ps;
      SelectionSize(ps[k], 0, |list|, |m|);
      SelectionFits(list, s, ps[k]);
    }
  }

  /**
   * The first matching case of the generated switch names exactly the interfaces implemented, in
   * list order; the default is taken exactly when none is.
   */
  lemma {:induction false} SwitchIsExact<T>(list: seq<T>, s: set<T>, most: nat)
    requires |Positions(list, s, 0)| <= most
    ensures FirstCase(Cases(list, most), s)
         == if Positions(list, s, 0) == [] then None else Some(At(list, Positions(list, s, 0)))
    decreases most
  {
    hide Selections, Matches, FirstCase;
    var m := Positions(list, s, 0);
    if most == 0 {
      NoCaseMatches(s);
    } else if |m| < most {
      forall k | 0 <= k < |Selections(list, most)| ensures !Matches(Selections(list, most)[k], s) {
        LargerNeverMatch(list, s, most, k);
      }
      FirstCaseSkips(Selections(list, most), Cases(list, most - 1), s);
      SwitchIsExact(list, s, most - 1);
    } else {
      EqualSizeMatches(list, s);
      var k :| 0 <= k < |Selections(list, most)| && Selections(list, most)[k] == At(list, m);
      FirstCaseFinds(Selections(list, most), Cases(list, most - 1), s, k);
    }
  }

  lemma NoCaseMatches<T>(s: set<T>)
    ensures FirstCase([], s) == None
  {
  }

  /** In terms of interfaces: the chosen case has exactly the listed interfaces that are implemented. */
  lemma WrapperImplementsTheSame<T>(interfaces: seq<T>, implemented: set<T>, x: T)
    requires x in interfaces
    ensures var c := FirstCase(Cases(interfaces, |interfaces|), implemented);
            && (x in implemented <==> c.Some? && x in c.value)
            && (c.Some? ==> forall y :: y in c.value ==> y in interfaces && y in implemented)
  {
    hide FirstCase, Cases;
    var m := Positions(interfaces, implemented, 0);
    SwitchIsExact(interfaces, implemented, |interfaces|);
    var p :| 0 <= p < |interfaces| && interfaces[p] == x;
    if x in implemented {
      var i :| 0 <= i < |m| && m[i] == p;
      assert At(interfaces, m)[i] == x;
    }
  }
}
