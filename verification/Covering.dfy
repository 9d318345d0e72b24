/** Choosing the scenarios of a preflight: the greedy cover of every distinct target. */
module Covering {
  import opened Sorting

  /** Every target that some scenario of `names` grades. */
  function Covered(names: seq<string>, targetsOf: string -> set<string>): set<string> {
    if names == [] then {} else Covered(names[..|names| - 1], targetsOf) + targetsOf(names[|names| - 1])
  }

  /** What is left of the pool's targets once `chosen` have run. */
  function Left(chosen: seq<string>, pool: seq<string>, targetsOf: string -> set<string>): set<string> {
    Covered(pool, targetsOf) - Covered(chosen, targetsOf)
  }

  function Gain(name: string, uncovered: set<string>, targetsOf: string -> set<string>): set<string> {
    targetsOf(name) * uncovered
  }

  /** The most gain over `uncovered` in the pool, and of those that tie the first in the alphabet. */
  ghost predicate IsBest(best: string, uncovered: set<string>, pool: seq<string>, targetsOf: string -> set<string>) {
    && best in pool
    && forall name :: name in pool ==>
         var gain, most := |Gain(name, uncovered, targetsOf)|, |Gain(best, uncovered, targetsOf)|;
         gain < most || (gain == most && !Before(name, best))
  }

  /** Every pick was the best one when it was made, and added something. */
  ghost predicate Greedy(chosen: seq<string>, pool: seq<string>, targetsOf: string -> set<string>) {
    forall j :: 0 <= j < |chosen| ==>
      && IsBest(chosen[j], Left(chosen[..j], pool, targetsOf), pool, targetsOf)
      && Gain(chosen[j], Left(chosen[..j], pool, targetsOf), targetsOf) != {}
  }

  /** The first of the sorted names with the largest gain. */
  method MaxByGain(sorted: seq<string>, uncovered: set<string>, targetsOf: string -> set<string>)
    returns (best: string)
    requires sorted != [] && forall i, j :: 0 <= i < j < |sorted| ==> !Before(sorted[j], sorted[i])
    ensures IsBest(best, uncovered, sorted, targetsOf)
  {
    hide Before, Gain;
    best := sorted[0];
    BeforeIsTotal(best, best);
    for i := 1 to |sorted|
      invariant IsBest(best, uncovered, sorted[..i], targetsOf)
      invariant forall j :: i <= j < |sorted| ==> !Before(sorted[j], best)
    {
      var name := sorted[i];
      assert sorted[..i + 1] == sorted[..i] + [name];
      BeforeIsTotal(name, name);
      if |Gain(name, uncovered, targetsOf)| > |Gain(best, uncovered, targetsOf)| {
        best := name;
      }
    }
    assert sorted[..|sorted|] == sorted;
  }

  lemma {:induction false} CoveredBy(names: seq<string>, targetsOf: string -> set<string>, target: string)
    ensures target in Covered(names, targetsOf) <==> exists i :: 0 <= i < |names| && target in targetsOf(names[i])
  {
    if names != [] {
      var front, last := names[..|names| - 1], names[|names| - 1];
      CoveredBy(front, targetsOf, target);
      if i :| 0 <= i < |names| && target in targetsOf(names[i]) {
        assert i < |front| ==> target in targetsOf(front[i]);
      }
      if target in Covered(names, targetsOf) {
        if target in Covered(front, targetsOf) {
          var i :| 0 <= i < |front| && target in targetsOf(front[i]);
          assert target in targetsOf(names[i]);
        }
      }
    }
  }

  /** The scenarios that resolve any target at all, each once. */
  method Gradable(pool: seq<string>, targetsOf: string -> set<string>) returns (remaining: seq<string>)
    ensures forall name :: name in remaining <==> name in pool && targetsOf(name) != {}
    ensures forall i, j :: 0 <= i < j < |remaining| ==> remaining[i] != remaining[j]
  {
    remaining := [];
    for i := 0 to |pool|
      invariant forall name :: name in remaining <==> name in pool[..i] && targetsOf(name) != {}
      invariant forall i, j :: 0 <= i < j < |remaining| ==> remaining[i] != remaining[j]
    {
      assert pool[..i + 1] == pool[..i] + [pool[i]];
      if targetsOf(pool[i]) != {} && pool[i] !in remaining {
        remaining := remaining + [pool[i]];
      }
    }
    assert pool[..|pool|] == pool;
  }

  lemma SameCover(a: seq<string>, b: seq<string>, targetsOf: string -> set<string>)
    requires forall name :: name in a <==> name in b && targetsOf(name) != {}
    ensures Covered(a, targetsOf) == Covered(b, targetsOf)
  {
    forall target
      ensures target in Covered(a, targetsOf) <==> target in Covered(b, targetsOf)
    {
      CoveredBy(a, targetsOf, target);
      CoveredBy(b, targetsOf, target);
      if i :| 0 <= i < |b| && target in targetsOf(b[i]) {
        assert b[i] in a;
      }
      if i :| 0 <= i < |a| && target in targetsOf(a[i]) {
        assert a[i] in b;
      }
    }
  }

  /** Something left is something a scenario of the pool would still gain. */
  lemma SomeGain(sorted: seq<string>, uncovered: set<string>, targetsOf: string -> set<string>, best: string)
    requires uncovered != {} && uncovered <= Covered(sorted, targetsOf)
    requires IsBest(best, uncovered, sorted, targetsOf)
    ensures Gain(best, uncovered, targetsOf) != {}
  {
    var target :| target in uncovered;
    CoveredBy(sorted, targetsOf, target);
    var i :| 0 <= i < |sorted| && target in targetsOf(sorted[i]);
    assert target in Gain(sorted[i], uncovered, targetsOf);
    assert |Gain(sorted[i], uncovered, targetsOf)| <= |Gain(best, uncovered, targetsOf)|;
  }

  /** A pick that is best among the scenarios with targets is best in the pool. */
  lemma BestInPool(best: string, uncovered: set<string>, sorted: seq<string>, pool: seq<string>,
                   targetsOf: string -> set<string>)
    requires forall name :: name in sorted <==> name in pool && targetsOf(name) != {}
    requires IsBest(best, uncovered, sorted, targetsOf) && Gain(best, uncovered, targetsOf) != {}
    ensures IsBest(best, uncovered, pool, targetsOf)
  {
    hide Before;
    forall name | name in pool
      ensures |Gain(name, uncovered, targetsOf)| < |Gain(best, uncovered, targetsOf)|
              || (|Gain(name, uncovered, targetsOf)| == |Gain(best, uncovered, targetsOf)| && !Before(name, best))
    {
      if targetsOf(name) == {} {
        assert Gain(name, uncovered, targetsOf) == {};
      } else {
        assert name in sorted;
      }
    }
  }

  lemma GreedyExtends(chosen: seq<string>, best: string, pool: seq<string>, targetsOf: string -> set<string>)
    requires Greedy(chosen, pool, targetsOf)
    requires IsBest(best, Left(chosen, pool, targetsOf), pool, targetsOf)
    requires Gain(best, Left(chosen, pool, targetsOf), targetsOf) != {}
    ensures Greedy(chosen + [best], pool, targetsOf)
    ensures Left(chosen + [best], pool, targetsOf)
            == Left(chosen, pool, targetsOf) - Gain(best, Left(chosen, pool, targetsOf), targetsOf)
  {
    hide IsBest, Before;
    var more := chosen + [best];
    assert more[..|chosen|] == chosen;
    assert forall j :: 0 <= j < |chosen| ==> more[..j] == chosen[..j];
  }

  /** max(sorted(remaining), key=gain) */
  method Pick(remaining: seq<string>, uncovered: set<string>, ghost pool: seq<string>, targetsOf: string -> set<string>)
    returns (best: string)
    requires uncovered != {} && uncovered <= Covered(pool, targetsOf)
    requires forall name :: name in remaining <==> name in pool && targetsOf(name) != {}
    ensures IsBest(best, uncovered, pool, targetsOf)
  {
    hide IsBest, Before, Sort, Gain, Covered;
    SameCover(remaining, pool, targetsOf);
    var sorted := Alphabetical(remaining);
    AlphabeticalOrders(remaining);
    SameCover(sorted, pool, targetsOf);
    SomeName(sorted, targetsOf, uncovered);
    best := MaxByGain(sorted, uncovered, targetsOf);
    SomeGain(sorted, uncovered, targetsOf, best);
    BestInPool(best, uncovered, sorted, pool, targetsOf);
  }

  lemma SomeName(names: seq<string>, targetsOf: string -> set<string>, uncovered: set<string>)
    requires uncovered != {} && uncovered <= Covered(names, targetsOf)
    ensures names != []
  {}

  /** No names means every scenario there is. The early exit is never taken: something left is
      always something to gain. */
  method CoveringScenarios(names: seq<string>, all: seq<string>, targetsOf: string -> set<string>)
    returns (chosen: seq<string>)
    ensures var pool := if names == [] then all else names;
            Greedy(chosen, pool, targetsOf) && Covered(chosen, targetsOf) == Covered(pool, targetsOf)
  {
    hide IsBest, Gain, Greedy;
    var pool := if names == [] then all else names;
    var remaining := Gradable(pool, targetsOf);
    var uncovered := Covered(remaining, targetsOf);
    SameCover(remaining, pool, targetsOf);
    chosen := [];
    NothingChosen(pool, targetsOf);
    while uncovered != {}
      invariant Greedy(chosen, pool, targetsOf)
      invariant uncovered == Left(chosen, pool, targetsOf)
      decreases |uncovered|
    {
      var best := Pick(remaining, uncovered, pool, targetsOf);
      var gain := Gain(best, uncovered, targetsOf);
      SomeGain(pool, uncovered, targetsOf, best);
      if gain == {} {
        break;
      }
      GreedyExtends(chosen, best, pool, targetsOf);
      GainIsSome(best, uncovered, targetsOf);
      chosen := chosen + [best];
      uncovered := uncovered - gain;
    }
    NothingLeft(chosen, pool, targetsOf);
  }

  lemma GainIsSome(best: string, uncovered: set<string>, targetsOf: string -> set<string>)
    requires Gain(best, uncovered, targetsOf) != {}
    ensures |uncovered - Gain(best, uncovered, targetsOf)| < |uncovered|
  {
    var gain := Gain(best, uncovered, targetsOf);
    assert uncovered == (uncovered - gain) + gain && (uncovered - gain) !! gain;
  }

  lemma NothingChosen(pool: seq<string>, targetsOf: string -> set<string>)
    ensures Greedy([], pool, targetsOf) && Left([], pool, targetsOf) == Covered(pool, targetsOf)
  {}

  lemma {:induction false} PicksInPool(chosen: seq<string>, pool: seq<string>,
        targetsOf: string -> set<string>, target: string)
    requires Greedy(chosen, pool, targetsOf) && target in Covered(chosen, targetsOf)
    ensures target in Covered(pool, targetsOf)
  {
    hide Before, Gain;
    CoveredBy(chosen, targetsOf, target);
    var i :| 0 <= i < |chosen| && target in targetsOf(chosen[i]);
    assert chosen[i] in pool;
    CoveredBy(pool, targetsOf, target);
  }

  lemma NothingLeft(chosen: seq<string>, pool: seq<string>, targetsOf: string -> set<string>)
    requires Greedy(chosen, pool, targetsOf) && Left(chosen, pool, targetsOf) == {}
    ensures Covered(chosen, targetsOf) == Covered(pool, targetsOf)
  {
    hide Greedy, Covered;
    forall target | target in Covered(chosen, targetsOf)
      ensures target in Covered(pool, targetsOf)
    {
      PicksInPool(chosen, pool, targetsOf, target);
    }
    forall target | target in Covered(pool, targetsOf)
      ensures target in Covered(chosen, targetsOf)
    {
      assert target !in Left(chosen, pool, targetsOf);
    }
  }

  // ---- how few ---------------------------------------------------------------------

  lemma NoRepeats(chosen: seq<string>, pool: seq<string>, targetsOf: string -> set<string>, i: nat, j: nat)
    requires Greedy(chosen, pool, targetsOf) && i < j < |chosen|
    ensures chosen[i] != chosen[j]
  {
    hide IsBest;
    var left := Left(chosen[..j], pool, targetsOf);
    var target :| target in Gain(chosen[j], left, targetsOf);
    CoveredBy(chosen[..j], targetsOf, target);
    assert chosen[..j][i] == chosen[i];
  }

  function Pow(base: int, exponent: nat): (p: int)
    ensures exponent == 0 ==> p == 1
    ensures exponent == 1 ==> p == base
  {
    if exponent == 0 then 1 else Pow(base, exponent - 1) * base
  }

  /** Some scenario of a cover gains its share: at least one k-th of what is left. */
  lemma {:induction false} ShareOfCover(cover: seq<string>, left: set<string>,
        targetsOf: string -> set<string>, most: nat)
    requires forall name :: name in cover ==> |Gain(name, left, targetsOf)| <= most
    ensures |Covered(cover, targetsOf) * left| <= |cover| * most
  {
    hide Gain;
    if cover != [] {
      var front, last := cover[..|cover| - 1], cover[|cover| - 1];
      ShareOfCover(front, left, targetsOf, most);
      CoverStep(cover, left, targetsOf);
      NextShare(|front|, most);
    }
  }

  lemma NextShare(n: nat, most: nat)
    ensures (n + 1) * most == n * most + most
  {}

  lemma CoverStep(cover: seq<string>, left: set<string>, targetsOf: string -> set<string>)
    requires cover != []
    ensures |Covered(cover, targetsOf) * left|
            <= |Covered(cover[..|cover| - 1], targetsOf) * left| + |Gain(cover[|cover| - 1], left, targetsOf)|
  {
    var front, last := cover[..|cover| - 1], cover[|cover| - 1];
    assert Covered(cover, targetsOf) * left == Covered(front, targetsOf) * left + Gain(last, left, targetsOf);
    UnionSize(Covered(front, targetsOf) * left, Gain(last, left, targetsOf));
  }

  lemma UnionSize(a: set<string>, b: set<string>)
    ensures |a + b| <= |a| + |b|
  {
    assert |a + b| == |a| + |b| - |a * b|;
  }

  lemma BoundStep(left: nat, gain: nat, next: nat, k: nat, power: int, total: nat, power1: int)
    requires next == left - gain && left <= k * gain && power >= 0
    requires left * power <= total * power1 && k >= 1
    ensures next * (power * k) <= total * (power1 * (k - 1))
  {
    assert next * k == left * k - gain * k <= left * (k - 1);
    assert next * (power * k) == (next * k) * power;
    MulRight(next * k, left * (k - 1), power);
    assert left * (k - 1) * power == (left * power) * (k - 1);
    MulRight(left * power, total * power1, k - 1);
    assert total * power1 * (k - 1) == total * (power1 * (k - 1));
  }

  lemma MulRight(a: int, b: int, c: int)
    requires a <= b && c >= 0
    ensures a * c <= b * c
  {}

  lemma {:induction false} PowIsNat(base: nat, exponent: nat)
    ensures Pow(base, exponent) >= 0
  {
    if exponent > 0 {
      PowIsNat(base, exponent - 1);
    }
  }

  lemma LeftAfterPick(chosen: seq<string>, j: nat, pool: seq<string>, targetsOf: string -> set<string>)
    requires j < |chosen|
    ensures Left(chosen[..j + 1], pool, targetsOf)
            == Left(chosen[..j], pool, targetsOf) - Gain(chosen[j], Left(chosen[..j], pool, targetsOf), targetsOf)
    ensures |Left(chosen[..j + 1], pool, targetsOf)|
            == |Left(chosen[..j], pool, targetsOf)| - |Gain(chosen[j], Left(chosen[..j], pool, targetsOf), targetsOf)|
  {
    assert chosen[..j + 1][..j] == chosen[..j];
    var left := Left(chosen[..j], pool, targetsOf);
    var gain := Gain(chosen[j], left, targetsOf);
    assert left == (left - gain) + gain && (left - gain) !! gain;
  }

  lemma BestGainsShare(best: string, left: set<string>, pool: seq<string>, cover: seq<string>,
                       targetsOf: string -> set<string>)
    requires IsBest(best, left, pool, targetsOf) && left <= Covered(pool, targetsOf)
    requires forall name :: name in cover ==> name in pool
    requires Covered(pool, targetsOf) <= Covered(cover, targetsOf)
    ensures |left| <= |cover| * |Gain(best, left, targetsOf)|
  {
    hide Covered, Gain, Before;
    ShareOfCover(cover, left, targetsOf, |Gain(best, left, targetsOf)|);
    assert Covered(cover, targetsOf) * left == left;
  }

  lemma PickIsBest(chosen: seq<string>, pool: seq<string>, targetsOf: string -> set<string>, j: nat)
    requires Greedy(chosen, pool, targetsOf) && j < |chosen|
    ensures IsBest(chosen[j], Left(chosen[..j], pool, targetsOf), pool, targetsOf)
    ensures Left(chosen[..j], pool, targetsOf) <= Covered(pool, targetsOf)
  {
    hide IsBest;
  }

  /** If some k scenarios cover everything, then after j picks at most (1 - 1/k)^j of the
      targets are left. */
  lemma {:induction false} GreedyBound(chosen: seq<string>, pool: seq<string>, cover: seq<string>,
                                       targetsOf: string -> set<string>, j: nat)
    requires Greedy(chosen, pool, targetsOf) && j <= |chosen|
    requires cover != [] && forall name :: name in cover ==> name in pool
    requires Covered(pool, targetsOf) <= Covered(cover, targetsOf)
    ensures |Left(chosen[..j], pool, targetsOf)| * Pow(|cover|, j)
            <= |Covered(pool, targetsOf)| * Pow(|cover| - 1, j)
  {
    hide *;
    if j == 0 {
      assert chosen[..0] == [];
      NothingPicked(pool, cover, targetsOf);
    } else {
      var k, left := |cover|, Left(chosen[..j - 1], pool, targetsOf);
      GreedyBound(chosen, pool, cover, targetsOf, j - 1);
      PickIsBest(chosen, pool, targetsOf, j - 1);
      BestGainsShare(chosen[j - 1], left, pool, cover, targetsOf);
      LeftAfterPick(chosen, j - 1, pool, targetsOf);
      PowIsNat(k, j - 1);
      NextPow(k, j - 1);
      NextPow(k - 1, j - 1);
      BoundStep(|left|, |Gain(chosen[j - 1], left, targetsOf)|, |Left(chosen[..j], pool, targetsOf)|, k,
                Pow(k, j - 1), |Covered(pool, targetsOf)|, Pow(k - 1, j - 1));
    }
  }

  lemma NextPow(base: int, exponent: nat)
    ensures Pow(base, exponent + 1) == Pow(base, exponent) * base
  {}

  lemma NothingPicked(pool: seq<string>, cover: seq<string>, targetsOf: string -> set<string>)
    ensures |Left([], pool, targetsOf)| * Pow(|cover|, 0) <= |Covered(pool, targetsOf)| * Pow(|cover| - 1, 0)
  {
    assert Left([], pool, targetsOf) == Covered(pool, targetsOf);
  }

  /** So no more picks are made than it takes for that bound to fall below one target. */
  lemma FewEnough(chosen: seq<string>, pool: seq<string>, cover: seq<string>,
                  targetsOf: string -> set<string>, j: nat)
    requires Greedy(chosen, pool, targetsOf)
    requires cover != [] && forall name :: name in cover ==> name in pool
    requires Covered(pool, targetsOf) <= Covered(cover, targetsOf)
    requires |Covered(pool, targetsOf)| * Pow(|cover| - 1, j) < Pow(|cover|, j)
    ensures |chosen| <= j
  {
    hide *;
    if j < |chosen| {
      GreedyBound(chosen, pool, cover, targetsOf, j);
      PowIsNat(|cover|, j);
      SomethingLeft(chosen, pool, targetsOf, j);
      MulRight(1, |Left(chosen[..j], pool, targetsOf)|, Pow(|cover|, j));
    }
  }

  lemma SomethingLeft(chosen: seq<string>, pool: seq<string>, targetsOf: string -> set<string>, j: nat)
    requires Greedy(chosen, pool, targetsOf) && j < |chosen|
    ensures |Left(chosen[..j], pool, targetsOf)| >= 1
  {
    hide IsBest;
    var left := Left(chosen[..j], pool, targetsOf);
    var target :| target in Gain(chosen[j], left, targetsOf);
    assert target in left;
  }
}
