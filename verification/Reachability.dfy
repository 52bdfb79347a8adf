/** Reachability along a step relation on task ids. */
module Reachability {
  type Step = (int, int) -> bool

  ghost predicate IsWalk(step: Step, p: seq<int>) {
    forall i :: 0 <= i < |p| - 1 ==> step(p[i], p[i + 1])
  }

  /** `b` is reached from `a` by one or more steps. */
  ghost predicate Reaches(step: Step, a: int, b: int) {
    exists p :: |p| >= 2 && p[0] == a && p[|p| - 1] == b && IsWalk(step, p)
  }

  lemma ReachesByStep(step: Step, a: int, b: int)
    requires step(a, b)
    ensures Reaches(step, a, b)
  {
    assert IsWalk(step, [a, b]);
  }

  lemma ReachesFurther(step: Step, a: int, b: int, c: int)
    requires Reaches(step, a, b) && step(b, c)
    ensures Reaches(step, a, c)
  {
    var p :| |p| >= 2 && p[0] == a && p[|p| - 1] == b && IsWalk(step, p);
    assert IsWalk(step, p + [c]);
  }

  /** A set that holds everything one step from `a` and from its own members holds everything
      reached from `a`. */
  lemma ClosedSetHolds(step: Step, a: int, s: set<int>, b: int)
    requires forall y :: step(a, y) ==> y in s
    requires forall x, y :: x in s && step(x, y) ==> y in s
    requires Reaches(step, a, b)
    ensures b in s
  {
    var p :| |p| >= 2 && p[0] == a && p[|p| - 1] == b && IsWalk(step, p);
    WalkStays(step, a, s, p, |p| - 1);
  }

  lemma {:induction false} WalkStays(step: Step, a: int, s: set<int>, p: seq<int>, i: nat)
    requires forall y :: step(a, y) ==> y in s
    requires forall x, y :: x in s && step(x, y) ==> y in s
    requires 1 <= i < |p| && p[0] == a && IsWalk(step, p)
    ensures p[i] in s
  {
    var x, y := p[i - 1], p[i];
    assert step(x, y) by {
      assert step(p[i - 1], p[i - 1 + 1]);
    }
    if i > 1 {
      WalkStays(step, a, s, p, i - 1);
      assert x in s;
    } else {
      assert step(a, y);
    }
  }

  lemma ReachesOn(step: Step, a: int, b: int, c: int)
    requires Reaches(step, a, b) && Reaches(step, b, c)
    ensures Reaches(step, a, c)
  {
    var p :| |p| >= 2 && p[0] == a && p[|p| - 1] == b && IsWalk(step, p);
    var q :| |q| >= 2 && q[0] == b && q[|q| - 1] == c && IsWalk(step, q);
    var r := p + q[1..];
    forall i | 0 <= i < |r| - 1
      ensures step(r[i], r[i + 1])
    {
      if i < |p| - 1 {
        assert step(p[i], p[i + 1]);
      } else {
        var j := i - (|p| - 1);
        assert step(q[j], q[j + 1]);
      }
    }
    assert IsWalk(step, r);
  }

  /** What can be gone step by step can be gone back along the opposite steps. */
  lemma ReachesBack(step: Step, back: Step, a: int, b: int)
    requires Reaches(step, a, b) && forall x, y :: step(x, y) ==> back(y, x)
    ensures Reaches(back, b, a)
  {
    var p :| |p| >= 2 && p[0] == a && p[|p| - 1] == b && IsWalk(step, p);
    var last := |p| - 1;
    var q := seq(|p|, i requires 0 <= i < |p| => p[last - i]);
    forall i | 0 <= i < last
      ensures back(q[i], q[i + 1])
    {
      var j := last - i - 1;
      assert step(p[j], p[j + 1]);
      assert q[i] == p[j + 1] && q[i + 1] == p[j];
    }
    assert IsWalk(back, q);
  }
}
