/**
 * Triangular probing over a power of two of groups: the probe steps by one, two,
 * three and so on, and meets every group once in a cycle.
 */
module TriangularProbe {
  import opened Basics

  /** The group after a step of the probe, masked to the number of groups. */
  function Next(g: nat, probe: nat, groups: nat): nat
    requires g < groups && probe < groups
  {
    if g + probe < groups then g + probe else g + probe - groups
  }

  /** The group of a probe that starts at group g. */
  function Group(start: nat, probe: nat, groups: nat): (g: nat)
    requires start < groups && probe < groups
    ensures g < groups
  {
    if probe == 0 then start else Next(Group(start, probe - 1, groups), probe, groups)
  }

  /** The sum of the steps of a probe. */
  ghost function Triangle(probe: nat): nat {
    if probe == 0 then 0 else Triangle(probe - 1) + probe
  }

  lemma {:induction false} TriangleDifference(i: nat, j: nat)
    requires i <= j
    ensures Triangle(i) <= Triangle(j) && 2 * (Triangle(j) - Triangle(i)) == (j - i) * (j + i + 1)
  {
    if i < j {
      TriangleDifference(i, j - 1);
      var a := j - i;
      assert a * (j + i + 1) == a * (j + i) + a;
      assert (a - 1) * (j + i) == a * (j + i) - (j + i);
    }
  }

  /** The groups that the mask took off, over all the steps of a probe. */
  ghost function Turned(start: nat, probe: nat, groups: nat): nat
    requires start < groups && probe < groups
  {
    if probe == 0 then 0
    else Turned(start, probe - 1, groups) + if Group(start, probe - 1, groups) + probe < groups then 0 else groups
  }

  lemma {:induction false} GroupIsTriangular(start: nat, probe: nat, groups: nat)
    requires start < groups && probe < groups
    ensures Group(start, probe, groups) + Turned(start, probe, groups) == start + Triangle(probe)
  {
    if probe > 0 {
      GroupIsTriangular(start, probe - 1, groups);
    }
  }

  /** 2 to the m divides x. */
  predicate Divides(m: nat, x: nat) {
    m == 0 || (x % 2 == 0 && Divides(m - 1, x / 2))
  }

  lemma Halved(x: nat)
    ensures (2 * x) % 2 == 0 && (2 * x) / 2 == x
  {
  }

  lemma {:induction false} DividesSelf(m: nat)
    ensures Divides(m, 0) && Divides(m, Pow2(m))
  {
    if m > 0 {
      DividesSelf(m - 1);
      Halved(Pow2(m - 1));
    }
  }

  lemma {:induction false} DividesSum(m: nat, x: nat, y: nat)
    requires Divides(m, x) && Divides(m, y)
    ensures Divides(m, x + y)
  {
    if m > 0 {
      DividesSum(m - 1, x / 2, y / 2);
    }
  }

  lemma {:induction false} DividesBound(m: nat, x: nat)
    requires Divides(m, x) && x > 0
    ensures x >= Pow2(m)
  {
    if m > 0 {
      DividesBound(m - 1, x / 2);
    }
  }

  /** An odd factor takes no part in a power of two. */
  lemma {:induction false} OddFactor(m: nat, a: nat, b: nat, product: nat)
    requires a % 2 == 1 && product == a * b && Divides(m, product)
    ensures Divides(m, b)
  {
    if m > 0 {
      OddHalf(a, b, product);
      OddFactor(m - 1, a, b / 2, product / 2);
    }
  }

  lemma OddHalf(a: nat, b: nat, product: nat)
    requires a % 2 == 1 && product == a * b && product % 2 == 0
    ensures b % 2 == 0 && product / 2 == a * (b / 2)
  {
    var u, h := a / 2, b / 2;
    assert a * b == 2 * (u * b) + b;
    assert b == 2 * h;
    assert a * (2 * h) == 2 * (a * h);
  }

  lemma {:induction false} TurnedDivides(start: nat, i: nat, j: nat, m: nat)
    requires start < Pow2(m) && i <= j < Pow2(m)
    ensures Turned(start, i, Pow2(m)) <= Turned(start, j, Pow2(m))
    ensures Divides(m, Turned(start, j, Pow2(m)) - Turned(start, i, Pow2(m)))
  {
    DividesSelf(m);
    if i < j {
      TurnedDivides(start, i, j - 1, m);
      DividesSum(m, Turned(start, j - 1, Pow2(m)) - Turned(start, i, Pow2(m)), Pow2(m));
    }
  }

  /** Two probes of one cycle never meet the same group. */
  lemma GroupsDiffer(start: nat, i: nat, j: nat, m: nat)
    requires start < Pow2(m) && i < j < Pow2(m)
    ensures Group(start, i, Pow2(m)) != Group(start, j, Pow2(m))
  {
    GroupIsTriangular(start, i, Pow2(m));
    GroupIsTriangular(start, j, Pow2(m));
    TurnedDivides(start, i, j, m);
    NoTriangle(i, j, m);
  }

  lemma NoTriangle(i: nat, j: nat, m: nat)
    requires i < j < Pow2(m)
    ensures Triangle(i) <= Triangle(j) && !Divides(m, Triangle(j) - Triangle(i))
  {
    TriangleDifference(i, j);
    FactorSizes(i, j, Pow2(m));
    NoSquareRoot(j - i, j + i + 1, Triangle(j) - Triangle(i), m);
  }

  lemma FactorSizes(i: nat, j: nat, n: nat)
    requires i < j < n
    ensures 0 < j - i < 2 * n && 0 < j + i + 1 < 2 * n && (j - i + (j + i + 1)) % 2 == 1
  {
  }

  /** Half a product of two factors below 2 to the m + 1, one of them odd, is no multiple of 2 to the m. */
  lemma NoSquareRoot(a: nat, b: nat, half: nat, m: nat)
    requires 0 < a < 2 * Pow2(m) && 0 < b < 2 * Pow2(m) && (a + b) % 2 == 1 && 2 * half == a * b
    ensures !Divides(m, half)
  {
    if a % 2 == 1 {
      NoOddRoot(a, b, half, m);
    } else {
      NoOddRoot(b, a, half, m);
    }
  }

  lemma NoOddRoot(a: nat, b: nat, half: nat, m: nat)
    requires a % 2 == 1 && 0 < b < 2 * Pow2(m) && 2 * half == a * b
    ensures !Divides(m, half)
  {
    if Divides(m, half) {
      OddFactor(m + 1, a, b, 2 * half);
      DividesBound(m + 1, b);
    }
  }

  /** A probe that runs over the whole cycle meets every group. */
  lemma EveryGroupMet(start: nat, m: nat, g: nat)
    requires start < Pow2(m) && g < Pow2(m)
    ensures exists p: nat :: p < Pow2(m) && Group(start, p, Pow2(m)) == g
  {
    var n := Pow2(m);
    MetCount(start, m, n);
    RangeHolds(0, n);
    PartSize(Met(start, n, n), Range(0, n));
    assert g in Met(start, n, n);
  }

  /** The groups that the first probes meet. */
  ghost function Met(start: nat, probes: nat, groups: nat): set<nat>
    requires start < groups && probes <= groups
  {
    set p: nat | p < probes :: Group(start, p, groups)
  }

  lemma {:induction false} MetCount(start: nat, m: nat, probes: nat)
    requires start < Pow2(m) && probes <= Pow2(m)
    ensures |Met(start, probes, Pow2(m))| == probes
  {
    var n := Pow2(m);
    if probes > 0 {
      MetCount(start, m, probes - 1);
      NewlyMet(start, m, probes - 1);
      MetNext(start, probes - 1, n);
    }
  }

  lemma MetNext(start: nat, probes: nat, groups: nat)
    requires start < groups && probes < groups
    ensures Met(start, probes + 1, groups) == Met(start, probes, groups) + {Group(start, probes, groups)}
  {
  }

  /** A probe meets a group that no earlier probe met. */
  lemma NewlyMet(start: nat, m: nat, probe: nat)
    requires start < Pow2(m) && probe < Pow2(m)
    ensures Group(start, probe, Pow2(m)) !in Met(start, probe, Pow2(m))
  {
    forall p: nat | p < probe ensures Group(start, p, Pow2(m)) != Group(start, probe, Pow2(m)) {
      GroupsDiffer(start, p, probe, m);
    }
  }
}
