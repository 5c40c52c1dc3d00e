/**
 * The tie-corrected rank-sum test on exact numbers: the ranks of the sorted
 * union of two samples, the U statistic and the correction of its variance.
 */
module RankSum {
  /** A value and its sample: 0 is A and 1 is B. */
  datatype Tagged = Tagged(v: real, src: nat)

  // ----------------------------------------------------- pairs of samples

  /** What y adds to the score of x: one for a smaller y, a half for an equal y. */
  function Beats(x: real, y: real): real {
    if y < x then 1.0 else if y == x then 0.5 else 0.0
  }

  function Score(ys: seq<real>, x: real): real {
    if ys == [] then 0.0 else Score(ys[..|ys| - 1], x) + Beats(x, ys[|ys| - 1])
  }

  function Total(xs: seq<real>, ys: seq<real>): real {
    if xs == [] then 0.0 else Total(xs[..|xs| - 1], ys) + Score(ys, xs[|xs| - 1])
  }

  /** The pairs of A and B in which A is greater, and in which both are equal. */
  function Greater(xs: seq<real>, y: real): nat {
    if xs == [] then 0 else Greater(xs[..|xs| - 1], y) + if xs[|xs| - 1] > y then 1 else 0
  }

  function Equal(xs: seq<real>, y: real): nat {
    if xs == [] then 0 else Equal(xs[..|xs| - 1], y) + if xs[|xs| - 1] == y then 1 else 0
  }

  function GreaterPairs(xs: seq<real>, ys: seq<real>): nat {
    if ys == [] then 0 else GreaterPairs(xs, ys[..|ys| - 1]) + Greater(xs, ys[|ys| - 1])
  }

  function EqualPairs(xs: seq<real>, ys: seq<real>): nat {
    if ys == [] then 0 else EqualPairs(xs, ys[..|ys| - 1]) + Equal(xs, ys[|ys| - 1])
  }

  lemma {:induction false} ScoreConcat(a: seq<real>, b: seq<real>, x: real)
    ensures Score(a + b, x) == Score(a, x) + Score(b, x)
  {
    if b == [] {
      assert a + b == a;
    } else {
      ScoreConcat(a, b[..|b| - 1], x);
      assert (a + b)[..|a + b| - 1] == a + b[..|b| - 1];
    }
  }

  lemma {:induction false} TotalConcatRight(xs: seq<real>, a: seq<real>, b: seq<real>)
    ensures Total(xs, a + b) == Total(xs, a) + Total(xs, b)
  {
    if xs != [] {
      TotalConcatRight(xs[..|xs| - 1], a, b);
      ScoreConcat(a, b, xs[|xs| - 1]);
    }
  }

  lemma ScoreOne(x: real, y: real)
    ensures Score([y], x) == Beats(x, y)
  {
    assert [y][..0] == [];
  }

  /** Each of two values beats the other by one in sum. */
  lemma {:induction false} TotalAgainstOne(xs: seq<real>, z: real)
    ensures Total(xs, [z]) + Score(xs, z) == |xs| as real
  {
    if xs != [] {
      TotalAgainstOne(xs[..|xs| - 1], z);
      ScoreOne(xs[|xs| - 1], z);
    }
  }

  /** A sample against itself scores half the square of its size. */
  lemma {:induction false} TotalSelf(xs: seq<real>)
    ensures Total(xs, xs) == (|xs| * |xs|) as real / 2.0
  {
    if xs != [] {
      var less, z := xs[..|xs| - 1], xs[|xs| - 1];
      TotalSelf(less);
      assert xs == less + [z];
      TotalConcatRight(less, less, [z]);
      TotalAgainstOne(less, z);
      ScoreConcat(less, [z], z);
      ScoreOne(z, z);
      var n := |less|;
      assert |xs| * |xs| == n * n + 2 * n + 1;
    }
  }

  lemma {:induction false} TotalOne(xs: seq<real>, y: real)
    ensures Total(xs, [y]) == Greater(xs, y) as real + Equal(xs, y) as real / 2.0
  {
    if xs != [] {
      TotalOne(xs[..|xs| - 1], y);
      ScoreOne(xs[|xs| - 1], y);
    }
  }

  /** The score of A against B counts the pairs: the greater ones, and half the equal ones. */
  lemma {:induction false} TotalCountsPairs(xs: seq<real>, ys: seq<real>)
    ensures Total(xs, ys) == GreaterPairs(xs, ys) as real + EqualPairs(xs, ys) as real / 2.0
  {
    if ys == [] {
      TotalNothing(xs);
    } else {
      var less, y := ys[..|ys| - 1], ys[|ys| - 1];
      TotalCountsPairs(xs, less);
      assert ys == less + [y];
      TotalConcatRight(xs, less, [y]);
      TotalOne(xs, y);
    }
  }

  lemma {:induction false} TotalNothing(xs: seq<real>)
    ensures Total(xs, []) == 0.0
  {
    if xs != [] {
      TotalNothing(xs[..|xs| - 1]);
    }
  }

  // --------------------------------------------------------- permutations

  lemma ScoreWithout(t: seq<real>, k: nat, x: real)
    requires k < |t|
    ensures Score(t, x) == Score(t[..k] + t[k + 1..], x) + Beats(x, t[k])
    ensures multiset(t) == multiset(t[..k] + t[k + 1..]) + multiset{t[k]}
  {
    var before, after := t[..k], t[k + 1..];
    assert t == before + ([t[k]] + after);
    ScoreConcat(before, [t[k]] + after, x);
    ScoreConcat([t[k]], after, x);
    ScoreConcat(before, after, x);
    ScoreOne(x, t[k]);
  }

  lemma OneLess(s: seq<real>, t: seq<real>, z: real)
    requires multiset(s) + multiset{z} == multiset(t) + multiset{z}
    ensures multiset(s) == multiset(t)
  {
    assert multiset(s) == multiset(s) + multiset{z} - multiset{z};
    assert multiset(t) == multiset(t) + multiset{z} - multiset{z};
  }

  lemma {:induction false} ScorePermuted(s: seq<real>, t: seq<real>, x: real)
    requires multiset(s) == multiset(t)
    ensures Score(s, x) == Score(t, x)
  {
    if s == [] {
      assert t == [] by {
        assert |multiset(t)| == |t|;
      }
    } else {
      var less, z := s[..|s| - 1], s[|s| - 1];
      assert s == less + [z] && z in multiset(s);
      var k :| 0 <= k < |t| && t[k] == z;
      ScoreWithout(t, k, x);
      var rest := t[..k] + t[k + 1..];
      OneLess(less, rest, z);
      ScorePermuted(less, rest, x);
    }
  }

  lemma {:induction false} TotalPermutedRight(xs: seq<real>, s: seq<real>, t: seq<real>)
    requires multiset(s) == multiset(t)
    ensures Total(xs, s) == Total(xs, t)
  {
    if xs != [] {
      TotalPermutedRight(xs[..|xs| - 1], s, t);
      ScorePermuted(s, t, xs[|xs| - 1]);
    }
  }

  /** The scores of two samples against each other share out all the pairs. */
  lemma {:induction false} TotalShared(xs: seq<real>, ys: seq<real>)
    ensures Total(xs, ys) + Total(ys, xs) == (|xs| * |ys|) as real
  {
    if ys == [] {
      TotalNothing(xs);
      assert |xs| * |ys| == 0;
    } else {
      var less, y := ys[..|ys| - 1], ys[|ys| - 1];
      TotalShared(xs, less);
      assert ys == less + [y];
      TotalConcatRight(xs, less, [y]);
      TotalAgainstOne(xs, y);
      assert |xs| * |ys| == |xs| * |less| + |xs|;
    }
  }

  lemma TotalPermuted(xs: seq<real>, xs': seq<real>, ys: seq<real>, ys': seq<real>)
    requires multiset(xs) == multiset(xs') && multiset(ys) == multiset(ys')
    ensures Total(xs, ys) == Total(xs', ys')
  {
    TotalPermutedRight(xs, ys, ys');
    TotalPermutedRight(ys', xs, xs');
    TotalShared(xs, ys');
    TotalShared(xs', ys');
    assert |xs| == |multiset(xs)| == |multiset(xs')| == |xs'|;
  }

  // ---------------------------------------------------- the sorted union

  function Values(all: seq<Tagged>): (r: seq<real>)
    ensures |r| == |all|
  {
    seq(|all|, i requires 0 <= i < |all| => all[i].v)
  }

  /** The values of one sample, in the order of the union. */
  function Side(all: seq<Tagged>, src: nat): seq<real> {
    if all == [] then []
    else if all[|all| - 1].src == src then Side(all[..|all| - 1], src) + [all[|all| - 1].v]
    else Side(all[..|all| - 1], src)
  }

  function TagAll(xs: seq<real>, src: nat): (r: seq<Tagged>)
    ensures |r| == |xs|
  {
    seq(|xs|, i requires 0 <= i < |xs| => Tagged(xs[i], src))
  }

  ghost predicate Sorted(all: seq<Tagged>) {
    forall i, j :: 0 <= i < j < |all| ==> all[i].v <= all[j].v
  }

  /** all is the sorted union of the samples. */
  ghost predicate UnionOf(all: seq<Tagged>, a: seq<real>, b: seq<real>) {
    Sorted(all) && multiset(all) == multiset(TagAll(a, 0) + TagAll(b, 1))
  }

  lemma {:induction false} SideCount(all: seq<Tagged>, src: nat, v: real)
    ensures multiset(Side(all, src))[v] == multiset(all)[Tagged(v, src)]
  {
    if all != [] {
      SideCount(all[..|all| - 1], src, v);
      assert all == all[..|all| - 1] + [all[|all| - 1]];
    }
  }

  lemma SidePermuted(all: seq<Tagged>, other: seq<Tagged>, src: nat)
    requires multiset(all) == multiset(other)
    ensures multiset(Side(all, src)) == multiset(Side(other, src))
  {
    forall v: real ensures multiset(Side(all, src))[v] == multiset(Side(other, src))[v] {
      SideCount(all, src, v);
      SideCount(other, src, v);
    }
  }

  lemma {:induction false} SideConcat(x: seq<Tagged>, y: seq<Tagged>, src: nat)
    ensures Side(x + y, src) == Side(x, src) + Side(y, src)
  {
    if y == [] {
      assert x + y == x;
    } else {
      SideConcat(x, y[..|y| - 1], src);
      assert (x + y)[..|x + y| - 1] == x + y[..|y| - 1];
    }
  }

  lemma {:induction false} SideTagged(xs: seq<real>, src: nat, other: nat)
    ensures Side(TagAll(xs, src), other) == if src == other then xs else []
  {
    if xs != [] {
      var less := xs[..|xs| - 1];
      SideTagged(less, src, other);
      assert TagAll(xs, src)[..|xs| - 1] == TagAll(less, src);
      assert xs == less + [xs[|xs| - 1]];
    }
  }

  lemma SideOfBoth(a: seq<real>, b: seq<real>)
    ensures Side(TagAll(a, 0) + TagAll(b, 1), 0) == a && Side(TagAll(a, 0) + TagAll(b, 1), 1) == b
  {
    SideConcat(TagAll(a, 0), TagAll(b, 1), 0);
    SideConcat(TagAll(a, 0), TagAll(b, 1), 1);
    SideTagged(a, 0, 0);
    SideTagged(b, 1, 0);
    SideTagged(a, 0, 1);
    SideTagged(b, 1, 1);
  }

  /** The two sides of the union are the two samples. */
  lemma SidesOfUnion(all: seq<Tagged>, a: seq<real>, b: seq<real>)
    requires UnionOf(all, a, b)
    ensures multiset(Side(all, 0)) == multiset(a) && multiset(Side(all, 1)) == multiset(b)
  {
    SidePermuted(all, TagAll(a, 0) + TagAll(b, 1), 0);
    SidePermuted(all, TagAll(a, 0) + TagAll(b, 1), 1);
    SideOfBoth(a, b);
  }

  lemma UnionSources(all: seq<Tagged>, a: seq<real>, b: seq<real>, i: nat)
    requires UnionOf(all, a, b) && i < |all|
    ensures all[i].src <= 1
  {
    var both := TagAll(a, 0) + TagAll(b, 1);
    assert all[i] in multiset(all);
    assert all[i] in both;
  }

  // -------------------------------------------------------------- the ranks

  /** The average rank of a value: the ranks before its ties, and the middle of its ties. */
  function Rank(vals: seq<real>, x: real): real {
    Score(vals, x) + 0.5
  }

  /** The ranks of the values of A among the first n of the union. */
  function RankTotal(all: seq<Tagged>, n: nat): real
    requires n <= |all|
  {
    if n == 0 then 0.0 else RankTotal(all, n - 1) + if all[n - 1].src == 0 then Rank(Values(all), all[n - 1].v) else 0.0
  }

  /** The tie sum as a sum over the values: each value in a group of t adds t * t - 1. */
  function TieTotal(vals: seq<real>, n: nat): int
    requires n <= |vals|
  {
    if n == 0 then 0 else TieTotal(vals, n - 1) + Squared(Equal(vals, vals[n - 1])) - 1
  }

  function Squared(n: nat): nat {
    n * n
  }

  lemma {:induction false} ScoreAllLess(ys: seq<real>, x: real)
    requires forall i :: 0 <= i < |ys| ==> ys[i] < x
    ensures Score(ys, x) == |ys| as real && Equal(ys, x) == 0
  {
    if ys != [] {
      ScoreAllLess(ys[..|ys| - 1], x);
    }
  }

  lemma {:induction false} ScoreAllEqual(ys: seq<real>, x: real)
    requires forall i :: 0 <= i < |ys| ==> ys[i] == x
    ensures Score(ys, x) == |ys| as real / 2.0 && Equal(ys, x) == |ys|
  {
    if ys != [] {
      ScoreAllEqual(ys[..|ys| - 1], x);
    }
  }

  lemma {:induction false} ScoreAllGreater(ys: seq<real>, x: real)
    requires forall i :: 0 <= i < |ys| ==> ys[i] > x
    ensures Score(ys, x) == 0.0 && Equal(ys, x) == 0
  {
    if ys != [] {
      ScoreAllGreater(ys[..|ys| - 1], x);
    }
  }

  lemma {:induction false} EqualConcat(a: seq<real>, b: seq<real>, x: real)
    ensures Equal(a + b, x) == Equal(a, x) + Equal(b, x)
  {
    if b == [] {
      assert a + b == a;
    } else {
      EqualConcat(a, b[..|b| - 1], x);
      assert (a + b)[..|a + b| - 1] == a + b[..|b| - 1];
    }
  }

  /** A tie group i..j of sorted values: its values are equal, and its neighbours are not. */
  ghost predicate TieGroup(vals: seq<real>, i: nat, j: nat) {
    && i <= j < |vals|
    && (forall k :: 0 <= k < i ==> vals[k] < vals[i])
    && (forall k :: i <= k <= j ==> vals[k] == vals[i])
    && (forall k :: j < k < |vals| ==> vals[k] > vals[i])
  }

  /** The rank that the loop gives a tie group is the average of the ranks of its positions. */
  lemma GroupRank(vals: seq<real>, i: nat, j: nat)
    requires TieGroup(vals, i, j)
    ensures Rank(vals, vals[i]) == ((i + j) as real + 2.0) / 2.0
    ensures Equal(vals, vals[i]) == j - i + 1
  {
    ScoreOfParts(vals[..i], vals[i..j + 1], vals[j + 1..], vals[i]);
    assert vals == vals[..i] + vals[i..j + 1] + vals[j + 1..];
  }

  lemma ScoreOfParts(low: seq<real>, mid: seq<real>, high: seq<real>, x: real)
    requires forall k :: 0 <= k < |low| ==> low[k] < x
    requires forall k :: 0 <= k < |mid| ==> mid[k] == x
    requires forall k :: 0 <= k < |high| ==> high[k] > x
    ensures Score(low + mid + high, x) == |low| as real + |mid| as real / 2.0
    ensures Equal(low + mid + high, x) == |mid|
  {
    ScoreConcat(low + mid, high, x);
    ScoreConcat(low, mid, x);
    EqualConcat(low + mid, high, x);
    EqualConcat(low, mid, x);
    ScoreAllLess(low, x);
    ScoreAllEqual(mid, x);
    ScoreAllGreater(high, x);
  }

  lemma {:induction false} TieTotalGroup(vals: seq<real>, i: nat, n: nat, t: nat)
    requires i <= n <= |vals| && forall k :: i <= k < n ==> Equal(vals, vals[k]) == t
    ensures TieTotal(vals, n) == TieTotal(vals, i) + (n - i) * (Squared(t) - 1)
  {
    if i < n {
      TieTotalGroup(vals, i, n - 1, t);
      var d, c := n - 1 - i, Squared(t) - 1;
      assert (d + 1) * c == d * c + c;
    }
  }

  /** A run of equal values that no later value continues is a tie group. */
  lemma IsTieGroup(all: seq<Tagged>, i: nat, j: nat)
    requires Sorted(all) && i <= j < |all| && (i > 0 ==> all[i - 1].v < all[i].v)
    requires forall k :: i <= k <= j ==> all[k].v == all[i].v
    requires j + 1 < |all| ==> all[j + 1].v != all[i].v
    ensures TieGroup(Values(all), i, j)
  {
  }

  /**
   * The loop over the sorted union: the sum of the average ranks of A, and the
   * sum of t * t * t - t over the tie groups.
   */
  method RankUnion(all: seq<Tagged>) returns (r1: real, tieSum: int)
    requires Sorted(all)
    ensures r1 == RankTotal(all, |all|) && tieSum == TieTotal(Values(all), |all|)
  {
    r1, tieSum := 0.0, 0;
    var i := 0;
    while i < |all|
      invariant i <= |all| && (0 < i < |all| ==> all[i - 1].v < all[i].v)
      invariant r1 == RankTotal(all, i) && tieSum == TieTotal(Values(all), i)
    {
      var j := GroupEnd(all, i);
      r1 := AddRanks(all, i, j, r1);
      var t := j - i + 1;
      GroupTies(Values(all), i, j);
      tieSum := tieSum + (t * t * t - t);
      i := j + 1;
    }
  }

  /** The last value of the tie group that begins at i. */
  method GroupEnd(all: seq<Tagged>, i: nat) returns (j: nat)
    requires Sorted(all) && i < |all| && (i > 0 ==> all[i - 1].v < all[i].v)
    ensures TieGroup(Values(all), i, j) && (j + 1 < |all| ==> all[j].v < all[j + 1].v)
  {
    j := i;
    while j + 1 < |all| && !(all[j + 1].v < all[i].v) && !(all[i].v < all[j + 1].v)
      invariant i <= j < |all| && forall k :: i <= k <= j ==> all[k].v == all[i].v
    {
      j := j + 1;
    }
    IsTieGroup(all, i, j);
  }

  /** What a tie group of t values adds to the tie sum. */
  lemma GroupTies(vals: seq<real>, i: nat, j: nat)
    requires TieGroup(vals, i, j)
    ensures var t := j - i + 1; TieTotal(vals, j + 1) == TieTotal(vals, i) + (t * t * t - t)
  {
    var t := j - i + 1;
    GroupRank(vals, i, j);
    TieTotalGroup(vals, i, j + 1, t);
    assert t * (t * t - 1) == t * t * t - t;
  }

  method AddRanks(all: seq<Tagged>, i: nat, j: nat, r: real) returns (r1: real)
    requires TieGroup(Values(all), i, j) && r == RankTotal(all, i)
    ensures r1 == RankTotal(all, j + 1)
  {
    GroupRank(Values(all), i, j);
    var avgRank := ((i + j) as real + 2.0) / 2.0;
    r1 := r;
    for k := i to j + 1
      invariant r1 == RankTotal(all, k)
    {
      assert Values(all)[k] == Values(all)[i];
      if all[k].src == 0 {
        r1 := r1 + avgRank;
      }
    }
  }

  // ---------------------------------------------------------- the statistic

  lemma {:induction false} RankTotalIsTotal(all: seq<Tagged>, n: nat)
    requires n <= |all|
    ensures RankTotal(all, n) == Total(Side(all[..n], 0), Values(all)) + |Side(all[..n], 0)| as real / 2.0
  {
    if n > 0 {
      RankTotalIsTotal(all, n - 1);
      assert all[..n][..n - 1] == all[..n - 1];
      var before, vals, x := Side(all[..n - 1], 0), Values(all), all[n - 1].v;
      if all[n - 1].src == 0 {
        assert (before + [x])[..|before|] == before;
      }
    }
  }

  lemma {:induction false} ScoreBySide(all: seq<Tagged>, x: real)
    requires forall i :: 0 <= i < |all| ==> all[i].src <= 1
    ensures Score(Values(all), x) == Score(Side(all, 0), x) + Score(Side(all, 1), x)
  {
    if all != [] {
      var less, last := all[..|all| - 1], all[|all| - 1];
      ScoreBySide(less, x);
      assert Values(all)[..|all| - 1] == Values(less);
      ScoreConcat(Side(less, last.src), [last.v], x);
      ScoreOne(x, last.v);
    }
  }

  lemma {:induction false} TotalBySide(all: seq<Tagged>, xs: seq<real>)
    requires forall i :: 0 <= i < |all| ==> all[i].src <= 1
    ensures Total(xs, Values(all)) == Total(xs, Side(all, 0)) + Total(xs, Side(all, 1))
  {
    if xs != [] {
      TotalBySide(all, xs[..|xs| - 1]);
      ScoreBySide(all, xs[|xs| - 1]);
    }
  }

  /** The rank sum of A is what A scores against B, and the ranks that A gives itself. */
  lemma RankSumOfA(all: seq<Tagged>, a: seq<real>, b: seq<real>)
    requires UnionOf(all, a, b)
    ensures RankTotal(all, |all|) == Total(a, b) + (|a| * (|a| + 1)) as real / 2.0
  {
    var sideA, sideB := Side(all, 0), Side(all, 1);
    forall i | 0 <= i < |all| ensures all[i].src <= 1 {
      UnionSources(all, a, b, i);
    }
    SidesOfUnion(all, a, b);
    assert |sideA| == |multiset(sideA)| == |a|;
    assert all[..|all|] == all;
    RankTotalIsTotal(all, |all|);
    TotalBySide(all, sideA);
    TotalSelf(sideA);
    TotalPermuted(sideA, a, sideB, b);
  }

  /** The ranks of the first n values. */
  function AllRanks(vals: seq<real>, n: nat): real
    requires n <= |vals|
  {
    if n == 0 then 0.0 else AllRanks(vals, n - 1) + Rank(vals, vals[n - 1])
  }

  lemma {:induction false} AllRanksIsTotal(vals: seq<real>, n: nat)
    requires n <= |vals|
    ensures AllRanks(vals, n) == Total(vals[..n], vals) + n as real / 2.0
  {
    if n > 0 {
      AllRanksIsTotal(vals, n - 1);
      assert vals[..n][..n - 1] == vals[..n - 1];
    }
  }

  /** With any ties, the average ranks add up to the sum of the numbers from 1 to N. */
  lemma RanksAddUp(vals: seq<real>)
    ensures AllRanks(vals, |vals|) == (|vals| * (|vals| + 1)) as real / 2.0
  {
    AllRanksIsTotal(vals, |vals|);
    TotalSelf(vals);
    assert vals[..|vals|] == vals;
    assert |vals| * (|vals| + 1) == |vals| * |vals| + |vals|;
  }

  // ----------------------------------------------------------------- ties

  lemma {:induction false} EqualAtMost(xs: seq<real>, y: real)
    ensures Equal(xs, y) <= |xs| && (Equal(xs, y) == |xs| <==> forall i :: 0 <= i < |xs| ==> xs[i] == y)
  {
    if xs != [] {
      EqualAtMost(xs[..|xs| - 1], y);
    }
  }

  ghost predicate AllTied(vals: seq<real>) {
    forall i, j :: 0 <= i < |vals| && 0 <= j < |vals| ==> vals[i] == vals[j]
  }

  lemma {:induction false} SquaredGrows(t: nat, n: nat)
    requires t <= n
    ensures Squared(t) <= Squared(n) && (Squared(t) == Squared(n) <==> t == n)
  {
    if t < n {
      SquaredGrows(t, n - 1);
      SquaredNext(n - 1);
    }
  }

  lemma SquaredNext(n: nat)
    ensures Squared(n + 1) == Squared(n) + 2 * n + 1
  {
  }

  lemma {:induction false} TieTotalBound(vals: seq<real>, n: nat)
    requires n <= |vals|
    ensures TieTotal(vals, n) <= n * (Squared(|vals|) - 1)
    ensures TieTotal(vals, n) == n * (Squared(|vals|) - 1) <==> forall k :: 0 <= k < n ==> Equal(vals, vals[k]) == |vals|
  {
    if n > 0 {
      TieTotalBound(vals, n - 1);
      EqualAtMost(vals, vals[n - 1]);
      SquaredGrows(Equal(vals, vals[n - 1]), |vals|);
      var c := Squared(|vals|) - 1;
      assert n * c == (n - 1) * c + c;
    }
  }

  /** The tie sum is largest, N * N * N - N, exactly when all the values are one tie group. */
  lemma TieSumBound(vals: seq<real>)
    ensures TieTotal(vals, |vals|) <= |vals| * (Squared(|vals|) - 1)
    ensures TieTotal(vals, |vals|) == |vals| * (Squared(|vals|) - 1) <==> AllTied(vals)
  {
    TieTotalBound(vals, |vals|);
    forall k | 0 <= k < |vals| ensures Equal(vals, vals[k]) == |vals| <==> forall i :: 0 <= i < |vals| ==> vals[i] == vals[k] {
      EqualAtMost(vals, vals[k]);
    }
  }

  /** The factor that corrects the variance for ties, for N values. */
  function Correction(n: nat, tieSum: int): real {
    if n > 1 then n as real + 1.0 - tieSum as real / (n as real * (n as real - 1.0)) else n as real + 1.0
  }

  /** The factor is never negative, and it is zero exactly when all of at least two values are tied. */
  lemma CorrectionSign(vals: seq<real>)
    ensures Correction(|vals|, TieTotal(vals, |vals|)) >= 0.0
    ensures Correction(|vals|, TieTotal(vals, |vals|)) == 0.0 <==> |vals| > 1 && AllTied(vals)
  {
    TieSumBound(vals);
    if |vals| > 1 {
      CorrectionAtLimit(|vals|, TieTotal(vals, |vals|));
    }
  }

  lemma CorrectionAtLimit(n: nat, tieSum: int)
    requires n > 1 && tieSum <= n * (Squared(n) - 1)
    ensures Correction(n, tieSum) >= 0.0
    ensures Correction(n, tieSum) == 0.0 <==> tieSum == n * (Squared(n) - 1)
  {
    LimitReal(n);
    CorrectionOf(n, tieSum, n * (Squared(n) - 1), n as real * (n as real - 1.0));
  }

  lemma CorrectionOf(n: nat, tieSum: int, limit: int, d: real)
    requires n > 1 && tieSum <= limit && d == n as real * (n as real - 1.0)
    requires d > 0.0 && limit as real == d * (n as real + 1.0)
    ensures Correction(n, tieSum) >= 0.0 && (Correction(n, tieSum) == 0.0 <==> tieSum == limit)
  {
    assert Correction(n, tieSum) == n as real + 1.0 - tieSum as real / d;
    Quotient(tieSum as real, d, n as real + 1.0);
  }

  lemma LimitReal(n: nat)
    requires n > 1
    ensures var d := n as real * (n as real - 1.0);
            d > 0.0 && (n * (Squared(n) - 1)) as real == d * (n as real + 1.0)
  {
    LimitFactors(n);
    ProductReal(n, n - 1);
    ProductReal(n * (n - 1), n + 1);
  }

  lemma LimitFactors(n: nat)
    requires n > 1
    ensures n * (n - 1) > 0 && n * (Squared(n) - 1) == n * (n - 1) * (n + 1)
  {
  }

  lemma ProductReal(m: nat, n: nat)
    ensures (m * n) as real == m as real * n as real
  {
  }

  lemma Quotient(x: real, d: real, q: real)
    requires d > 0.0 && x <= d * q
    ensures x / d <= q && (x / d == q <==> x == d * q)
  {
    assert x == (x / d) * d;
  }

  // ---------------------------------------------------------- the comparison

  const MIN_SAMPLES := 30
  const CRITICAL_Z := 2.576

  datatype Statistic = Statistic(u1: real, u2: real, uMin: real, correction: real)

  /** adj is the distance of u from its mean, toward zero by the continuity correction. */
  datatype Comparison = TooFew | Compared(u: real, adj: real, variance: real, distinguishable: bool)

  /**
   * The rank statistic of two samples through their sorted union.  u1 counts the
   * pairs in which a is greater and half the pairs that are equal, u2 does so for
   * b, and the variance factor is not negative.
   */
  method RankStatistic(a: seq<real>, b: seq<real>, all: seq<Tagged>) returns (c: Statistic)
    requires UnionOf(all, a, b)
    ensures c.u1 == GreaterPairs(a, b) as real + EqualPairs(a, b) as real / 2.0
    ensures c.u2 == GreaterPairs(b, a) as real + EqualPairs(b, a) as real / 2.0
    ensures c.uMin == (if c.u1 < c.u2 then c.u1 else c.u2) && c.u1 + c.u2 == (|a| * |b|) as real
    ensures c.correction >= 0.0 && (c.correction == 0.0 <==> |all| > 1 && AllTied(Values(all)))
    ensures c.correction == Correction(|a| + |b|, TieTotal(Values(all), |all|))
  {
    var r1, tieSum := RankUnion(all);
    RankSumOfA(all, a, b);
    TotalCountsPairs(a, b);
    TotalCountsPairs(b, a);
    TotalShared(a, b);
    CorrectionSign(Values(all));
    UnionSize(all, a, b);
    var u1 := r1 - (|a| * (|a| + 1)) as real / 2.0;
    var u2 := (|a| * |b|) as real - u1;
    c := Statistic(u1, u2, if u2 < u1 then u2 else u1, Correction(|a| + |b|, tieSum));
  }

  /**
   * Compares two samples.  The smaller of the two counts never passes its mean,
   * so the distance is never positive.  It is the distance of the count of a, with
   * the sign of its direction, exactly when a is not the higher sample by more
   * than one pair.  The variance is zero exactly when all values are tied, and
   * then nothing is distinguishable.
   */
  method Compare(a: seq<real>, b: seq<real>, all: seq<Tagged>) returns (c: Comparison)
    requires UnionOf(all, a, b)
    ensures c.TooFew? <==> |a| < MIN_SAMPLES || |b| < MIN_SAMPLES
    ensures c.Compared? ==>
              var u1 := GreaterPairs(a, b) as real + EqualPairs(a, b) as real / 2.0;
              var u2 := GreaterPairs(b, a) as real + EqualPairs(b, a) as real / 2.0;
              var mu := (|a| * |b|) as real / 2.0;
              && c.u == (if u1 < u2 then u1 else u2) <= mu
              && c.adj == (if mu - c.u <= 0.5 then 0.0 else c.u - mu + 0.5) <= 0.0
              && (c.adj == Adjusted(u1 - mu) <==> GreaterPairs(a, b) <= GreaterPairs(b, a) + 1)
    ensures c.Compared? ==>
              && c.variance == Variance((|a| * |b|) as real, Correction(|a| + |b|, TieTotal(Values(all), |all|))) >= 0.0
              && (c.variance == 0.0 <==> AllTied(Values(all)))
              && c.distinguishable == IsCritical(c.adj, c.variance)
  {
    if |a| < MIN_SAMPLES || |b| < MIN_SAMPLES {
      return TooFew;
    }
    var s := RankStatistic(a, b, all);
    UnionSize(all, a, b);
    PairsPositive(|a|, |b|);
    SignIsRightIff(a, b, GreaterPairs(a, b) as real + EqualPairs(a, b) as real / 2.0,
                   GreaterPairs(b, a) as real + EqualPairs(b, a) as real / 2.0, (|a| * |b|) as real / 2.0);
    c := Verdict(s.uMin, (|a| * |b|) as real, s.correction);
  }

  // ----------------------------------------------------------- the verdict

  lemma {:induction false} EqualAtLeastOne(vals: seq<real>, k: nat)
    requires k < |vals|
    ensures Equal(vals, vals[k]) >= 1
  {
    if k < |vals| - 1 {
      EqualAtLeastOne(vals[..|vals| - 1], k);
    }
  }

  /** Ties only lower the variance factor. */
  lemma {:induction false} TieTotalSign(vals: seq<real>, n: nat)
    requires n <= |vals|
    ensures TieTotal(vals, n) >= 0
  {
    if n > 0 {
      TieTotalSign(vals, n - 1);
      EqualAtLeastOne(vals, n - 1);
      SquaredGrows(1, Equal(vals, vals[n - 1]));
    }
  }

  lemma CorrectionBound(n: nat, tieSum: int)
    requires n > 1 && tieSum >= 0
    ensures Correction(n, tieSum) <= n as real + 1.0
  {
    LimitReal(n);
    CorrectionBelow(n, tieSum, n as real * (n as real - 1.0));
  }

  lemma CorrectionBelow(n: nat, tieSum: int, d: real)
    requires n > 1 && tieSum >= 0 && d == n as real * (n as real - 1.0) && d > 0.0
    ensures Correction(n, tieSum) <= n as real + 1.0 && (tieSum == 0 ==> Correction(n, tieSum) == n as real + 1.0)
  {
    assert Correction(n, tieSum) == n as real + 1.0 - tieSum as real / d;
    NotNegative(tieSum as real, d);
  }

  lemma NotNegative(x: real, d: real)
    requires x >= 0.0 && d > 0.0
    ensures x / d >= 0.0 && (x == 0.0 ==> x / d == 0.0)
  {
  }

  /** No two values are equal. */
  ghost predicate NoTies(vals: seq<real>) {
    forall k: nat :: k < |vals| ==> Equal(vals, vals[k]) == 1
  }

  lemma {:induction false} NoTieTotal(vals: seq<real>, n: nat)
    requires NoTies(vals) && n <= |vals|
    ensures TieTotal(vals, n) == 0
  {
    if n > 0 {
      NoTieTotal(vals, n - 1);
    }
  }

  /** Without ties the variance is the classical one: the pairs times one more than the values, over twelve. */
  lemma ClassicalVariance(vals: seq<real>, pairs: real)
    requires NoTies(vals) && |vals| > 1
    ensures 12.0 * Variance(pairs, Correction(|vals|, TieTotal(vals, |vals|))) == pairs * (|vals| as real + 1.0)
  {
    NoTieTotal(vals, |vals|);
    LimitReal(|vals|);
    CorrectionBelow(|vals|, 0, |vals| as real * (|vals| as real - 1.0));
  }

  /** The verdict on squares is the verdict on z: more than 2.576 deviations from the mean, on either side. */
  lemma CriticalIffFar(adj: real, sigma: real)
    requires sigma > 0.0
    ensures IsCritical(adj, sigma * sigma) <==> adj / sigma > 2.576 || adj / sigma < -2.576
  {
    var z := adj / sigma;
    assert adj == z * sigma;
    SquareOfProduct(z, sigma);
    var variance := PositiveSquare(sigma);
    ScaledOrder(z * z, 2.576 * 2.576, variance);
    SquareFarther(z, 2.576);
  }

  lemma SquareOfProduct(z: real, s: real)
    ensures z * s * (z * s) == z * z * (s * s)
  {
    var t := z * s;
    assert t * (z * s) == t * z * s && t * z == z * z * s && z * z * s * s == z * z * (s * s);
  }

  lemma ScaledOrder(x: real, y: real, s: real)
    requires s > 0.0
    ensures x * s > y * s <==> x > y
  {
    if x > y {
      assert (x - y) * s > 0.0;
    } else {
      assert (y - x) * s >= 0.0;
    }
  }

  lemma SquareFarther(z: real, limit: real)
    requires limit > 0.0
    ensures z * z > limit * limit <==> z > limit || z < -limit
  {
    var far := if z >= 0.0 then z else -z;
    assert z * z == far * far;
    var square := PositiveSquare(limit);
    if far > 0.0 {
      SquareOrder(far, limit);
    }
  }

  lemma PositiveSquare(s: real) returns (square: real)
    requires s > 0.0
    ensures square == s * s && square > 0.0
  {
    square := PositiveProduct(s, s);
  }

  lemma PositiveProduct(x: real, y: real) returns (product: real)
    requires x > 0.0 && y > 0.0
    ensures product == x * y && product > 0.0
  {
    product := x * y;
  }

  lemma SquareOrder(x: real, y: real)
    requires x > 0.0 && y > 0.0
    ensures x * x > y * y <==> x > y
  {
    assert x * x - y * y == (x - y) * (x + y);
    ScaledOrder(x, y, x + y);
  }

  lemma VarianceBound(pairs: real, correction: real, limit: real)
    requires pairs > 0.0 && correction <= limit
    ensures pairs / 12.0 * correction <= pairs / 12.0 * limit
  {
  }

  /** Every value of a is below every value of b. */
  ghost predicate Below(a: seq<real>, b: seq<real>) {
    forall i, j :: 0 <= i < |a| && 0 <= j < |b| ==> a[i] < b[j]
  }

  lemma {:induction false} NoneGreater(a: seq<real>, y: real)
    requires forall i :: 0 <= i < |a| ==> a[i] < y
    ensures Greater(a, y) == 0 == Equal(a, y)
  {
    if a != [] {
      NoneGreater(a[..|a| - 1], y);
    }
  }

  lemma {:induction false} NoPairGreater(a: seq<real>, b: seq<real>)
    requires Below(a, b)
    ensures GreaterPairs(a, b) == 0 == EqualPairs(a, b)
  {
    if b != [] {
      NoPairGreater(a, b[..|b| - 1]);
      NoneGreater(a, b[|b| - 1]);
    }
  }

  lemma PairsAtLeast(m: nat, n: nat)
    requires m >= 30 && n >= 30
    ensures m * n >= 15 * (m + n) && m * n >= 900
  {
    assert m * n >= 30 * n && m * n >= 30 * m;
  }

  /** A distance of half of all pairs is many deviations. */
  lemma FarIsCritical(p: real, n: real, adj: real, variance: real)
    requires p >= 900.0 && 15.0 * n <= p && adj == 0.5 - p / 2.0 && 0.0 < variance <= p / 12.0 * (n + 1.0)
    ensures adj * adj > 2.576 * 2.576 * variance
  {
    assert n + 1.0 <= p / 10.0;
    VarianceBound(p, n + 1.0, p / 10.0);
    SquareFar(p, adj);
    assert p / 12.0 * (p / 10.0) == p * p / 120.0;
    assert p * p > 0.0;
  }

  lemma SquareFar(p: real, adj: real)
    requires p >= 900.0 && adj == 0.5 - p / 2.0
    ensures adj * adj >= p * p / 16.0
  {
    var far := -adj;
    assert far >= p / 4.0 > 0.0;
    assert far * far >= p / 4.0 * far && p / 4.0 * far >= p / 4.0 * (p / 4.0);
    assert adj * adj == far * far && p / 4.0 * (p / 4.0) == p * p / 16.0;
  }

  /** Samples of which one is all below the other are told apart, for all sizes and ties. */
  method CompareSeparated(a: seq<real>, b: seq<real>, all: seq<Tagged>) returns (c: Comparison)
    requires UnionOf(all, a, b) && Below(a, b) && |a| >= MIN_SAMPLES && |b| >= MIN_SAMPLES
    ensures c.Compared? && c.u == 0.0 && c.distinguishable
  {
    NoPairGreater(a, b);
    c := Compare(a, b, all);
    SeparatedValues(a, b, all);
    UnionSize(all, a, b);
    TieTotalSign(Values(all), |all|);
    CorrectionBound(|a| + |b|, TieTotal(Values(all), |all|));
    SeparatedVerdict(|a|, |b|, |a| * |b|, Correction(|a| + |b|, TieTotal(Values(all), |all|)), c.adj, c.variance);
  }

  lemma SeparatedVerdict(m: nat, n: nat, pairs: nat, correction: real, adj: real, variance: real)
    requires m >= 30 && n >= 30 && pairs == m * n && correction <= (m + n) as real + 1.0
    requires variance == Variance(pairs as real, correction) && variance > 0.0 && adj == 0.5 - pairs as real / 2.0
    ensures IsCritical(adj, variance)
  {
    PairsAtLeast(m, n);
    VarianceBound(pairs as real, correction, (m + n) as real + 1.0);
    FarIsCritical(pairs as real, (m + n) as real, adj, variance);
  }

  lemma SeparatedValues(a: seq<real>, b: seq<real>, all: seq<Tagged>)
    requires UnionOf(all, a, b) && Below(a, b) && a != [] && b != []
    ensures !AllTied(Values(all))
  {
    var both := TagAll(a, 0) + TagAll(b, 1);
    assert both[0] in multiset(both) && both[|a|] in multiset(both);
    var i :| 0 <= i < |all| && all[i] == both[0];
    var j :| 0 <= j < |all| && all[j] == both[|a|];
    assert Values(all)[i] == a[0] && Values(all)[j] == b[0];
  }

  /** Samples that are greater in as many pairs each are not told apart. */
  method CompareBalanced(a: seq<real>, b: seq<real>, all: seq<Tagged>) returns (c: Comparison)
    requires UnionOf(all, a, b) && GreaterPairs(a, b) == GreaterPairs(b, a)
    ensures c.Compared? ==> c.adj == 0.0 && !c.distinguishable
  {
    EqualPairsSwap(a, b);
    PairsShared(a, b);
    c := Compare(a, b, all);
  }

  // ------------------------------------------------- the sign of the distance

  lemma {:induction false} EqualPairsLast(xs: seq<real>, ys: seq<real>)
    requires xs != []
    ensures EqualPairs(xs, ys) == EqualPairs(xs[..|xs| - 1], ys) + Equal(ys, xs[|xs| - 1])
  {
    if ys != [] {
      EqualPairsLast(xs, ys[..|ys| - 1]);
    }
  }

  lemma {:induction false} EqualPairsSwap(xs: seq<real>, ys: seq<real>)
    ensures EqualPairs(xs, ys) == EqualPairs(ys, xs)
  {
    if xs == [] {
      NothingEquals(ys);
    } else {
      EqualPairsLast(xs, ys);
      EqualPairsSwap(xs[..|xs| - 1], ys);
    }
  }

  lemma {:induction false} NothingEquals(ys: seq<real>)
    ensures EqualPairs([], ys) == 0
  {
    if ys != [] {
      NothingEquals(ys[..|ys| - 1]);
    }
  }

  /**
   * The distance of the smaller count is the distance of the count of a, with its
   * sign, exactly when a is greater in at most one pair more than b.
   */
  lemma SignIsRightIff(a: seq<real>, b: seq<real>, u1: real, u2: real, mu: real)
    requires u1 == GreaterPairs(a, b) as real + EqualPairs(a, b) as real / 2.0
    requires u2 == GreaterPairs(b, a) as real + EqualPairs(b, a) as real / 2.0
    requires mu == (|a| * |b|) as real / 2.0
    ensures Adjusted((if u1 < u2 then u1 else u2) - mu) == Adjusted(u1 - mu) <==> GreaterPairs(a, b) <= GreaterPairs(b, a) + 1
  {
    EqualPairsSwap(a, b);
    PairsShared(a, b);
    SmallerIsOwn(u1, u2, mu);
    CountsDiffer(GreaterPairs(a, b), GreaterPairs(b, a), EqualPairs(a, b));
  }

  lemma CountsDiffer(more: nat, fewer: nat, equal: nat)
    ensures more as real + equal as real / 2.0 - (fewer as real + equal as real / 2.0) <= 1.0 <==> more <= fewer + 1
  {
  }

  /** The counts of the two samples share out all the pairs. */
  lemma PairsShared(a: seq<real>, b: seq<real>)
    ensures GreaterPairs(a, b) as real + EqualPairs(a, b) as real / 2.0
          + (GreaterPairs(b, a) as real + EqualPairs(b, a) as real / 2.0) == (|a| * |b|) as real
  {
    TotalCountsPairs(a, b);
    TotalCountsPairs(b, a);
    TotalShared(a, b);
  }

  lemma SmallerIsOwn(u1: real, u2: real, mu: real)
    requires u1 + u2 == 2.0 * mu
    ensures Adjusted((if u1 < u2 then u1 else u2) - mu) == Adjusted(u1 - mu) <==> u1 - u2 <= 1.0
  {
  }

  function Copies(n: nat, v: real): (r: seq<real>)
    ensures |r| == n
  {
    seq(n, _ => v)
  }

  lemma OneCopyLess(n: nat, v: real)
    requires n > 0
    ensures Copies(n, v)[..n - 1] == Copies(n - 1, v) && Copies(n, v)[n - 1] == v
  {
  }

  lemma {:induction false} CopiesAbove(m: nat, n: nat, high: real, low: real)
    requires low < high
    ensures GreaterPairs(Copies(m, high), Copies(n, low)) == m * n && GreaterPairs(Copies(m, low), Copies(n, high)) == 0
    ensures EqualPairs(Copies(m, high), Copies(n, low)) == 0 == EqualPairs(Copies(m, low), Copies(n, high))
  {
    if n > 0 {
      CopiesAbove(m, n - 1, high, low);
      OneCopyLess(n, low);
      OneCopyLess(n, high);
      AllAbove(m, high, low);
      assert m * n == m * (n - 1) + m;
    }
  }

  lemma {:induction false} AllAbove(m: nat, high: real, low: real)
    requires low < high
    ensures Greater(Copies(m, high), low) == m && Greater(Copies(m, low), high) == 0
    ensures Equal(Copies(m, high), low) == 0 == Equal(Copies(m, low), high)
  {
    if m > 0 {
      AllAbove(m - 1, high, low);
      OneCopyLess(m, high);
      OneCopyLess(m, low);
    }
  }

  /** The first sample is the higher one in every pair, and its distance is negative. */
  method HigherSampleReadsLower() returns (c: Comparison)
    ensures c.Compared? && c.u == 0.0 && c.adj == -449.5 && c.variance > 0.0
    ensures GreaterPairs(Copies(30, 1.0), Copies(30, 0.0)) == 900 && GreaterPairs(Copies(30, 0.0), Copies(30, 1.0)) == 0
  {
    var a, b := Copies(30, 1.0), Copies(30, 0.0);
    var all := TagAll(b, 1) + TagAll(a, 0);
    CopiesAbove(30, 30, 1.0, 0.0);
    assert all[0].v == 0.0 && all[30].v == 1.0;
    assert Values(all)[0] != Values(all)[30];
    c := Compare(a, b, all);
  }

  /** The distance is more than the critical number of deviations.  The root of the variance is compared through squares. */
  predicate IsCritical(adj: real, variance: real) {
    variance > 0.0 && adj * adj > CRITICAL_Z * CRITICAL_Z * variance
  }

  function Variance(pairs: real, correction: real): real {
    pairs / 12.0 * correction
  }

  lemma VarianceSign(pairs: real, correction: real)
    requires pairs > 0.0 && correction >= 0.0
    ensures Variance(pairs, correction) >= 0.0 && (Variance(pairs, correction) == 0.0 <==> correction == 0.0)
  {
    assert correction > 0.0 ==> pairs / 12.0 * correction > 0.0;
  }

  /** The verdict on a count of u out of all pairs. */
  method Verdict(u: real, pairs: real, correction: real) returns (c: Comparison)
    requires pairs > 0.0 && correction >= 0.0
    ensures c.Compared? && c.u == u && c.adj == Adjusted(u - pairs / 2.0)
    ensures c.variance == Variance(pairs, correction) >= 0.0 && (c.variance == 0.0 <==> correction == 0.0)
    ensures c.distinguishable == IsCritical(c.adj, c.variance)
  {
    VarianceSign(pairs, correction);
    var adj, v := Adjusted(u - pairs / 2.0), Variance(pairs, correction);
    v := if v > 0.0 then v else 0.0;
    c := Compared(u, adj, v, IsCritical(adj, v));
  }

  /** The continuity correction: half toward zero. */
  function Adjusted(diff: real): (r: real)
    ensures diff <= 0.0 ==> r == (if -diff <= 0.5 then 0.0 else diff + 0.5) <= 0.0
  {
    var distance := (if diff >= 0.0 then diff else -diff) - 0.5;
    var kept := if distance > 0.0 then distance else 0.0;
    if diff >= 0.0 then kept else -kept
  }

  lemma PairsPositive(m: nat, n: nat)
    requires m > 0 && n > 0
    ensures m * n > 0
  {
  }

  lemma UnionSize(all: seq<Tagged>, a: seq<real>, b: seq<real>)
    requires UnionOf(all, a, b)
    ensures |all| == |a| + |b|
  {
    assert |all| == |multiset(all)| == |TagAll(a, 0) + TagAll(b, 1)|;
  }
}
