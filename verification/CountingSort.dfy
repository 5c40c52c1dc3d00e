/**
 * The counting sort that buckets tensor slots by op: count the keys, sum the
 * counts, and scatter the indices through one cursor for each key.
 */
module CountingSort {
  /** The indices below n with key k, in order. */
  ghost function Bucket(keys: seq<int>, k: int, n: nat): seq<nat>
    requires n <= |keys|
  {
    if n == 0 then []
    else if keys[n - 1] == k then Bucket(keys, k, n - 1) + [n - 1]
    else Bucket(keys, k, n - 1)
  }

  /** How many of the first n keys are keys: a negative key skips its index. */
  ghost function Keyed(keys: seq<int>, n: nat): nat
    requires n <= |keys|
  {
    if n == 0 then 0 else Keyed(keys, n - 1) + if keys[n - 1] >= 0 then 1 else 0
  }

  /** A bucket holds each index with its key exactly once. */
  lemma {:induction false} BucketHolds(keys: seq<int>, k: int, n: nat)
    requires n <= |keys|
    ensures forall j :: 0 <= j < |Bucket(keys, k, n)| ==> Bucket(keys, k, n)[j] < n && keys[Bucket(keys, k, n)[j]] == k
    ensures forall i: nat :: i < n && keys[i] == k ==> i in Bucket(keys, k, n)
    ensures forall i, j :: 0 <= i < j < |Bucket(keys, k, n)| ==> Bucket(keys, k, n)[i] < Bucket(keys, k, n)[j]
  {
    if n > 0 {
      BucketHolds(keys, k, n - 1);
      if keys[n - 1] == k {
        assert Bucket(keys, k, n)[|Bucket(keys, k, n - 1)|] == n - 1;
      }
    }
  }

  lemma {:induction false} BucketGrows(keys: seq<int>, k: int, m: nat, n: nat)
    requires m <= n <= |keys|
    ensures |Bucket(keys, k, m)| <= |Bucket(keys, k, n)|
    ensures m < n && keys[m] == k ==> |Bucket(keys, k, m)| < |Bucket(keys, k, n)|
    decreases n
  {
    if m < n {
      BucketGrows(keys, k, m, n - 1);
    }
  }

  ghost function Widths(keys: seq<int>, ops: nat, n: nat): nat
    requires n <= |keys|
  {
    if ops == 0 then 0 else Widths(keys, ops - 1, n) + |Bucket(keys, ops - 1, n)|
  }

  lemma {:induction false} WidthsStep(keys: seq<int>, ops: nat, n: nat)
    requires n < |keys|
    ensures Widths(keys, ops, n + 1) == Widths(keys, ops, n) + if 0 <= keys[n] < ops then 1 else 0
  {
    if ops > 0 {
      WidthsStep(keys, ops - 1, n);
    }
  }

  lemma {:induction false} WidthsKeyed(keys: seq<int>, ops: nat, n: nat)
    requires n <= |keys| && forall i :: 0 <= i < |keys| ==> keys[i] < ops
    ensures Widths(keys, ops, n) == Keyed(keys, n)
  {
    if n > 0 {
      WidthsKeyed(keys, ops, n - 1);
      WidthsStep(keys, ops, n - 1);
    } else {
      WidthsEmpty(keys, ops);
    }
  }

  lemma {:induction false} WidthsEmpty(keys: seq<int>, ops: nat)
    ensures Widths(keys, ops, 0) == 0
  {
    if ops > 0 {
      WidthsEmpty(keys, ops - 1);
    }
  }

  lemma {:induction false} WidthsMono(keys: seq<int>, a: nat, b: nat, n: nat)
    requires n <= |keys| && a <= b
    ensures Widths(keys, a, n) <= Widths(keys, b, n)
  {
    if a < b {
      WidthsMono(keys, a, b - 1, n);
    }
  }

  /** The stretch off[k]..off[k + 1] of ids is bucket k. */
  ghost predicate Bucketed(keys: seq<int>, off: seq<nat>, ids: seq<nat>, k: nat) {
    && k + 1 < |off| && off[k] <= off[k + 1] <= |ids|
    && ids[off[k]..off[k + 1]] == Bucket(keys, k, |keys|)
  }

  /** Bucket k of the first s indices is written at the start of its stretch. */
  ghost predicate Filled(keys: seq<int>, ids: seq<nat>, k: nat, s: nat)
    requires s <= |keys|
  {
    var at := Widths(keys, k, |keys|);
    && at + |Bucket(keys, k, s)| <= |ids|
    && ids[at..at + |Bucket(keys, k, s)|] == Bucket(keys, k, s)
  }

  lemma StretchesApart(keys: seq<int>, ops: nat, k: nat, key: nat, s: nat)
    requires k < ops && key < ops && k != key && s < |keys| && keys[s] == key
    ensures var at := Widths(keys, key, |keys|) + |Bucket(keys, key, s)|;
            at < Widths(keys, k, |keys|) || Widths(keys, k, |keys|) + |Bucket(keys, k, s)| <= at
  {
    var n := |keys|;
    BucketGrows(keys, key, s, n);
    BucketGrows(keys, k, s, n);
    if k < key { WidthsMono(keys, k + 1, key, n); } else { WidthsMono(keys, key + 1, k, n); }
  }

  ghost predicate AllFilled(keys: seq<int>, ops: nat, ids: seq<nat>, s: nat)
    requires s <= |keys|
  {
    forall k: nat :: k < ops ==> Filled(keys, ids, k, s)
  }

  /** Writing index s at the cursor of its key fills the buckets one index further. */
  lemma FillStep(keys: seq<int>, ops: nat, ids: seq<nat>, s: nat)
    requires s < |keys| && keys[s] < ops
    requires AllFilled(keys, ops, ids, s)
    requires Widths(keys, ops, |keys|) <= |ids|
    ensures keys[s] < 0 ==> AllFilled(keys, ops, ids, s + 1)
    ensures keys[s] >= 0 ==> Cursor(keys, keys[s], s) < |ids|
    ensures keys[s] >= 0 ==> AllFilled(keys, ops, ids[Cursor(keys, keys[s], s) := s], s + 1)
  {
    var next := s + 1;
    if keys[s] < 0 {
      forall k: nat | k < ops ensures Filled(keys, ids, k, next) {
        assert Filled(keys, ids, k, s);
      }
    } else {
      var at := Cursor(keys, keys[s], s);
      BucketGrows(keys, keys[s], s, |keys|);
      WidthsMono(keys, keys[s] + 1, ops, |keys|);
      var after := ids[at := s];
      forall k: nat | k < ops ensures Filled(keys, after, k, next) {
        assert Filled(keys, ids, k, s);
        if keys[s] != k {
          StretchesApart(keys, ops, k, keys[s], s);
        }
      }
    }
  }

  /** Where the next index with key k goes. */
  ghost function Cursor(keys: seq<int>, k: nat, s: nat): nat
    requires s <= |keys|
  {
    Widths(keys, k, |keys|) + |Bucket(keys, k, s)|
  }

  /** Buckets the indices by key: count, prefix sum, scatter. */
  method BucketBy(keys: seq<int>, ops: nat, room: nat) returns (off: array<nat>, ids: array<nat>)
    requires forall i :: 0 <= i < |keys| ==> keys[i] < ops
    requires Keyed(keys, |keys|) <= room
    ensures fresh(off) && fresh(ids)
    ensures off.Length == ops + 1 && ids.Length == room
    ensures forall k: nat :: k < ops ==> Bucketed(keys, off[..], ids[..], k)
  {
    off := Offsets(keys, ops);
    WidthsKeyed(keys, ops, |keys|);
    ids := Scatter(keys, ops, off, room);
    FilledIsBucketed(keys, ops, off[..], ids[..]);
  }

  /** Where each bucket begins: the counts of the buckets before it. */
  method Offsets(keys: seq<int>, ops: nat) returns (off: array<nat>)
    requires forall i :: 0 <= i < |keys| ==> keys[i] < ops
    ensures fresh(off) && off.Length == ops + 1
    ensures forall k: nat :: k <= ops ==> off[k] == Widths(keys, k, |keys|)
  {
    var count := CountKeys(keys, ops);
    off := PrefixSums(count[..]);
    SumsAreWidths(keys, count[..], off[..]);
  }

  method PrefixSums(counts: seq<nat>) returns (off: array<nat>)
    ensures fresh(off) && off.Length == |counts| + 1
    ensures forall k: nat {:trigger off[k]} :: k <= |counts| ==> off[k] == Sum(counts, k)
  {
    off := new nat[|counts| + 1](_ => 0);
    for o := 0 to |counts|
      invariant forall k: nat {:trigger off[k]} :: k <= o ==> off[k] == Sum(counts, k)
    {
      off[o + 1] := off[o] + counts[o];
    }
  }

  lemma SumsAreWidths(keys: seq<int>, counts: seq<nat>, off: seq<nat>)
    requires |off| == |counts| + 1 && forall k: nat :: k <= |counts| ==> off[k] == Sum(counts, k)
    requires forall b: nat :: b < |counts| ==> counts[b] == |Bucket(keys, b, |keys|)|
    ensures forall k: nat :: k < |off| ==> off[k] == Widths(keys, k, |keys|)
  {
    forall k: nat | k < |off| ensures off[k] == Widths(keys, k, |keys|) {
      SumIsWidths(keys, counts, k);
    }
  }

  ghost function Sum(counts: seq<nat>, k: nat): nat
    requires k <= |counts|
  {
    if k == 0 then 0 else Sum(counts, k - 1) + counts[k - 1]
  }

  lemma {:induction false} SumIsWidths(keys: seq<int>, counts: seq<nat>, k: nat)
    requires k <= |counts| && forall b: nat :: b < |counts| ==> counts[b] == |Bucket(keys, b, |keys|)|
    ensures Sum(counts, k) == Widths(keys, k, |keys|)
  {
    if k > 0 {
      SumIsWidths(keys, counts, k - 1);
    }
  }

  lemma FilledIsBucketed(keys: seq<int>, ops: nat, off: seq<nat>, ids: seq<nat>)
    requires |off| == ops + 1 && forall k: nat :: k <= ops ==> off[k] == Widths(keys, k, |keys|)
    requires AllFilled(keys, ops, ids, |keys|)
    ensures forall k: nat :: k < ops ==> Bucketed(keys, off, ids, k)
  {
    forall k: nat | k < ops ensures Bucketed(keys, off, ids, k) {
      assert Filled(keys, ids, k, |keys|);
      var next := k + 1;
      assert off[next] == Widths(keys, next, |keys|);
    }
  }

  method CountKeys(keys: seq<int>, ops: nat) returns (count: array<nat>)
    requires forall i :: 0 <= i < |keys| ==> keys[i] < ops
    ensures fresh(count) && count.Length == ops
    ensures forall k: nat :: k < ops ==> count[k] == |Bucket(keys, k, |keys|)|
  {
    count := new nat[ops](_ => 0);
    for s := 0 to |keys|
      invariant fresh(count)
      invariant forall k: nat :: k < ops ==> count[k] == |Bucket(keys, k, s)|
    {
      if keys[s] >= 0 {
        count[keys[s]] := count[keys[s]] + 1;
      }
    }
  }

  method Scatter(keys: seq<int>, ops: nat, off: array<nat>, room: nat) returns (ids: array<nat>)
    requires forall i :: 0 <= i < |keys| ==> keys[i] < ops
    requires off.Length == ops + 1
    requires forall k: nat :: k <= ops ==> off[k] == Widths(keys, k, |keys|)
    requires off[ops] <= room
    ensures fresh(ids) && ids.Length == room
    ensures AllFilled(keys, ops, ids[..], |keys|)
  {
    var n := |keys|;
    ids := new nat[room](_ => 0);
    var cursor := new nat[ops](k requires 0 <= k < ops reads off => off[k]);
    forall k: nat | k < ops ensures Filled(keys, ids[..], k, 0) {
      WidthsMono(keys, k, ops, n);
    }
    for s := 0 to n
      invariant fresh(ids) && fresh(cursor)
      invariant forall k: nat :: k < ops ==> cursor[k] == Cursor(keys, k, s)
      invariant AllFilled(keys, ops, ids[..], s)
    {
      FillStep(keys, ops, ids[..], s);
      var key := keys[s];
      if key >= 0 {
        ids[cursor[key]] := s;
        cursor[key] := cursor[key] + 1;
      }
    }
  }
}
