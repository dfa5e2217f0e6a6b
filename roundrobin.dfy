/**
 * Round-robin distribution of the valid rows over the sender accounts:
 * row `idx` goes to bucket `idx % n`, where `n` is the number of accounts.
 */
module RoundRobin {

  /** Bucket `k` after appending the rows one by one, as the send loop fills it. */
  function Bucket<T>(rows: seq<T>, n: nat, k: nat): (b: seq<T>)
    requires 0 < n
    ensures |b| <= |rows|
  {
    if rows == [] then []
    else
      var m := |rows| - 1;
      var init := Bucket(rows[..m], n, k);
      if m % n == k then init + [rows[m]] else init
  }

  /** All `n` buckets, indexed by account. */
  function Buckets<T>(rows: seq<T>, n: nat): (bs: seq<seq<T>>)
    requires 0 < n
    ensures |bs| == n
  {
    seq(n, k requires 0 <= k < n => Bucket(rows, n, k))
  }

  /** The number of rows over a sequence of buckets. */
  function SumLengths<T>(bs: seq<seq<T>>): nat
  {
    if bs == [] then 0 else SumLengths(bs[..|bs| - 1]) + |bs[|bs| - 1]|
  }

  /** The rows of a sequence of buckets, pooled. */
  function Pooled<T>(bs: seq<seq<T>>): multiset<T>
  {
    if bs == [] then multiset{} else Pooled(bs[..|bs| - 1]) + multiset(bs[|bs| - 1])
  }

  /**
   * The loop `for idx, row in enumerate(rows): buckets[idx % n].append(row)`
   * over `buckets = {i: [] for i in range(n)}`.
   */
  method Distribute<T>(rows: seq<T>, n: nat) returns (buckets: seq<seq<T>>)
    requires 0 < n
    ensures buckets == Buckets(rows, n)
  {
    buckets := seq(n, _ => []);
    var idx := 0;
    while idx < |rows|
      invariant idx <= |rows| && |buckets| == n
      invariant forall k :: 0 <= k < n ==> buckets[k] == Bucket(rows[..idx], n, k)
    {
      assert rows[..idx + 1][..idx] == rows[..idx];
      buckets := buckets[idx % n := buckets[idx % n] + [rows[idx]]];
      idx := idx + 1;
    }
    assert rows[..idx] == rows;
  }

  lemma AtLeastOnce(j: int, n: int)
    requires 1 <= j && 0 <= n
    ensures j * n >= n
  {
    OneMore(j - 1, n);
  }

  lemma OneMore(j: int, n: int)
    ensures (j + 1) * n == j * n + n
  {
  }

  /** Euclidean division is unique. */
  lemma DivModUnique(x: int, n: int, q: int, r: int)
    requires 0 < n && 0 <= r < n && x == q * n + r
    ensures x / n == q && x % n == r
  {
    var q', r' := x / n, x % n;
    assert x == q' * n + r';
    var d := q - q';
    assert d * n == r' - r by {
      assert q * n - q' * n == (q - q') * n;
    }
    if d > 0 {
      AtLeastOnce(d, n);
    } else if d < 0 {
      AtLeastOnce(-d, n);
    }
  }

  lemma ModShift(m: nat, n: nat)
    requires 0 < n <= m
    ensures (m - n) % n == m % n
  {
    var q, r := m / n, m % n;
    assert m == q * n + r;
    assert m - n == (q - 1) * n + r by {
      assert (q - 1) * n == q * n - n;
    }
    DivModUnique(m - n, n, q - 1, r);
  }

  /** Fewer rows than accounts: row `k`, if there is one, is alone in bucket `k`. */
  lemma {:induction false} BucketShort<T>(rows: seq<T>, n: nat, k: nat)
    requires k < n && |rows| <= n
    ensures Bucket(rows, n, k) == if k < |rows| then [rows[k]] else []
  {
    if rows != [] {
      var m := |rows| - 1;
      BucketShort(rows[..m], n, k);
      DivModUnique(m, n, 0, m);
      if k < m { assert rows[..m][k] == rows[k]; }
    }
  }

  /** Bucket `k` takes row `k` first, then carries on `n` rows later. */
  lemma {:induction false} BucketDrop<T>(rows: seq<T>, n: nat, k: nat)
    requires k < n <= |rows|
    ensures Bucket(rows, n, k) == [rows[k]] + Bucket(rows[n..], n, k)
    decreases |rows|
  {
    if |rows| == n {
      BucketShort(rows, n, k);
      assert rows[n..] == [];
    } else {
      var m := |rows| - 1;
      BucketDrop(rows[..m], n, k);
      ModShift(m, n);
      assert rows[..m][k] == rows[k];
      assert rows[n..][..m - n] == rows[..m][n..];
      assert rows[n..][m - n] == rows[m];
    }
  }

  /**
   * Bucket `k` holds exactly the rows at positions `k, k + n, k + 2n, ...`,
   * in that order.
   */
  lemma {:induction false} BucketAt<T>(rows: seq<T>, n: nat, k: nat, j: nat)
    requires k < n
    ensures j < |Bucket(rows, n, k)| <==> k + j * n < |rows|
    ensures j < |Bucket(rows, n, k)| ==> Bucket(rows, n, k)[j] == rows[k + j * n]
    decreases |rows|
  {
    if |rows| < n {
      BucketShort(rows, n, k);
      if j >= 1 { AtLeastOnce(j, n); }
    } else {
      BucketDrop(rows, n, k);
      if j > 0 {
        BucketAt(rows[n..], n, k, j - 1);
        OneMore(j - 1, n);
        var p := k + (j - 1) * n;
        assert k + j * n == p + n;
        if p < |rows[n..]| { assert rows[n..][p] == rows[p + n]; }
      } else {
        BucketAt(rows[n..], n, k, 0);
      }
    }
  }

  /** Every row of a bucket is one of the rows. */
  lemma BucketElements<T>(rows: seq<T>, n: nat, k: nat)
    requires k < n
    ensures forall j :: 0 <= j < |Bucket(rows, n, k)| ==> Bucket(rows, n, k)[j] in rows
  {
    forall j | 0 <= j < |Bucket(rows, n, k)| ensures Bucket(rows, n, k)[j] in rows {
      BucketAt(rows, n, k, j);
    }
  }

  /** With one account, its bucket is every row, in order. */
  lemma {:induction false} OneBucket<T>(rows: seq<T>)
    ensures Bucket(rows, 1, 0) == rows
    ensures Buckets(rows, 1) == [rows]
  {
    if rows != [] {
      var m := |rows| - 1;
      OneBucket(rows[..m]);
      assert rows[..m] + [rows[m]] == rows;
    }
  }

  /** The valid row at position `idx` lands in bucket `idx % n`, at place `idx / n`. */
  lemma Placement<T>(rows: seq<T>, n: nat, idx: nat)
    requires 0 < n && idx < |rows|
    ensures idx / n < |Buckets(rows, n)[idx % n]|
    ensures Buckets(rows, n)[idx % n][idx / n] == rows[idx]
  {
    BucketAt(rows, n, idx % n, idx / n);
    assert idx % n + (idx / n) * n == idx;
  }

  /** Appending one row grows exactly bucket `|rows| % n`. */
  lemma BucketsSnoc<T>(rows: seq<T>, x: T, n: nat)
    requires 0 < n
    ensures Buckets(rows + [x], n) ==
              Buckets(rows, n)[|rows| % n := Buckets(rows, n)[|rows| % n] + [x]]
  {
    assert (rows + [x])[..|rows|] == rows;
  }

  lemma {:induction false} SumLengthsGrow<T>(bs: seq<seq<T>>, p: nat, x: T)
    requires p < |bs|
    ensures SumLengths(bs[p := bs[p] + [x]]) == SumLengths(bs) + 1
    ensures Pooled(bs[p := bs[p] + [x]]) == Pooled(bs) + multiset{x}
  {
    var m := |bs| - 1;
    var bs' := bs[p := bs[p] + [x]];
    if p == m {
      assert bs'[..m] == bs[..m];
    } else {
      SumLengthsGrow(bs[..m], p, x);
      assert bs'[..m] == bs[..m][p := bs[..m][p] + [x]];
    }
  }

  /** The buckets partition the rows: together they hold every row exactly once. */
  lemma {:induction false} Partition<T>(rows: seq<T>, n: nat)
    requires 0 < n
    ensures SumLengths(Buckets(rows, n)) == |rows|
    ensures Pooled(Buckets(rows, n)) == multiset(rows)
  {
    if rows == [] {
      var bs := Buckets(rows, n);
      assert forall k :: 0 <= k < n ==> bs[k] == [];
      EmptyBuckets(bs);
    } else {
      var m := |rows| - 1;
      Partition(rows[..m], n);
      assert rows == rows[..m] + [rows[m]];
      BucketsSnoc(rows[..m], rows[m], n);
      SumLengthsGrow(Buckets(rows[..m], n), m % n, rows[m]);
    }
  }

  /** Two sequences of buckets with the same bucket sizes hold as many elements. */
  lemma {:induction false} SameSizes<T, U>(bs: seq<seq<T>>, cs: seq<seq<U>>)
    requires |bs| == |cs| && forall k :: 0 <= k < |bs| ==> |bs[k]| == |cs[k]|
    ensures SumLengths(bs) == SumLengths(cs)
  {
    if bs != [] {
      var m := |bs| - 1;
      SameSizes(bs[..m], cs[..m]);
    }
  }

  lemma {:induction false} EmptyBuckets<T>(bs: seq<seq<T>>)
    requires forall k :: 0 <= k < |bs| ==> bs[k] == []
    ensures SumLengths(bs) == 0 && Pooled(bs) == multiset{}
  {
    if bs != [] { EmptyBuckets(bs[..|bs| - 1]); }
  }

  /** Five rows over two accounts: the first takes a, c, e and the second b, d. */
  lemma FiveOverTwo<T>(a: T, b: T, c: T, d: T, e: T)
    ensures Buckets([a, b, c, d, e], 2) == [[a, c, e], [b, d]]
  {
    var rows := [a, b, c, d, e];
    BucketDrop(rows, 2, 0);
    BucketDrop(rows, 2, 1);
    assert rows[2..] == [c, d, e];
    BucketDrop([c, d, e], 2, 0);
    BucketDrop([c, d, e], 2, 1);
    assert [c, d, e][2..] == [e];
    BucketShort([e], 2, 0);
    BucketShort([e], 2, 1);
    var bs := Buckets(rows, 2);
    assert bs[0] == [a] + ([c] + [e]) == [a, c, e];
    assert bs[1] == [b] + ([d] + []) == [b, d];
  }
}
