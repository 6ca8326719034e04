/** What a threshold flush policy does to a stream of records, stated on values:
    with no failed upload, records arriving one by one into a buffer that is
    flushed whenever it holds `size` records leave behind the full batches cut
    from the front of the stream, in order, and a shorter remainder in the buffer. */
module Batching {

  /** The batches run together, in order. */
  function Flatten<T>(batches: seq<seq<T>>): seq<T> {
    if batches == [] then [] else batches[0] + Flatten(batches[1..])
  }

  lemma {:induction false} FlattenAppend<T>(a: seq<seq<T>>, b: seq<seq<T>>)
    ensures Flatten(a + b) == Flatten(a) + Flatten(b)
  {
    if a == [] {
      assert a + b == b;
    } else {
      assert (a + b)[1..] == a[1..] + b;
      FlattenAppend(a[1..], b);
    }
  }

  /** Flattening one more batch adds its records at the end. */
  lemma FlattenSnoc<T>(a: seq<seq<T>>, batch: seq<T>)
    ensures Flatten(a + [batch]) == Flatten(a) + batch
  {
    FlattenAppend(a, [batch]);
    assert Flatten([batch]) == batch + Flatten([]);
  }

  /** The full batches of `size` records a threshold flush cuts from `rs`. */
  function FullBatches<T>(rs: seq<T>, size: nat): (bs: seq<seq<T>>)
    requires size > 0
    ensures |bs| == |rs| / size
    ensures forall i :: 0 <= i < |bs| ==> |bs[i]| == size
    decreases |rs|
  {
    if |rs| < size then []
    else
      DivStep(|rs|, size);
      [rs[..size]] + FullBatches(rs[size..], size)
  }

  /** The records left over after the full batches. */
  function Remainder<T>(rs: seq<T>, size: nat): (r: seq<T>)
    requires size > 0
    ensures |r| == |rs| % size
    decreases |rs|
  {
    if |rs| < size then rs
    else
      DivStep(|rs|, size);
      Remainder(rs[size..], size)
  }

  lemma DivStep(n: nat, d: nat)
    requires 0 < d <= n
    ensures n / d == (n - d) / d + 1 && n % d == (n - d) % d
  {
    var q, r := (n - d) / d, (n - d) % d;
    assert n - d == q * d + r;
    assert n == (q + 1) * d + r;
    DivUnique(n, d, q + 1, r);
  }

  /** Quotient and remainder are the only pair that rebuilds the dividend. */
  lemma DivUnique(n: int, d: int, q: int, r: int)
    requires d > 0 && 0 <= r < d && n == q * d + r
    ensures n / d == q && n % d == r
  {
    var q', r' := n / d, n % d;
    assert n == q' * d + r';
    assert (q' - q) * d == r - r';
    if q' > q {
      MulAtLeast(q' - q, d);
    } else if q' < q {
      MulAtLeast(q - q', d);
    }
  }

  lemma MulAtLeast(k: int, d: int)
    requires k >= 1 && d > 0
    ensures k * d >= d
  {
  }

  /** No record is lost, duplicated or reordered: the full batches followed by
      the remainder are the stream itself. */
  lemma {:induction false} BatchesConserve<T>(rs: seq<T>, size: nat)
    requires size > 0
    ensures Flatten(FullBatches(rs, size)) + Remainder(rs, size) == rs
  {
    if |rs| >= size {
      BatchesConserve(rs[size..], size);
      assert rs == rs[..size] + rs[size..];
    }
  }

  /** One more record either joins the remainder or, when it fills the
      remainder to `size`, turns it into one more full batch and empties it. */
  lemma {:induction false} BatchesSnoc<T>(rs: seq<T>, x: T, size: nat)
    requires size > 0
    ensures |Remainder(rs, size)| + 1 < size ==>
      FullBatches(rs + [x], size) == FullBatches(rs, size) &&
      Remainder(rs + [x], size) == Remainder(rs, size) + [x]
    ensures |Remainder(rs, size)| + 1 == size ==>
      FullBatches(rs + [x], size) == FullBatches(rs, size) + [Remainder(rs, size) + [x]] &&
      Remainder(rs + [x], size) == []
    decreases |rs|
  {
    if |rs| >= size {
      assert (rs + [x])[..size] == rs[..size];
      assert (rs + [x])[size..] == rs[size..] + [x];
      BatchesSnoc(rs[size..], x, size);
    } else if |rs| + 1 == size {
      assert (rs + [x])[..size] == rs + [x];
      assert (rs + [x])[size..] == [];
    }
  }
}
