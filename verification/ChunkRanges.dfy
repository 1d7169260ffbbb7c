/** How a file of known size is cut into byte ranges for parallel workers. */
module ChunkRanges {
  import opened Storage

  /** An inclusive byte range; `end == start - 1` is the empty range of an empty file. */
  datatype Range = Range(start: nat, end: int)

  function Max(a: int, b: int): int {
    if a < b then b else a
  }

  /** The number of ranges really used: a file with fewer bytes than workers gets one. */
  function Count(total: nat, parallelism: int): (n: nat)
    ensures n >= 1
  {
    var p := Max(1, parallelism);
    if total / p <= 0 then 1 else p
  }

  function ChunkSize(total: nat, parallelism: int): nat {
    var p := Max(1, parallelism);
    if total / p <= 0 then total else total / p
  }

  /** The offset at which range `i` begins; `Cut(Count)` is the end of the file. */
  function Cut(total: nat, parallelism: int, i: nat): nat {
    if i < Count(total, parallelism) then i * ChunkSize(total, parallelism) else total
  }

  function RangeAt(total: nat, parallelism: int, i: nat): Range {
    Range(Cut(total, parallelism, i), Cut(total, parallelism, i + 1) - 1)
  }

  function Length(r: Range): int {
    r.end - r.start + 1
  }

  predicate Within(r: Range, total: nat) {
    r.start <= r.end + 1 <= total
  }

  function Slice(src: Bytes, r: Range): (s: Bytes)
    requires Within(r, |src|)
    ensures |s| == Length(r)
  {
    src[r.start..r.end + 1]
  }

  lemma SliceOfSlice(src: Bytes, a: nat, b: nat, i: nat, j: nat)
    requires a <= b <= |src| && i <= j <= b - a
    ensures src[a..b][i..j] == src[a + i..a + j]
  {
    var x, y := src[a..b][i..j], src[a + i..a + j];
    forall k | 0 <= k < |x|
      ensures x[k] == y[k]
    {
      assert x[k] == src[a..b][i + k];
    }
  }

  lemma CutsGrow(total: nat, parallelism: int, i: nat)
    requires i < Count(total, parallelism)
    ensures Cut(total, parallelism, i) <= Cut(total, parallelism, i + 1) <= total
    ensures 0 < total ==> Cut(total, parallelism, i) < Cut(total, parallelism, i + 1)
  {
    var n, size := Count(total, parallelism), ChunkSize(total, parallelism);
    var p := Max(1, parallelism);
    assert (i + 1) * size == i * size + size;
    assert n * size <= total by {
      if total / p <= 0 {
        assert n * size == total;
      } else {
        assert p * (total / p) <= total;
      }
    }
    if i + 1 < n {
      Scale(i + 1, n, size);
    } else {
      Scale(i, n, size);
    }
  }

  lemma Scale(i: nat, n: nat, size: nat)
    requires i <= n
    ensures i * size <= n * size
  {
  }

  /** The ranges tile the file: every offset lies in exactly one of them. */
  lemma {:induction false} RangesTile(total: nat, parallelism: int, offset: nat)
    requires offset < total
    ensures exists i | 0 <= i < Count(total, parallelism) ::
              var r := RangeAt(total, parallelism, i); r.start <= offset <= r.end
    ensures forall i, j | 0 <= i < j < Count(total, parallelism) ::
              RangeAt(total, parallelism, i).end < RangeAt(total, parallelism, j).start
  {
    var n := Count(total, parallelism);
    var i := 0;
    while offset > RangeAt(total, parallelism, i).end
      invariant 0 <= i < n && RangeAt(total, parallelism, i).start <= offset
      decreases n - i
    {
      i := i + 1;
    }
    forall i, j | 0 <= i < j < n
      ensures RangeAt(total, parallelism, i).end < RangeAt(total, parallelism, j).start
    {
      CutsOrdered(total, parallelism, i + 1, j);
    }
  }

  lemma {:induction false} CutsOrdered(total: nat, parallelism: int, i: nat, j: nat)
    requires i <= j <= Count(total, parallelism)
    ensures Cut(total, parallelism, i) <= Cut(total, parallelism, j)
    decreases j - i
  {
    if i < j {
      CutsGrow(total, parallelism, i);
      CutsOrdered(total, parallelism, i + 1, j);
    }
  }

  /**
   * There is a range for every worker asked for, at least one, and only one if there are fewer bytes than
   * workers; all but the last are equally long.
   */
  lemma RangeSizes(total: nat, parallelism: int, i: nat)
    ensures var workers := if parallelism < 1 then 1 else parallelism;
            Count(total, parallelism) == if total < workers then 1 else workers
    ensures i + 1 < Count(total, parallelism) ==>
              Length(RangeAt(total, parallelism, i)) == total / Count(total, parallelism)
  {
    var size := ChunkSize(total, parallelism);
    assert (i + 1) * size == i * size + size;
    var p := Max(1, parallelism);
    assert total < p ==> total / p == 0;
    assert total >= p ==> total / p >= 1;
  }

  /** The loop that lays out the ranges; the last one takes the remainder. */
  method BuildRanges(total: nat, parallelism: int) returns (ranges: seq<Range>)
    ensures |ranges| == Count(total, parallelism)
    ensures forall i | 0 <= i < |ranges| ::
              ranges[i] == RangeAt(total, parallelism, i) && Within(ranges[i], total)
    ensures ranges[0].start == 0 && ranges[|ranges| - 1].end == total - 1
    ensures forall i | 0 < i < |ranges| :: ranges[i].start == ranges[i - 1].end + 1
    ensures 0 < total ==> forall i | 0 <= i < |ranges| :: 0 < Length(ranges[i])
  {
    var workers := Max(1, parallelism);
    var chunkSize := total / workers;
    if chunkSize <= 0 {
      chunkSize := total;
      workers := 1;
    }
    ranges := [];
    for i := 0 to workers
      invariant |ranges| == i
      invariant forall k | 0 <= k < i ::
                  ranges[k] == RangeAt(total, parallelism, k) && Within(ranges[k], total)
                  && (0 < total ==> 0 < Length(ranges[k]))
    {
      var start := i * chunkSize;
      var end := if i < workers - 1 then start + chunkSize - 1 else total - 1;
      assert end == RangeAt(total, parallelism, i).end by {
        assert (i + 1) * chunkSize == i * chunkSize + chunkSize;
      }
      CutsGrow(total, parallelism, i);
      ranges := ranges + [Range(start, end)];
    }
  }
}
