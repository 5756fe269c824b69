/** Splitting a range of items into chunks that run on their own, and joining the parts in order. */
module ChunkedWork {

  import opened Wrappers

  function ChunkCount(count: nat, size: nat): nat
    requires size > 0
  {
    count / size + if count % size != 0 then 1 else 0
  }

  /** How many items come before the k-th chunk. */
  function ChunkStart(count: nat, size: nat, k: nat): nat { if k * size <= count then k * size else count }

  /** The chunks follow one another without gaps, are never empty, and cover the whole range. */
  lemma ChunksTile(count: nat, size: nat, k: nat)
    requires size > 0 && k < ChunkCount(count, size)
    ensures ChunkStart(count, size, k) == k * size < count
    ensures ChunkStart(count, size, k + 1) == k * size + if size <= count - k * size then size else count - k * size
    ensures ChunkStart(count, size, 0) == 0 && ChunkStart(count, size, ChunkCount(count, size)) == count
  {
    QuotientBounds(count, size);
    ProductBelow(k, ChunkCount(count, size) - 1, size);
    assert (k + 1) * size == k * size + size;
  }

  /** A range without items has no chunks. */
  lemma ChunksEnd(count: nat, size: nat)
    requires size > 0
    ensures ChunkStart(count, size, ChunkCount(count, size)) == count
    ensures ChunkCount(count, size) == 0 <==> count == 0
  {
    QuotientBounds(count, size);
  }

  lemma ProductBelow(a: nat, b: nat, size: nat)
    requires a <= b
    ensures a * size <= b * size
  {
  }

  lemma QuotientBounds(count: nat, size: nat)
    requires size > 0
    ensures var n := ChunkCount(count, size);
            n * size >= count && (n > 0 ==> (n - 1) * size < count) && (count == 0 <==> n == 0)
  {
    var q, r := count / size, count % size;
    assert count == q * size + r;
    assert (q + 1) * size == q * size + size;
    if r == 0 && q > 0 {
      assert (q - 1) * size == q * size - size;
    }
  }

  // ------------------------------------------------------- gathering in order

  /** Doing the items lo .. hi in order and stopping at the first that fails. */
  ghost function Gather<T, E>(item: nat -> Result<seq<T>, E>, lo: nat, hi: nat): Result<seq<T>, E>
    requires lo <= hi
    decreases hi - lo
  {
    if lo == hi then Ok([])
    else Joined(item(lo), Gather(item, lo + 1, hi))
  }

  /** The first part, then the second; the first reason wins. */
  ghost function Joined<T, E>(first: Result<seq<T>, E>, second: Result<seq<T>, E>): Result<seq<T>, E> {
    if first.Err? then first
    else if second.Err? then second
    else Ok(first.value + second.value)
  }

  lemma JoinedAssociates<T, E>(a: Result<seq<T>, E>, b: Result<seq<T>, E>, c: Result<seq<T>, E>)
    ensures Joined(Joined(a, b), c) == Joined(a, Joined(b, c))
  {
    if a.Ok? && b.Ok? && c.Ok? {
      assert (a.value + b.value) + c.value == a.value + (b.value + c.value);
    }
  }

  /** Where the range is cut makes no difference, neither to the items nor to the reason. */
  lemma {:induction false} GatherSplits<T, E>(item: nat -> Result<seq<T>, E>, lo: nat, mid: nat, hi: nat)
    requires lo <= mid <= hi
    ensures Gather(item, lo, hi) == Joined(Gather(item, lo, mid), Gather(item, mid, hi))
    decreases mid - lo
  {
    if lo == mid {
      var rest := Gather(item, mid, hi);
      assert rest.Ok? ==> [] + rest.value == rest.value;
    } else {
      GatherSplits(item, lo + 1, mid, hi);
      JoinedAssociates(item(lo), Gather(item, lo + 1, mid), Gather(item, mid, hi));
    }
  }

  lemma GatherOneMore<T, E>(item: nat -> Result<seq<T>, E>, lo: nat, mid: nat)
    requires lo <= mid
    ensures Gather(item, lo, mid + 1) == Joined(Gather(item, lo, mid), item(mid))
  {
    GatherSplits(item, lo, mid, mid + 1);
    var one := item(mid);
    assert one.Ok? ==> one.value + [] == one.value;
    assert Gather(item, mid + 1, mid + 1) == Ok([]);
    assert Gather(item, mid, mid + 1) == one;
  }

  /** A failure stays the outcome of every longer range. */
  lemma GatherStops<T, E>(item: nat -> Result<seq<T>, E>, lo: nat, mid: nat, hi: nat)
    requires lo <= mid <= hi && Gather(item, lo, mid).Err?
    ensures Gather(item, lo, hi) == Gather(item, lo, mid)
  {
    GatherSplits(item, lo, mid, hi);
  }

  lemma {:induction false} NothingMore<T, E>(f: nat -> Result<seq<T>, E>, lo: nat, hi: nat)
    requires lo <= hi && forall i :: lo <= i < hi ==> f(i) == Ok([])
    ensures Gather(f, lo, hi) == Ok([])
    decreases hi - lo
  {
    if lo < hi {
      NothingMore(f, lo + 1, hi);
      assert [] + Gather(f, lo + 1, hi).value == [];
    }
  }
}
