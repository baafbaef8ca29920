/**
 * PerformanceHelper: the resolution downgrade rule and the global bitmap pool
 * (a bounded FIFO with first-exact-size-match removal).
 */
module Performance {
  import opened Options
  import opened Bitmaps

  const MAX_BITMAP_POOL_SIZE: nat := 15

  /**
   * getRecommendedResolution, with the memory probe as a boolean input:
   * under memory pressure one tier down (HIGH to MEDIUM), anything else to LOW.
   */
  function RecommendedResolution(preferred: string, lowMemory: bool): (r: string)
    ensures !lowMemory ==> r == preferred
    ensures lowMemory ==> (r == "MEDIUM" <==> preferred == "HIGH")
    ensures lowMemory ==> (r == "LOW" <==> preferred != "HIGH")
  {
    if lowMemory then
      if preferred == "HIGH" then "MEDIUM"
      else if preferred == "MEDIUM" then "LOW"
      else "LOW"
    else preferred
  }

  /** One call on the global pool. */
  datatype PoolOp = Acquire(width: int, height: int) | Release(bitmap: Option<Bitmap>) | ClearAll

  /** The pool after one call: tryGetReusableBitmap, returnBitmapToPool or clearBitmapPool. */
  function Step(pool: seq<Bitmap>, op: PoolOp): seq<Bitmap> {
    match op
    case Acquire(w, h) => AfterTake(pool, w, h)
    case Release(b) => if b.Some? then Offered(pool, b.value, MAX_BITMAP_POOL_SIZE) else pool
    case ClearAll => []
  }

  /** The pool after a sequence of calls, in order. */
  function Run(pool: seq<Bitmap>, ops: seq<PoolOp>): seq<Bitmap>
    decreases |ops|
  {
    if ops == [] then pool else Run(Step(pool, ops[0]), ops[1..])
  }

  /** Running two sequences of calls one after the other is running their concatenation. */
  lemma {:induction false} RunConcat(pool: seq<Bitmap>, first: seq<PoolOp>, second: seq<PoolOp>)
    ensures Run(pool, first + second) == Run(Run(pool, first), second)
    decreases |first|
  {
    if first == [] {
      assert first + second == second;
    } else {
      assert (first + second)[0] == first[0];
      assert (first + second)[1..] == first[1..] + second;
      RunConcat(Step(pool, first[0]), first[1..], second);
    }
  }

  /** A run of lookups only ever removes bitmaps from the pool. */
  lemma {:induction false} RunAcquiresShrinks(pool: seq<Bitmap>, ops: seq<PoolOp>)
    requires forall op :: op in ops ==> op.Acquire?
    ensures multiset(Run(pool, ops)) <= multiset(pool)
    decreases |ops|
  {
    if ops != [] {
      assert ops[0] in ops;
      forall op | op in ops[1..] ensures op.Acquire? {
        assert op in ops;
      }
      RunAcquiresShrinks(Step(pool, ops[0]), ops[1..]);
    }
  }

  /** What the pool promises: at most 15 entries, none of them recycled when pooled. */
  predicate PoolInvariant(pool: seq<Bitmap>) {
    |pool| <= MAX_BITMAP_POOL_SIZE && forall b :: b in pool ==> !b.recycled
  }

  lemma StepKeepsInvariant(pool: seq<Bitmap>, op: PoolOp)
    requires PoolInvariant(pool)
    ensures PoolInvariant(Step(pool, op))
  {
    match op
    case Acquire(w, h) =>
      assert |AfterTake(pool, w, h)| <= |pool|;
    case Release(b) =>
    case ClearAll =>
  }

  /** No sequence of acquire, release and clear calls breaks the pool invariant. */
  lemma {:induction false} RunKeepsInvariant(pool: seq<Bitmap>, ops: seq<PoolOp>)
    requires PoolInvariant(pool)
    ensures PoolInvariant(Run(pool, ops))
    decreases |ops|
  {
    if ops != [] {
      StepKeepsInvariant(pool, ops[0]);
      RunKeepsInvariant(Step(pool, ops[0]), ops[1..]);
    }
  }

  /** The `object PerformanceHelper` singleton: its state is the global pool. */
  class PerformanceHelper {
    const globalBitmapPool: BitmapQueue

    constructor ()
      ensures fresh(globalBitmapPool) && globalBitmapPool.items == []
    {
      globalBitmapPool := new BitmapQueue();
    }

    method TryGetReusableBitmap(width: int, height: int) returns (r: Option<Bitmap>)
      modifies globalBitmapPool
      ensures r.Some? ==> Reusable(r.value, width, height)
      ensures r.None? <==> forall b :: b in old(globalBitmapPool.items) ==> !Reusable(b, width, height)
      ensures r.None? ==> globalBitmapPool.items == old(globalBitmapPool.items)
      ensures r == Taken(old(globalBitmapPool.items), width, height)
      ensures globalBitmapPool.items == Step(old(globalBitmapPool.items), Acquire(width, height))
    {
      r := globalBitmapPool.TakeFirstMatch(width, height);
    }

    method ReturnBitmapToPool(bitmap: Option<Bitmap>)
      modifies globalBitmapPool
      ensures globalBitmapPool.items ==
        if bitmap.Some? && !bitmap.value.recycled && |old(globalBitmapPool.items)| < MAX_BITMAP_POOL_SIZE
        then old(globalBitmapPool.items) + [bitmap.value]
        else old(globalBitmapPool.items)
      ensures globalBitmapPool.items == Step(old(globalBitmapPool.items), Release(bitmap))
    {
      if bitmap.Some? {
        if !bitmap.value.recycled && |globalBitmapPool.items| < MAX_BITMAP_POOL_SIZE {
          globalBitmapPool.Offer(bitmap.value);
        }
      }
    }

    method ClearBitmapPool()
      modifies globalBitmapPool
      ensures globalBitmapPool.items == []
      ensures globalBitmapPool.items == Step(old(globalBitmapPool.items), ClearAll)
    {
      globalBitmapPool.Clear();
    }
  }
}
