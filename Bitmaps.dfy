/**
 * Pages, bitmaps and the queue of reusable bitmaps shared by the global pool
 * (PerformanceHelper.globalBitmapPool) and the adapter's local pool
 * (PdfPageAdapter.bitmapPool). Pixels are not modelled: a bitmap is its
 * identity, its size and whether it has been recycled.
 */
module Bitmaps {
  import opened Options

  /** A page handed out by the document renderer, by its size in points. */
  datatype Page = Page(width: int, height: int)

  /** An Android bitmap: identity, pixel size, and whether recycle() was called. */
  datatype Bitmap = Bitmap(id: nat, width: int, height: int, recycled: bool)

  /** The test both pool lookups apply to each pooled bitmap. */
  predicate Reusable(b: Bitmap, width: int, height: int) {
    b.width == width && b.height == height && !b.recycled
  }

  /** Index of the first reusable bitmap of the requested size, in queue order. */
  function FirstMatch(pool: seq<Bitmap>, width: int, height: int): (r: Option<nat>)
    ensures r.Some? ==> r.value < |pool| && Reusable(pool[r.value], width, height)
    ensures r.Some? ==> forall j :: 0 <= j < r.value ==> !Reusable(pool[j], width, height)
    ensures r.None? <==> forall j :: 0 <= j < |pool| ==> !Reusable(pool[j], width, height)
  {
    if |pool| == 0 then None
    else if Reusable(pool[0], width, height) then Some(0)
    else match FirstMatch(pool[1..], width, height)
      case None => None
      case Some(i) => Some(i + 1)
  }

  /** The bitmap a lookup of (width, height) hands out, if any. */
  function Taken(pool: seq<Bitmap>, width: int, height: int): (r: Option<Bitmap>)
    ensures r.Some? ==> Reusable(r.value, width, height) && r.value in pool
    ensures r.None? <==> forall b :: b in pool ==> !Reusable(b, width, height)
  {
    match FirstMatch(pool, width, height)
    case None => None
    case Some(i) => Some(pool[i])
  }

  /** The pool after a lookup of (width, height): the first match is removed, the rest keep their order. */
  function AfterTake(pool: seq<Bitmap>, width: int, height: int): (r: seq<Bitmap>)
    ensures Taken(pool, width, height).None? ==> r == pool
    ensures forall b :: b in r ==> b in pool
    ensures multiset(r) <= multiset(pool)
    ensures Taken(pool, width, height).Some? ==>
      |r| == |pool| - 1 && multiset(r) + multiset{Taken(pool, width, height).value} == multiset(pool)
    ensures FirstMatch(pool, width, height).Some? ==>
      var i := FirstMatch(pool, width, height).value;
      r[..i] == pool[..i] && r[i..] == pool[i + 1..]
  {
    match FirstMatch(pool, width, height)
    case None => pool
    case Some(i) =>
      assert pool == pool[..i] + [pool[i]] + pool[i + 1..];
      pool[..i] + pool[i + 1..]
  }

  /** The pool after offering `b` under a size cap: appended only if live and below the cap. */
  function Offered(pool: seq<Bitmap>, b: Bitmap, capacity: nat): (r: seq<Bitmap>)
    ensures |pool| <= capacity ==> |r| <= capacity
    ensures b in r <==> b in pool || (!b.recycled && |pool| < capacity)
    ensures r == pool || r == pool + [b]
    ensures |r| == |pool| + (if !b.recycled && |pool| < capacity then 1 else 0)
  {
    if !b.recycled && |pool| < capacity then pool + [b] else pool
  }

  /** Bitmap.createBitmap: the platform allocator, handing out fresh identities. */
  class BitmapFactory {
    var nextId: nat

    constructor ()
      ensures nextId == 0
    {
      nextId := 0;
    }

    method CreateBitmap(width: int, height: int) returns (b: Bitmap)
      modifies this
      ensures b == Bitmap(old(nextId), width, height, false)
      ensures nextId == old(nextId) + 1
    {
      b := Bitmap(nextId, width, height, false);
      nextId := nextId + 1;
    }
  }

  /** A ConcurrentLinkedQueue<Bitmap>, used sequentially. */
  class BitmapQueue {
    var items: seq<Bitmap>

    constructor ()
      ensures items == []
    {
      items := [];
    }

    /**
     * The iterator walk of tryGetReusableBitmap and getReusableBitmap: remove
     * and return the first live bitmap of exactly the requested size.
     */
    method TakeFirstMatch(width: int, height: int) returns (r: Option<Bitmap>)
      modifies this
      ensures r == Taken(old(items), width, height)
      ensures items == AfterTake(old(items), width, height)
    {
      var i := 0;
      while i < |items|
        invariant 0 <= i <= |items|
        invariant items == old(items)
        invariant forall j :: 0 <= j < i ==> !Reusable(items[j], width, height)
      {
        if Reusable(items[i], width, height) {
          r := Some(items[i]);
          items := items[..i] + items[i + 1..];
          return;
        }
        i := i + 1;
      }
      r := None;
    }

    /** ConcurrentLinkedQueue.offer: append at the tail. */
    method Offer(b: Bitmap)
      modifies this
      ensures items == old(items) + [b]
    {
      items := items + [b];
    }

    method Clear()
      modifies this
      ensures items == []
    {
      items := [];
    }
  }
}
