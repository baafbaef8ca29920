/**
 * PdfPageAdapter and its PdfPageViewHolder: binding a slot renders its page
 * or pages through the pools and stores the result in `currentBitmap`;
 * recycling a holder hands that bitmap back to the pools.
 *
 * The document renderer is the sequence of its pages; opening a page index
 * that is out of range is the renderer's IllegalArgumentException, reported
 * here as `pageOpened == false`. Drawing onto a canvas is recorded as the list of
 * placements (bitmap and x offset) in the order they are drawn.
 */
module PageAdapter {
  import opened Options
  import opened Bitmaps
  import opened PageLayout
  import opened Settings
  import Performance

  /** Capacity of the adapter's local queue, as recycleBitmap checks it. */
  const LOCAL_POOL_SIZE: nat := 10

  /** One canvas.drawBitmap(bitmap, x, 0) call. */
  datatype Placement = Placement(bitmap: Bitmap, x: int)

  /**
   * `b` is what a bind of slot `slot` leaves in the holder: a single page at
   * its (possibly downgraded) factor, or the composed canvas of the slot's
   * pair in reading order at the stored factor.
   */
  predicate HoldsSlot(pages: seq<Page>, layout: Layout, slot: nat, settings: Settings,
                      lowMemoryLeft: bool, b: Bitmap)
  {
    match PagesForSlot(layout, slot)
    case Single(p) =>
      var f := PageFactor(settings.resolution, lowMemoryLeft);
      0 <= p < |pages| && b.width == pages[p].width * f && b.height == pages[p].height * f
    case Pair(first, _) =>
      var (l, r) := DualIndices(first, settings.leftToRight);
      var res := ResolutionFactor(settings.resolution);
      l >= 0 && r >= 0 &&
      b.width == CanvasWidth(OpenIfPresent(pages, l), OpenIfPresent(pages, r), res) &&
      b.height == CanvasHeight(OpenIfPresent(pages, l), OpenIfPresent(pages, r), res)
  }

  /** The global-pool lookup that rendering one page makes, none for a missing half. */
  function HalfOps(half: Option<Page>, f: int): (ops: seq<Performance.PoolOp>)
    ensures |ops| == (if half.Some? then 1 else 0)
  {
    if half.Some? then [Performance.Acquire(half.value.width * f, half.value.height * f)] else []
  }

  /** The lookups drawing the two halves makes: left, then right, each at its own factor. */
  function HalvesOps(left: Option<Page>, right: Option<Page>, settings: Settings,
                     lowMemoryLeft: bool, lowMemoryRight: bool): (ops: seq<Performance.PoolOp>)
    ensures |ops| == (if left.Some? then 1 else 0) + (if right.Some? then 1 else 0)
  {
    HalfOps(left, PageFactor(settings.resolution, lowMemoryLeft))
    + HalfOps(right, PageFactor(settings.resolution, lowMemoryRight))
  }

  /** The pool after rendering one half: its first exact-size match removed, unchanged for a missing half. */
  function HalfTaken(pool: seq<Bitmap>, half: Option<Page>, f: int): (r: seq<Bitmap>)
    ensures r == Performance.Run(pool, HalfOps(half, f))
  {
    if half.Some? then AfterTake(pool, half.value.width * f, half.value.height * f) else pool
  }

  /** Rendering the left half and then the right half runs HalvesOps, which only shrinks the pool. */
  lemma HalvesRun(pool0: seq<Bitmap>, pool1: seq<Bitmap>, pool2: seq<Bitmap>,
                  left: Option<Page>, right: Option<Page>, settings: Settings,
                  lowMemoryLeft: bool, lowMemoryRight: bool)
    requires pool1 == HalfTaken(pool0, left, PageFactor(settings.resolution, lowMemoryLeft))
    requires pool2 == HalfTaken(pool1, right, PageFactor(settings.resolution, lowMemoryRight))
    ensures pool2 == Performance.Run(pool0, HalvesOps(left, right, settings, lowMemoryLeft, lowMemoryRight))
    ensures multiset(pool2) <= multiset(pool0)
  {
    var ops := HalvesOps(left, right, settings, lowMemoryLeft, lowMemoryRight);
    Performance.RunConcat(pool0, HalfOps(left, PageFactor(settings.resolution, lowMemoryLeft)),
                          HalfOps(right, PageFactor(settings.resolution, lowMemoryRight)));
    Performance.RunAcquiresShrinks(pool0, ops);
  }

  /**
   * createDualPageBitmap's global-pool lookups, in order: the canvas at the
   * stored factor, then the left half and the right half at their own factors.
   */
  function DualOps(pages: seq<Page>, leftPageIndex: nat, rightPageIndex: nat, settings: Settings,
                   lowMemoryLeft: bool, lowMemoryRight: bool): seq<Performance.PoolOp>
  {
    var left := OpenIfPresent(pages, leftPageIndex);
    var right := OpenIfPresent(pages, rightPageIndex);
    if left.None? && right.None? then []
    else
      var res := ResolutionFactor(settings.resolution);
      [Performance.Acquire(CanvasWidth(left, right, res), CanvasHeight(left, right, res))]
      + HalvesOps(left, right, settings, lowMemoryLeft, lowMemoryRight)
  }

  /** The global-pool calls binding slot `slot` makes: lookups only, at most three. */
  function BindOps(pages: seq<Page>, layout: Layout, slot: nat, settings: Settings,
                   lowMemoryLeft: bool, lowMemoryRight: bool): (ops: seq<Performance.PoolOp>)
    ensures forall op :: op in ops ==> op.Acquire?
    ensures |ops| <= 3
  {
    match PagesForSlot(layout, slot)
    case Single(p) =>
      if 0 <= p < |pages| then HalfOps(Some(pages[p]), PageFactor(settings.resolution, lowMemoryLeft)) else []
    case Pair(first, _) =>
      var (l, r) := DualIndices(first, settings.leftToRight);
      if l >= 0 && r >= 0 then DualOps(pages, l, r, settings, lowMemoryLeft, lowMemoryRight) else []
  }

  /** Binding any slot keeps the global pool's invariant: it is a run of pool calls. */
  lemma BindKeepsPoolInvariant(pool: seq<Bitmap>, pages: seq<Page>, layout: Layout, slot: nat, settings: Settings,
                               lowMemoryLeft: bool, lowMemoryRight: bool)
    requires Performance.PoolInvariant(pool)
    ensures Performance.PoolInvariant(Performance.Run(pool, BindOps(pages, layout, slot, settings, lowMemoryLeft, lowMemoryRight)))
  {
    Performance.RunKeepsInvariant(pool, BindOps(pages, layout, slot, settings, lowMemoryLeft, lowMemoryRight));
  }

  class PdfPageViewHolder {
    /** The adapter's local queue, shared by all its holders. */
    const bitmapPool: BitmapQueue
    /** The PerformanceHelper singleton and its global pool. */
    const helper: Performance.PerformanceHelper
    /** Bitmap.createBitmap and GPUImage's output bitmaps. */
    const factory: BitmapFactory
    var currentBitmap: Option<Bitmap>

    ghost predicate Valid() {
      bitmapPool != helper.globalBitmapPool
    }

    constructor (bitmapPool: BitmapQueue, helper: Performance.PerformanceHelper, factory: BitmapFactory)
      requires bitmapPool != helper.globalBitmapPool
      ensures Valid() && currentBitmap == None
      ensures this.bitmapPool == bitmapPool && this.helper == helper && this.factory == factory
    {
      this.bitmapPool := bitmapPool;
      this.helper := helper;
      this.factory := factory;
      currentBitmap := None;
    }

    /**
     * recycleBitmap: offer the current bitmap to the global pool, also append
     * it to the local queue when it is live and the queue holds fewer than 10,
     * and forget it.
     */
    method RecycleBitmap()
      requires Valid()
      modifies this, helper.globalBitmapPool, bitmapPool
      ensures currentBitmap == None
      ensures helper.globalBitmapPool.items ==
        Performance.Step(old(helper.globalBitmapPool.items), Performance.Release(old(currentBitmap)))
      ensures bitmapPool.items ==
        if old(currentBitmap).Some? then Offered(old(bitmapPool.items), old(currentBitmap).value, LOCAL_POOL_SIZE)
        else old(bitmapPool.items)
      ensures |old(bitmapPool.items)| <= LOCAL_POOL_SIZE ==> |bitmapPool.items| <= LOCAL_POOL_SIZE
    {
      if currentBitmap.Some? {
        var bitmap := currentBitmap.value;
        helper.ReturnBitmapToPool(Some(bitmap));
        if !bitmap.recycled && |bitmapPool.items| < LOCAL_POOL_SIZE {
          bitmapPool.Offer(bitmap);
        }
      }
      currentBitmap := None;
    }

    /** getReusableBitmap: the same first-match lookup, on the local queue. */
    method GetReusableBitmap(width: int, height: int) returns (r: Option<Bitmap>)
      modifies bitmapPool
      ensures r.Some? ==> Reusable(r.value, width, height)
      ensures r == Taken(old(bitmapPool.items), width, height)
      ensures bitmapPool.items == AfterTake(old(bitmapPool.items), width, height)
    {
      r := bitmapPool.TakeFirstMatch(width, height);
    }

    /**
     * applyFiltersOptimized: `applied` lists the filters set on GPUImage, in
     * order; each pass yields a new bitmap of the same size.
     */
    method ApplyFiltersOptimized(bitmap: Bitmap, settings: Settings) returns (out: Bitmap, applied: seq<Filter>)
      modifies factory
      ensures applied == FilterPlan(settings.grayscale, settings.invert)
      ensures applied == [] ==> out == bitmap && factory.nextId == old(factory.nextId)
      ensures applied != [] ==>
        factory.nextId == old(factory.nextId) + |applied| &&
        out == Bitmap(factory.nextId - 1, bitmap.width, bitmap.height, false)
    {
      var needsGrayscale := settings.grayscale;
      var needsInvert := settings.invert;
      if !needsGrayscale && !needsInvert {
        return bitmap, [];
      }
      if needsGrayscale && needsInvert {
        var intermediate := factory.CreateBitmap(bitmap.width, bitmap.height);
        out := factory.CreateBitmap(intermediate.width, intermediate.height);
        applied := [Grayscale, Invert];
      } else if needsGrayscale {
        out := factory.CreateBitmap(bitmap.width, bitmap.height);
        applied := [Grayscale];
      } else {
        out := factory.CreateBitmap(bitmap.width, bitmap.height);
        applied := [Invert];
      }
    }

    /**
     * The step createBitmapFromPage and createDualPageBitmap share: take a
     * pooled bitmap of exactly this size, or allocate one.
     */
    method ObtainBitmap(width: int, height: int) returns (b: Bitmap)
      modifies helper.globalBitmapPool, factory
      ensures b.width == width && b.height == height && !b.recycled
      ensures helper.globalBitmapPool.items == AfterTake(old(helper.globalBitmapPool.items), width, height)
      ensures b == match Taken(old(helper.globalBitmapPool.items), width, height)
                   case Some(pooled) => pooled
                   case None => Bitmap(old(factory.nextId), width, height, false)
    {
      var pooled := helper.TryGetReusableBitmap(width, height);
      if pooled.None? {
        b := factory.CreateBitmap(width, height);
      } else {
        b := pooled.value;
      }
    }

    /**
     * createBitmapFromPage: reuse a pooled bitmap of the target size or
     * allocate one, render into it, then filter it.
     */
    method CreateBitmapFromPage(page: Page, settings: Settings, lowMemory: bool) returns (b: Bitmap)
      modifies helper.globalBitmapPool, factory
      ensures var f := PageFactor(settings.resolution, lowMemory);
        b.width == page.width * f && b.height == page.height * f && !b.recycled
      ensures multiset(helper.globalBitmapPool.items) <= multiset(old(helper.globalBitmapPool.items))
      ensures var f := PageFactor(settings.resolution, lowMemory);
        helper.globalBitmapPool.items == AfterTake(old(helper.globalBitmapPool.items), page.width * f, page.height * f)
      ensures var f := PageFactor(settings.resolution, lowMemory);
        !settings.grayscale && !settings.invert ==>
          b == match Taken(old(helper.globalBitmapPool.items), page.width * f, page.height * f)
               case Some(pooled) => pooled
               case None => Bitmap(old(factory.nextId), page.width * f, page.height * f, false)
    {
      var preferredResolution := settings.resolution.GetOr("LOW");
      var resolution := ResolutionFactor(Some(Performance.RecommendedResolution(preferredResolution, lowMemory)));
      var targetWidth := page.width * resolution;
      var targetHeight := page.height * resolution;
      var bitmap := ObtainBitmap(targetWidth, targetHeight);
      var applied;
      b, applied := ApplyFiltersOptimized(bitmap, settings);
    }

    /**
     * The drawing half of createDualPageBitmap: render the left half and draw
     * it at x = 0, advance x by its width, then render and draw the right half.
     */
    method DrawHalves(left: Option<Page>, right: Option<Page>, settings: Settings,
                      lowMemoryLeft: bool, lowMemoryRight: bool)
      returns (draws: seq<Placement>)
      modifies helper.globalBitmapPool, factory
      ensures |draws| == (if left.Some? then 1 else 0) + (if right.Some? then 1 else 0)
      ensures left.Some? ==>
        var f := PageFactor(settings.resolution, lowMemoryLeft);
        draws[0].x == 0 &&
        draws[0].bitmap.width == left.value.width * f && draws[0].bitmap.height == left.value.height * f
      ensures right.Some? ==>
        var f := PageFactor(settings.resolution, lowMemoryRight);
        draws[|draws| - 1].x == RightHalfX(left, PageFactor(settings.resolution, lowMemoryLeft)) &&
        draws[|draws| - 1].bitmap.width == right.value.width * f &&
        draws[|draws| - 1].bitmap.height == right.value.height * f
      ensures multiset(helper.globalBitmapPool.items) <= multiset(old(helper.globalBitmapPool.items))
      ensures helper.globalBitmapPool.items == Performance.Run(old(helper.globalBitmapPool.items),
        HalvesOps(left, right, settings, lowMemoryLeft, lowMemoryRight))
      ensures forall p :: p in draws ==> !p.bitmap.recycled
    {
      ghost var pool0 := helper.globalBitmapPool.items;
      var currentX := 0;
      var leftDraws: seq<Placement> := [];
      var leftBitmap := RenderHalf(left, settings, lowMemoryLeft);
      if leftBitmap.Some? {
        leftDraws := [Placement(leftBitmap.value, currentX)];
        currentX := currentX + leftBitmap.value.width;
      }
      assert currentX == RightHalfX(left, PageFactor(settings.resolution, lowMemoryLeft));
      var rightDraws: seq<Placement> := [];
      ghost var pool1 := helper.globalBitmapPool.items;
      var rightBitmap := RenderHalf(right, settings, lowMemoryRight);
      if rightBitmap.Some? {
        rightDraws := [Placement(rightBitmap.value, currentX)];
      }
      draws := leftDraws + rightDraws;
      HalvesRun(pool0, pool1, helper.globalBitmapPool.items, left, right, settings, lowMemoryLeft, lowMemoryRight);
    }

    /** The `page?.let { createBitmapFromPage(it) }` of one half: nothing for a missing half. */
    method RenderHalf(half: Option<Page>, settings: Settings, lowMemory: bool) returns (b: Option<Bitmap>)
      modifies helper.globalBitmapPool, factory
      ensures b.Some? <==> half.Some?
      ensures half.Some? ==>
        var f := PageFactor(settings.resolution, lowMemory);
        b.value.width == half.value.width * f && b.value.height == half.value.height * f && !b.value.recycled
      ensures helper.globalBitmapPool.items ==
        HalfTaken(old(helper.globalBitmapPool.items), half, PageFactor(settings.resolution, lowMemory))
    {
      if half.Some? {
        var bitmap := CreateBitmapFromPage(half.value, settings, lowMemory);
        b := Some(bitmap);
      } else {
        b := None;
      }
    }

    /**
     * createDualPageBitmap: open each half whose index is below the page
     * count, size the canvas by the stored tier, and draw the halves on it.
     */
    method CreateDualPageBitmap(pages: seq<Page>, leftPageIndex: nat, rightPageIndex: nat, settings: Settings,
                                lowMemoryLeft: bool, lowMemoryRight: bool)
      returns (combined: Option<Bitmap>, draws: seq<Placement>)
      modifies helper.globalBitmapPool, factory
      ensures combined.None? <==> leftPageIndex >= |pages| && rightPageIndex >= |pages|
      ensures combined.None? ==> draws == [] && helper.globalBitmapPool.items == old(helper.globalBitmapPool.items)
      ensures combined.Some? ==>
        var res := ResolutionFactor(settings.resolution);
        var left := OpenIfPresent(pages, leftPageIndex);
        var right := OpenIfPresent(pages, rightPageIndex);
        combined.value.width == CanvasWidth(left, right, res) && combined.value.height == CanvasHeight(left, right, res)
      ensures |draws| == (if leftPageIndex < |pages| then 1 else 0) + (if rightPageIndex < |pages| then 1 else 0)
      ensures leftPageIndex < |pages| ==>
        var f := PageFactor(settings.resolution, lowMemoryLeft);
        draws[0].x == 0 &&
        draws[0].bitmap.width == pages[leftPageIndex].width * f &&
        draws[0].bitmap.height == pages[leftPageIndex].height * f
      ensures rightPageIndex < |pages| ==>
        var f := PageFactor(settings.resolution, lowMemoryRight);
        draws[|draws| - 1].x == RightHalfX(OpenIfPresent(pages, leftPageIndex), PageFactor(settings.resolution, lowMemoryLeft)) &&
        draws[|draws| - 1].bitmap.width == pages[rightPageIndex].width * f &&
        draws[|draws| - 1].bitmap.height == pages[rightPageIndex].height * f
      ensures multiset(helper.globalBitmapPool.items) <= multiset(old(helper.globalBitmapPool.items))
      ensures combined.Some? ==>
        var res := ResolutionFactor(settings.resolution);
        var w := CanvasWidth(OpenIfPresent(pages, leftPageIndex), OpenIfPresent(pages, rightPageIndex), res);
        var h := CanvasHeight(OpenIfPresent(pages, leftPageIndex), OpenIfPresent(pages, rightPageIndex), res);
        && !combined.value.recycled
        && combined.value == (match Taken(old(helper.globalBitmapPool.items), w, h)
                              case Some(pooled) => pooled
                              case None => Bitmap(old(factory.nextId), w, h, false))
      ensures helper.globalBitmapPool.items == Performance.Run(old(helper.globalBitmapPool.items),
        DualOps(pages, leftPageIndex, rightPageIndex, settings, lowMemoryLeft, lowMemoryRight))
      ensures forall p :: p in draws ==> !p.bitmap.recycled
    {
      var leftPage := OpenIfPresent(pages, leftPageIndex);
      var rightPage := OpenIfPresent(pages, rightPageIndex);
      if leftPage.None? && rightPage.None? {
        return None, [];
      }
      var canvasBitmap;
      canvasBitmap, draws := ComposePair(leftPage, rightPage, settings, lowMemoryLeft, lowMemoryRight);
      combined := Some(canvasBitmap);
    }

    /**
     * The part of createDualPageBitmap after the halves are opened: take or
     * allocate the canvas at the stored factor, then draw the halves on it.
     */
    method ComposePair(left: Option<Page>, right: Option<Page>, settings: Settings,
                       lowMemoryLeft: bool, lowMemoryRight: bool)
      returns (canvas: Bitmap, draws: seq<Placement>)
      requires left.Some? || right.Some?
      modifies helper.globalBitmapPool, factory
      ensures var res := ResolutionFactor(settings.resolution);
        var w := CanvasWidth(left, right, res);
        var h := CanvasHeight(left, right, res);
        && canvas.width == w && canvas.height == h && !canvas.recycled
        && canvas == (match Taken(old(helper.globalBitmapPool.items), w, h)
                      case Some(pooled) => pooled
                      case None => Bitmap(old(factory.nextId), w, h, false))
        && helper.globalBitmapPool.items == Performance.Run(old(helper.globalBitmapPool.items),
             [Performance.Acquire(w, h)] + HalvesOps(left, right, settings, lowMemoryLeft, lowMemoryRight))
      ensures |draws| == (if left.Some? then 1 else 0) + (if right.Some? then 1 else 0)
      ensures left.Some? ==>
        var f := PageFactor(settings.resolution, lowMemoryLeft);
        draws[0].x == 0 &&
        draws[0].bitmap.width == left.value.width * f && draws[0].bitmap.height == left.value.height * f
      ensures right.Some? ==>
        var f := PageFactor(settings.resolution, lowMemoryRight);
        draws[|draws| - 1].x == RightHalfX(left, PageFactor(settings.resolution, lowMemoryLeft)) &&
        draws[|draws| - 1].bitmap.width == right.value.width * f &&
        draws[|draws| - 1].bitmap.height == right.value.height * f
      ensures forall p :: p in draws ==> !p.bitmap.recycled
      ensures multiset(helper.globalBitmapPool.items) <= multiset(old(helper.globalBitmapPool.items))
    {
      ghost var pool0 := helper.globalBitmapPool.items;
      var resolution := ResolutionFactor(settings.resolution);
      var totalWidth := CanvasWidth(left, right, resolution);
      var maxHeight := CanvasHeight(left, right, resolution);
      canvas := ObtainBitmap(totalWidth, maxHeight);
      ghost var canvasOps := [Performance.Acquire(totalWidth, maxHeight)];
      assert helper.globalBitmapPool.items == Performance.Run(pool0, canvasOps);
      draws := DrawHalves(left, right, settings, lowMemoryLeft, lowMemoryRight);
      Performance.RunConcat(pool0, canvasOps, HalvesOps(left, right, settings, lowMemoryLeft, lowMemoryRight));
    }

    /** bindSinglePage: render slot `position`'s page into currentBitmap. */
    method BindSinglePage(pages: seq<Page>, position: nat, settings: Settings, lowMemory: bool) returns (pageOpened: bool)
      modifies this, helper.globalBitmapPool, factory
      ensures pageOpened <==> position < |pages|
      ensures !pageOpened ==>
        currentBitmap == old(currentBitmap) && helper.globalBitmapPool.items == old(helper.globalBitmapPool.items)
      ensures pageOpened ==>
        var f := PageFactor(settings.resolution, lowMemory);
        currentBitmap.Some? &&
        currentBitmap.value.width == pages[position].width * f &&
        currentBitmap.value.height == pages[position].height * f
      ensures pageOpened ==> !currentBitmap.value.recycled
      ensures pageOpened ==>
        helper.globalBitmapPool.items == Performance.Run(old(helper.globalBitmapPool.items),
          HalfOps(Some(pages[position]), PageFactor(settings.resolution, lowMemory)))
    {
      if position >= |pages| {
        return false;
      }
      var bitmap := RenderHalf(Some(pages[position]), settings, lowMemory);
      currentBitmap := bitmap;
      pageOpened := true;
    }

    /**
     * bindDualPage: the cover alone in slot 0 when it is separate, otherwise
     * the pair starting at 1 + (position - 1) * 2 or position * 2, handed to
     * createDualPageBitmap in reading order.
     */
    method BindDualPage(pages: seq<Page>, position: nat, isCoverPageSeparate: bool, settings: Settings,
                        lowMemoryLeft: bool, lowMemoryRight: bool)
      returns (pageOpened: bool)
      modifies this, helper.globalBitmapPool, factory
      ensures var slot := PagesForSlot(Layout(false, isCoverPageSeparate), position);
        && (slot.Single? ==> (pageOpened <==> slot.page < |pages|))
        && (slot.Single? && pageOpened ==> currentBitmap.Some?)
        && (slot.Pair? ==> pageOpened && (currentBitmap.None? <==> slot.first >= |pages|))
      ensures pageOpened && currentBitmap.Some? ==>
        && HoldsSlot(pages, Layout(false, isCoverPageSeparate), position, settings, lowMemoryLeft, currentBitmap.value)
        && !currentBitmap.value.recycled
      ensures !pageOpened ==> currentBitmap == old(currentBitmap)
      ensures helper.globalBitmapPool.items == Performance.Run(old(helper.globalBitmapPool.items),
        BindOps(pages, Layout(false, isCoverPageSeparate), position, settings, lowMemoryLeft, lowMemoryRight))
    {
      if isCoverPageSeparate && position == 0 {
        pageOpened := BindSinglePage(pages, 0, settings, lowMemoryLeft);
      } else {
        var startPageIndex := if isCoverPageSeparate then 1 + (position - 1) * 2 else position * 2;
        assert startPageIndex == PagesForSlot(Layout(false, isCoverPageSeparate), position).first;
        BindPair(pages, startPageIndex, settings, lowMemoryLeft, lowMemoryRight);
        pageOpened := true;
      }
    }

    /** The two-page branch of bindDualPage, for the pair starting at `startPageIndex`. */
    method BindPair(pages: seq<Page>, startPageIndex: nat, settings: Settings,
                    lowMemoryLeft: bool, lowMemoryRight: bool)
      modifies this, helper.globalBitmapPool, factory
      ensures currentBitmap.None? <==> startPageIndex >= |pages|
      ensures currentBitmap.Some? ==>
        var (l, r) := DualIndices(startPageIndex, settings.leftToRight);
        var res := ResolutionFactor(settings.resolution);
        && l >= 0 && r >= 0
        && currentBitmap.value.width == CanvasWidth(OpenIfPresent(pages, l), OpenIfPresent(pages, r), res)
        && currentBitmap.value.height == CanvasHeight(OpenIfPresent(pages, l), OpenIfPresent(pages, r), res)
        && !currentBitmap.value.recycled
      ensures var (l, r) := DualIndices(startPageIndex, settings.leftToRight);
        l >= 0 && r >= 0 &&
        helper.globalBitmapPool.items == Performance.Run(old(helper.globalBitmapPool.items),
          DualOps(pages, l, r, settings, lowMemoryLeft, lowMemoryRight))
    {
      var (leftPageIndex, rightPageIndex) := DualIndices(startPageIndex, settings.leftToRight);
      var bitmap, draws := CreateDualPageBitmap(pages, leftPageIndex, rightPageIndex, settings,
                                                lowMemoryLeft, lowMemoryRight);
      currentBitmap := bitmap;
    }
  }

  class PdfPageAdapter {
    const pages: seq<Page>
    const isOnePageMode: bool
    const isCoverPageSeparate: bool
    /** The local queue handed to every holder. */
    const bitmapPool: BitmapQueue

    constructor (pages: seq<Page>, isOnePageMode: bool, isCoverPageSeparate: bool)
      ensures this.pages == pages && this.isOnePageMode == isOnePageMode
      ensures this.isCoverPageSeparate == isCoverPageSeparate
      ensures fresh(bitmapPool) && bitmapPool.items == []
    {
      this.pages := pages;
      this.isOnePageMode := isOnePageMode;
      this.isCoverPageSeparate := isCoverPageSeparate;
      bitmapPool := new BitmapQueue();
    }

    function GetLayout(): Layout {
      Layout(isOnePageMode, isCoverPageSeparate)
    }

    /** getItemCount. */
    function GetItemCount(): nat {
      ItemCount(GetLayout(), |pages|)
    }

    /** onCreateViewHolder: a new holder sharing this adapter's local queue. */
    method OnCreateViewHolder(helper: Performance.PerformanceHelper, factory: BitmapFactory)
      returns (holder: PdfPageViewHolder)
      requires bitmapPool != helper.globalBitmapPool
      ensures fresh(holder) && holder.Valid() && holder.currentBitmap == None
      ensures holder.bitmapPool == bitmapPool && holder.helper == helper && holder.factory == factory
    {
      holder := new PdfPageViewHolder(bitmapPool, helper, factory);
    }

    /**
     * onBindViewHolder for a position below getItemCount (the only ones the
     * list binds): every such slot opens exactly when the document has a
     * page, and then the holder shows that slot's page or pair.
     */
    method OnBindViewHolder(holder: PdfPageViewHolder, position: nat, settings: Settings,
                            lowMemoryLeft: bool, lowMemoryRight: bool)
      returns (pageOpened: bool)
      requires holder.bitmapPool == bitmapPool
      requires position < GetItemCount()
      modifies holder, holder.helper.globalBitmapPool, holder.factory
      ensures pageOpened <==> |pages| > 0
      ensures pageOpened ==> holder.currentBitmap.Some?
      ensures pageOpened ==>
        HoldsSlot(pages, GetLayout(), position, settings, lowMemoryLeft, holder.currentBitmap.value)
      ensures pageOpened ==> !holder.currentBitmap.value.recycled
      ensures holder.helper.globalBitmapPool.items == Performance.Run(old(holder.helper.globalBitmapPool.items),
        BindOps(pages, GetLayout(), position, settings, lowMemoryLeft, lowMemoryRight))
      ensures Performance.PoolInvariant(old(holder.helper.globalBitmapPool.items)) ==>
        Performance.PoolInvariant(holder.helper.globalBitmapPool.items)
    {
      if isOnePageMode {
        pageOpened := holder.BindSinglePage(pages, position, settings, lowMemoryLeft);
      } else {
        pageOpened := holder.BindDualPage(pages, position, isCoverPageSeparate, settings, lowMemoryLeft, lowMemoryRight);
        if |pages| > 0 {
          SlotStartInRange(GetLayout(), |pages|, position);
        }
      }
      if Performance.PoolInvariant(old(holder.helper.globalBitmapPool.items)) {
        BindKeepsPoolInvariant(old(holder.helper.globalBitmapPool.items), pages, GetLayout(), position, settings,
                               lowMemoryLeft, lowMemoryRight);
      }
    }

    /** onViewRecycled. */
    method OnViewRecycled(holder: PdfPageViewHolder)
      requires holder.Valid()
      modifies holder, holder.helper.globalBitmapPool, holder.bitmapPool
      ensures holder.currentBitmap == None
      ensures holder.helper.globalBitmapPool.items ==
        Performance.Step(old(holder.helper.globalBitmapPool.items), Performance.Release(old(holder.currentBitmap)))
      ensures holder.bitmapPool.items ==
        if old(holder.currentBitmap).Some?
        then Offered(old(holder.bitmapPool.items), old(holder.currentBitmap).value, LOCAL_POOL_SIZE)
        else old(holder.bitmapPool.items)
      ensures |old(holder.bitmapPool.items)| <= LOCAL_POOL_SIZE ==> |holder.bitmapPool.items| <= LOCAL_POOL_SIZE
    {
      holder.RecycleBitmap();
    }
  }
}
