/**
 * The arithmetic of PdfPageAdapter: how many list slots there are, which
 * page or pair of pages each slot shows, the resolution table, the filter
 * plan and the size and placement of a composed two-page bitmap.
 */
module PageLayout {
  import opened Options
  import opened Bitmaps
  import Performance

  /** The two adapter flags that decide the slot layout. */
  datatype Layout = Layout(onePage: bool, coverSeparate: bool)

  /** getItemCount: the number of list slots for a document of `pageCount` pages. */
  function ItemCount(layout: Layout, pageCount: nat): (n: nat)
    ensures pageCount > 0 ==> n > 0
    ensures n <= pageCount || (pageCount == 0 && n == 1 && !layout.onePage && layout.coverSeparate)
  {
    if layout.onePage then pageCount
    else if layout.coverSeparate then 1 + ((pageCount - 1) + 1) / 2
    else (pageCount + 1) / 2
  }

  /** What one slot shows: a single page, or a pair `(first, first + 1)` in reading order. */
  datatype SlotPages = Single(page: int) | Pair(first: int, second: int) {
    /** The page a bind opens first (the only one for Single). */
    function Start(): int {
      if Single? then page else first
    }

    predicate Shows(p: int) {
      match this
      case Single(q) => p == q
      case Pair(a, b) => p == a || p == b
    }
  }

  /** The page indices bindSinglePage / bindDualPage compute for a slot. */
  function PagesForSlot(layout: Layout, slot: nat): (r: SlotPages)
    ensures r.Pair? ==> r.second == r.first + 1 && r.first >= 0
  {
    if layout.onePage then Single(slot)
    else if layout.coverSeparate && slot == 0 then Single(0)
    else
      var start := if layout.coverSeparate then 1 + (slot - 1) * 2 else slot * 2;
      Pair(start, start + 1)
  }

  /** Reference inverse of PagesForSlot: the slot that shows (0-based) page `page`. */
  function SlotOfPage(layout: Layout, page: nat): nat {
    if layout.onePage then page
    else if layout.coverSeparate then (if page == 0 then 0 else (page + 1) / 2)
    else page / 2
  }

  /** A slot shows a page exactly when it is that page's slot: no page is in two slots. */
  lemma ShowsIffSlotOfPage(layout: Layout, slot: nat, page: nat)
    ensures PagesForSlot(layout, slot).Shows(page) <==> slot == SlotOfPage(layout, page)
  {
  }

  /** Every page of the document has a valid slot. */
  lemma SlotOfPageInRange(layout: Layout, pageCount: nat, page: nat)
    requires page < pageCount
    ensures SlotOfPage(layout, page) < ItemCount(layout, pageCount)
  {
  }

  /** In a non-empty document every valid slot starts on a page that exists. */
  lemma SlotStartInRange(layout: Layout, pageCount: nat, slot: nat)
    requires 1 <= pageCount && slot < ItemCount(layout, pageCount)
    ensures 0 <= PagesForSlot(layout, slot).Start() < pageCount
  {
  }

  /**
   * Coverage: every page of the document is shown by exactly one valid slot,
   * and every valid slot shows at least one page of the document.
   */
  lemma Coverage(layout: Layout, pageCount: nat, page: nat, slot: nat)
    requires 1 <= pageCount && page < pageCount && slot < ItemCount(layout, pageCount)
    ensures PagesForSlot(layout, slot).Shows(page) <==> slot == SlotOfPage(layout, page)
    ensures SlotOfPage(layout, page) < ItemCount(layout, pageCount)
    ensures PagesForSlot(layout, slot).Start() < pageCount
  {
    ShowsIffSlotOfPage(layout, slot, page);
    SlotOfPageInRange(layout, pageCount, page);
    SlotStartInRange(layout, pageCount, slot);
  }

  /**
   * No slot is wasted: the last page of a non-empty document sits in the
   * last slot, so with Coverage the slots are exactly the ones the pages need.
   */
  lemma LastPageInLastSlot(layout: Layout, pageCount: nat)
    requires pageCount >= 1
    ensures SlotOfPage(layout, pageCount - 1) == ItemCount(layout, pageCount) - 1
  {
  }

  /** An empty document with a separate cover still has one slot, and it shows page 0. */
  lemma EmptyCoverDocument()
    ensures ItemCount(Layout(false, true), 0) == 1
    ensures PagesForSlot(Layout(false, true), 0) == Single(0)
  {
  }

  /** The (left, right) page indices bindDualPage passes on: reading direction only swaps them. */
  function DualIndices(start: int, leftToRight: bool): (r: (int, int))
    ensures {r.0, r.1} == {start, start + 1}
    ensures r.0 == start <==> leftToRight
  {
    if leftToRight then (start, start + 1) else (start + 1, start)
  }

  /** The upscale factor table (resLow, resMedium, resHigh); a null tier falls to the last row. */
  function ResolutionFactor(tier: Option<string>): (f: int)
    ensures 2 <= f <= 4
    ensures f == 2 <==> tier == Some("LOW")
    ensures f == 3 <==> tier == Some("MEDIUM")
  {
    if tier == Some("LOW") then 2
    else if tier == Some("MEDIUM") then 3
    else 4
  }

  /** The factor createBitmapFromPage renders one page at: stored tier (or LOW), then downgraded. */
  function PageFactor(preferred: Option<string>, lowMemory: bool): int {
    ResolutionFactor(Some(Performance.RecommendedResolution(preferred.GetOr("LOW"), lowMemory)))
  }

  /** Memory pressure never raises the factor; without pressure a stored tier is used as is. */
  lemma DowngradeNeverRaises(preferred: string, lowMemory: bool)
    ensures PageFactor(Some(preferred), lowMemory) <= ResolutionFactor(Some(preferred))
    ensures !lowMemory ==> PageFactor(Some(preferred), lowMemory) == ResolutionFactor(Some(preferred))
    ensures lowMemory ==> PageFactor(Some(preferred), lowMemory) == if preferred == "HIGH" then 3 else 2
  {
  }

  /**
   * createDualPageBitmap sizes the canvas with the stored tier, while each half
   * is rendered at the downgraded one: a half is never larger than the canvas
   * expects, and the two agree when memory is not low and a tier is stored.
   */
  lemma HalfFactorAtMostCanvasFactor(preferred: Option<string>, lowMemory: bool)
    ensures PageFactor(preferred, lowMemory) <= ResolutionFactor(preferred)
    ensures !lowMemory && preferred.Some? ==> PageFactor(preferred, lowMemory) == ResolutionFactor(preferred)
  {
  }

  /** The two ways the canvas factor and the half factor disagree. */
  lemma CanvasAndHalfFactorsDiffer()
    ensures PageFactor(Some("HIGH"), true) == 3 && ResolutionFactor(Some("HIGH")) == 4
    ensures PageFactor(None, false) == 2 && ResolutionFactor(None) == 4
  {
  }

  /** A GPUImage filter. */
  datatype Filter = Grayscale | Invert

  /** applyFiltersOptimized's choice of filters, in the order they are applied. */
  function FilterPlan(grayscale: bool, invert: bool): (plan: seq<Filter>)
    ensures plan == [] <==> !grayscale && !invert
    ensures grayscale && invert ==> plan == [Grayscale, Invert]
    ensures grayscale != invert ==> plan == [if grayscale then Grayscale else Invert]
    ensures forall f :: f in plan <==> (f == Grayscale && grayscale) || (f == Invert && invert)
  {
    if grayscale && invert then [Grayscale, Invert]
    else if grayscale then [Grayscale]
    else if invert then [Invert]
    else []
  }

  /** createDualPageBitmap opens a half only when its index is below the page count. */
  function OpenIfPresent(pages: seq<Page>, index: nat): (r: Option<Page>)
    ensures r.Some? <==> index < |pages|
  {
    if index < |pages| then Some(pages[index]) else None
  }

  function WidthOf(p: Option<Page>): int {
    if p.Some? then p.value.width else 0
  }

  function HeightOf(p: Option<Page>): int {
    if p.Some? then p.value.height else 0
  }

  function Max(a: int, b: int): int {
    if a >= b then a else b
  }

  /** Width of the composed bitmap: both widths (a missing half counts 0) times the factor. */
  function CanvasWidth(left: Option<Page>, right: Option<Page>, res: int): int {
    (WidthOf(left) + WidthOf(right)) * res
  }

  /** Height of the composed bitmap: the taller half times the factor. */
  function CanvasHeight(left: Option<Page>, right: Option<Page>, res: int): int {
    Max(HeightOf(left), HeightOf(right)) * res
  }

  /** x at which the right half is drawn: the rendered left bitmap's width, 0 without one. */
  function RightHalfX(left: Option<Page>, leftRes: int): int {
    WidthOf(left) * leftRes
  }

  predicate PageSizeValid(p: Option<Page>) {
    p.Some? ==> p.value.width >= 0 && p.value.height >= 0
  }

  lemma MulMonotone(a: int, x: int, y: int)
    requires a >= 0 && x <= y
    ensures a * x <= a * y
  {
  }

  /** A size of `h` at factor `r` fits in a size of `m >= h` at factor `res >= r`. */
  lemma ScaledFits(h: int, m: int, r: int, res: int)
    requires 0 <= h <= m && 0 < r <= res
    ensures h * r <= m * res
  {
    MulMonotone(h, r, res);
    assert (m - h) * res >= 0;
  }

  /** A width at factor `r <= res` reaches its width at `res` only when it is 0 or the factors agree. */
  lemma ScaledWidthExact(w: int, r: int, res: int)
    requires w >= 0 && 0 < r <= res
    ensures w * r <= w * res
    ensures w * r == w * res <==> w == 0 || r == res
  {
    MulMonotone(w, r, res);
    if w > 0 && r < res {
      assert w * res - w * r == w * (res - r);
      MulMonotone(w, 1, res - r);
    }
  }

  /** Two scaled widths fill their sum at the canvas factor exactly when each is 0 or at that factor. */
  lemma WidthsTile(wl: int, wr: int, leftRes: int, rightRes: int, res: int)
    requires wl >= 0 && wr >= 0 && 0 < leftRes <= res && 0 < rightRes <= res
    ensures wl * leftRes + wr * rightRes <= (wl + wr) * res
    ensures wl * leftRes + wr * rightRes == (wl + wr) * res <==>
      (wl == 0 || leftRes == res) && (wr == 0 || rightRes == res)
  {
    ScaledWidthExact(wl, leftRes, res);
    ScaledWidthExact(wr, rightRes, res);
    assert (wl + wr) * res == wl * res + wr * res;
  }

  /**
   * The halves drawn at 0 and at RightHalfX fit inside the canvas whenever each
   * half's factor is at most the canvas factor, and tile its width exactly
   * when every half of non-zero width is at the canvas factor.
   */
  lemma HalvesFitCanvas(left: Option<Page>, right: Option<Page>, res: int, leftRes: int, rightRes: int)
    requires PageSizeValid(left) && PageSizeValid(right)
    requires 0 < leftRes <= res && 0 < rightRes <= res
    ensures RightHalfX(left, leftRes) + WidthOf(right) * rightRes <= CanvasWidth(left, right, res)
    ensures HeightOf(left) * leftRes <= CanvasHeight(left, right, res)
    ensures HeightOf(right) * rightRes <= CanvasHeight(left, right, res)
    ensures RightHalfX(left, leftRes) + WidthOf(right) * rightRes == CanvasWidth(left, right, res) <==>
      (WidthOf(left) == 0 || leftRes == res) && (WidthOf(right) == 0 || rightRes == res)
  {
    WidthsTile(WidthOf(left), WidthOf(right), leftRes, rightRes, res);
    var m := Max(HeightOf(left), HeightOf(right));
    ScaledFits(HeightOf(left), m, leftRes, res);
    ScaledFits(HeightOf(right), m, rightRes, res);
  }

  /** A valid two-page slot of a non-empty document never has both halves missing. */
  lemma DualSlotHasAPage(layout: Layout, pages: seq<Page>, slot: nat, leftToRight: bool)
    requires !layout.onePage && |pages| >= 1 && slot < ItemCount(layout, |pages|)
    requires PagesForSlot(layout, slot).Pair?
    ensures var (l, r) := DualIndices(PagesForSlot(layout, slot).first, leftToRight);
      OpenIfPresent(pages, l).Some? || OpenIfPresent(pages, r).Some?
  {
    SlotStartInRange(layout, |pages|, slot);
  }
}
