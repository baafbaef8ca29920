# PDF reader core, modelled in Dafny

This project models the exact, sequential logic of an Android PDF reader written in Kotlin. It leaves out the UI around that logic. Four parts are modelled:

- **Page layout** (`PageLayout.dfy`, `PageAdapter.dfy`):
  - how many list slots a document of `N` pages gets in one-page, cover-separate and plain-pair mode;
  - which page or pair of pages each slot shows, in reading order;
  - the resolution tier table (LOW 2, MEDIUM 3, anything else 4);
  - the GPU filter plan;
  - the size of the composed two-page bitmap and the x offset of its right half.
  
  `PdfPageViewHolder` and `PdfPageAdapter` are classes. Binding a slot renders through the pools and stores the result in `currentBitmap`; recycling a holder hands that bitmap back to the pools.
- **Navigation** (`Navigation.dfy`): the page arithmetic of `MainActivity`:
  - jump-to-page;
  - the page remembered across a one-page / two-page switch;
  - the page indicator text;
  - the seek bar in both directions.
  
  Each is proved consistent with the slot layout where it is. Where it is not, the failing inputs are characterised, including the empty document with a separate cover.
- **Bitmap pools** (`Bitmaps.dfy`, `Performance.dfy`):
  - the global pool of `PerformanceHelper`, a FIFO of at most 15 bitmaps with removal of the first live bitmap of the exact size;
  - the adapter's local queue, of at most 10;
  - the resolution downgrade under memory pressure.
  
  The queue is a class over a `seq` of bitmap records. Its lookup is a loop proved against a specification function. A lemma shows that no sequence of pool calls breaks the pool invariant. Binding a slot is stated as such a sequence: the canvas lookup, then the left half's, then the right half's.
- **Zoom and pan** (`ZoomView.dfy`): `ZoomableImageView` as a class whose fields the gesture callbacks update. The Android `Matrix` is a uniform scale plus a translation over reals. The following are proved:
  - the scale clamp;
  - centre versus focus pivot;
  - the edge correction on zoom-out;
  - the translation fix-up and its allowed ranges;
  - the double-tap toggle;
  - drag gating by mode and zoom;
  - the fit-to-view initial state;
  - the invariant `matrix.scale == fit scale * saveScale`, kept by every callback.

Preferences are an immutable `Settings` record (`Settings.dfy`). Its `Defaults` are the getters' fallbacks:
- left to right;
- one page;
- separate cover;
- horizontal;
- page 0;
- resolution "LOW";
- portrait;
- no invert;
- no grayscale.

"Memory is low" is a boolean input, taken once for each page render.

Kotlin's `Int` division truncates toward zero. `Navigation.Quot` and `Navigation.Rem` model it, because jump-to-page divides user input. Every other division in the modelled code has a non-negative dividend, where truncation and Dafny's division agree.

## Model

| member | source | states |
|---|---|---|
| Bitmaps.FirstMatch | app/src/main/java/com/example/pdfreader/PerformanceHelper.kt:55-62 | the index found holds a live bitmap of the requested size, no earlier entry does, and there is none exactly when no entry matches |
| Bitmaps.Taken | app/src/main/java/com/example/pdfreader/PerformanceHelper.kt:55-65 | a lookup hands out a live bitmap of exactly the requested size taken from the pool, and nothing exactly when no pooled bitmap matches |
| Bitmaps.AfterTake | app/src/main/java/com/example/pdfreader/PerformanceHelper.kt:55-65 | a miss leaves the pool unchanged; a hit removes exactly the first match, one copy of it, and keeps the entries before and after it in order |
| Bitmaps.Offered | app/src/main/java/com/example/pdfreader/PerformanceHelper.kt:71-77 | offering under a cap appends only a live bitmap and only below the cap, otherwise changes nothing; the length grows by exactly one when it appends, so a pool within the cap stays within it |
| Bitmaps.BitmapFactory.CreateBitmap | app/src/main/java/com/example/pdfreader/PdfPageAdapter.kt:171-175 | a fresh, live bitmap of the requested size with a new identity |
| Bitmaps.BitmapQueue.TakeFirstMatch | app/src/main/java/com/example/pdfreader/PerformanceHelper.kt:54-66 | the iterator walk returns Taken and leaves AfterTake of the old queue |
| Bitmaps.BitmapQueue.Offer | app/src/main/java/com/example/pdfreader/PerformanceHelper.kt:74 | offer appends at the tail |
| Bitmaps.BitmapQueue.Clear | app/src/main/java/com/example/pdfreader/PerformanceHelper.kt:86 | clear empties the queue |
| Performance.RecommendedResolution | app/src/main/java/com/example/pdfreader/PerformanceHelper.kt:40-49 | without memory pressure the preferred tier is kept; under pressure HIGH becomes MEDIUM and every other tier becomes LOW |
| Performance.StepKeepsInvariant | app/src/main/java/com/example/pdfreader/PerformanceHelper.kt:54-87 | each of acquire, release and clear keeps the global pool at most 15 long and free of recycled bitmaps |
| Performance.RunKeepsInvariant | app/src/main/java/com/example/pdfreader/PerformanceHelper.kt:12-16 | any sequence of pool calls keeps the pool within MAX_BITMAP_POOL_SIZE = 15 with no recycled entry |
| Performance.RunAcquiresShrinks | app/src/main/java/com/example/pdfreader/PerformanceHelper.kt:54-66 | a sequence of lookups only removes bitmaps from the pool, never adds one |
| Performance.PerformanceHelper.constructor | app/src/main/java/com/example/pdfreader/PerformanceHelper.kt:16 | the global pool starts empty |
| Performance.PerformanceHelper.TryGetReusableBitmap | app/src/main/java/com/example/pdfreader/PerformanceHelper.kt:54-66 | a hit has exactly the size asked for and is live; null exactly when no live bitmap of that size is pooled, and then the pool is unchanged; a hit removes only the first match |
| Performance.PerformanceHelper.ReturnBitmapToPool | app/src/main/java/com/example/pdfreader/PerformanceHelper.kt:71-77 | appends only a non-null, live bitmap while the pool has fewer than 15 entries, otherwise the pool is unchanged |
| Performance.PerformanceHelper.ClearBitmapPool | app/src/main/java/com/example/pdfreader/PerformanceHelper.kt:82-87 | the pool is empty afterwards |
| PageLayout.ItemCount | app/src/main/java/com/example/pdfreader/PdfPageAdapter.kt:54-66 | a non-empty document has at least one slot and never more slots than pages; only an empty document with a separate cover gets a slot anyway |
| PageLayout.PagesForSlot | app/src/main/java/com/example/pdfreader/PdfPageAdapter.kt:121-135 | a two-page slot shows consecutive, non-negative page indices |
| PageLayout.ShowsIffSlotOfPage | app/src/main/java/com/example/pdfreader/PdfPageAdapter.kt:113-135 | a slot shows a page exactly when it is that page's slot, so no page is shown by two slots |
| PageLayout.SlotOfPageInRange | app/src/main/java/com/example/pdfreader/PdfPageAdapter.kt:54-66 | every page of the document has a slot below getItemCount |
| PageLayout.SlotStartInRange | app/src/main/java/com/example/pdfreader/PdfPageAdapter.kt:121-135 | in a non-empty document every valid slot starts on an existing page |
| PageLayout.Coverage | app/src/main/java/com/example/pdfreader/PdfPageAdapter.kt:121-135 | every page is shown by exactly one valid slot and every valid slot starts on an existing page |
| PageLayout.LastPageInLastSlot | app/src/main/java/com/example/pdfreader/PdfPageAdapter.kt:54-66 | the last page lies in the last slot, so getItemCount creates no empty slot |
| PageLayout.EmptyCoverDocument | app/src/main/java/com/example/pdfreader/PdfPageAdapter.kt:58-60 | an empty document with a separate cover has one slot, and that slot asks for page 0 |
| PageLayout.DualIndices | app/src/main/java/com/example/pdfreader/PdfPageAdapter.kt:137-151 | the reading direction only decides which of start and start + 1 goes left |
| PageLayout.ResolutionFactor | app/src/main/java/com/example/pdfreader/PdfPageAdapter.kt:245-249 | LOW gives 2, MEDIUM gives 3, anything else (null included) gives 4 |
| PageLayout.DowngradeNeverRaises | app/src/main/java/com/example/pdfreader/PdfPageAdapter.kt:157-162 | memory pressure never raises the factor a page is rendered at; without pressure the stored tier is used |
| PageLayout.HalfFactorAtMostCanvasFactor | app/src/main/java/com/example/pdfreader/PdfPageAdapter.kt:245-249 | the factor each half is rendered at never exceeds the factor the canvas is sized with, and the two agree without pressure when a tier is stored |
| PageLayout.CanvasAndHalfFactorsDiffer | app/src/main/java/com/example/pdfreader/PdfPageAdapter.kt:245-249 | under pressure at HIGH, and with no stored tier, the canvas factor and the half factor differ |
| PageLayout.FilterPlan | app/src/main/java/com/example/pdfreader/PdfPageAdapter.kt:203-238 | no filter without either flag, grayscale before invert with both, otherwise exactly the enabled one |
| PageLayout.OpenIfPresent | app/src/main/java/com/example/pdfreader/PdfPageAdapter.kt:251-257 | a half is opened exactly when its index is below the page count |
| PageLayout.HalvesFitCanvas | app/src/main/java/com/example/pdfreader/PdfPageAdapter.kt:262-297 | the left half at x = 0 and the right half at x = rendered left width fit in the canvas, and tile its width exactly when every half of non-zero width is at the canvas factor, so a half downgraded under memory pressure leaves a gap |
| PageLayout.DualSlotHasAPage | app/src/main/java/com/example/pdfreader/PdfPageAdapter.kt:251-260 | for a valid two-page slot of a non-empty document at least one half is opened, so the combined bitmap is never null |
| PageAdapter.PdfPageViewHolder.constructor | app/src/main/java/com/example/pdfreader/PdfPageAdapter.kt:73-85 | a holder starts without a bitmap and shares the adapter's queue |
| PageAdapter.PdfPageViewHolder.RecycleBitmap | app/src/main/java/com/example/pdfreader/PdfPageAdapter.kt:100-111 | currentBitmap becomes null; the bitmap is offered to the global pool and appended to the local queue only when live and the queue holds fewer than 10, so the queue never exceeds 10 |
| PageAdapter.PdfPageViewHolder.GetReusableBitmap | app/src/main/java/com/example/pdfreader/PdfPageAdapter.kt:189-201 | the same first-match removal on the local queue |
| PageAdapter.PdfPageViewHolder.ApplyFiltersOptimized | app/src/main/java/com/example/pdfreader/PdfPageAdapter.kt:203-238 | the filters applied are the filter plan; with none the very same bitmap is returned, otherwise a new bitmap of the same size from the last pass |
| PageAdapter.PdfPageViewHolder.ObtainBitmap | app/src/main/java/com/example/pdfreader/PdfPageAdapter.kt:168-176 | a pooled bitmap of exactly the size if there is one, else a freshly allocated one; the pool loses only that match |
| PageAdapter.PdfPageViewHolder.CreateBitmapFromPage | app/src/main/java/com/example/pdfreader/PdfPageAdapter.kt:155-187 | the result is page size times the downgraded factor and live; the pool only shrinks |
| PageAdapter.PdfPageViewHolder.DrawHalves | app/src/main/java/com/example/pdfreader/PdfPageAdapter.kt:285-298 | one draw per present half, each live; the left at x = 0, the right at the rendered left width, each at its own factor; the global pool loses exactly the left half's first match and then the right half's, in that order |
| PageAdapter.PdfPageViewHolder.RenderHalf | app/src/main/java/com/example/pdfreader/PdfPageAdapter.kt:286-297 | a present half is rendered to a live bitmap of its size at its factor, taking that size's first match from the pool; a missing half renders nothing and leaves the pool as it was |
| PageAdapter.PdfPageViewHolder.ComposePair | app/src/main/java/com/example/pdfreader/PdfPageAdapter.kt:262-299 | the canvas is the pooled first match of the summed width and taller height at the stored factor, or else a new live bitmap with the next identity; the pool loses the canvas match, then the left and right halves' matches, in that order |
| PageAdapter.PdfPageViewHolder.CreateDualPageBitmap | app/src/main/java/com/example/pdfreader/PdfPageAdapter.kt:240-301 | null exactly when both indices are out of range (and then nothing is drawn or taken); otherwise a live canvas of the summed widths and the taller height at the stored factor, which is the pooled first match of that size or else a new bitmap, and the pool is the three lookups of DualOps applied in order |
| PageAdapter.PdfPageViewHolder.BindSinglePage | app/src/main/java/com/example/pdfreader/PdfPageAdapter.kt:113-119 | opens exactly when the position is a page, and then holds a live bitmap of that page's rendered size, with the pool losing exactly that size's first match; otherwise nothing changes |
| PageAdapter.PdfPageViewHolder.BindDualPage | app/src/main/java/com/example/pdfreader/PdfPageAdapter.kt:121-153 | the cover alone in slot 0, otherwise the slot's pair in reading order composed into one live bitmap, missing only when the pair lies past the end; the held bitmap is HoldsSlot of the position and the pool is BindOps of it applied in order |
| PageAdapter.PdfPageViewHolder.BindPair | app/src/main/java/com/example/pdfreader/PdfPageAdapter.kt:129-151 | a pair slot holds nothing exactly when its start is past the end, otherwise a live canvas sized from its halves in reading order; the pool is DualOps of those halves applied in order |
| PageAdapter.BindOps | app/src/main/java/com/example/pdfreader/PdfPageAdapter.kt:113-153 | the pool calls a bind makes are lookups only, at most three |
| PageAdapter.BindKeepsPoolInvariant | app/src/main/java/com/example/pdfreader/PdfPageAdapter.kt:46-52 | binding any slot keeps the global pool at most 15 long with no recycled entry |
| PageAdapter.PdfPageAdapter.constructor | app/src/main/java/com/example/pdfreader/PdfPageAdapter.kt:20-29 | the adapter keeps its flags and starts with an empty local queue |
| PageAdapter.PdfPageAdapter.OnCreateViewHolder | app/src/main/java/com/example/pdfreader/PdfPageAdapter.kt:34-44 | a new holder sharing the adapter's queue |
| PageAdapter.PdfPageAdapter.OnBindViewHolder | app/src/main/java/com/example/pdfreader/PdfPageAdapter.kt:46-52 | every slot below getItemCount binds exactly when the document has a page, and the holder then shows a live bitmap of that slot's page at its render factor or of the slot's pair composed in reading order at the stored factor; the pool is BindOps of the slot applied in order, so the pool invariant survives the bind |
| PageAdapter.PdfPageAdapter.OnViewRecycled | app/src/main/java/com/example/pdfreader/PdfPageAdapter.kt:68-71 | the holder is left without a bitmap; its bitmap is offered to the global pool (cap 15) and appended to the local queue only when live and the queue holds fewer than 10, so the queue never exceeds 10 |
| Navigation.JumpLandsOnPage | app/src/main/java/com/example/pdfreader/MainActivity.kt:498-505 | every page the dialog accepts (1..N) maps to a valid slot, the slot of that page, which shows it |
| Navigation.RememberIntoTwoPages | app/src/main/java/com/example/pdfreader/MainActivity.kt:514-518 | switching to two pages, page p is remembered as the slot that shows p, a valid slot when p exists |
| Navigation.RememberIntoOnePagePairs | app/src/main/java/com/example/pdfreader/MainActivity.kt:511-512 | switching to one page from plain pairs, slot s is remembered as one of its own pages (second if s is even, first if odd), which is missing exactly for an even last slot of an odd document (as-written half of a finding) |
| Navigation.RememberIntoOnePageCover | app/src/main/java/com/example/pdfreader/MainActivity.kt:510 | switching to one page with a separate cover, slot s >= 1 is remembered as its first page; slot 0 as -1 |
| Navigation.RememberCorrectedRoundTrip | app/src/main/java/com/example/pdfreader/MainActivity.kt:508-513 | with every two-page slot remembered as its first page (page 0 for a separate cover), every valid slot round-trips through an existing page of it, in both two-page layouts |
| Navigation.MenuReselectMoves | app/src/main/java/com/example/pdfreader/MainActivity.kt:363-379 | choosing the mode already shown still converts the current item as if it were of the other kind, so the saved position changes for every item except the few listed per layout |
| Navigation.MenuSelectCorrectedKeepsPosition | app/src/main/java/com/example/pdfreader/MainActivity.kt:182-188 | remembering only when the mode changes keeps the screen: the same item on a re-selection, a page of the slot on a switch to one page, the slot showing the page on a switch to two, always a valid item |
| Navigation.IndicatorShowsSlotPages | app/src/main/java/com/example/pdfreader/MainActivity.kt:526-548 | the indicator shows exactly the 1-based numbers of the existing pages of the current slot, a single number when the second does not exist; an empty document with a separate cover has one slot, which reads "1 / 0" |
| Navigation.RightToLeftMirrors | app/src/main/java/com/example/pdfreader/MainActivity.kt:526-548 | the right-to-left text is the left-to-right text with the two sides of " / " exchanged |
| Navigation.SeekOnePageRoundTrip | app/src/main/java/com/example/pdfreader/MainActivity.kt:554-561 | in one-page mode progress is the slot, within the bar, and the handler maps it back to the slot |
| Navigation.SeekPairsRoundTrip | app/src/main/java/com/example/pdfreader/MainActivity.kt:554-561 | for plain pairs progress 2s + 1 is a page of slot s and maps back to s; it is within the bar exactly when 2s + 1 < N |
| Navigation.SeekCoverProgress | app/src/main/java/com/example/pdfreader/MainActivity.kt:554-561 | with a separate cover in a non-empty document progress is an existing page of the slot within [0, max(0, N - 1)], and the handler maps it back only for the last slot of an even document; in an empty document the only slot sets progress -1 |
| Navigation.SeekCoverTarget | app/src/main/java/com/example/pdfreader/MainActivity.kt:655-667 | with a separate cover the handler's progress / 2 + 1 is the slot of page progress exactly for odd progress, and is one past the last slot exactly at the last page of an odd document |
| Navigation.SeekTargetCorrectedShowsPage | app/src/main/java/com/example/pdfreader/MainActivity.kt:655-667 | mapping progress to the slot of that page lands on a valid slot showing it in every layout |
| ZoomView.PostScaleFixesPivot | app/src/main/java/com/example/pdfreader/ZoomableImageView.kt:111 | postScale about the screen point of an image point leaves that point in place and multiplies the scale |
| ZoomView.PostScaleInverse | app/src/main/java/com/example/pdfreader/ZoomableImageView.kt:137 | postScale by s and then by 1 / s about the same pivot restores the matrix |
| ZoomView.GetFixTranslation | app/src/main/java/com/example/pdfreader/ZoomableImageView.kt:212-229 | trans + fix is in the allowed range, fix is 0 exactly when trans already is, and a nonzero fix lands on the nearer bound |
| ZoomView.FixIsNearest | app/src/main/java/com/example/pdfreader/ZoomableImageView.kt:212-229 | no translation in the allowed range is nearer to trans than trans + fix |
| ZoomView.FixedProperties | app/src/main/java/com/example/pdfreader/ZoomableImageView.kt:199-210 | fixTranslation keeps the scale, puts both axes in range, leaves an in-range matrix alone and is idempotent |
| ZoomView.EdgeFixInRange | app/src/main/java/com/example/pdfreader/ZoomableImageView.kt:115-124 | the zoom-out edge correction with right / bottom as bound lands in the allowed range, and equals getFixTranslation when the content covers the view |
| ZoomView.ClampZoom | app/src/main/java/com/example/pdfreader/ZoomableImageView.kt:75-85 | the new saveScale is within [minZoom, maxZoom], the applied factor is new / old, an in-range gesture is applied as is and an out-of-range one stops at the bound |
| ZoomView.FitToView | app/src/main/java/com/example/pdfreader/ZoomableImageView.kt:244-263 | the fit scale is min(w / bw, h / bh), and content plus both margins make up the view on each axis |
| ZoomView.FitToViewFits | app/src/main/java/com/example/pdfreader/ZoomableImageView.kt:244-263 | the fitted bitmap fits, keeps its aspect ratio, both margins are non-negative and one is zero |
| ZoomView.OverflowWhenFitted | app/src/main/java/com/example/pdfreader/ZoomableImageView.kt:87-88 | right / bottom equal the zoomed content's size less the view's once the view is fitted |
| ZoomView.ScaledMatrix | app/src/main/java/com/example/pdfreader/ZoomableImageView.kt:90-125 | onScale multiplies the matrix scale by exactly the applied factor |
| ZoomView.ScaledMatrixInRange | app/src/main/java/com/example/pdfreader/ZoomableImageView.kt:90-125 | zooming out about the focus puts both axes in range; about the centre it puts the one axis it corrects in range |
| ZoomView.UnitScaleChangesNothing | app/src/main/java/com/example/pdfreader/ZoomableImageView.kt:74-128 | a gesture factor of 1 changes neither the zoom nor the matrix |
| ZoomView.ZoomableImageView.constructor | app/src/main/java/com/example/pdfreader/ZoomableImageView.kt:23-44 | the initial field values, with the scale invariant holding |
| ZoomView.ZoomableImageView.OnScaleBegin | app/src/main/java/com/example/pdfreader/ZoomableImageView.kt:69-72 | the mode becomes ZOOM |
| ZoomView.ZoomableImageView.OnScale | app/src/main/java/com/example/pdfreader/ZoomableImageView.kt:74-128 | saveScale is clamped into [minZoom, maxZoom], right / bottom are the new overflow, the matrix is scaled by the applied factor about the centre or the focus with the edge correction on zoom-out, the scale invariant holds, and a fitted view's corrected axes land in range |
| ZoomView.ZoomableImageView.ClampSaveScale | app/src/main/java/com/example/pdfreader/ZoomableImageView.kt:75-85 | the new zoom and applied factor are ClampZoom's, and the applied factor times the old zoom is the new zoom |
| ZoomView.ZoomableImageView.UpdateOverflow | app/src/main/java/com/example/pdfreader/ZoomableImageView.kt:87-88 | right and bottom are the overflow at the current zoom, the content size less the view size once fitted |
| ZoomView.ZoomableImageView.ScaleAbout | app/src/main/java/com/example/pdfreader/ZoomableImageView.kt:90-125 | the matrix steps of onScale give ScaledMatrix and keep the scale invariant; a zoom-out lands the corrected axes in range |
| ZoomView.ZoomableImageView.ApplyScale | app/src/main/java/com/example/pdfreader/ZoomableImageView.kt:111 | postScale by the applied factor re-establishes the scale invariant |
| ZoomView.ZoomableImageView.ApplyTranslate | app/src/main/java/com/example/pdfreader/ZoomableImageView.kt:117 | postTranslate keeps the scale invariant |
| ZoomView.ZoomableImageView.FixTranslation | app/src/main/java/com/example/pdfreader/ZoomableImageView.kt:199-210 | both axes end in their allowed ranges for the current zoom, by getFixTranslation's shifts, with the scale unchanged |
| ZoomView.ZoomableImageView.OnDoubleTap | app/src/main/java/com/example/pdfreader/ZoomableImageView.kt:132-144 | the zoom toggles between minZoom and maxZoom about the tap, the translation is fixed into range, the scale invariant holds, and zoomed-in is reported exactly when the zoom was at minZoom |
| ZoomView.ZoomableImageView.OnTouchEvent | app/src/main/java/com/example/pdfreader/ZoomableImageView.kt:148-197 | Down records the start and enters DRAG; Move changes the matrix only in DRAG while zoomed in (then fixed into range); Up and PointerUp (the unmasked ACTION_POINTER_UP, so only pointer 0 lifting) enter NONE, while another pointer lifting leaves the mode, translation and matrix as they are; only Up reports the zoom state |
| ZoomView.ZoomableImageView.DragTo | app/src/main/java/com/example/pdfreader/ZoomableImageView.kt:165-182 | the drag target follows the finger from the start; while zoomed in the image moves there and is fixed into range, otherwise the matrix is untouched |
| ZoomView.ZoomableImageView.OnMeasure | app/src/main/java/com/example/pdfreader/ZoomableImageView.kt:231-267 | the view size is taken; with a drawable of nonzero size the zoom resets to 1, the matrix is the fit scale translated by the margins and the view is fitted; otherwise nothing else changes |
| ZoomView.ZoomableImageView.ApplyFit | app/src/main/java/com/example/pdfreader/ZoomableImageView.kt:241-263 | the fitted branch stores the fit, keeps the scale invariant and leaves the view fitted |

## Left out

- Rendering: `PdfRenderer` page rendering, `Canvas` drawing and the white or transparent fills, and GPUImage pixel maths. A page is its size, and a draw is a (bitmap, x) placement.
- `isLowMemory` reads `ActivityManager` and compares a float ratio with 0.85. It is a boolean input, one per page render.
- `getOptimalBitmapConfig`, `isHardwareAccelerated`, `getMemoryInfo` and `forceGarbageCollection`: platform queries with no logic.
- Concurrency: both queues are used sequentially. The size check before `offer` is not atomic in the source; that race is not modelled.
- Floats are modelled as reals, with no rounding. `Math.round` is floor(x + 0.5).
- `SharedPreferences` is the `Settings` record. `isInvertEnabled` and `isGrayscaleEnabled` are plain booleans in it, because their definitions are not part of this model.
- `ViewPager2.setCurrentItem` and `SeekBar` clamp an out-of-range item or progress. That platform behaviour is not modelled. The lemmas state the raw values the code hands over.
- The rest of `MainActivity`: URI hashing, file loading, dialogs, layout, rotation, lifecycle, bar toggling, and the view updates around the modelled arithmetic.
- `GestureDetector` and `ScaleGestureDetector` dispatch, `invalidate` and `imageMatrix` assignment. Each callback is a method taking the event values.
- The single-tap and zoom listeners are outputs: `OnDoubleTap` returns the value handed to the zoom listener, and `OnTouchEvent` returns it as `zoomNotice`.
- `lastScaleFactor` is written by ACTION_DOWN and never read. It is kept as a field.
- PageAdapter.PdfPageViewHolder.ApplyFiltersOptimized: each GPUImage pass is assumed to return a fresh bitmap of the input's size from the allocator, because the library's output size is not specified in the code.
- PageAdapter.PdfPageViewHolder.BindSinglePage: `openPage` with an index past the end throws. Here that is `pageOpened == false` with nothing changed; the exception's propagation is not modelled.
- PageAdapter.PdfPageViewHolder.CreateBitmapFromPage: when a filter runs, the contract states only the result's size and liveness, not its identity.
- PageAdapter.PdfPageAdapter.GetItemCount: stated through `PageLayout.ItemCount`, which carries the contract.
- ZoomView.ZoomableImageView.OnTouchEvent: it states the range of the translation through `DragTo` and `FixTranslation` rather than repeating it.
- Kotlin's `Int` is 32 bits; the model uses unbounded integers, because page counts, slot indices and bitmap sizes stay far below 2^31 in any document the renderer can open, and no wrap-around is modelled.
- PageAdapter.PdfPageViewHolder.CreateDualPageBitmap: `PdfRenderer` allows one open page at a time, but the source opens the right half before closing the left (PdfPageAdapter.kt:251-257), so on a full pair the second `openPage` would throw `IllegalStateException`. The model treats every in-range `openPage` as succeeding; CreateDualPageBitmap, BindDualPage, OnBindViewHolder and PageLayout.DualSlotHasAPage hold only under that assumption.
- Navigation: `calculateViewPagerIndexFromPage`, `rememberPageNumber`, the indicator and the seek-bar functions have no contract of their own. Their meaning is stated by the lemmas in the table.

## Findings

| source | as written | input that shows it | evidently intended | confidence | as-written member | corrected member |
|---|---|---|---|---|---|---|
| app/src/main/java/com/example/pdfreader/MainActivity.kt:510 | switching from two pages with a separate cover to one page remembers slot `s` as `2s - 1` | two-page mode with a separate cover, on the cover (slot 0), switch to one page: -1 is saved, loaded and shown as page "0 / N" | the cover slot is remembered as page 0, every other slot as its first page | medium, not executed | Navigation.RememberIntoOnePageCover | Navigation.RememberCorrectedRoundTrip |
| app/src/main/java/com/example/pdfreader/MainActivity.kt:661 | with a separate cover a user seek to progress `p` moves to slot `p / 2 + 1` | separate cover, N = 5, seek to progress 2 (page 3): slot 2 (pages 4-5) opens instead of slot 1 (pages 2-3); progress 0 never reaches the cover | the slot that shows page `p`: 0 for the cover, (p + 1) / 2 otherwise | high, not executed | Navigation.SeekCoverTarget | Navigation.SeekTargetCorrectedShowsPage |
| app/src/main/java/com/example/pdfreader/MainActivity.kt:511-512 | switching from plain pairs to one page remembers an even slot `s` as `2s + 1` | N = 5, two pages without a separate cover, on slot 2 (page 5 alone), switch to one page: page index 5 is saved and loaded, and the indicator reads "6 / 5" | each slot is remembered as its first page `2s`, which always exists | medium, not executed | Navigation.RememberIntoOnePagePairs | Navigation.RememberCorrectedRoundTrip |
| app/src/main/java/com/example/pdfreader/MainActivity.kt:363-379 | the one-page and two-page menu buttons call rememberPageNumber even when that mode is already selected | N = 30, one page with a separate cover, on item 10 (page 11), tap "one page" again: 2 * 10 - 1 = 19 is saved and page 20 opens | remember only when the mode changes, as togglePageMode does | high, not executed | Navigation.MenuReselectMoves | Navigation.MenuSelectCorrectedKeepsPosition |
