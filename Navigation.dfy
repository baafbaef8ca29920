/**
 * The page arithmetic of MainActivity: jump-to-page, the page remembered
 * across a one-page / two-page switch, the page indicator and the seek bar.
 * Each is checked against the slot layout of PageLayout; where the code does
 * not agree with it, the lemmas below say exactly where.
 */
module Navigation {
  import opened Options
  import opened PageLayout

  /** Kotlin's Int division, which truncates toward zero. */
  function Quot(a: int, b: int): int
    requires b > 0
  {
    if a >= 0 then a / b else -((-a) / b)
  }

  /** Kotlin's `%`, whose sign follows the dividend. */
  function Rem(a: int, b: int): int
    requires b > 0
  {
    a - b * Quot(a, b)
  }

  // ---------------------------------------------------------------- jump

  /** The Jump button is enabled only for a number in 1..totalPages. */
  predicate JumpEnabled(input: Option<int>, totalPages: int) {
    input.Some? && 1 <= input.value <= totalPages
  }

  /** calculateViewPagerIndexFromPage: the slot for 1-based page `page`. */
  function ViewPagerIndexFromPage(layout: Layout, page: int): int {
    if layout.onePage then page - 1
    else if layout.coverSeparate then Quot(page, 2)
    else if Rem(page, 2) == 0 then Quot(page, 2) - 1
    else Quot(page, 2)
  }

  /** Any page the dialog accepts leads to a valid slot, and that slot shows the page. */
  lemma JumpLandsOnPage(layout: Layout, totalPages: nat, input: Option<int>)
    requires JumpEnabled(input, totalPages)
    ensures var slot := ViewPagerIndexFromPage(layout, input.value);
      && 0 <= slot < ItemCount(layout, totalPages)
      && slot == SlotOfPage(layout, input.value - 1)
      && PagesForSlot(layout, slot).Shows(input.value - 1)
  {
    var page := input.value;
    var slot := ViewPagerIndexFromPage(layout, page);
    assert slot == SlotOfPage(layout, page - 1);
    SlotOfPageInRange(layout, totalPages, page - 1);
    ShowsIffSlotOfPage(layout, slot, page - 1);
  }

  // ---------------------------------------------------- remembered page

  /**
   * rememberPageNumber, reading the one-page flag as it is after the caller
   * has set it. When the flag was switched (togglePageMode, or a menu button
   * for the other mode), with `layout.onePage` the current item is a
   * two-page slot being turned into a page index, and without it a page index
   * being turned into a slot. MenuSelectSaved covers the menu buttons, which
   * call it even when the flag did not change.
   */
  function RememberPageNumber(layout: Layout, currentItem: nat): int {
    if layout.onePage then
      if layout.coverSeparate then currentItem * 2 - 1
      else if currentItem % 2 == 0 then currentItem * 2 + 1
      else currentItem * 2
    else if layout.coverSeparate then
      if currentItem % 2 == 0 then currentItem / 2 else currentItem / 2 + 1
    else currentItem / 2
  }

  /** Switching to two pages: page `page` becomes the slot that shows it. */
  lemma RememberIntoTwoPages(coverSeparate: bool, page: nat, totalPages: nat)
    ensures RememberPageNumber(Layout(false, coverSeparate), page) == SlotOfPage(Layout(false, coverSeparate), page)
    ensures PagesForSlot(Layout(false, coverSeparate), RememberPageNumber(Layout(false, coverSeparate), page)).Shows(page)
    ensures page < totalPages ==>
      RememberPageNumber(Layout(false, coverSeparate), page) < ItemCount(Layout(false, coverSeparate), totalPages)
  {
    var slot := RememberPageNumber(Layout(false, coverSeparate), page);
    assert slot == SlotOfPage(Layout(false, coverSeparate), page);
    ShowsIffSlotOfPage(Layout(false, coverSeparate), slot, page);
    if page < totalPages {
      SlotOfPageInRange(Layout(false, coverSeparate), totalPages, page);
    }
  }

  /**
   * Switching to one page from plain pairs: slot `slot` becomes its second
   * page when the slot is even and its first page when it is odd; either way
   * a page of that slot, so switching back returns to it. The page does not
   * exist exactly when an even slot is the lone last page of an odd document.
   */
  lemma RememberIntoOnePagePairs(slot: nat, totalPages: nat)
    requires slot < ItemCount(Layout(false, false), totalPages)
    ensures var page := RememberPageNumber(Layout(true, false), slot);
      && page >= 0
      && PagesForSlot(Layout(false, false), slot).Shows(page)
      && SlotOfPage(Layout(false, false), page) == slot
      && (page < totalPages <==> !(slot % 2 == 0 && 2 * slot + 1 == totalPages))
  {
    var page := RememberPageNumber(Layout(true, false), slot);
    ShowsIffSlotOfPage(Layout(false, false), slot, page);
  }

  /**
   * Switching to one page with a separate cover: slot `slot` >= 1 becomes the
   * first page of that slot; slot 0 (the cover) becomes -1, not page 0.
   */
  lemma RememberIntoOnePageCover(slot: nat, totalPages: nat)
    requires slot < ItemCount(Layout(false, true), totalPages)
    ensures slot >= 1 ==>
      var page := RememberPageNumber(Layout(true, true), slot);
      && page == PagesForSlot(Layout(false, true), slot).first
      && SlotOfPage(Layout(false, true), page) == slot
      && page < totalPages
    ensures slot == 0 ==> RememberPageNumber(Layout(true, true), slot) == -1
  {
  }

  /**
   * Corrected switch to one page: every two-page slot remembers its first
   * page (page 0 for a separate cover).
   */
  function RememberPageNumberCorrected(layout: Layout, currentItem: nat): int {
    if layout.onePage then PagesForSlot(Layout(false, layout.coverSeparate), currentItem).Start()
    else RememberPageNumber(layout, currentItem)
  }

  /** With the correction every valid two-page slot round-trips through an existing page. */
  lemma RememberCorrectedRoundTrip(coverSeparate: bool, slot: nat, totalPages: nat)
    requires 1 <= totalPages && slot < ItemCount(Layout(false, coverSeparate), totalPages)
    ensures var page := RememberPageNumberCorrected(Layout(true, coverSeparate), slot);
      && 0 <= page < totalPages
      && PagesForSlot(Layout(false, coverSeparate), slot).Shows(page)
      && SlotOfPage(Layout(false, coverSeparate), page) == slot
  {
    SlotStartInRange(Layout(false, coverSeparate), totalPages, slot);
    var page := RememberPageNumberCorrected(Layout(true, coverSeparate), slot);
    ShowsIffSlotOfPage(Layout(false, coverSeparate), slot, page);
  }

  /**
   * The menu's one-page and two-page buttons: set the flag to the chosen
   * mode, whatever it was, then save rememberPageNumber of the current item.
   */
  function MenuSelectSaved(layout: Layout, selectOnePage: bool, currentItem: nat): int {
    RememberPageNumber(Layout(selectOnePage, layout.coverSeparate), currentItem)
  }

  /**
   * Choosing the mode already shown still converts the current item, as if it
   * were of the other kind: the saved position equals the current one only
   * for the items listed here.
   */
  lemma MenuReselectMoves(layout: Layout, item: nat)
    ensures layout.onePage && layout.coverSeparate ==>
      (MenuSelectSaved(layout, true, item) == item <==> item == 1)
    ensures layout.onePage && !layout.coverSeparate ==> MenuSelectSaved(layout, true, item) != item
    ensures !layout.onePage && layout.coverSeparate ==>
      (MenuSelectSaved(layout, false, item) == item <==> item <= 1)
    ensures !layout.onePage && !layout.coverSeparate ==>
      (MenuSelectSaved(layout, false, item) == item <==> item == 0)
  {
  }

  /** Corrected menu buttons: remember only when the mode actually changes. */
  function MenuSelectSavedCorrected(layout: Layout, selectOnePage: bool, currentItem: nat): int {
    if selectOnePage == layout.onePage then currentItem
    else RememberPageNumberCorrected(Layout(selectOnePage, layout.coverSeparate), currentItem)
  }

  /**
   * With the correction a menu choice keeps what is on screen: the same item
   * when the mode is unchanged, a page of the current slot when switching to
   * one page, and the slot showing the current page when switching to two.
   */
  lemma MenuSelectCorrectedKeepsPosition(layout: Layout, selectOnePage: bool, item: nat, totalPages: nat)
    requires 1 <= totalPages && item < ItemCount(layout, totalPages)
    ensures var saved := MenuSelectSavedCorrected(layout, selectOnePage, item);
      var newLayout := Layout(selectOnePage, layout.coverSeparate);
      && 0 <= saved < ItemCount(newLayout, totalPages)
      && (selectOnePage == layout.onePage ==> saved == item)
      && (selectOnePage && !layout.onePage ==> PagesForSlot(layout, item).Shows(saved))
      && (!selectOnePage && layout.onePage ==> PagesForSlot(newLayout, saved).Shows(item))
  {
    if selectOnePage && !layout.onePage {
      RememberCorrectedRoundTrip(layout.coverSeparate, item, totalPages);
    } else if !selectOnePage && layout.onePage {
      RememberIntoTwoPages(layout.coverSeparate, item, totalPages);
    }
  }

  // ----------------------------------------------------- page indicator

  /** The pieces of the indicator text: numbers, " - " and " / ". */
  datatype Token = Num(n: int) | Dash | Slash

  /** The page part of the indicator: one number or "first - second". */
  datatype PageLabel = One(n: int) | Range(first: int, second: int) {
    function Tokens(): seq<Token> {
      if One? then [Num(n)] else [Num(first), Dash, Num(second)]
    }

    function Numbers(): set<int> {
      if One? then {n} else {first, second}
    }
  }

  /** The page part of updatePageIndicator's text. */
  function IndicatorLabel(layout: Layout, currentPage: int, totalPages: int): PageLabel {
    if layout.onePage then One(currentPage + 1)
    else if layout.coverSeparate then
      if currentPage == 0 then One(1)
      else
        var first := currentPage * 2;
        if first == totalPages then One(first) else Range(first, first + 1)
    else
      var first := currentPage * 2 + 1;
      if first == totalPages then One(first) else Range(first, first + 1)
  }

  /** updatePageIndicator's text: "shown / total" left to right, "total / shown" right to left. */
  function PageText(layout: Layout, leftToRight: bool, currentPage: int, totalPages: int): seq<Token> {
    var shown := IndicatorLabel(layout, currentPage, totalPages).Tokens();
    if leftToRight then shown + [Slash, Num(totalPages)] else [Num(totalPages), Slash] + shown
  }

  /**
   * On a valid slot the indicator shows exactly the 1-based numbers of the
   * pages that slot shows and that exist. The one exception is the empty
   * document with a separate cover, whose only slot reads "1 / 0".
   */
  lemma IndicatorShowsSlotPages(layout: Layout, totalPages: nat, slot: nat, n: int)
    requires slot < ItemCount(layout, totalPages)
    ensures totalPages >= 1 ==>
      (n in IndicatorLabel(layout, slot, totalPages).Numbers() <==>
       1 <= n <= totalPages && PagesForSlot(layout, slot).Shows(n - 1))
    ensures totalPages == 0 ==>
      !layout.onePage && layout.coverSeparate && slot == 0 && IndicatorLabel(layout, slot, totalPages) == One(1)
  {
  }

  /** Index of the first " / " in a text. */
  function SlashIndex(t: seq<Token>): (r: Option<nat>)
    ensures r.Some? ==> r.value < |t| && t[r.value] == Slash && Slash !in t[..r.value]
    ensures r.None? <==> Slash !in t
  {
    if |t| == 0 then None
    else if t[0] == Slash then Some(0)
    else match SlashIndex(t[1..])
      case None => None
      case Some(i) =>
        assert t[..i + 1] == [t[0]] + t[1..][..i];
        Some(i + 1)
  }

  /** Exchanges the two sides of the first " / ". */
  function Mirror(t: seq<Token>): seq<Token> {
    match SlashIndex(t)
    case None => t
    case Some(i) => t[i + 1..] + [Slash] + t[..i]
  }

  /** Right to left only mirrors "shown / total" into "total / shown". */
  lemma RightToLeftMirrors(layout: Layout, currentPage: int, totalPages: int)
    ensures PageText(layout, false, currentPage, totalPages) == Mirror(PageText(layout, true, currentPage, totalPages))
  {
    var shown := IndicatorLabel(layout, currentPage, totalPages).Tokens();
    var t := PageText(layout, true, currentPage, totalPages);
    assert Slash !in shown;
    var i := SlashIndex(t);
    assert t[|shown|] == Slash;
    assert t[..|shown|] == shown;
    assert i == Some(|shown|);
    assert t[|shown| + 1..] == [Num(totalPages)];
  }

  // ------------------------------------------------------------ seek bar

  /** seekBar.max. */
  function SeekBarMax(totalPages: int): int {
    if totalPages - 1 >= 0 then totalPages - 1 else 0
  }

  /** calculateSeekBarProgress: where the seek bar is put for slot `currentPage`. */
  function SeekBarProgress(layout: Layout, currentPage: int, totalPages: int): int {
    if layout.onePage then currentPage
    else if layout.coverSeparate then
      if currentPage * 2 == totalPages then currentPage * 2 - 1 else currentPage * 2
    else currentPage * 2 + 1
  }

  /** The slot onProgressChanged moves to for a progress the user chose. */
  function SeekTarget(layout: Layout, progress: nat): int {
    if layout.onePage then progress
    else if layout.coverSeparate then progress / 2 + 1
    else progress / 2
  }

  /** One page: progress is the slot, within the bar, and maps back to it. */
  lemma SeekOnePageRoundTrip(coverSeparate: bool, slot: nat, totalPages: nat)
    requires slot < totalPages
    ensures var progress := SeekBarProgress(Layout(true, coverSeparate), slot, totalPages);
      0 <= progress <= SeekBarMax(totalPages) && SeekTarget(Layout(true, coverSeparate), progress) == slot
  {
  }

  /**
   * Plain pairs: progress is the slot's second page and maps back to the
   * slot, but it passes the bar's maximum exactly on the lone last page of an
   * odd document.
   */
  lemma SeekPairsRoundTrip(slot: nat, totalPages: nat)
    requires slot < ItemCount(Layout(false, false), totalPages)
    ensures var progress := SeekBarProgress(Layout(false, false), slot, totalPages);
      && progress >= 0
      && PagesForSlot(Layout(false, false), slot).Shows(progress)
      && SeekTarget(Layout(false, false), progress) == slot
      && (progress <= SeekBarMax(totalPages) <==> 2 * slot + 1 < totalPages)
  {
  }

  /**
   * Separate cover: progress is the last existing page of the slot, within
   * the bar in a non-empty document; the user-seek mapping gives the slot back
   * only when that page is odd, which happens only on the last slot of an even
   * document. The empty document's only slot puts the bar at -1.
   */
  lemma SeekCoverProgress(slot: nat, totalPages: nat)
    requires slot < ItemCount(Layout(false, true), totalPages)
    ensures totalPages == 0 ==> slot == 0 && SeekBarProgress(Layout(false, true), slot, totalPages) == -1
    ensures totalPages >= 1 ==>
      var progress := SeekBarProgress(Layout(false, true), slot, totalPages);
      && 0 <= progress <= SeekBarMax(totalPages)
      && PagesForSlot(Layout(false, true), slot).Shows(progress)
      && (SeekTarget(Layout(false, true), progress) == slot <==> slot >= 1 && 2 * slot == totalPages)
  {
  }

  /**
   * Separate cover, user seek: `progress / 2 + 1` is the slot showing page
   * `progress` only for odd progress, and reaches one past the last slot on
   * an odd document's last page.
   */
  lemma SeekCoverTarget(progress: nat, totalPages: nat)
    requires 1 <= totalPages && progress <= SeekBarMax(totalPages)
    ensures SeekTarget(Layout(false, true), progress) == SlotOfPage(Layout(false, true), progress) <==> progress % 2 == 1
    ensures SeekTarget(Layout(false, true), progress) <= ItemCount(Layout(false, true), totalPages)
    ensures SeekTarget(Layout(false, true), progress) == ItemCount(Layout(false, true), totalPages) <==>
      totalPages % 2 == 1 && progress == totalPages - 1
  {
  }

  /** Corrected user seek: the slot that shows page `progress`. */
  function SeekTargetCorrected(layout: Layout, progress: nat): int {
    if !layout.onePage && layout.coverSeparate then SlotOfPage(layout, progress)
    else SeekTarget(layout, progress)
  }

  /** With the correction a seek lands on a valid slot showing the chosen page, in every layout. */
  lemma SeekTargetCorrectedShowsPage(layout: Layout, progress: nat, totalPages: nat)
    requires progress < totalPages
    ensures var slot := SeekTargetCorrected(layout, progress);
      && 0 <= slot < ItemCount(layout, totalPages)
      && PagesForSlot(layout, slot).Shows(progress)
  {
    var slot := SeekTargetCorrected(layout, progress);
    assert slot == SlotOfPage(layout, progress);
    SlotOfPageInRange(layout, totalPages, progress);
    ShowsIffSlotOfPage(layout, slot, progress);
  }
}
