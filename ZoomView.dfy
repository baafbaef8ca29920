/**
 * ZoomableImageView: pinch zoom, double-tap zoom and drag of a page image.
 * The Android Matrix is reduced to what the view uses of it, a uniform scale
 * plus a translation, over reals.
 */
module ZoomView {
  import Options

  /** An Android Matrix holding a uniform scale and a translation. */
  datatype Matrix = Matrix(scale: real, transX: real, transY: real) {
    /** Matrix.postScale(s, s, px, py): scales the mapped image about the pivot (px, py). */
    function PostScale(s: real, px: real, py: real): Matrix {
      Matrix(scale * s, s * transX + px * (1.0 - s), s * transY + py * (1.0 - s))
    }

    /** Matrix.postTranslate(dx, dy). */
    function PostTranslate(dx: real, dy: real): Matrix {
      Matrix(scale, transX + dx, transY + dy)
    }

    /** Where the matrix puts the image point (u, v). */
    function MapX(u: real): real {
      scale * u + transX
    }

    function MapY(v: real): real {
      scale * v + transY
    }
  }

  /** Scaling about a pivot leaves the image point under the pivot where it was. */
  lemma PostScaleFixesPivot(m: Matrix, s: real, u: real, v: real)
    ensures m.PostScale(s, m.MapX(u), m.MapY(v)).MapX(u) == m.MapX(u)
    ensures m.PostScale(s, m.MapX(u), m.MapY(v)).MapY(v) == m.MapY(v)
    ensures m.PostScale(s, m.MapX(u), m.MapY(v)).scale == m.scale * s
  {
    var px, py := m.MapX(u), m.MapY(v);
    var n := m.PostScale(s, px, py);
    calc {
      n.MapX(u);
      (m.scale * s) * u + (s * m.transX + px * (1.0 - s));
      s * (m.scale * u + m.transX) + px * (1.0 - s);
      s * px + px * (1.0 - s);
      px;
    }
    calc {
      n.MapY(v);
      (m.scale * s) * v + (s * m.transY + py * (1.0 - s));
      s * (m.scale * v + m.transY) + py * (1.0 - s);
      s * py + py * (1.0 - s);
      py;
    }
  }

  /** Scaling by s and then by 1/s about the same pivot restores the matrix. */
  lemma PostScaleInverse(m: Matrix, s: real, px: real, py: real)
    requires s != 0.0
    ensures m.PostScale(s, px, py).PostScale(1.0 / s, px, py) == m
  {
    var n := m.PostScale(s, px, py);
    var r := 1.0 / s;
    assert r * s == 1.0;
    calc {
      r * n.transX + px * (1.0 - r);
      r * (s * m.transX) + r * (px * (1.0 - s)) + px * (1.0 - r);
      (r * s) * m.transX + px * (r - r * s) + px * (1.0 - r);
      m.transX;
    }
    calc {
      r * n.transY + py * (1.0 - r);
      r * (s * m.transY) + r * (py * (1.0 - s)) + py * (1.0 - r);
      (r * s) * m.transY + py * (r - r * s) + py * (1.0 - r);
      m.transY;
    }
    calc {
      n.scale * r;
      m.scale * (s * r);
      m.scale;
    }
  }

  // ------------------------------------------------- translation fix-up

  /** Lowest allowed translation on an axis: 0 when the content fits, view - content otherwise. */
  function MinTrans(viewSize: real, contentSize: real): real {
    if contentSize <= viewSize then 0.0 else viewSize - contentSize
  }

  /** Highest allowed translation: view - content when the content fits, 0 otherwise. */
  function MaxTrans(viewSize: real, contentSize: real): real {
    if contentSize <= viewSize then viewSize - contentSize else 0.0
  }

  /**
   * A translation is allowed when the content stays inside the view (if it
   * fits) or covers it (if it does not); a fitting image may sit anywhere
   * inside, it is not forced to the centre.
   */
  predicate InAllowedRange(trans: real, viewSize: real, contentSize: real) {
    MinTrans(viewSize, contentSize) <= trans <= MaxTrans(viewSize, contentSize)
  }

  function Abs(x: real): real {
    if x < 0.0 then -x else x
  }

  /** getFixTranslation: the shift that brings `trans` back into the allowed range. */
  function GetFixTranslation(trans: real, viewSize: real, contentSize: real): (fix: real)
    ensures InAllowedRange(trans + fix, viewSize, contentSize)
    ensures fix == 0.0 <==> InAllowedRange(trans, viewSize, contentSize)
    ensures fix > 0.0 ==> trans + fix == MinTrans(viewSize, contentSize)
    ensures fix < 0.0 ==> trans + fix == MaxTrans(viewSize, contentSize)
  {
    var minTrans := MinTrans(viewSize, contentSize);
    var maxTrans := MaxTrans(viewSize, contentSize);
    if trans < minTrans then -trans + minTrans
    else if trans > maxTrans then -trans + maxTrans
    else 0.0
  }

  /** The fix is the smallest shift that reaches the allowed range. */
  lemma FixIsNearest(trans: real, viewSize: real, contentSize: real, target: real)
    requires InAllowedRange(target, viewSize, contentSize)
    ensures Abs(GetFixTranslation(trans, viewSize, contentSize)) <= Abs(target - trans)
  {
  }

  /** fixTranslation's effect on a matrix: both axes shifted by their fix. */
  function Fixed(m: Matrix, viewWidth: real, viewHeight: real, contentWidth: real, contentHeight: real): Matrix {
    m.PostTranslate(GetFixTranslation(m.transX, viewWidth, contentWidth),
                    GetFixTranslation(m.transY, viewHeight, contentHeight))
  }

  /**
   * fixTranslation keeps the scale, lands both axes in range, leaves an
   * in-range matrix alone, and so a second fix changes nothing.
   */
  lemma FixedProperties(m: Matrix, viewWidth: real, viewHeight: real, contentWidth: real, contentHeight: real)
    ensures var f := Fixed(m, viewWidth, viewHeight, contentWidth, contentHeight);
      && f.scale == m.scale
      && InAllowedRange(f.transX, viewWidth, contentWidth)
      && InAllowedRange(f.transY, viewHeight, contentHeight)
      && Fixed(f, viewWidth, viewHeight, contentWidth, contentHeight) == f
    ensures InAllowedRange(m.transX, viewWidth, contentWidth) && InAllowedRange(m.transY, viewHeight, contentHeight) ==>
      Fixed(m, viewWidth, viewHeight, contentWidth, contentHeight) == m
  {
    var f := Fixed(m, viewWidth, viewHeight, contentWidth, contentHeight);
    assert GetFixTranslation(f.transX, viewWidth, contentWidth) == 0.0;
    assert GetFixTranslation(f.transY, viewHeight, contentHeight) == 0.0;
  }

  /**
   * The edge correction onScale applies after zooming out, given the overflow
   * `bound` (right or bottom): pull the edge back to -bound or to 0.
   */
  function EdgeFix(t: real, bound: real): real {
    if t < -bound then -(t + bound)
    else if t > 0.0 then -t
    else 0.0
  }

  /**
   * With bound = content - view the edge correction always lands in the
   * allowed range, and it is exactly getFixTranslation when the content is
   * at least as large as the view.
   */
  lemma EdgeFixInRange(t: real, viewSize: real, contentSize: real)
    ensures InAllowedRange(t + EdgeFix(t, contentSize - viewSize), viewSize, contentSize)
    ensures contentSize >= viewSize ==> EdgeFix(t, contentSize - viewSize) == GetFixTranslation(t, viewSize, contentSize)
  {
  }

  // ------------------------------------------------------------- zoom

  /**
   * onScale's clamp: the new saveScale and the factor actually applied to
   * the matrix, which is always new / old.
   */
  function ClampZoom(saveScale: real, scaleFactor: real, minZoom: real, maxZoom: real): (r: (real, real))
    requires minZoom <= maxZoom && saveScale > 0.0
    ensures minZoom <= r.0 <= maxZoom
    ensures r.1 * saveScale == r.0
    ensures minZoom <= saveScale * scaleFactor <= maxZoom ==> r.0 == saveScale * scaleFactor && r.1 == scaleFactor
    ensures saveScale * scaleFactor > maxZoom ==> r.0 == maxZoom
    ensures saveScale * scaleFactor < minZoom ==> r.0 == minZoom
  {
    var s := saveScale * scaleFactor;
    if s > maxZoom then (maxZoom, maxZoom / saveScale)
    else if s < minZoom then (minZoom, minZoom / saveScale)
    else (s, scaleFactor)
  }

  /** Math.round on a float: the nearest integer, halves rounded up. */
  function RoundHalfUp(x: real): int {
    (x + 0.5).Floor
  }

  function Min(a: real, b: real): real {
    if a <= b then a else b
  }

  /** onMeasure's fit scale: the larger scale at which the whole bitmap fits the view. */
  function FitScale(viewWidth: real, viewHeight: real, bitmapWidth: real, bitmapHeight: real): real
    requires bitmapWidth != 0.0 && bitmapHeight != 0.0
  {
    Min(viewWidth / bitmapWidth, viewHeight / bitmapHeight)
  }

  lemma MulMonotone(a: real, b: real, c: real)
    requires a <= b && c >= 0.0
    ensures a * c <= b * c
  {
    assert (b - a) * c >= 0.0;
  }

  /** What onMeasure derives from the view size and the drawable's intrinsic size. */
  datatype Fit = Fit(scale: real, redundantXSpace: real, redundantYSpace: real, contentWidth: real, contentHeight: real)

  /**
   * onMeasure's fit: the fit scale, half the space left over on each axis,
   * and the bitmap's size at the fit scale; the content and both margins
   * make up the view.
   */
  function FitToView(viewWidth: real, viewHeight: real, bitmapWidth: real, bitmapHeight: real): (f: Fit)
    requires bitmapWidth != 0.0 && bitmapHeight != 0.0
    ensures f.scale == FitScale(viewWidth, viewHeight, bitmapWidth, bitmapHeight)
    ensures f.contentWidth == viewWidth - 2.0 * f.redundantXSpace
    ensures f.contentHeight == viewHeight - 2.0 * f.redundantYSpace
  {
    var s := FitScale(viewWidth, viewHeight, bitmapWidth, bitmapHeight);
    Fit(s, (viewWidth - s * bitmapWidth) / 2.0, (viewHeight - s * bitmapHeight) / 2.0, bitmapWidth * s, bitmapHeight * s)
  }

  /**
   * For a bitmap of positive size the fitted content fits both ways, keeps
   * the bitmap's aspect ratio and fills the view along one axis, so both
   * margins are non-negative and one of them is zero.
   */
  lemma FitToViewFits(viewWidth: real, viewHeight: real, bitmapWidth: real, bitmapHeight: real)
    requires viewWidth >= 0.0 && viewHeight >= 0.0 && bitmapWidth > 0.0 && bitmapHeight > 0.0
    ensures var f := FitToView(viewWidth, viewHeight, bitmapWidth, bitmapHeight);
      && f.scale >= 0.0
      && f.contentWidth <= viewWidth && f.contentHeight <= viewHeight
      && f.contentWidth * bitmapHeight == f.contentHeight * bitmapWidth
      && 0.0 <= f.redundantXSpace && 0.0 <= f.redundantYSpace
      && (f.redundantXSpace == 0.0 || f.redundantYSpace == 0.0)
  {
    var sx, sy := viewWidth / bitmapWidth, viewHeight / bitmapHeight;
    assert sx * bitmapWidth == viewWidth && sy * bitmapHeight == viewHeight;
    var s := FitScale(viewWidth, viewHeight, bitmapWidth, bitmapHeight);
    if sx <= sy {
      MulMonotone(sx, sy, bitmapHeight);
    } else {
      MulMonotone(sy, sx, bitmapWidth);
    }
    assert (bitmapWidth * s) * bitmapHeight == (bitmapHeight * s) * bitmapWidth;
  }

  /** onScale's right / bottom: how far the zoomed content overflows the view on one axis. */
  function Overflow(viewSize: real, space: real, saveScale: real): real {
    viewSize * saveScale - viewSize - 2.0 * space * saveScale
  }

  /** Once fitted, the overflow is the zoomed content's size less the view's. */
  lemma OverflowWhenFitted(viewSize: real, space: real, saveScale: real, fittedSize: real)
    requires fittedSize == viewSize - 2.0 * space
    ensures Overflow(viewSize, space, saveScale) == fittedSize * saveScale - viewSize
  {
    assert viewSize * saveScale - 2.0 * space * saveScale == (viewSize - 2.0 * space) * saveScale;
  }

  /** onScale scales about the view centre when the zoomed content fits the view on some axis. */
  predicate Centred(contentWidth: real, contentHeight: real, viewWidth: real, viewHeight: real) {
    contentWidth <= viewWidth || contentHeight <= viewHeight
  }

  /** The centred zoom-out corrects the vertical axis when the rounded content width is below the view's. */
  predicate Narrow(contentWidth: real, viewWidth: real) {
    (RoundHalfUp(contentWidth) as real) < viewWidth
  }

  /**
   * The matrix onScale leaves: scaled by `applied` about the view centre or
   * the focus, then, when zooming out, the edges pulled back on the axis the
   * centred case picks or on both axes.
   */
  function ScaledMatrix(m: Matrix, applied: real, centred: bool, narrow: bool, focusX: real, focusY: real,
                        viewWidth: real, viewHeight: real, right: real, bottom: real): (r: Matrix)
    ensures r.scale == m.scale * applied
  {
    var pivoted := if centred then m.PostScale(applied, viewWidth / 2.0, viewHeight / 2.0)
                   else m.PostScale(applied, focusX, focusY);
    if applied >= 1.0 then pivoted
    else if !centred then pivoted.PostTranslate(EdgeFix(pivoted.transX, right), EdgeFix(pivoted.transY, bottom))
    else if narrow then pivoted.PostTranslate(0.0, EdgeFix(pivoted.transY, bottom))
    else pivoted.PostTranslate(EdgeFix(pivoted.transX, right), 0.0)
  }

  /**
   * Zooming out with right / bottom equal to the overflow lands each
   * corrected axis in its allowed range: both axes about the focus, one
   * axis about the centre.
   */
  lemma ScaledMatrixInRange(m: Matrix, applied: real, centred: bool, narrow: bool, focusX: real, focusY: real,
                            viewWidth: real, viewHeight: real, contentWidth: real, contentHeight: real)
    requires applied < 1.0
    ensures var r := ScaledMatrix(m, applied, centred, narrow, focusX, focusY, viewWidth, viewHeight,
                                  contentWidth - viewWidth, contentHeight - viewHeight);
      && (!centred || !narrow ==> InAllowedRange(r.transX, viewWidth, contentWidth))
      && (!centred || narrow ==> InAllowedRange(r.transY, viewHeight, contentHeight))
  {
    var pivoted := if centred then m.PostScale(applied, viewWidth / 2.0, viewHeight / 2.0)
                   else m.PostScale(applied, focusX, focusY);
    EdgeFixInRange(pivoted.transX, viewWidth, contentWidth);
    EdgeFixInRange(pivoted.transY, viewHeight, contentHeight);
  }

  /** A gesture factor of 1 within the zoom range changes neither the zoom nor the matrix. */
  lemma UnitScaleChangesNothing(m: Matrix, saveScale: real, minZoom: real, maxZoom: real, centred: bool, narrow: bool,
                                focusX: real, focusY: real, viewWidth: real, viewHeight: real, right: real, bottom: real)
    requires 0.0 < minZoom <= saveScale <= maxZoom
    ensures ClampZoom(saveScale, 1.0, minZoom, maxZoom) == (saveScale, 1.0)
    ensures ScaledMatrix(m, 1.0, centred, narrow, focusX, focusY, viewWidth, viewHeight, right, bottom) == m
  {
  }

  /** Proof helper for ClampSaveScale: the real-arithmetic step behind Valid()'s scale == fit * zoom. */
  lemma ScaleInvariantKept(matrixScale: real, fit: real, origScale: real, applied: real, newScale: real)
    requires matrixScale == fit * origScale && applied * origScale == newScale
    ensures matrixScale * applied == fit * newScale
  {
    assert (fit * origScale) * applied == fit * (applied * origScale);
  }

  /** The gesture state: NONE, DRAG or ZOOM. */
  datatype Mode = None | Drag | Zoom

  /**
   * The values of `event.action` onTouchEvent tells apart. The source matches
   * the unmasked action, so PointerUp is exactly ACTION_POINTER_UP, which
   * happens only when the pointer with index 0 lifts. Another pointer lifting
   * carries its index in the action's upper bits, so that is OtherAction
   * and leaves the mode as it is.
   */
  datatype TouchAction = Down | Move | Up | PointerUp | OtherAction

  class ZoomableImageView {
    var mode: Mode
    /** The fit scale chosen by onMeasure. */
    var scale: real
    var lastScaleFactor: real
    var startX: real
    var startY: real
    var translateX: real
    var translateY: real
    var previousTranslateX: real
    var previousTranslateY: real
    const maxZoom: real := 10.0
    const minZoom: real := 1.0
    var redundantXSpace: real
    var redundantYSpace: real
    var width: real
    var height: real
    /** The user zoom on top of the fit scale. */
    var saveScale: real
    var right: real
    var bottom: real
    /** The bitmap's size at the fit scale. */
    var originalBitmapWidth: real
    var originalBitmapHeight: real
    var matrix: Matrix

    /** The zoom stays within [minZoom, maxZoom] and the matrix scale is fit scale times zoom. */
    ghost predicate Valid()
      reads this`saveScale, this`matrix, this`scale
    {
      minZoom <= saveScale <= maxZoom && matrix.scale == scale * saveScale
    }

    /** The matrix scale times `applied` is what Valid() asks of the current zoom. */
    ghost predicate ScalePending(applied: real)
      reads this`saveScale, this`matrix, this`scale
    {
      matrix.scale * applied == scale * saveScale
    }

    /** The bitmap's width at the current zoom. */
    function ContentWidth(): real
      reads this`originalBitmapWidth, this`saveScale
    {
      originalBitmapWidth * saveScale
    }

    function ContentHeight(): real
      reads this`originalBitmapHeight, this`saveScale
    {
      originalBitmapHeight * saveScale
    }

    /** After onMeasure: the fitted bitmap plus both margins fills the view. */
    predicate Fitted()
      reads this
    {
      originalBitmapWidth == width - 2.0 * redundantXSpace &&
      originalBitmapHeight == height - 2.0 * redundantYSpace
    }

    constructor ()
      ensures Valid() && Fitted()
      ensures mode == None && scale == 1.0 && saveScale == 1.0 && matrix == Matrix(1.0, 0.0, 0.0)
      ensures lastScaleFactor == 0.0 && startX == 0.0 && startY == 0.0
      ensures translateX == 0.0 && translateY == 0.0 && previousTranslateX == 0.0 && previousTranslateY == 0.0
      ensures redundantXSpace == 0.0 && redundantYSpace == 0.0 && width == 0.0 && height == 0.0
      ensures right == 0.0 && bottom == 0.0 && originalBitmapWidth == 0.0 && originalBitmapHeight == 0.0
    {
      mode := None;
      scale := 1.0;
      lastScaleFactor := 0.0;
      startX, startY := 0.0, 0.0;
      translateX, translateY := 0.0, 0.0;
      previousTranslateX, previousTranslateY := 0.0, 0.0;
      redundantXSpace, redundantYSpace := 0.0, 0.0;
      width, height := 0.0, 0.0;
      saveScale := 1.0;
      right, bottom := 0.0, 0.0;
      originalBitmapWidth, originalBitmapHeight := 0.0, 0.0;
      matrix := Matrix(1.0, 0.0, 0.0);
    }

    /** ScaleListener.onScaleBegin. */
    method OnScaleBegin() returns (handled: bool)
      modifies this`mode
      ensures mode == Zoom && handled
    {
      mode := Zoom;
      handled := true;
    }

    /**
     * ScaleListener.onScale: clamp the zoom, scale about the view centre while
     * the content does not overflow the view on some axis and about the
     * gesture focus otherwise, and pull the edges back only when zooming out.
     */
    method OnScale(scaleFactor: real, focusX: real, focusY: real) returns (handled: bool)
      requires Valid()
      modifies this`saveScale, this`right, this`bottom, this`matrix
      ensures Valid() && handled
      ensures saveScale == ClampZoom(old(saveScale), scaleFactor, minZoom, maxZoom).0
      ensures right == Overflow(width, redundantXSpace, saveScale)
      ensures bottom == Overflow(height, redundantYSpace, saveScale)
      ensures matrix == ScaledMatrix(old(matrix), ClampZoom(old(saveScale), scaleFactor, minZoom, maxZoom).1,
                                     Centred(ContentWidth(), ContentHeight(), width, height),
                                     Narrow(ContentWidth(), width),
                                     focusX, focusY, width, height, right, bottom)
      ensures Fitted() && ClampZoom(old(saveScale), scaleFactor, minZoom, maxZoom).1 < 1.0 ==>
        var centred := Centred(ContentWidth(), ContentHeight(), width, height);
        var narrow := Narrow(ContentWidth(), width);
        && (!centred || !narrow ==> InAllowedRange(matrix.transX, width, ContentWidth()))
        && (!centred || narrow ==> InAllowedRange(matrix.transY, height, ContentHeight()))
    {
      var applied := ClampSaveScale(scaleFactor);
      UpdateOverflow();
      var contentWidth, contentHeight := ContentWidth(), ContentHeight();
      var centred, narrow := Centred(contentWidth, contentHeight, width, height), Narrow(contentWidth, width);
      ScaleAbout(applied, centred, narrow, focusX, focusY, contentWidth, contentHeight);
      handled := true;
    }

    /** The clamp of onScale: the new zoom and the factor that reaches it from the old one. */
    method ClampSaveScale(scaleFactor: real) returns (applied: real)
      requires Valid()
      modifies this`saveScale
      ensures ScalePending(applied)
      ensures saveScale == ClampZoom(old(saveScale), scaleFactor, minZoom, maxZoom).0
      ensures applied == ClampZoom(old(saveScale), scaleFactor, minZoom, maxZoom).1
      ensures minZoom <= saveScale <= maxZoom
      ensures applied * old(saveScale) == saveScale
    {
      var origScale := saveScale;
      applied := scaleFactor;
      saveScale := saveScale * scaleFactor;
      if saveScale > maxZoom {
        saveScale := maxZoom;
        applied := maxZoom / origScale;
      } else if saveScale < minZoom {
        saveScale := minZoom;
        applied := minZoom / origScale;
      }
      ScaleInvariantKept(matrix.scale, scale, origScale, applied, saveScale);
    }

    /** onScale's right and bottom for the current zoom. */
    method UpdateOverflow()
      modifies this`right, this`bottom
      ensures right == Overflow(width, redundantXSpace, saveScale)
      ensures bottom == Overflow(height, redundantYSpace, saveScale)
      ensures Fitted() ==>
        right == ContentWidth() - width && bottom == ContentHeight() - height
    {
      right := width * saveScale - width - (2.0 * redundantXSpace * saveScale);
      bottom := height * saveScale - height - (2.0 * redundantYSpace * saveScale);
      if Fitted() {
        OverflowWhenFitted(width, redundantXSpace, saveScale, originalBitmapWidth);
        OverflowWhenFitted(height, redundantYSpace, saveScale, originalBitmapHeight);
      }
    }

    /**
     * The matrix half of onScale, given the applied factor and the branch
     * conditions; when right and bottom are the overflow of a content of the
     * given size, a zoom-out leaves each corrected axis in range.
     */
    method ScaleAbout(applied: real, centred: bool, narrow: bool, focusX: real, focusY: real,
                      contentWidth: real, contentHeight: real)
      requires minZoom <= saveScale <= maxZoom && ScalePending(applied)
      modifies this`matrix
      ensures Valid()
      ensures matrix == ScaledMatrix(old(matrix), applied, centred, narrow, focusX, focusY, width, height, right, bottom)
      ensures applied < 1.0 && right == contentWidth - width && bottom == contentHeight - height ==>
        && (!centred || !narrow ==> InAllowedRange(matrix.transX, width, contentWidth))
        && (!centred || narrow ==> InAllowedRange(matrix.transY, height, contentHeight))
    {
      ghost var before := matrix;
      if applied < 1.0 && right == contentWidth - width && bottom == contentHeight - height {
        ScaledMatrixInRange(before, applied, centred, narrow, focusX, focusY, width, height, contentWidth, contentHeight);
      }
      if centred {
        ApplyScale(applied, width / 2.0, height / 2.0);
        if applied < 1.0 {
          var x, y := matrix.transX, matrix.transY;
          if narrow {
            ApplyTranslate(0.0, EdgeFix(y, bottom));
          } else {
            ApplyTranslate(EdgeFix(x, right), 0.0);
          }
        }
      } else {
        ApplyScale(applied, focusX, focusY);
        var x, y := matrix.transX, matrix.transY;
        if applied < 1.0 {
          ApplyTranslate(EdgeFix(x, right), 0.0);
          ApplyTranslate(0.0, EdgeFix(y, bottom));
        }
      }
    }

    /** matrix.postScale, completing the zoom ScalePending announced. */
    method ApplyScale(applied: real, pivotX: real, pivotY: real)
      requires minZoom <= saveScale <= maxZoom && ScalePending(applied)
      modifies this`matrix
      ensures Valid()
      ensures matrix == old(matrix).PostScale(applied, pivotX, pivotY)
    {
      matrix := matrix.PostScale(applied, pivotX, pivotY);
    }

    /** matrix.postTranslate, which leaves the scale alone. */
    method ApplyTranslate(dx: real, dy: real)
      requires Valid()
      modifies this`matrix
      ensures Valid()
      ensures matrix == old(matrix).PostTranslate(dx, dy)
    {
      matrix := matrix.PostTranslate(dx, dy);
    }

    /** fixTranslation: shift both axes back into their allowed ranges. */
    method FixTranslation()
      modifies this`matrix
      ensures matrix == Fixed(old(matrix), width, height, ContentWidth(), ContentHeight())
      ensures InAllowedRange(matrix.transX, width, ContentWidth())
      ensures InAllowedRange(matrix.transY, height, ContentHeight())
      ensures matrix.scale == old(matrix).scale
    {
      var fixTransX := GetFixTranslation(matrix.transX, width, ContentWidth());
      var fixTransY := GetFixTranslation(matrix.transY, height, ContentHeight());
      if fixTransX != 0.0 || fixTransY != 0.0 {
        matrix := matrix.PostTranslate(fixTransX, fixTransY);
      }
    }

    /**
     * GestureListener.onDoubleTap: toggle between minZoom and maxZoom about
     * the tap, fix the translation and report whether the view is zoomed in.
     */
    method OnDoubleTap(x: real, y: real) returns (handled: bool, zoomedIn: bool)
      requires Valid()
      modifies this`saveScale, this`matrix
      ensures Valid() && handled
      ensures saveScale == if old(saveScale) == minZoom then maxZoom else minZoom
      ensures matrix == Fixed(old(matrix).PostScale(saveScale / old(saveScale), x, y),
                              width, height, ContentWidth(), ContentHeight())
      ensures InAllowedRange(matrix.transX, width, ContentWidth())
      ensures InAllowedRange(matrix.transY, height, ContentHeight())
      ensures zoomedIn == (saveScale > minZoom)
      ensures zoomedIn <==> old(saveScale) == minZoom
    {
      var origScale := saveScale;
      var targetScale := if saveScale == minZoom then maxZoom else minZoom;
      var deltaScale := targetScale / origScale;
      matrix := matrix.PostScale(deltaScale, x, y);
      saveScale := targetScale;
      assert matrix.scale == scale * saveScale by {
        assert deltaScale * origScale == targetScale;
        assert (scale * origScale) * deltaScale == scale * (deltaScale * origScale);
      }
      FixedProperties(matrix, width, height, ContentWidth(), ContentHeight());
      FixTranslation();
      zoomedIn := saveScale > minZoom;
      handled := true;
    }

    /**
     * The action handling of onTouchEvent (the gesture detectors it feeds
     * first are the callbacks above). Returns the value handed to the zoom
     * listener, if it is called.
     */
    method OnTouchEvent(action: TouchAction, x: real, y: real) returns (handled: bool, zoomNotice: Options.Option<bool>)
      requires Valid()
      modifies this`lastScaleFactor, this`startX, this`startY, this`previousTranslateX, this`previousTranslateY
      modifies this`mode, this`translateX, this`translateY, this`matrix
      ensures Valid() && handled
      ensures action == Down ==>
        && lastScaleFactor == 0.0 && startX == x && startY == y
        && previousTranslateX == old(translateX) && previousTranslateY == old(translateY) && mode == Drag
        && translateX == old(translateX) && translateY == old(translateY) && matrix == old(matrix)
      ensures action != Down ==>
        && lastScaleFactor == old(lastScaleFactor) && startX == old(startX) && startY == old(startY)
        && previousTranslateX == old(previousTranslateX) && previousTranslateY == old(previousTranslateY)
      ensures action == Move && old(mode) == Drag ==>
        translateX == previousTranslateX + x - startX && translateY == previousTranslateY + y - startY
      ensures !(action == Move && old(mode) == Drag) ==> translateX == old(translateX) && translateY == old(translateY)
      ensures action == Move && old(mode) == Drag && saveScale > minZoom ==>
        matrix == Fixed(old(matrix).PostTranslate(translateX - old(matrix).transX, translateY - old(matrix).transY),
                        width, height, ContentWidth(), ContentHeight())
      ensures !(action == Move && old(mode) == Drag && saveScale > minZoom) ==> matrix == old(matrix)
      ensures action == Up || action == PointerUp ==> mode == None
      ensures action == Move || action == OtherAction ==> mode == old(mode)
      ensures zoomNotice == if action == Up then Options.Some(saveScale > minZoom) else Options.None
    {
      zoomNotice := Options.None;
      match action {
      case Down =>
        lastScaleFactor := 0.0;
        startX := x;
        startY := y;
        previousTranslateX := translateX;
        previousTranslateY := translateY;
        mode := Drag;
      case Move =>
        if mode == Drag {
          DragTo(x, y);
        }
      case Up =>
        mode := None;
        zoomNotice := Options.Some(saveScale > minZoom);
      case PointerUp =>
        mode := None;
      case OtherAction =>
      }
      handled := true;
    }

    /**
     * The DRAG part of ACTION_MOVE: follow the finger from where the drag
     * started and, only while zoomed in, move the image there and fix it.
     */
    method DragTo(x: real, y: real)
      modifies this`translateX, this`translateY, this`matrix
      ensures translateX == previousTranslateX + x - startX && translateY == previousTranslateY + y - startY
      ensures saveScale > minZoom ==>
        matrix == Fixed(old(matrix).PostTranslate(translateX - old(matrix).transX, translateY - old(matrix).transY),
                        width, height, ContentWidth(), ContentHeight())
      ensures saveScale > minZoom ==>
        && InAllowedRange(matrix.transX, width, ContentWidth())
        && InAllowedRange(matrix.transY, height, ContentHeight())
      ensures saveScale <= minZoom ==> matrix == old(matrix)
      ensures matrix.scale == old(matrix).scale
    {
      translateX := previousTranslateX + x - startX;
      translateY := previousTranslateY + y - startY;
      var deltaX := translateX - matrix.transX;
      var deltaY := translateY - matrix.transY;
      if saveScale > minZoom {
        matrix := matrix.PostTranslate(deltaX, deltaY);
        FixTranslation();
      }
    }

    /**
     * onMeasure: take the measured size and, when a drawable with a nonzero
     * size is set, fit it to the view, centre it and reset the zoom.
     */
    method OnMeasure(measuredWidth: nat, measuredHeight: nat, drawable: Options.Option<(int, int)>)
      requires Valid()
      modifies this`width, this`height, this`originalBitmapWidth, this`originalBitmapHeight, this`scale
      modifies this`matrix, this`saveScale, this`redundantXSpace, this`redundantYSpace, this`right, this`bottom
      ensures Valid()
      ensures width == measuredWidth as real && height == measuredHeight as real
      ensures drawable.None? || drawable.value.0 == 0 || drawable.value.1 == 0 ==>
        && originalBitmapWidth == old(originalBitmapWidth) && originalBitmapHeight == old(originalBitmapHeight)
        && scale == old(scale) && matrix == old(matrix) && saveScale == old(saveScale)
        && redundantXSpace == old(redundantXSpace) && redundantYSpace == old(redundantYSpace)
        && right == old(right) && bottom == old(bottom)
      ensures drawable.Some? && drawable.value.0 != 0 && drawable.value.1 != 0 ==>
        var f := FitToView(width, height, drawable.value.0 as real, drawable.value.1 as real);
        && scale == f.scale && saveScale == 1.0
        && redundantXSpace == f.redundantXSpace && redundantYSpace == f.redundantYSpace
        && matrix == Matrix(f.scale, f.redundantXSpace, f.redundantYSpace)
        && originalBitmapWidth == f.contentWidth && originalBitmapHeight == f.contentHeight
        && right == -2.0 * redundantXSpace && bottom == -2.0 * redundantYSpace
        && Fitted()
    {
      width := measuredWidth as real;
      height := measuredHeight as real;
      if drawable.Some? && drawable.value.0 != 0 && drawable.value.1 != 0 {
        var f := FitToView(width, height, drawable.value.0 as real, drawable.value.1 as real);
        ApplyFit(f);
      }
    }

    /** The fitted branch of onMeasure: scale, centre and record the fit `f`. */
    method ApplyFit(f: Fit)
      requires f.contentWidth == width - 2.0 * f.redundantXSpace
      requires f.contentHeight == height - 2.0 * f.redundantYSpace
      modifies this`originalBitmapWidth, this`originalBitmapHeight, this`scale
      modifies this`matrix, this`saveScale, this`redundantXSpace, this`redundantYSpace, this`right, this`bottom
      ensures Valid() && Fitted()
      ensures scale == f.scale && saveScale == 1.0
      ensures redundantXSpace == f.redundantXSpace && redundantYSpace == f.redundantYSpace
      ensures matrix == Matrix(f.scale, f.redundantXSpace, f.redundantYSpace)
      ensures originalBitmapWidth == f.contentWidth && originalBitmapHeight == f.contentHeight
      ensures right == -2.0 * redundantXSpace && bottom == -2.0 * redundantYSpace
    {
      scale := f.scale;
      matrix := Matrix(f.scale, 0.0, 0.0);
      saveScale := 1.0;
      redundantYSpace := f.redundantYSpace;
      redundantXSpace := f.redundantXSpace;
      matrix := matrix.PostTranslate(redundantXSpace, redundantYSpace);
      originalBitmapWidth := f.contentWidth;
      originalBitmapHeight := f.contentHeight;
      right := -2.0 * redundantXSpace;
      bottom := -2.0 * redundantYSpace;
    }
  }
}
