/** js/managers/HistoryScroller.js: the vertical scroll offset of the guess
    history. The camera size, the `height * 0.22` header estimate, the
    history length and whether an active row exists are read by the
    scroller from the scene and its history manager; here they are
    parameters. Redrawing the history is outside this model; the offset
    the renderer hands back after each redraw is modelled, and the scroller
    stores it. */
module HistoryScroller {

  /** The result of `calculateScrollParameters`. */
  datatype ScrollParams = ScrollParams(historyStartY: real, bottomMargin: int, rowHeight: int, maxVisibleRows: int)

  /** Rows a history of `guessCount` guesses occupies, the active row
      included. */
  function TotalRows(guessCount: nat, hasActiveRow: bool): (r: nat)
    ensures r == guessCount + (if hasActiveRow then 1 else 0)
  {
    guessCount + if hasActiveRow then 1 else 0
  }

  /** `calculateScrollParameters` for a camera of the given size;
      `scaledHeight` is the camera height times 0.22. Small screens (narrower
      than 500) get a taller header and a shorter bottom margin. */
  function CalculateScrollParameters(width: int, height: int, scaledHeight: real): (p: ScrollParams)
    ensures p.rowHeight == 60
    ensures p.historyStartY >= (if width < 500 then 140 else 120) as real && p.historyStartY >= scaledHeight
    ensures p.bottomMargin == if width < 500 then 60 else 80
    ensures p.maxVisibleRows * 60 <= height - p.historyStartY.Floor - p.bottomMargin
              < (p.maxVisibleRows + 1) * 60 + 1
  {
    var baseHeaderHeight := if width < 500 then 140 else 120;
    var historyStartY := if (baseHeaderHeight as real) >= scaledHeight then baseHeaderHeight as real else scaledHeight;
    var bottomMargin := if width < 500 then 60 else 80;
    var rowHeight := 60;
    var maxVisibleRows := ((height as real - historyStartY - bottomMargin as real) / (rowHeight as real)).Floor;
    ScrollParams(historyStartY, bottomMargin, rowHeight, maxVisibleRows)
  }

  /** `calculateMaxScrollOffset`: how far the rows overflow the visible
      ones, in pixels, and never negative. */
  function CalculateMaxScrollOffset(p: ScrollParams, guessCount: nat, hasActiveRow: bool): (r: int)
    ensures r >= 0
    ensures r >= TotalRows(guessCount, hasActiveRow) * p.rowHeight - p.maxVisibleRows * p.rowHeight
    ensures r == 0 || r == TotalRows(guessCount, hasActiveRow) * p.rowHeight - p.maxVisibleRows * p.rowHeight
  {
    var range := TotalRows(guessCount, hasActiveRow) * p.rowHeight - p.maxVisibleRows * p.rowHeight;
    if range < 0 then 0 else range
  }

  /** `Math.max(0, Math.min(hi, x))`. */
  function Clamp(x: int, hi: int): (r: int)
    ensures 0 <= hi ==> 0 <= r <= hi
    ensures 0 <= x <= hi ==> r == x
  {
    var m := if hi < x then hi else x;
    if m < 0 then 0 else m
  }

  /** The offset `HistoryRenderer.displayGuessHistory` hands back for the
      history manager's `refreshDisplay` to store: 0 when there is nothing to
      draw, and 0 after drawing every row, since the scene scrolls the drawn
      history itself. */
  function ValidatedOffset(guessCount: nat): (r: nat)
    ensures r == 0
  {
    if guessCount == 0 then 0 else 0
  }

  class HistoryScroller {
    /** Every operation keeps the offset at 0 or above. */
    var historyScrollOffset: nat
    var isDragging: bool
    var startY: real

    constructor()
      ensures historyScrollOffset == 0 && !isDragging && startY == 0.0
    {
      historyScrollOffset := 0;
      isDragging := false;
      startY := 0.0;
    }

    /** `scrollHistory`: nothing to scroll without guesses or an active row;
        otherwise the offset moves by `delta`, kept between 0 and the
        maximum offset (`clamped`), and the history's refresh that follows
        then stores the renderer's validated offset in its place. */
    method ScrollHistory(delta: int, guessCount: nat, hasActiveRow: bool, p: ScrollParams)
      returns (ghost clamped: int)
      modifies this
      ensures guessCount == 0 && !hasActiveRow ==>
                historyScrollOffset == old(historyScrollOffset) && clamped == old(historyScrollOffset)
      ensures !(guessCount == 0 && !hasActiveRow) ==>
                clamped == Clamp(old(historyScrollOffset) + delta, CalculateMaxScrollOffset(p, guessCount, hasActiveRow))
                && 0 <= clamped <= CalculateMaxScrollOffset(p, guessCount, hasActiveRow)
      ensures !(guessCount == 0 && !hasActiveRow) ==>
                historyScrollOffset == ValidatedOffset(guessCount) && historyScrollOffset == 0
      ensures isDragging == old(isDragging) && startY == old(startY)
    {
      clamped := historyScrollOffset;
      if guessCount == 0 && !hasActiveRow {
        return;
      }
      var maxScrollOffset := CalculateMaxScrollOffset(p, guessCount, hasActiveRow);
      var target := historyScrollOffset + delta;
      var capped := if maxScrollOffset < target then maxScrollOffset else target;
      historyScrollOffset := if capped < 0 then 0 else capped;
      clamped := historyScrollOffset;
      // refreshDisplay: the renderer's validated offset replaces the clamped one
      SetScrollOffset(ValidatedOffset(guessCount));
    }

    /** `autoScrollToNewest`: jumps to the bottom when the rows overflow,
        and otherwise leaves the offset alone. */
    method AutoScrollToNewest(guessCount: nat, hasActiveRow: bool, p: ScrollParams)
      modifies this
      ensures var range := TotalRows(guessCount, hasActiveRow) * p.rowHeight - p.maxVisibleRows * p.rowHeight;
              historyScrollOffset == if range > 0 then range else old(historyScrollOffset)
      ensures TotalRows(guessCount, hasActiveRow) * p.rowHeight - p.maxVisibleRows * p.rowHeight > 0 ==>
                historyScrollOffset == CalculateMaxScrollOffset(p, guessCount, hasActiveRow)
      ensures isDragging == old(isDragging) && startY == old(startY)
    {
      var totalRows := guessCount + if hasActiveRow then 1 else 0;
      var maxScrollRange := totalRows * p.rowHeight - p.maxVisibleRows * p.rowHeight;
      if maxScrollRange > 0 {
        // the source's Math.max(0, ...) never changes a positive range
        historyScrollOffset := maxScrollRange;
      }
    }

    /** `pointerdown` on the history area starts a drag. */
    method PointerDown(y: real)
      modifies this
      ensures isDragging && startY == y && historyScrollOffset == old(historyScrollOffset)
    {
      startY := y;
      isDragging := true;
    }

    /** `pointermove`: while dragging, a move of more than 10 pixels scrolls
        by minus one twentieth of it (rounded down) and restarts the drag
        from here; smaller moves and moves without a drag do nothing. The
        scroll clamps to `clamped` and its refresh then stores the renderer's
        validated offset. */
    method PointerMove(y: real, guessCount: nat, hasActiveRow: bool, p: ScrollParams)
      returns (ghost clamped: int)
      modifies this
      ensures var d := y - old(startY);
              if old(isDragging) && (d > 10.0 || d < -10.0)
              then startY == y
                   && (guessCount == 0 && !hasActiveRow ==> historyScrollOffset == old(historyScrollOffset))
                   && (!(guessCount == 0 && !hasActiveRow) ==>
                         clamped == Clamp(old(historyScrollOffset) - (d * 0.05).Floor,
                                          CalculateMaxScrollOffset(p, guessCount, hasActiveRow))
                         && historyScrollOffset == ValidatedOffset(guessCount))
              else startY == old(startY) && historyScrollOffset == old(historyScrollOffset)
      ensures isDragging == old(isDragging)
    {
      clamped := historyScrollOffset;
      if !isDragging {
        return;
      }
      var deltaY := y - startY;
      if deltaY > 10.0 || deltaY < -10.0 {
        var scrollDelta := (deltaY * 0.05).Floor;
        clamped := ScrollHistory(-scrollDelta, guessCount, hasActiveRow, p);
        startY := y;
      }
    }

    /** `pointerup` and `pointerout` end the drag. */
    method PointerUp()
      modifies this
      ensures !isDragging && startY == old(startY) && historyScrollOffset == old(historyScrollOffset)
    {
      isDragging := false;
    }

    /** `getScrollOffset`: never negative, whatever scrolling, dragging and
        setting came before. */
    function GetScrollOffset(): (r: int)
      reads this
      ensures r >= 0
    {
      historyScrollOffset
    }

    /** `setScrollOffset`: negative offsets become 0. */
    method SetScrollOffset(offset: int)
      modifies this
      ensures historyScrollOffset == if offset < 0 then 0 else offset
      ensures GetScrollOffset() >= 0
      ensures isDragging == old(isDragging) && startY == old(startY)
    {
      historyScrollOffset := if offset < 0 then 0 else offset;
    }

    /** `reset`. */
    method Reset()
      modifies this
      ensures historyScrollOffset == 0 && !isDragging && startY == 0.0
    {
      historyScrollOffset := 0;
      isDragging := false;
      startY := 0.0;
    }
  }

  /** Scrolling is idempotent at the edges: scrolling by a delta that stays
      within range lands exactly there, and scrolling past either end stops
      at that end. */
  lemma ClampEdges(x: int, hi: int)
    requires 0 <= hi
    ensures x <= 0 ==> Clamp(x, hi) == 0
    ensures x >= hi ==> Clamp(x, hi) == hi
    ensures Clamp(Clamp(x, hi), hi) == Clamp(x, hi)
  {
  }

  /** The maximum offset grows with the history: one more guess never
      lowers it, by exactly one row height once the rows overflow. */
  lemma MaxOffsetMonotone(p: ScrollParams, n: nat, active: bool)
    requires p.rowHeight == 60
    ensures CalculateMaxScrollOffset(p, n, active) <= CalculateMaxScrollOffset(p, n + 1, active)
    ensures CalculateMaxScrollOffset(p, n, active) > 0 ==>
              CalculateMaxScrollOffset(p, n + 1, active) == CalculateMaxScrollOffset(p, n, active) + 60
  {
  }
}
