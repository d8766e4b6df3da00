/** js/managers/HistoryManager.js: the list of submitted guesses and their
    feedback, which owns the scroller and the active-row manager. The
    renderer's drawing is outside this model; the offset it hands back on
    each refresh is modelled by HistoryScroller.ValidatedOffset. */
module HistoryManager {
  import opened Wrappers
  import opened GameUtils
  import HistoryScroller
  import ActiveRowManager

  class HistoryManager {
    var guessHistory: seq<seq<Element>>
    var feedbackHistory: seq<Feedback>
    const scroller: HistoryScroller.HistoryScroller
    const activeRows: ActiveRowManager.ActiveRowManager

    /** Both histories have one entry per submitted guess. */
    ghost predicate Valid()
      reads this
    {
      |guessHistory| == |feedbackHistory|
    }

    constructor()
      ensures guessHistory == [] && feedbackHistory == [] && Valid()
      ensures fresh(scroller) && fresh(activeRows)
      ensures scroller.historyScrollOffset == 0 && !activeRows.hasActiveRow
    {
      guessHistory := [];
      feedbackHistory := [];
      scroller := new HistoryScroller.HistoryScroller();
      activeRows := new ActiveRowManager.ActiveRowManager();
    }

    /** `addGuess`: records the guess and its feedback at the end, lets
        the scroller jump to the newest row (`autoScrolled`), and refreshes
        the display, which stores the renderer's validated offset in its
        place; `p` is the scroller's view of the camera. */
    method AddGuess(guess: seq<Element>, feedback: Feedback, p: HistoryScroller.ScrollParams)
      returns (ghost autoScrolled: int)
      requires Valid()
      modifies this, scroller
      ensures Valid()
      ensures guessHistory == old(guessHistory) + [guess]
      ensures feedbackHistory == old(feedbackHistory) + [feedback]
      ensures GetLastGuess() == Some(guess) && GetGuessCount() == old(GetGuessCount()) + 1
      ensures var range := HistoryScroller.TotalRows(|guessHistory|, activeRows.hasActiveRow) * p.rowHeight
                           - p.maxVisibleRows * p.rowHeight;
              autoScrolled == if range > 0 then range else old(scroller.historyScrollOffset)
      ensures scroller.historyScrollOffset == HistoryScroller.ValidatedOffset(|guessHistory|)
      ensures scroller.historyScrollOffset == 0
      ensures scroller.isDragging == old(scroller.isDragging) && scroller.startY == old(scroller.startY)
    {
      guessHistory := guessHistory + [guess];
      feedbackHistory := feedbackHistory + [feedback];
      scroller.AutoScrollToNewest(|guessHistory|, activeRows.hasActiveRow, p);
      autoScrolled := scroller.historyScrollOffset;
      RefreshDisplay();
    }

    /** `refreshDisplay` (and `displayGuessHistory`, which only calls it):
        the renderer redraws the history and the scroller stores the offset
        it hands back, so every refresh leaves the offset at 0. */
    method RefreshDisplay()
      modifies scroller
      ensures scroller.historyScrollOffset == HistoryScroller.ValidatedOffset(|guessHistory|)
      ensures scroller.historyScrollOffset == 0
      ensures scroller.isDragging == old(scroller.isDragging) && scroller.startY == old(scroller.startY)
    {
      scroller.SetScrollOffset(HistoryScroller.ValidatedOffset(|guessHistory|));
    }

    /** `getGuessCount`. */
    function GetGuessCount(): (r: nat)
      reads this
      ensures r == |GetGuessHistory()|
    {
      |guessHistory|
    }

    /** `getGuessHistory`: a copy; a value sequence in the model. It pairs
        up with the feedback history, one feedback per guess. */
    function GetGuessHistory(): (r: seq<seq<Element>>)
      reads this
      ensures Valid() ==> |r| == |feedbackHistory|
    {
      guessHistory
    }

    /** `getFeedbackHistory`: a copy; a value sequence in the model. There
        is one entry per guess counted. */
    function GetFeedbackHistory(): (r: seq<Feedback>)
      reads this
      ensures Valid() ==> |r| == GetGuessCount()
    {
      feedbackHistory
    }

    /** `getLastGuess`: null for an empty history, otherwise the guess added
        last. */
    function GetLastGuess(): (r: Option<seq<Element>>)
      reads this
      ensures r.None? <==> GetGuessCount() == 0
      ensures r.Some? ==> r.value == guessHistory[GetGuessCount() - 1]
    {
      if |guessHistory| > 0 then Some(guessHistory[|guessHistory| - 1]) else None
    }

    /** `reset`: both histories emptied, the scroller and the active row
        reset. */
    method Reset()
      modifies this, scroller, activeRows
      ensures guessHistory == [] && feedbackHistory == [] && Valid()
      ensures scroller.historyScrollOffset == 0 && !scroller.isDragging && scroller.startY == 0.0
      ensures !activeRows.hasActiveRow
    {
      guessHistory := [];
      feedbackHistory := [];
      scroller.Reset();
      activeRows.Reset();
    }
  }
}
