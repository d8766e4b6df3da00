/** js/managers/ActiveRowManager.js: the row the player is filling in. Its
    buffer `activeRowGuess` and the `hasActiveRow` flag are modelled; the
    slot sprites, the submit button, the picker and the row's vertical
    position are outside this model. */
module ActiveRowManager {
  import opened Wrappers
  import opened GameUtils

  /** One entry of `activeRowGuess`: `null` (not chosen yet), a hole (an
      index JavaScript skipped when the array grew past its end; it reads as
      `undefined`), or a chosen element. */
  datatype Slot = Empty | Hole | Filled(element: Element)

  /** What `calculateSlotPositioning` returns. */
  datatype SlotPositioning = SlotPositioning(startX: real, elementWidth: int, elementSpacing: int)

  /** The buffer `createActiveRow` builds: `codeLength` nulls, the first
      slots overwritten by the prefill when one is given. */
  ghost function PrefilledRow(codeLength: nat, prefill: Option<seq<Element>>): (r: seq<Slot>)
    ensures |r| == codeLength
    ensures forall i :: 0 <= i < codeLength ==>
              r[i] == if prefill.Some? && i < |prefill.value| then Filled(prefill.value[i]) else Empty
  {
    if prefill.None? then seq(codeLength, _ => Empty)
    else seq(codeLength, i requires 0 <= i < codeLength =>
                           if i < |prefill.value| then Filled(prefill.value[i]) else Empty)
  }

  /** The buffer after `activeRowGuess[slotIndex] = element`: a negative
      index names no array entry; an index past the end grows the array,
      leaving holes in between. */
  function Select(row: seq<Slot>, slotIndex: int, e: Element): (r: seq<Slot>)
    ensures slotIndex < 0 ==> r == row
    ensures 0 <= slotIndex ==> |r| == if slotIndex < |row| then |row| else slotIndex + 1
    ensures 0 <= slotIndex ==> r[slotIndex] == Filled(e)
    ensures 0 <= slotIndex ==> forall i :: 0 <= i < |r| && i != slotIndex ==>
              r[i] == if i < |row| then row[i] else Hole
  {
    if slotIndex < 0 then row
    else if slotIndex < |row| then row[slotIndex := Filled(e)]
    else row + seq(slotIndex - |row|, _ => Hole) + [Filled(e)]
  }

  /** Choosing an element never makes a complete row incomplete again, and a
      choice inside a row fills the slot it names. */
  lemma SelectNeverEmpties(row: seq<Slot>, slotIndex: int, e: Element)
    ensures Empty in Select(row, slotIndex, e) ==> Empty in row
    ensures 0 <= slotIndex < |row| ==> (Empty in Select(row, slotIndex, e) <==> exists i :: 0 <= i < |row| && i != slotIndex && row[i] == Empty)
  {
    var r := Select(row, slotIndex, e);
    if Empty in r {
      var k :| 0 <= k < |r| && r[k] == Empty;
      assert k != slotIndex || slotIndex < 0;
      if slotIndex >= 0 {
        assert k < |row| && row[k] == Empty;
      }
    }
    if 0 <= slotIndex < |row| {
      if exists i :: 0 <= i < |row| && i != slotIndex && row[i] == Empty {
        var k :| 0 <= k < |row| && k != slotIndex && row[k] == Empty;
        assert r[k] == Empty;
      }
    }
  }

  /** A row that was prefilled with a whole previous guess can be submitted
      at once: it has no null slot. */
  lemma FullPrefillIsComplete(codeLength: nat, prefill: seq<Element>)
    requires |prefill| >= codeLength
    ensures Empty !in PrefilledRow(codeLength, Some(prefill))
    ensures forall i :: 0 <= i < codeLength ==> PrefilledRow(codeLength, Some(prefill))[i] == Filled(prefill[i])
  {
  }

  /** A pick past the end of a complete row yields a row that passes the
      null test and still holds a hole: an `undefined` entry in the guess
      it submits. */
  lemma PastEndSelectLeavesHole()
    ensures var row := Select([Filled("Star"), Filled("Tree")], 3, "Santa");
            Empty !in row && row[2] == Hole
  {
    var row := Select([Filled("Star"), Filled("Tree")], 3, "Santa");
    assert row == [Filled("Star"), Filled("Tree"), Hole, Filled("Santa")];
  }

  /** `calculateSlotPositioning`: narrower slots and spacing on small
      screens; the row of slots plus the submit button is centred when it
      fits with a 15-pixel margin on each side, and starts at 15 otherwise. */
  function CalculateSlotPositioning(codeLength: int, width: int, isSmallScreen: bool): (p: SlotPositioning)
    ensures p.elementWidth == (if isSmallScreen then 35 else 40)
    ensures p.elementSpacing == (if isSmallScreen then 42 else 50)
    ensures p.startX >= 15.0
    ensures var rowWidth := codeLength * p.elementSpacing - (p.elementSpacing - p.elementWidth) + 60 + 20;
            if rowWidth + 30 <= width
            then p.startX + rowWidth as real + p.startX == width as real
            else p.startX == 15.0
  {
    var elementWidth := if isSmallScreen then 35 else 40;
    var elementSpacing := if isSmallScreen then 42 else 50;
    var submitButtonWidth := 60;
    var totalElementsWidth := codeLength * elementSpacing - (elementSpacing - elementWidth);
    var totalRowWidth := totalElementsWidth + submitButtonWidth + 20;
    var minMargin := 15;
    var startX := if totalRowWidth + minMargin * 2 <= width then (width - totalRowWidth) as real / 2.0
                  else minMargin as real;
    SlotPositioning(startX, elementWidth, elementSpacing)
  }

  class ActiveRowManager {
    var activeRowGuess: seq<Slot>
    var hasActiveRow: bool

    constructor()
      ensures activeRowGuess == [] && !hasActiveRow
    {
      activeRowGuess := [];
      hasActiveRow := false;
    }

    /** `createActiveRow`: any current row is removed first; the new buffer
        holds `codeLength` slots, the first ones copied from the prefill. */
    method CreateActiveRow(codeLength: nat, prefill: Option<seq<Element>>)
      modifies this
      ensures hasActiveRow
      ensures activeRowGuess == PrefilledRow(codeLength, prefill)
    {
      if hasActiveRow {
        RemoveActiveRow();
      }
      activeRowGuess := seq(codeLength, _ => Empty);
      if prefill.Some? {
        var p := prefill.value;
        var n := if |p| < codeLength then |p| else codeLength;
        var i := 0;
        while i < n
          invariant 0 <= i <= n
          invariant |activeRowGuess| == codeLength
          invariant forall k :: 0 <= k < codeLength ==> activeRowGuess[k] == if k < i then Filled(p[k]) else Empty
        {
          activeRowGuess := activeRowGuess[i := Filled(p[i])];
          i := i + 1;
        }
      }
      hasActiveRow := true;
    }

    /** `selectElement`: the buffer takes the element whatever the index.
        Without an active row there is no slot display list, and the lookup
        that follows the write throws a TypeError. */
    method SelectElement(slotIndex: int, e: Element) returns (err: Option<Error>)
      modifies this
      ensures activeRowGuess == Select(old(activeRowGuess), slotIndex, e)
      ensures err == if old(hasActiveRow) then None else Some(TypeError)
      ensures hasActiveRow == old(hasActiveRow)
    {
      if slotIndex >= 0 {
        if slotIndex < |activeRowGuess| {
          activeRowGuess := activeRowGuess[slotIndex := Filled(e)];
        } else {
          activeRowGuess := activeRowGuess + seq(slotIndex - |activeRowGuess|, _ => Hole) + [Filled(e)];
        }
      }
      err := if hasActiveRow then None else Some(TypeError);
    }

    /** `submitActiveRowGuess`: null without a row, null and the row kept
        while any slot is null; otherwise the row's contents, and the row is
        removed. */
    method SubmitActiveRowGuess() returns (r: Option<seq<Slot>>)
      modifies this
      ensures r.Some? <==> old(hasActiveRow) && Empty !in old(activeRowGuess)
      ensures r.Some? ==> r.value == old(activeRowGuess) && !hasActiveRow && activeRowGuess == []
      ensures r.None? ==> hasActiveRow == old(hasActiveRow) && activeRowGuess == old(activeRowGuess)
    {
      if !hasActiveRow {
        return None;
      }
      if Empty in activeRowGuess {
        return None;
      }
      var guess := activeRowGuess;
      RemoveActiveRow();
      r := Some(guess);
    }

    /** `getActiveRowGuess`: a copy of the buffer while a row is active. */
    function GetActiveRowGuess(): (r: Option<seq<Slot>>)
      reads this
      ensures r.Some? <==> hasActiveRow
      ensures r.Some? ==> r.value == activeRowGuess
    {
      if hasActiveRow then Some(activeRowGuess) else None
    }

    /** `removeActiveRow`: nothing without a row; otherwise the flag is
        cleared and the buffer emptied. */
    method RemoveActiveRow()
      modifies this
      ensures !hasActiveRow
      ensures activeRowGuess == if old(hasActiveRow) then [] else old(activeRowGuess)
    {
      if !hasActiveRow {
        return;
      }
      hasActiveRow := false;
      activeRowGuess := [];
    }

    /** `reset`: removes the row (the picker it also destroys is not
        modelled). */
    method Reset()
      modifies this
      ensures !hasActiveRow
      ensures activeRowGuess == if old(hasActiveRow) then [] else old(activeRowGuess)
    {
      RemoveActiveRow();
    }
  }
}
