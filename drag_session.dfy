/**
 * The drag-and-drop tracker of the kanban component: which card is being
 * dragged and from which column, which column the pointer is over, and the
 * enter/leave nesting counter that decides when that hover marker goes away.
 */
module DragSession {
  import opened Wrappers
  import opened Kanban
  import opened BoardStore

  /** `draggedCard`: the card object taken at drag start and the column it came from. */
  datatype DragInfo = DragInfo(card: Card, sourceColumnId: string)

  /** `draggedCard`, `draggedOverColumn` and `dragCounter.current`. */
  datatype DragState = DragState(dragged: Option<DragInfo>, hover: Option<string>, counter: int)

  /** No drag, no hover marker, counter at zero: the state after drag end and after a drop. */
  const Idle := DragState(None, None, 0)

  function Start(st: DragState, card: Card, columnId: string): DragState {
    st.(dragged := Some(DragInfo(card, columnId)))
  }

  function Enter(st: DragState, columnId: string): DragState {
    st.(counter := st.counter + 1, hover := Some(columnId))
  }

  /** The counter goes down; only when it reaches exactly zero is the marker cleared. */
  function Leave(st: DragState): DragState {
    var n := st.counter - 1;
    st.(counter := n, hover := if n == 0 then None else st.hover)
  }

  /** Enter and leave events as a column's handlers receive them. */
  datatype HoverEvent = EnterColumn(columnId: string) | LeaveColumn

  function Step(st: DragState, e: HoverEvent): DragState {
    match e
    case EnterColumn(c) => Enter(st, c)
    case LeaveColumn => Leave(st)
  }

  /** The state after a run of hover events; they never touch the dragged card. */
  function Run(st: DragState, events: seq<HoverEvent>): (r: DragState)
    ensures r.dragged == st.dragged
    decreases events
  {
    if events == [] then st else Run(Step(st, events[0]), events[1..])
  }

  /** `n` enter events for one column: the column itself and its nested children. */
  function Enters(columnId: string, n: nat): seq<HoverEvent> {
    if n == 0 then [] else [EnterColumn(columnId)] + Enters(columnId, n - 1)
  }

  function Leaves(k: nat): seq<HoverEvent> {
    if k == 0 then [] else [LeaveColumn] + Leaves(k - 1)
  }

  lemma {:induction false} RunAppend(st: DragState, a: seq<HoverEvent>, b: seq<HoverEvent>)
    ensures Run(st, a + b) == Run(Run(st, a), b)
    decreases a
  {
    if a == [] {
      assert a + b == b;
    } else {
      assert (a + b)[0] == a[0] && (a + b)[1..] == a[1..] + b;
      RunAppend(Step(st, a[0]), a[1..], b);
    }
  }

  lemma {:induction false} RunEnters(st: DragState, columnId: string, n: nat)
    requires n >= 1
    ensures Run(st, Enters(columnId, n)) == st.(counter := st.counter + n, hover := Some(columnId))
    decreases n
  {
    if n > 1 {
      RunEnters(Enter(st, columnId), columnId, n - 1);
    }
  }

  lemma {:induction false} RunLeaves(st: DragState, k: nat)
    requires k <= st.counter
    ensures Run(st, Leaves(k)) ==
      st.(counter := st.counter - k, hover := if k == st.counter && k > 0 then None else st.hover)
    decreases k
  {
    if k > 0 {
      RunLeaves(Leave(st), k - 1);
    }
  }

  /**
   * Entering a column `n` times (the column and nested children) and then
   * leaving `k <= n` times keeps the marker on that column while `k < n`
   * and clears it exactly when the last leave brings the counter to zero.
   */
  lemma NestedHover(st: DragState, columnId: string, n: nat, k: nat)
    requires st.counter == 0 && 1 <= n && k <= n
    ensures Run(st, Enters(columnId, n) + Leaves(k)).hover == (if k < n then Some(columnId) else None)
    ensures Run(st, Enters(columnId, n) + Leaves(k)).counter == n - k
  {
    RunAppend(st, Enters(columnId, n), Leaves(k));
    RunEnters(st, columnId, n);
    RunLeaves(Run(st, Enters(columnId, n)), k);
  }

  /** The tracker's fields, updated in place by the drag handlers. */
  class DragTracker {
    var dragged: Option<DragInfo>
    var hover: Option<string>
    var counter: int

    function State(): DragState
      reads this
    {
      DragState(dragged, hover, counter)
    }

    constructor ()
      ensures State() == Idle
    {
      dragged, hover, counter := None, None, 0;
    }

    /** `handleDragStart(e, card, columnId)`. */
    method DragStart(card: Card, columnId: string)
      modifies this
      ensures State() == Start(old(State()), card, columnId)
    {
      dragged := Some(DragInfo(card, columnId));
    }

    /** `handleDragEnd`: everything back to idle. */
    method DragEnd()
      modifies this
      ensures State() == Idle
    {
      dragged := None;
      hover := None;
      counter := 0;
    }

    /** `handleDragEnter(e, columnId)`. */
    method DragEnter(columnId: string)
      modifies this
      ensures State() == Enter(old(State()), columnId)
    {
      counter := counter + 1;
      hover := Some(columnId);
    }

    /** `handleDragLeave`. */
    method DragLeave()
      modifies this
      ensures State() == Leave(old(State()))
    {
      counter := counter - 1;
      if counter == 0 {
        hover := None;
      }
    }

    /**
     * `handleDrop(e, targetColumnId)` on snapshot `s`, returning the snapshot
     * given to `updateBoardColumns`: the counter and marker are reset first;
     * with no drag nothing else happens; a drop on the source column only
     * ends the drag; otherwise the card taken at drag start is moved, whether
     * or not the source still holds it. The source then reads the target
     * column's title, so a moved-to column must exist on the current board.
     */
    method Drop(s: Snapshot, targetColumnId: string) returns (r: Snapshot)
      requires dragged.Some? && dragged.value.sourceColumnId != targetColumnId ==>
        exists j :: 0 <= j < |CurrentColumns(s)| && CurrentColumns(s)[j].id == targetColumnId
      modifies this
      ensures State() == Idle
      ensures old(dragged).None? ==> r == s
      ensures old(dragged).Some? && old(dragged).value.sourceColumnId == targetColumnId ==> r == s
      ensures old(dragged).Some? && old(dragged).value.sourceColumnId != targetColumnId ==>
        r == MoveCard(s, old(dragged).value.card, old(dragged).value.sourceColumnId, targetColumnId)
    {
      counter := 0;
      hover := None;
      r := s;
      if dragged.None? {
        return;
      }
      var info := dragged.value;
      if info.sourceColumnId == targetColumnId {
        dragged := None;
        return;
      }
      r := MoveCard(s, info.card, info.sourceColumnId, targetColumnId);
      dragged := None;
    }
  }

  /**
   * The nested-target gesture on a fresh tracker: enter a column, enter one
   * of its children, leave, leave. The marker survives the first leave and
   * is gone after the second.
   */
  method NestedTargetGesture(card: Card, source: string, column: string)
    returns (afterFirstLeave: Option<string>, afterSecondLeave: Option<string>)
    ensures afterFirstLeave == Some(column) && afterSecondLeave == None
  {
    var t := new DragTracker();
    t.DragStart(card, source);
    t.DragEnter(column);
    t.DragEnter(column);
    t.DragLeave();
    afterFirstLeave := t.hover;
    t.DragLeave();
    afterSecondLeave := t.hover;
  }
}
