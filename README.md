# Kanban board state model (nodeboardflow)

A Dafny model of the state logic of the kanban component in
`src/components/MainFeature.jsx`. The component holds a list of boards. Each
board holds ordered columns, and each column holds ordered cards. The model
covers three parts:

- **Board store** (`kanban.dfy`, `board_store.dfy`, `card_detail.dfy`). Every
  handler builds a whole new `boards` list from the old one with `map`,
  `filter` and spread. The model makes each handler a pure function from a
  `Snapshot(boards, currentBoardId)` to the next snapshot. The card detail
  panel keeps its own copy of the opened card (`selectedCard`). It is
  modelled as `Detail(snapshot, selected)`.
- **Drag tracker** (`drag_session.dfy`). `draggedCard`, `draggedOverColumn`
  and the `dragCounter` ref are the fields of a class. The handlers are its
  methods. Each method's postcondition ties the new field values to a pure
  transition of the old ones, and the nesting behaviour is proved about those
  transitions.
- **Calendar grid** (`calendar.dfy`). The three `push` loops that fill
  `calendarDays` become one method with three loops. Its inputs are the
  weekday of the 1st, the month length and the previous month's length.

`wrappers.dfy` holds `Option`. `text.dfy` models `trim` and `toLowerCase`.

Inputs that the code takes from the environment are parameters:
- ids made from `Date.now()` are `newId`;
- a comment's `new Date()` is `timestamp`;
- the answer to `window.confirm` is `confirmed`;
- `getDay()` and `getDate()` are the calendar's three integers.

Behaviour the code has that a reader might not expect:
- A dragged card is moved without checking that the source column still
  holds it. The drop filters the source and appends the card object captured
  at drag start. So a stale drag adds a copy (`StaleMoveDuplicates`), and
  card-count preservation is proved only when the source holds the card
  exactly once (`MovePreservesCards`). A drop never reports "not found".
- `switchBoard` does not check the id. It crashes reading the name of a
  missing board, so the model requires the id to exist. `deleteBoard`
  crashes the same way on a missing id, and `handleDrop` on a missing target
  column. The model requires those inputs to exist too.
- Deleting the last board is refused as a plain no-op. No error value is
  produced.
- `createBoard` compares lower-cased names without trimming them. Only the
  create-board form trims, and it trims only the new name.
- `addCard` tests the trimmed title but stores the title as typed.
- `updateCard` merges the fields into the panel's copy even when the store
  has no card with that id, so the two can disagree
  (`UnknownIdChangesOnlyPanel`).
- The comment helpers build the new list from the panel's copy, not from the
  store's card.

## Model

| member | source | states |
|---|---|---|
| Kanban.FindBoard | src/components/MainFeature.jsx:89 | the index returned holds the id and no earlier board does; no index only when no board has the id |
| Kanban.CurrentColumns | src/components/MainFeature.jsx:89-90 | the columns of the first board with the current id, or none when no board has it; with distinct board ids, those of the board with the id |
| Kanban.RemoveId | src/components/MainFeature.jsx:149 | the filtered list keeps exactly the cards whose id differs; its length drops by the number of matching cards; every other id keeps its count and this id's count becomes 0 |
| BoardStore.InitialSnapshotValid | src/components/MainFeature.jsx:48-86 | the seeded state is valid: one board, and the current id resolves to it; its four column ids are distinct; it holds five cards with distinct ids |
| BoardStore.UpdateBoardColumns | src/components/MainFeature.jsx:93-99 | same length; every board keeps its id, name and description; boards with another id are untouched; boards with the current id get the new columns |
| BoardStore.WithCurrentColumns | src/components/MainFeature.jsx:93-99 | the board list is the UpdateBoardColumns map; every board keeps its id, name and description; only the current board changes and the current id stays; the current id resolves as before, to the new columns; with no current board nothing changes; validity is kept both ways |
| BoardStore.WithCurrentColumnsUnchanged | src/components/MainFeature.jsx:93-99 | writing back a valid snapshot's own current columns returns the same snapshot |
| BoardStore.AppendToColumn | src/components/MainFeature.jsx:179-187 | column ids, titles and order kept; a column with the id gains the card at its end; every other column is identical |
| BoardStore.AddCard | src/components/MainFeature.jsx:168-189 | a blank title changes nothing; otherwise the current columns gain the new card (id `newId`, title as typed, "Unassigned", medium priority); the board list is the UpdateBoardColumns map of those columns, so every board keeps its name and description; other boards and the current id are unchanged; validity is kept |
| BoardStore.AddCardCounts | src/components/MainFeature.jsx:168-189 | adding to a column that appears once adds exactly one card to the board and one holder of `newId`; with a fresh id, card-id uniqueness is kept |
| BoardStore.Merge | src/components/MainFeature.jsx:199 | the id is kept; each field the patch names takes the patch's value, every other field keeps the card's; an empty patch changes nothing |
| BoardStore.PatchCards | src/components/MainFeature.jsx:196-201 | column ids, titles and card counts are kept, and so is every card id; cards with the id are merged with the patch; all other cards are identical |
| BoardStore.UpdateCard | src/components/MainFeature.jsx:195-203 | only the current board's cards with the id are rewritten, as in PatchCards; the board list is the UpdateBoardColumns map of those columns, so every board keeps its name and description; other boards and the current id are unchanged; validity is kept |
| BoardStore.UpdateCardKeepsCounts | src/components/MainFeature.jsx:195-203 | an update keeps the board's card total and the count of every id, so card-id uniqueness is kept |
| BoardStore.UpdateCardUnknownId | src/components/MainFeature.jsx:195-203 | on a valid snapshot, updating an id no card has returns the snapshot unchanged |
| BoardStore.UpdateCardCompose | src/components/MainFeature.jsx:195-203 | two updates of one id are one update in which the later patch's fields win |
| BoardStore.UpdateCardIdempotent | src/components/MainFeature.jsx:195-203 | applying the same update twice is the same as applying it once |
| BoardStore.RemoveFromColumn | src/components/MainFeature.jsx:209-217 | column ids, titles and order kept; a column with the id is filtered by card id; every other column is identical |
| BoardStore.DeleteCard | src/components/MainFeature.jsx:208-219 | only the named column of the current board loses the cards with the id; the board list is the UpdateBoardColumns map of those columns, so every board keeps its name and description; other boards and the current id are unchanged; validity is kept |
| BoardStore.DeleteCardCounts | src/components/MainFeature.jsx:208-219 | the board loses exactly the named column's cards with the id; every other id keeps its count; uniqueness is kept; a unique card deleted from its column is gone from the board |
| BoardStore.MoveBetween | src/components/MainFeature.jsx:145-159 | column ids and titles kept; the source column loses every card with the dragged id; a distinct target column gains the drag-start card at its end; all other columns are identical |
| BoardStore.MoveCard | src/components/MainFeature.jsx:145-161 | the current board's columns become the MoveBetween result; the board list is the UpdateBoardColumns map of those columns, so every board keeps its name and description; other boards and the current id are unchanged; validity is kept |
| BoardStore.MoveBetweenAt | src/components/MainFeature.jsx:145-159 | with distinct column ids, the move rewrites exactly the source and the target column |
| BoardStore.MovePreservesCards | src/components/MainFeature.jsx:145-159 | when the source holds the card once, the card total and every id's count are kept, and so is uniqueness; afterwards the source has none of it and the target has one more |
| BoardStore.StaleMoveDuplicates | src/components/MainFeature.jsx:136-159 | when the source no longer holds the card, the drop still appends it, so the total and that id's count both grow by one |
| Text.LowerChar | src/components/MainFeature.jsx:227 | the result is never a capital; a character that is not a capital is kept; a capital moves 32 code points up to its small letter |
| Text.ToLower | src/components/MainFeature.jsx:227 | same length; no capital is left; every character that is not a capital is kept in place, and every capital becomes its small letter, 32 code points up |
| BoardStore.HasNameIgnoringCase | src/components/MainFeature.jsx:226-228 | true exactly when some board's name equals the given name after both are lower-cased |
| BoardStore.CreateBoard | src/components/MainFeature.jsx:224-251 | refused iff a name matches ignoring case, and a refusal changes nothing; otherwise exactly the new board with the four default columns is appended and made current; the new board resolves as current when its id is fresh; validity is kept for a fresh id |
| BoardStore.SubmitCreateBoard | src/components/MainFeature.jsx:297-308 | a blank name is refused without calling createBoard; otherwise createBoard gets the trimmed name and description, and a created board's name is never blank |
| BoardStore.DuplicateNameRejected | src/components/MainFeature.jsx:224-233 | after creating a name, creating one equal to it ignoring case is refused and changes nothing; the board count grows by at most one |
| BoardStore.AlphaIsAlpha | src/components/MainFeature.jsx:226-228 | "Alpha" and "alpha" count as the same board name |
| BoardStore.SwitchBoard | src/components/MainFeature.jsx:254-258 | for an existing id, boards are unchanged, that id becomes current, the current columns are that board's, and validity is kept |
| BoardStore.RemoveBoard | src/components/MainFeature.jsx:268 | the filtered list keeps exactly the boards with another id; its length drops by the number of boards with the id |
| BoardStore.RemoveBoardAt | src/components/MainFeature.jsx:268 | with distinct board ids, the filter cuts out exactly the board at the id's index and keeps the rest in order |
| BoardStore.FirstOtherBoard | src/components/MainFeature.jsx:271 | the first index whose board has a different id |
| BoardStore.DeleteBoard | src/components/MainFeature.jsx:260-277 | with at most one board, or unconfirmed, nothing changes; otherwise the boards with the id are removed; the current id is kept, or becomes the first other board's id if the deleted board was current |
| BoardStore.DeleteBoardValid | src/components/MainFeature.jsx:260-273 | from a valid snapshot with two or more boards, deleting an existing id is allowed; it removes exactly one board and leaves a valid snapshot, so the current id still names a board |
| Text.Trim | src/components/MainFeature.jsx:299-307 | the result is a contiguous slice of the input with only whitespace before and after it; it is empty iff the input is all whitespace, and otherwise neither starts nor ends with whitespace |
| Text.TrimmedNotBlank | src/components/MainFeature.jsx:299-307 | a name that passes the blank check stays non-blank after trimming |
| CardDetail.OpenCardDetail | src/components/MainFeature.jsx:394-401 | the panel copy is the card, except that missing comments read as an empty list |
| CardDetail.OpenCardDetailInSync | src/components/MainFeature.jsx:394-401 | opening a card that has a comment list, on a board with unique card ids, leaves the panel agreeing with the store |
| CardDetail.UpdateFromPanel | src/components/MainFeature.jsx:195-204 | the store gets updateCard; the panel copy becomes the copy merged with the patch, keeping its id; validity is kept |
| CardDetail.UpdateFromPanelInSync | src/components/MainFeature.jsx:195-204 | updating the open card's own id keeps the panel and the store in agreement |
| CardDetail.UnknownIdChangesOnlyPanel | src/components/MainFeature.jsx:195-204 | an update of an id the store lacks leaves the store as it was but still changes the panel copy |
| CardDetail.SaveTitle | src/components/MainFeature.jsx:417-422 | a blank title changes nothing; otherwise the trimmed title is saved to the store and the copy, and it is non-blank |
| CardDetail.SaveDescription | src/components/MainFeature.jsx:424-427 | the trimmed description is saved, blank or not |
| CardDetail.SaveAssignee | src/components/MainFeature.jsx:429-431 | the saved assignee is the trimmed name when it is non-blank and "Unassigned" otherwise, so it is never blank; copy and store change only by that assignee patch, through UpdateFromPanel |
| CardDetail.SavePriority | src/components/MainFeature.jsx:433-435 | the chosen priority is saved to the store and the copy |
| CardDetail.SetDueDate | src/components/MainFeature.jsx:616-647 | a chosen date, or null to clear it, is saved to the store and the copy |
| CardDetail.AddComment | src/components/MainFeature.jsx:437-451 | blank text changes nothing; otherwise the copy's comments (or none) gain one comment at the end. It has the trimmed text, the author "Current User", `newId` and `timestamp`. The same list is written to the store's cards with the id |
| CardDetail.RemoveComment | src/components/MainFeature.jsx:454 | keeps exactly the comments with another id |
| CardDetail.DeleteComment | src/components/MainFeature.jsx:453-457 | the copy's comments lose the given id, and the same list is written to the store |
| CardDetail.AddThenDeleteComment | src/components/MainFeature.jsx:437-457 | adding a comment with a fresh id, then deleting it, restores the panel copy; if the panel agreed with a valid store, the whole state is restored |
| DragSession.Run | src/components/MainFeature.jsx:118-129 | enter and leave events never change the dragged card |
| DragSession.NestedHover | src/components/MainFeature.jsx:118-129 | from counter 0, n enters of a column and k <= n leaves leave the counter at n-k; the marker stays on the column while k < n and is cleared exactly at k = n |
| DragSession.DragTracker.constructor | src/components/MainFeature.jsx:40-41 | the tracker starts idle: no drag, no marker, counter 0 (the ref's initial value, line 87) |
| DragSession.DragTracker.DragStart | src/components/MainFeature.jsx:100-104 | records the card and its source column; the marker and counter are untouched |
| DragSession.DragTracker.DragEnd | src/components/MainFeature.jsx:106-111 | back to idle: no drag, no marker, counter 0 |
| DragSession.DragTracker.DragEnter | src/components/MainFeature.jsx:118-122 | the counter goes up by one and the marker moves to the column |
| DragSession.DragTracker.DragLeave | src/components/MainFeature.jsx:124-129 | the counter goes down by one; the marker is cleared only when the counter becomes 0 |
| DragSession.DragTracker.Drop | src/components/MainFeature.jsx:131-166 | always ends idle. With no drag, or a drop on the source column, the board is unchanged. Otherwise the board gets MoveCard with the card and source column recorded at drag start |
| DragSession.NestedTargetGesture | src/components/MainFeature.jsx:118-129 | enter the column, enter its child, leave: the marker is still the column; the second leave clears it |
| Calendar.CalendarDays | src/components/MainFeature.jsx:733-762 | first the previous month's last `firstDayWeekday` days in increasing order, then days 1..daysInMonth of this month, then days 1.. of the next month up to 42 cells. That makes exactly 42 cells whenever the first two parts fit, which every real month does |

## Left out

- JSX rendering, Tailwind classes, framer-motion animation and `AnimatePresence`. They are presentation only.
- The `toast` calls. They only show notifications.
- DOM event details in the drag handlers: `dataTransfer`, `classList` and `preventDefault`. `handleDragOver` (113-116) does nothing else, so it has no counterpart.
- `window.confirm` in `deleteBoard`. Its answer is the `confirmed` parameter.
- The `createNewBoard` document event (280-289) and its dispatch in `src/pages/Home.jsx`. This is cross-component plumbing that only opens the create-board form.
- UI flags and form fields: `showAddCard`, `showCardDetail`, `showCreateBoard`, `isCreating`, the clearing of the add-card and create-board fields, and `closeCardDetail`. None of them affect the board data.
- The `columns` state at 8-38. It is never read.
- Clock and date logic: `isToday`, `isPastDate`, the gating of past days, `date-fns` `format`, and `navigateMonth`. Also left out is deriving the weekday and month lengths from `Date`. A calendar cell's `Date` is kept as its day number plus a month offset of -1, 0 or 1.
- `getPriorityColor`. It only maps a priority to CSS classes.
- `src/pages/Home.jsx` (dark-mode toggle and navigation markup) and `src/pages/NotFound.jsx`. Neither contains board logic.
- React state batching and stale closures. Each handler is one atomic transition. One consequence: the priority select calls `savePriority` right after `setTempPriority`, so the code as written saves the previous selection. `CardDetail.SavePriority` takes the chosen value instead.
- Lower-casing: `Text.LowerChar` maps only the ASCII and Latin-1 capitals. Other Unicode case mappings of `toLowerCase` are not modelled.
- A field that is missing and a field that is `null` are both `None`, for due dates and comments. Priorities are the three values the select offers, not free strings.
- ids and timestamps are parameters. No freshness is assumed except on the lemmas that say they need it.
- Kanban.RemoveId: states which cards remain and how many, but not that they keep their order. The definition is an order-keeping filter.
- BoardStore.RemoveBoard: states which boards remain and how many, but not their order in general. Order is stated by BoardStore.RemoveBoardAt when board ids are distinct, as they are in a valid snapshot.
- CardDetail.RemoveComment: states which comments remain, but not their order or count.
